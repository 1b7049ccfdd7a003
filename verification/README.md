# Verified models of the stateful kernels of Generative Web Guard

Generative Web Guard turns untrusted markup into a bounded tree, has it accepted by a
checker in a Worker, and displays it in a sandboxed frame over a private port. These
modules model the parts of that path that keep state, and prove what they promise over
every input and every run. `dafny verify dfyconfig.toml` checks the whole project.

| file | what it models |
|---|---|
| `Options.dfy` | an optional value, used throughout |
| `Utf8.dfy` | the byte counter for JavaScript strings, against the encoding of RFC 3629 |
| `ParsedTree.dfy`, `ConvertSpec.dfy`, `ConvertMeaning.dfy`, `Convert.dfy` | bounded tree conversion: an explicit stack filling shared child arrays, against the recursive conversion and against measures taken on the parsed nodes' own fields |
| `Dom.dfy`, `Renderer.dfy` | the incremental renderer on a mutable DOM, against building from scratch |
| `FrameChannel.dfy`, `FrameAnswers.dfy`, `FrameRuns.dfy`, `FifoRuns.dfy` | the two ends of the private port, message by message and over an adversarial and a first-in first-out channel |
| `Frame.dfy` | the frame: the port's receiving end driving the renderer |
| `Acceptance.dfy`, `AcceptanceRuns.dfy`, `AcceptanceClaims.dfy` | acceptance records and the one-time registry |
| `PolicySession.dfy`, `PolicyRuns.dfy`, `PolicyTheorems.dfy`, `PolicyReplies.dfy`, `PolicyRequests.dfy`, `PolicyClasses.dfy` | the restartable policy session: its runs, and what each message, call and timer does |
| `PolicyWorker.dfy`, `WorkerReplies.dfy`, `EndToEnd.dfy` | the Worker between the session and the frame, what a rendered request says about the display, and that an accepted request does render |
| `Controller.dfy`, `ControllerRuns.dfy`, `ControllerSteps.dfy`, `ControllerFold.dfy` | the controller of the sandboxed program, for any Worker, and the state threaded through its answers |
| `Host.dfy`, `HostAnswers.dfy` | the host's hand-off of ports to the frame, and which answer each call gets |
| `Gate.dfy`, `GateRules.dfy` | the linter, its iterative syntax-tree walk and what it reports |

The conversion, the renderer and the linter are methods proved against recursive
definitions. Each protocol component appears twice: as a class whose methods follow the
code step by step, and as functions on an immutable state. Every method ensures that it
computes the function, and the theorems are about runs of the functions. What a function
does is told once more by the fields of the message, call and state it is given, without the
functions it is made of (`ConvertMeaning`, `FrameAnswers`, `AcceptanceClaims`,
`PolicyReplies`, `PolicyRequests`, `WorkerReplies`, `ControllerSteps`, `HostAnswers`,
`GateRules`), so that both directions are stated: what an outcome rests on, and when it is
given. Only the Worker's
dispatcher is on values alone. The sections of the published bundles under `cdn/` are built
from the `src/` files cited here.

Four properties one might expect do not hold of the code. Each is stated with the input
that breaks it, or the exact condition under which it holds:

- A render call the frame cannot read is never answered, so draining a lossless port can
  leave it pending (`FifoRuns.UnreadableCallStaysPending`): one whose generation or request
  id is not a natural number, or whose tree is null or no object. Nothing stays pending
  exactly when the ids are valid and every call has natural numbers and an object as its
  tree (`FifoRuns.Drained`).
- The class allowlist of a policy session can be lost: it travels with the first request
  built, and a Worker that answers that request while it is still held makes the client
  drop it (`PolicyTheorems.ClassesCanBeLost`). The first message posted in a session
  carries the allowlist exactly when no such reply came (`PolicyClasses.LostExactlyThen`
  for one event, `PolicyClasses.FirstPostedCarriesClasses` for every run).
- The registry's eviction loop comes to an end exactly for a positive capacity
  (`Acceptance.EvictionStops`), so recording a new well-formed record requires one.
- A promise of `attachPort` can stay open for ever, even after the frame is destroyed: when
  the host's status callback, told that posting failed, ends by attaching another port
  successfully (`Host.ReentrantAttachIsLost`). Promises are lost exactly in such runs
  (`Host.EveryPromiseAnswerable`).

## Model

| member | source | states |
|---|---|---|
| Utf8.Utf8ByteLength | src/policy-protocol.js:227-239 | the one-pass count is the length of the UTF-8 encoding of the string with lone surrogates replaced |
| Utf8.ByteLengthIsEncodedLength | src/policy-protocol.js:222-226 | the counting rule agrees with encoding scalar by scalar, for every string |
| Utf8.EncodeRoundTrip | src/policy-protocol.js:222-226 | the encoding used as yardstick decodes back to the same scalar values |
| Utf8.EncodeIsShortest | src/policy-protocol.js:222-226 | no well-formed sequence of bytes for a scalar value is shorter than the one used |
| Utf8.ScalarsRoundTrip | src/policy-protocol.js:222-226 | a string of whole characters is read as their scalar values, and what follows them is read by itself |
| Utf8.LoneSurrogate | src/policy-protocol.js:222-239 | a surrogate without its other half is read as U+FFFD wherever it stands |
| Utf8.ByteLengthConcat | src/policy-protocol.js:227-239 | the count is additive, except exactly 2 less where joining makes a surrogate pair |
| Utf8.ByteLengthBounds | src/policy-protocol.js:227-239 | the count lies between the number of code units and three times it |
| ParsedTree.PathNodesMeaning | src/adapters/parse5.js:139-153 | the open-node count is the sum of sibling positions along the path, the depth of a walk recursing per sibling and per level, and at most the preorder rank |
| ParsedTree.OpenCountIsCallDepth | src/adapters/parse5.js:139-153 | over a whole walk the counts are the activations open in the per-sibling recursion |
| ParsedTree.OpenCountIsPathSum | src/adapters/parse5.js:139-153 | over a whole walk the counts are the sums of 1-based sibling positions |
| ConvertSpec.TotalsAreTreeStats | src/adapters/parse5.js:101-109 | running totals over the walk equal the recursive sums and maxima over the tree |
| ConvertSpec.FaultIffMisfit | src/adapters/parse5.js:130-264 | with all limits kept so far, a node passes its checks exactly when it fits on its own and the new totals fit |
| ConvertSpec.FaultIsFirstViolation | src/adapters/parse5.js:130-264 | passing at a node is the same as the walk up to and including it keeping every limit |
| ConvertSpec.AttrFaultIffMisfit | src/adapters/parse5.js:229-258 | the attribute loop passes exactly when every name and the byte total fit |
| ConvertSpec.FaultExplains | src/adapters/parse5.js:130-281 | a limit refusal quotes the configured limit and an observation above it |
| ConvertSpec.WithinLimitsPrefix | src/adapters/parse5.js:114-266 | an acceptable walk has only acceptable prefixes |
| ConvertMeaning.ElementIsConverted | src/adapters/parse5.js:87-265 | an element converts to its tag, the namespace of its URI, its attributes under prefix, colon and name, and the conversions of its children followed by those of its template content |
| ConvertMeaning.OtherIsConverted | src/adapters/parse5.js:157-194 | a text keeps its text; a comment, a doctype and anything else without a tag leave the marker of their kind |
| ConvertMeaning.StatsAreMeasures | src/adapters/parse5.js:101-109 | the statistics are a count over child nodes and template content: nodes, height, markers, attributes, text and UTF-8 bytes |
| ConvertMeaning.PeakIsLargest | src/adapters/parse5.js:145-153 | the peak of open nodes is the largest over the walk |
| ConvertMeaning.LimitsMeaning | src/adapters/parse5.js:130-260 | the walk keeps every limit exactly when those measures do, each node does alone, and the sibling positions along every path do |
| ConvertMeaning.AcceptedMeaning | src/adapters/parse5.js:99-269 | acceptance and what comes with it depend on the fragment's fields and the readings of the clock alone |
| ConvertMeaning.FaultNames | src/adapters/parse5.js:130-281 | a refusal names the first check that fails and quotes what that check measured, with its depth, tag and attribute |
| Convert.Convert | src/adapters/parse5.js:99-269 | accepted exactly when the fragment's own measures and each node keep the limits and every clock reading is in time; then the list read off the heap is the conversion of its children and of its template content, and the statistics are those measures; a refusal is the first in preorder |
| Convert.CheckNode | src/adapters/parse5.js:130-260 | the checks on one node give the first fault in order, or add exactly the node's own contribution |
| Convert.ConvertAttributes | src/adapters/parse5.js:229-258 | the loop finds the first attribute over a limit, or converts them all and counts their bytes |
| Convert.AddCandidateBytes | src/adapters/parse5.js:271-281 | adds to the running total and reports it when over the limit |
| Convert.AppendElement | src/adapters/parse5.js:263-265 | appending an element with an empty shared list and pushing its frame keeps the stack's invariant |
| Convert.PopKeepsStack | src/adapters/parse5.js:116 | an exhausted frame's list is final, and with it the element waiting one level down |
| Dom.RefusalInIffForbidden | src/render.js:25-36 | nothing is refused exactly when every element and attribute at any depth is allowed |
| Dom.ShapedMeaning | src/tree.js:36-56 | a tree passes the structural check exactly when it is a root with at most 33 levels of texts and elements, no root or malformed node among them |
| Dom.RefusalIsFirst | src/render.js:25-52 | what is thrown is the first of everything refused, in document order |
| Dom.LastWinsMeaning | src/render.js:45-48 | of repeated attribute names the last value stands, and no other name appears |
| Dom.MadeIsAllowed | src/render.js:25-52 | every element ever made, attached or not, whole or given up halfway, is allowed with every attribute it has |
| Dom.ShowsAllIsFreshBuild | src/render.js:41-52 | showing trees means looking exactly like their builds from scratch, node identities aside |
| Dom.BuildsTell | src/render.js:41-52 | the display loses nothing: trees with the same builds are the same but for repeated attribute names |
| Renderer.Renderer.CreateNode | src/render.js:41-52 | builds a new subtree showing the tree, or throws the first refusal |
| Renderer.Renderer.PatchAttrs | src/render.js:54-63 | old attributes become the new last-wins map even with repeated names, or the first refused name is thrown |
| Renderer.Renderer.PatchChildren | src/render.js:65-73 | children showing the old trees show the new ones afterwards, in order, despite replacements under the snapshot |
| Renderer.Renderer.PatchShared | src/render.js:66-70 | the positions both lists have show their new trees, the rest their old ones, or the first refusal is thrown |
| Renderer.Renderer.PatchNode | src/render.js:75-91 | a node showing the old tree is patched or replaced so that it shows the new one, its siblings untouched |
| Renderer.Renderer.Render | src/render.js:160-171 | the mount shows the tree, from scratch or by patching, unless something in it is refused |
| Renderer.Renderer.Clear | src/render.js:172-175 | empties the mount and forgets the tree |
| Renderer.Renderer.Commit | src/frame.js:66-75 | a malformed tree changes nothing, a refused one leaves the mount empty however far the patch got, any other is on display; what was created and set is only ever added to, all of it is allowed, and every node made, whatever became of it, is accounted for in it |
| Renderer.CommitAll | src/frame.js:66-75 | after any sequence of commits the mount shows the last well-shaped tree, or is empty if that one was refused |
| Renderer.OnDisplayMeaning | src/frame.js:66-75 | the last well-shaped tree is on display exactly when everything in it is permitted; without one nothing is |
| FrameChannel.FrameSender.OnMessage | src/frame-channel.js:48-56 | an acknowledgement settles its own pending call or is counted as ignored |
| FrameChannel.FrameSender.RenderTree | src/frame-channel.js:61-76 | issues the next number, posts, and settles at once when posting throws |
| FrameChannel.FrameSender.Dispose | src/frame-channel.js:78-84 | settles everything pending as closed |
| FrameChannel.FrameReceiver.OnMessage | src/frame-channel.js:101-119 | runs the callback only on a well-formed newer command and answers it once |
| FrameAnswers.RenderMeaning | src/frame-channel.js:61-76 | a call on an open port takes the next number and posts a message of its own fields; it waits, or is settled at once when posting throws |
| FrameAnswers.AckMeaning | src/frame-channel.js:48-56 | a message settles a call exactly when it is well-formed, under the port's identities and with that call's number, generation and request id: as rendered or as refused, by its kind; any other is only counted |
| FrameAnswers.CommandMeaning | src/frame-channel.js:101-119 | a well-formed command for this port, newer than all acted on, is drawn and answered once under its own numbers, as rendered exactly when drawing succeeded; any other is only counted |
| FrameAnswers.ReasonMeaning | src/frame-channel.js:107-118 | the reason of a refusal is the callback's own or what it threw, cut to 300 code units, or a fixed text |
| FrameAnswers.ThereAndBack | src/frame-channel.js:48-119 | a readable command posted, drawn with success and answered settles its own call as rendered |
| FrameRuns.RunKeeps | src/frame-channel.js:33-132 | the joint invariant of both ends and the channel survives every interleaving |
| FrameRuns.RenderedMeansDrawn | src/frame-channel.js:48-76 | a call settles as rendered only if the frame ran its callback, with success, on that call's tree under its number, generation and request id |
| FrameRuns.DrawnIsSubsequence | src/frame-channel.js:101-119 | the trees drawn are a subsequence of those sent, in order, none twice, even with duplication and reordering |
| FrameRuns.Accounts | src/frame-channel.js:33-132 | sent equals the last number, and pending plus settled; received equals rendered plus refused plus ignored; the sender never counts more answers than the frame |
| FrameRuns.SettledOnce | src/frame-channel.js:40-46 | a settled promise keeps its value at the next event |
| FrameRuns.SettledForGood | src/frame-channel.js:40-46 | a settled promise keeps its value for the rest of any run |
| FrameRuns.DisposeSettlesAll | src/frame-channel.js:78-84 | disposing leaves no promise open |
| FifoRuns.DeliveringEnds | src/frame-channel.js:48-119 | every delivery brings a lossless port nearer to empty, whatever the order of the two directions |
| FifoRuns.Drained | src/frame-channel.js:33-132 | once drained, exactly the readable calls are settled; nothing is pending iff all were readable; both ends agree on rendered and refused |
| FifoRuns.DrainSettlesEverything | src/frame-channel.js:33-132 | with readable calls, draining after any schedule leaves nothing pending or ignored |
| FifoRuns.UnreadableCallStaysPending | src/frame-protocol.js:58-64 | a call with a negative generation, and one without a tree, are left pending by a drained port |
| FifoRuns.UnreadableStaysPending | src/frame-protocol.js:48-64 | so is every call the frame cannot read |
| Frame.DisplayFrame.Bootstrap | src/frame.js:83-91 | a new port replaces the old one, which is closed; the display and what was handed over stay |
| Frame.DisplayFrame.Draw | src/frame.js:66-75 | one more tree handed to the renderer: success means exactly that it is displayable, and then it is on display |
| Frame.DisplayFrame.OnPortMessage | src/frame-channel.js:101-119 | the frame answers that it rendered a tree exactly when that very tree is on display; what it ignores changes nothing |
| Frame.DrivenIsTruthful | src/frame-channel.js:101-119 | when each answer says whether the tree was displayable, the whole log of answers is truthful |
| Frame.DisplayableMeaning | src/frame.js:66-75 | a tree is displayable exactly when it is a root of at most 33 levels in which every element and attribute is permitted |
| Frame.RenderedMeansDisplayed | src/frame.js:66-91 | in any run of a port that drives the frame, a call that settled as rendered at the Worker's end had its own tree on display when the frame answered |
| Acceptance.AcceptanceRegistry.Record | src/acceptance.js:83-95 | refuses malformed and reused records, else evicts the oldest until there is room and appends; required is only that the loop can end |
| Acceptance.AcceptanceRegistry.Claim | src/acceptance.js:102-137 | takes the record out either way and returns its tree only if every field matches |
| Acceptance.AcceptanceRegistry.Invalidate | src/acceptance.js:140-148 | removes what the predicate names, in one pass over the entries |
| Acceptance.Conservation | src/acceptance.js:81-148 | recorded equals claimed, evicted, burned by a mismatch, invalidated and held |
| Acceptance.ClaimReturnsItsOwnTree | src/acceptance.js:102-137 | a successful claim returns the tree of the one recording held under that nonce, which is held no more |
| AcceptanceClaims.TokenMeaning | src/acceptance.js:55-69 | a record is well-formed exactly when its nonce is 32 hexadecimal digits, its names are nonempty strings, its identities strings and its numbers natural |
| AcceptanceClaims.ClaimMeaning | src/acceptance.js:102-137 | a claim on a held record succeeds exactly when all eight fields are equal and the checker version, authority and generation asked for are the issued ones; else it names the first check that fails, and the record is burned; nothing else changes but the count |
| AcceptanceClaims.ClaimMissing | src/acceptance.js:103-114 | any other claim is refused as malformed or unknown and changes only the count |
| AcceptanceClaims.RecordMeaning | src/acceptance.js:83-95 | a record is taken exactly when it is well-formed and its nonce is not held; then just as many of the oldest leave as must, and it becomes the youngest |
| AcceptanceClaims.RecordThenClaim | src/acceptance.js:83-137 | recorded and claimed next, at any point of any history, a record gives its own tree back, and a second claim nothing |
| AcceptanceRuns.FatesAreFinal | src/acceptance.js:83-148 | a recording that left the registry never comes back, whatever operation is next |
| AcceptanceRuns.ClaimedAtMostOnce | src/acceptance.js:102-137 | in any history each recording yields at most one successful claim, and none after it was evicted, burned or invalidated |
| AcceptanceRuns.SuccessClaimsOne | src/acceptance.js:102-137 | every successful claim is one on a recording then held, with that recording's own token and tree |
| AcceptanceRuns.HoldsTheYoungest | src/acceptance.js:78-148 | after any history the registry is within its capacity, holds exactly the recordings still held, oldest first and younger than everything evicted, and accounts for every recording once |
| Acceptance.InvalidateIsExact | src/acceptance.js:140-148 | invalidation keeps exactly the entries the predicate does not name |
| Acceptance.EvictionStops | src/acceptance.js:87-91 | round by round, the eviction loop reaches its exit exactly when the capacity is positive, fractions included |
| Acceptance.RecordKeeps | src/acceptance.js:83-95 | recording keeps the invariant and the bound, and evicts no more than it must |
| Acceptance.ClaimKeeps | src/acceptance.js:102-137 | claiming keeps the invariant |
| PolicySession.PolicyClient.TerminateWorker | src/policy-client.js:222-269 | the session's Worker is gone and every pending request is settled |
| PolicySession.PolicyClient.Preprocess | src/policy-client.js:460-519 | a request starts a Worker if there is none, and is posted or held |
| PolicyRequests.RequestMeaning | src/policy-client.js:460-531 | a request is built in the live session or a new one, with its identities, generation, delivery and allowlist; it is held exactly while a frame session waits for its port, else posted, and ends the session if posting throws |
| PolicyRequests.RequestTurnedAway | src/policy-client.js:461-481 | after disposal nothing changes; when no Worker can be started the request is counted and rejected |
| PolicySession.PolicyClient.Post | src/policy-client.js:521-531 | posts unless the request was settled while held; a failure ends the session |
| PolicySession.PolicyClient.OnMessage | src/policy-client.js:289-347 | dispatches a message of the live Worker; confirmation of the port releases what was held, in order |
| PolicyRequests.AttachedMeaning | src/policy-client.js:304-310 | confirmation under the session's own identities posts every message still wanted, in order, or ends the session if one fails; under others it is ignored |
| PolicyRequests.ReleaseFails | src/policy-client.js:309-531 | when one fails to post, those before it are posted and every request is settled |
| PolicyRequests.AnnouncementMeaning | src/policy-client.js:294-345 | the handshake counts once and must hand the frame its port, the checker must be this build's, and a failure ends the session |
| PolicyRequests.IgnoredMeaning | src/policy-client.js:289-347 | messages to no live session, of another protocol, or under identities or of a request that are not the session's own change nothing |
| PolicySession.PolicyClient.OnReply | src/policy-client.js:346-454 | settles a request by the first check its reply fails, or with the verdict |
| PolicySession.PolicyClient.OnRequestTimeout | src/policy-client.js:486-494 | a request's timer ends the session, naming the wait it was in |
| PolicyRequests.RequestTimerMeaning | src/policy-client.js:486-494 | a request's timer ends the session, naming the parser if the request was posted and the port if it was held |
| PolicyRequests.FailureMeaning | src/policy-client.js:186-287 | startup timers end the session only while their stage is not done; an error ends it, named as a failure to start before the handshake |
| PolicyRequests.HostMeaning | src/policy-client.js:599-609 | disposal ends the session for good; a new generation changes nothing else |
| PolicyRequests.FirstRequestRenders | src/policy-client.js:158-531 | from nothing, the first request of any frame session is held, posted on confirmation and rendered by a proper reply |
| PolicyRuns.NextKeeps | src/policy-client.js:158-609 | every event keeps the session's invariant |
| PolicyRuns.RunKeeps | src/policy-client.js:158-609 | so does every run |
| PolicyTheorems.Outstanding | src/policy-client.js:222-269 | no Worker means nothing pending or held; attached means nothing held; unposted means held; every request is pending or settled, never both, and all are settled without a Worker |
| PolicyTheorems.PostedAfterConfirmation | src/policy-client.js:304-310 | a frame session posts only after its own port was confirmed, in increasing order of request id |
| PolicyTheorems.ClassesGoWithTheFirst | src/policy-client.js:509-517 | a posted message carries the allowlist exactly when it is its session's first request, and then no other does |
| PolicyTheorems.ClassesCanBeLost | src/policy-client.js:509-523 | a run in which no posted message carries the allowlist |
| PolicyClasses.LostExactlyThen | src/policy-client.js:345-454 | while its session goes on, the first request is lost at exactly the events that answer it while it is held, without ending the session |
| PolicyClasses.FirstPostedCarriesClasses | src/policy-client.js:509-523 | over every run, the first message posted in a session carries the allowlist iff no reply answered the session's first request while it was held; else none of the session carries it |
| PolicyClasses.NextOwed | src/policy-client.js:158-609 | at any other event a session that has posted anything has posted its first request, and one that lives still will |
| PolicyClasses.GoneStays | src/policy-client.js:521-523 | a first request settled unposted is never posted |
| PolicyTheorems.VerdictOnlyFromLiveReply | src/policy-client.js:345-447 | one step settles with a verdict only by a reply of the live session, current in both generations, whose record names all of it; nothing settled changes |
| PolicyReplies.RendersExactlyThen | src/policy-client.js:345-396 | a reply gives its pending request the result rendered exactly when it is a result of that kind from the authority, without a tree, current in both generations, with a well-formed record naming all of it |
| PolicyReplies.RenderedMeaning | src/policy-client.js:364-396 | a current reply of rendered gives the verdict under the request's generation, with the counters one higher, or the first of its three refusals |
| PolicyReplies.AcceptedMeaning | src/policy-client.js:407-447 | without a frame a current reply of accepted gives the verdict with the reply's own tree, or the first of its four refusals |
| PolicyReplies.RefusalMeaning | src/policy-client.js:348-454 | which replies give no verdict: for another generation, refused, superseded, rejected or malformed, each with its result and count |
| PolicyReplies.FatalReplyMeaning | src/policy-client.js:356-406 | a poisoned checker, and an accepted tree sent to a frame session, refuse the request and end the session |
| PolicyReplies.TerminateMeaning | src/policy-client.js:222-269 | ending the session settles exactly the pending requests, each under its own generation, the one that timed out with its budget |
| PolicyTheorems.VerdictHadALiveReply | src/policy-client.js:345-447 | over a run, behind every verdict there is one moment at which such a reply gave it |
| PolicyTheorems.SupersededNeverRenders | src/policy-client.js:361-363 | a request whose generation is behind never resolves with a verdict in any continuation |
| PolicyTheorems.VerdictsOfARun | src/policy-client.js:364-447 | a frame session never resolves with a tree and counts accepted as rendered; every verdict carries that request's record |
| PolicyTheorems.KeptByRun | src/policy-client.js:201-205 | a settled request keeps its result for the rest of the run |
| PolicyTheorems.TicketKept | src/policy-client.js:201-205 | a pending request is settled or still pending, with its own generation |
| PolicyWorker.NextKeeps | src/policy-dispatcher.js:12-82 | every event of the Worker keeps what its replies rest on |
| PolicyWorker.RunKeeps | src/policy-dispatcher.js:12-82 | so does every run |
| PolicyWorker.RenderedRepliesAreBacked | src/policy-dispatcher.js:19-36 | a reply of rendered rests on a call that settled as rendered, for a tree the checker accepted for that very request, which the frame had on display when it answered |
| WorkerReplies.RefusedMeaning | src/policy-dispatcher.js:19-36 | a request for the other way of delivering, of no known kind, or for a rejected document is answered at once under its own identities, and is granted nothing |
| WorkerReplies.ToHostMeaning | src/policy-dispatcher.js:19-36 | without a port an accepted tree goes to the host with its record and authority |
| WorkerReplies.ToFrameMeaning | src/policy-dispatcher.js:22-36 | with a port it becomes one call on the current port, and its reply waits without the tree, or is a rejection when posting throws |
| WorkerReplies.AnsweredMeaning | src/policy-dispatcher.js:26-31 | the frame's answer is passed on at once: rendered with the record when the frame rendered, else a rejection that grants nothing |
| WorkerReplies.AcceptedIsRendered | src/policy-dispatcher.js:19-36 | an accepted tree that the frame can show is posted, drawn, answered and reported as rendered for that very request |
| EndToEnd.RenderedMeansOnDisplay | src/policy-client.js:364-396 | over every run of host, Worker and frame, a request that resolves as rendered had a tree accepted for that very request and generation on display when the frame answered |
| EndToEnd.AcceptedResolves | src/policy-client.js:345-396 | and back: a posted, current request whose tree is accepted with a proper record and displayable does resolve as rendered, through a run of the Worker |
| Controller.RuntimeController.Die | src/runtime/controller.js:86-105 | rejects the request in flight and the whole queue, drops the Worker and moves the generation |
| Controller.RuntimeController.RunQueue | src/runtime/controller.js:147-181 | refuses events that cannot cross and starts the first that can |
| Controller.RuntimeController.Step | src/runtime/controller.js:272-282 | queues an event within the bound, or rejects it at once |
| ControllerSteps.StepTaken | src/runtime/controller.js:272-282 | a live, ready controller with room takes every event in and drops none |
| ControllerSteps.StepRefused | src/runtime/controller.js:272-279 | a dead or unloaded one changes nothing; a full one only counts the event as dropped |
| ControllerSteps.StepSent | src/runtime/controller.js:147-181 | with nothing in flight an event that crosses is sent at once with the current state; one that cannot cross is refused alone |
| ControllerSteps.PumpMeaning | src/runtime/controller.js:147-181 | of the waiting events the first that crosses is sent, and those before it are refused one by one |
| Controller.RuntimeController.LoadProgram | src/runtime/controller.js:187-258 | creates the Worker once and sends the load request |
| ControllerSteps.LoadMeaning | src/runtime/controller.js:187-240 | a load that passes its checks creates the one Worker and asks it to load; when it cannot, the session ends with the load failed |
| Controller.RuntimeController.OnMessage | src/runtime/controller.js:128-178 | a bad reply ends the session; a good one commits its stage or step, lets the host react, and starts the next |
| ControllerSteps.LoadReplyMeaning | src/runtime/controller.js:220-258 | a good answer to load, in time, sends init; a good answer to init makes the controller ready with its state and view |
| ControllerSteps.StepReplyMeaning | src/runtime/controller.js:128-178 | a good answer to a step is committed whatever the host does: its view settles the promise, its state is sent with the next event |
| ControllerSteps.BadReplyMeaning | src/runtime/controller.js:128-143 | any reply that is not the outstanding request's own, in shape and within every limit, ends the session, and so does an error |
| Controller.RuntimeController.RunReactions | src/runtime/controller.js:165-178 | the host's own calls on hearing a view are made one by one, before the next job is started |
| ControllerSteps.ReactionMeaning | src/runtime/controller.js:165-178 | the host's reactions are the calls they are, in order, after the commit and before the next event is sent |
| ControllerSteps.EndingMeaning | src/runtime/controller.js:86-105 | a timer, a failure of the Worker and disposal end a session that is not over, settling every event as died |
| ControllerSteps.LoadsAndAnswers | src/runtime/controller.js:187-282 | from nothing, a controller loaded in time answers the first event that crosses with the Worker's own view |
| ControllerRuns.NextKeeps | src/runtime/controller.js:86-289 | every input, whatever the Worker answers, keeps the controller's invariant and everything settled |
| ControllerRuns.RunKeeps | src/runtime/controller.js:86-289 | over any run with any Worker nothing settled changes, nothing submitted is forgotten, death is final |
| ControllerRuns.ThrowIsDeath | src/runtime/controller.js:174-178 | a program that throws ends the session exactly as dying with its job in flight |
| ControllerRuns.ResolvedInOrder | src/runtime/controller.js:145-181 | before a step resolves, every earlier event that could cross did |
| ControllerFold.ViewIsTheFold | src/runtime/controller.js:145-181 | a step that resolves has the view of the Worker's answers folded over exactly the valid events before it, in order; for a deterministic program, of its step function |
| ControllerFold.EveryRunHasAnswers | src/runtime/controller.js:145-181 | every run, whatever its Worker replies, is faithful to some answers, one for the first state and one for each event |
| ControllerFold.EveryRunFolds | src/runtime/controller.js:145-181 | so in every run all views, the first view and the current state are such a fold |
| ControllerFold.NextFolds | src/runtime/controller.js:86-289 | every faithful input keeps the state and every view the fold over what is done |
| ControllerRuns.NoStall | src/runtime/controller.js:147-181 | waiting jobs stay within the bound, and while any waits in a live session a step is in flight |
| ControllerRuns.NeverStale | src/runtime/controller.js:168 | no promise is ever rejected for a stale generation |
| ControllerRuns.QuietMeansAnswered | src/runtime/controller.js:147-181 | a live session with nothing in flight has answered every event: with a view exactly when it could cross |
| ControllerRuns.DeathSettlesAndFreezes | src/runtime/controller.js:86-105 | death leaves no promise open and no Worker, and no later input changes anything |
| Host.SandboxFrame.AttachPort | src/host.js:250-260 | supersedes what was outstanding, then parks the port or posts it |
| HostAnswers.AttachWaits | src/host.js:250-257 | a destroyed frame turns a port away; before the frame is ready it is parked, and what stood in a slot is answered false |
| HostAnswers.AttachPosts | src/host.js:252-260 | in a ready frame the port is transferred and its call waits, or it is closed and answered false when posting fails |
| Host.SandboxFrame.PostBootstrap | src/host.js:165-174 | a failure to post closes the port and runs the host's callback before the promise is settled |
| Host.SandboxFrame.OnReady | src/host.js:183-212 | posts what is still parked after the callback; a second ready destroys the frame |
| HostAnswers.ReadyMeaning | src/host.js:183-212 | the first ready posts what is parked; the second does what destroying does |
| Host.SandboxFrame.OnBound | src/host.js:213-222 | settles what waits after the callback |
| HostAnswers.BoundMeaning | src/host.js:213-222 | bound answers true the call that waits when the callback has returned, settles nothing else, and is remembered the first time |
| HostAnswers.OnlyBoundSaysTrue | src/host.js:213-222 | nothing else ever answers true |
| HostAnswers.OpenIsAnsweredTrue | src/host.js:213-260 | in a run that loses no promise, once ready, whichever promise is open is answered true by the next bound |
| HostAnswers.FalseOnlyThen | src/host.js:165-290 | over any run a promise is false only because a later port superseded it, its own bootstrap message failed to post, or the frame was destroyed |
| Host.SandboxFrame.DestroyFrame | src/host.js:278-290 | answers whatever is outstanding and closes a parked port |
| HostAnswers.DestroyMeaning | src/host.js:278-290 | destroying answers false and closes exactly what stands in a slot, once |
| Host.EveryPortIsPlaced | src/host.js:165-290 | every port is parked, transferred or closed, at most one is parked, none once ready or destroyed; a true answer means its port was transferred |
| Host.NextKeeps | src/host.js:133-290 | one message or call, with whatever its callbacks do, keeps all that, and a port's final place and a promise's answer stay |
| Host.EveryPromiseAnswerable | src/host.js:250-290 | no promise is lost in a run iff no callback in it attaches last while a failure is reported |
| Host.AtMostOneOpen | src/host.js:250-290 | in such runs at most one promise is open, and none once destroyed |
| Host.LostForEver | src/host.js:250-260 | a lost promise stays open in every continuation |
| Host.ReentrantAttachIsLost | src/host.js:165-174 | the run that loses one although its port was transferred |
| Host.NextOrphans | src/host.js:165-290 | one message or call loses a promise iff a callback in it does, and never an older one |
| Gate.Walk | src/gate.js:140-164 | finishes iff the recursive preorder fits the budget and the clock, having made exactly its visits; else it stops at the first visit that does not, having inspected those before |
| Gate.PushReversed | src/gate.js:161 | pushing children in reverse puts their walks in order before the rest of the stack |
| Gate.CollectChildren | src/gate.js:151-160 | collects the child nodes field by field, skipping locations and what is not a node |
| Gate.PreorderHangs | src/gate.js:138-150 | every visit after the first is of a child of the parent it names, which was visited before |
| Gate.FieldsAreKids | src/gate.js:138-161 | the recursive walk below a node is the walks from its collected children, in order |
| GateRules.KidsMeaning | src/gate.js:151-160 | the collected children are exactly the nodes the fields hold, alone or in a list, locations apart |
| GateRules.ChildrenAreVisited | src/gate.js:140-164 | every child of a visited node is visited |
| GateRules.EachNodeOnce | src/gate.js:140-164 | the walk makes as many visits as the program has nodes |
| GateRules.BudgetMeaning | src/gate.js:147-149 | within budget means no more nodes than allowed and in time at every 1024th |
| Gate.GateProgram | src/gate.js:52-128 | eligible iff the source parsed, was walked within budget, declares the required names and no visit reports anything; rejected with every reason in order |
| GateRules.DeniedMeaning | src/gate.js:99-136 | an identifier is reported exactly when its name is one the runtime does not have and it does not merely name a property |
| GateRules.DynamicMeaning | src/gate.js:104-109 | a call or construction is reported exactly when its callee is an identifier called Function |
| GateRules.AsyncMeaning | src/gate.js:90-98 | await and asynchronous functions are reported, and nothing else as such |
| GateRules.GeneratorMeaning | src/gate.js:91-98 | yield and generator functions are reported, and nothing else as such |
| GateRules.SyntaxMeaning | src/gate.js:87-89 | imports and exports are reported, and nothing else as such |
| GateRules.NothingElse | src/gate.js:85-111 | every report is of the visited node under one of eight codes, none twice |
| GateRules.DeclaredMeaning | src/gate.js:71-77 | a name is declared exactly when a top-level statement is a function of that name or a variable declaration that binds it plainly |
| GateRules.MissingExactly | src/gate.js:78-80 | what is reported missing is each required name not declared |

## Left out

- Convert.Convert: parsing itself and the check on source length before it are not modelled; a fragment is any finite tree, an absent field is an empty one, and the limits other than time are natural numbers.
- Strings are UTF-16 code units (`Utf8.Str`) where lengths or code units matter, and opaque `string`s where only equality does.
- Convert.Convert: the clock is an arbitrary function of the number of readings.
- Renderer.Renderer.PatchChildren: nobody else changes the DOM between renders; attribute names are distinct when they differ as strings, which for HTML elements means lower-case names.
- Renderer.Renderer.PatchAttrs: the `checked`, `value` and `selected` properties, focus and selection are browser state outside the tree.
- Renderer.Renderer.Commit: the allowlist tables and the refused-name pattern are an arbitrary pair of predicates; text of the thrown message is the refusal itself.
- Frame.DisplayFrame.Bootstrap: a bootstrap whose shape is refused changes nothing and is not modelled; nor are user events and messages to the parent. How a failure reads as text is an arbitrary function.
- FrameRuns.RunKeeps: a port is private, so what arrives was posted by the other end or is not a message of its kind; timers are events possible while their entry is pending.
- Acceptance.AcceptanceRegistry.Record: without a positive capacity a call that reaches the loop never returns (EvictionStops), so it has no result to state. A capacity that is infinite or not a number is not modelled; the loop is then never entered.
- AcceptanceRuns.HoldsTheYoungest: capacities are positive whole numbers, as which any positive one counts (rounded up).
- Acceptance.AcceptanceRegistry.Invalidate: clearing everything is the predicate that is always true; which field mismatched is not kept in the refusal.
- PolicyRuns.RunKeeps: session identities are new every time, timers are events, and the termination callback does not call back into the session.
- PolicySession.PolicyClient.Preprocess: the startup promises, the error texts and the diagnostics of a reply are not modelled; times and budgets are carried but never compared. A call after disposal throws in the program and changes nothing here.
- PolicySession.PolicyClient.OnReply: no claim is made that a session without a frame never resolves as rendered; the program does not check that.
- Controller.RuntimeController.OnMessage: a reply, the host's calls in reaction to it and the start of the next step are one atomic step, because the reactions run before the next message does. Calls the host makes later than its first reaction are the inputs that follow.
- Controller.RuntimeController.RunQueue: an event whose own serialization calls back into the controller is not modelled.
- PolicyWorker.NextKeeps: the Worker's dispatcher is modelled on values together with both ends of its ports, and not as an object. A request held until the checker is ready counts from when it is served; the checker and the candidate built for it are an arbitrary verdict; announcements and the texts of refusals are left out.
- EndToEnd.RenderedMeansOnDisplay: supposed is that a reply of rendered reaching the live session comes from that session's Worker; nothing is supposed of other messages.
- Controller.RuntimeController.LoadProgram: the checks on source and data made before a Worker exists are one boolean; serializing an event is given as its text or its failure.
- Host.SandboxFrame.AttachPort: each call brings a port of its own; startup promises, warnings and events from the frame are left out; no claim is made about which session a true answer bound.
- Host.SandboxFrame.OnReady: what the host's callback does is a finite tree of calls; a callback run after all state is settled is the same as the calls made next.
- Gate.Walk: the parser is an arbitrary function, a program an arbitrary finite tree in which no node is shared, and a node's identity is the field it hangs in; the clock is arbitrary.
- Gate.GateProgram: message texts and source positions of a reason are not modelled.
- The Lean and QuickJS runtimes, the JavaScript policy checker, content security policy, iframe and Worker creation, and startup error classification.
- The policy data tables, the demo pages and the CDN entry points.

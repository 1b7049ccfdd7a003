/** The state threaded through the controller: each view is what the Worker's answers give
    when folded over exactly the earlier events, in the order of submission. */
module ControllerFold {
  import opened Controller
  import opened ControllerRuns
  import opened Options

  /** What a Worker answers: its first state and view, and for the event of each number,
      given the state and event sent, the next state and view. A program whose steps depend
      on the state and event alone ignores the number. */
  datatype Answers = Answers(init: (Text, Text), step: (nat, Text, Text) -> (Text, Text))

  /** The state after the events that could cross the boundary, in submission order. */
  function StateAfter(p: Answers, L: Limits, events: seq<Event>): Text {
    if events == [] then p.init.0
    else
      var n := |events| - 1;
      var before, last := StateAfter(p, L, events[..n]), events[n];
      if Valid(L, last) then p.step(n, before, last.text).0 else before
  }

  /** A successful reply is the answer to what was sent. */
  predicate Faithful(p: Answers, c: Controller, i: Input) {
    i.WorkerReply? && i.m.OkReply? && Acceptable(c.limits, c.inFlight, i.m) ==>
      match c.inFlight.value.kind
      case LoadKind => true
      case InitKind => i.m.result == Produced(p.init.0, p.init.1)
      case StepKind(n, _, state, event) =>
        state.Some? && i.m.result == Produced(p.step(n, state.value, event).0, p.step(n, state.value, event).1)
  }

  predicate FaithfulRun(p: Answers, c: Controller, inputs: seq<Input>)
    requires IsRun(c, inputs)
    decreases |inputs|
  {
    inputs == [] || (Faithful(p, c, inputs[0]) && FaithfulRun(p, Next(c, inputs[0]), inputs[1..]))
  }

  // ----- the invariant -----

  ghost predicate Views(p: Answers, c: Controller) {
    forall n :: n in c.results && n < |c.jobs| && c.results[n].Resolved? && Valid(c.limits, c.jobs[n]) ==>
      c.results[n].view == p.step(n, StateAfter(p, c.limits, c.jobs[..n]), c.jobs[n].text).1
  }

  /** Every view is the fold's, and a live session's state is the fold over what is done. */
  ghost predicate Folded(p: Answers, c: Controller) {
    && Views(p, c)
    && (c.load.LoadedView? ==> c.load.view == p.init.1)
    && (c.ready && !c.dead ==>
          0 <= Done(c) <= |c.jobs| && c.state == Some(StateAfter(p, c.limits, c.jobs[..Done(c)])))
  }

  /** What was resolved has the same view, and nothing else has resolved. */
  lemma ViewsStay(p: Answers, c: Controller, d: Controller)
    requires Views(p, c) && Extends(c, d)
    requires forall n :: n in c.results ==> n < |c.jobs|
    requires forall n :: n in d.results && d.results[n].Resolved? ==> n in c.results
    ensures Views(p, d)
  {
    forall n | n in c.results && c.results[n].Resolved? ensures d.jobs[..n] == c.jobs[..n] && d.jobs[n] == c.jobs[n] {
    }
  }

  lemma MarkDeadFolds(p: Answers, c: Controller)
    requires Core(c) && Folded(p, c)
    ensures Folded(p, MarkDead(c))
  {
    if !c.dead {
      MarkDeadKeeps(c);
      DeathResults(c);
      ViewsStay(p, c, MarkDead(c));
    }
  }

  lemma SendFolds(p: Answers, c: Controller, kind: Kind, posts: bool)
    requires Core(Send(c, kind, true)) && Folded(p, Send(c, kind, true))
    ensures Folded(p, Send(c, kind, posts))
  {
    MarkDeadFolds(p, Send(c, kind, true));
  }

  lemma {:induction false} PumpFolds(p: Answers, c: Controller, failing: set<nat>)
    requires Core(c) && Folded(p, c)
    ensures Folded(p, Pump(c, failing))
    decreases |c.queue|
  {
    if !(c.dead || c.inFlight.Some? || c.queue == []) {
      var job, rest := c.queue[0], c.(queue := c.queue[1..]);
      if Valid(c.limits, job.event) {
        StartKeeps(c);
        StartFolds(p, c);
        SendFolds(p, rest, StepFor(c, job), job.n !in failing);
      } else {
        RefuseKeeps(c);
        RefuseFolds(p, c);
        PumpFolds(p, rest.(results := c.results[job.n := BadEvent]), failing);
      }
    }
  }

  lemma RefuseFolds(p: Answers, c: Controller)
    requires Core(c) && Folded(p, c)
    requires !c.dead && c.inFlight.None? && c.queue != [] && !Valid(c.limits, c.queue[0].event)
    ensures Folded(p, c.(queue := c.queue[1..], results := c.results[c.queue[0].n := BadEvent]))
  {
    var d := c.(queue := c.queue[1..], results := c.results[c.queue[0].n := BadEvent]);
    assert c.queue[0] == Job(Done(c), c.jobs[Done(c)]);
    assert c.jobs[..Done(d)][..Done(c)] == c.jobs[..Done(c)];
    RefuseKeeps(c);
    ViewsStay(p, c, d);
    hide Views, Outcomes;
  }

  lemma StartFolds(p: Answers, c: Controller)
    requires Core(c) && Folded(p, c)
    requires !c.dead && c.inFlight.None? && c.queue != [] && Valid(c.limits, c.queue[0].event)
    ensures Folded(p, Send(c.(queue := c.queue[1..]), StepFor(c, c.queue[0]), true))
  {
    StartKeeps(c);
    ViewsStay(p, c, Send(c.(queue := c.queue[1..]), StepFor(c, c.queue[0]), true));
  }

  lemma StepFolds(p: Answers, c: Controller, event: Event, failing: set<nat>)
    requires Core(c) && Folded(p, c)
    ensures Folded(p, AfterStep(c, event, failing))
  {
    if !c.dead && c.ready && |c.queue| < c.maxQueue {
      QueuedKeeps(c, event);
      ViewsStay(p, c, Queued(c, event));
      assert Queued(c, event).jobs[..Done(c)] == c.jobs[..Done(c)];
      PumpFolds(p, Queued(c, event), failing);
    }
  }

  lemma {:induction false} ReactFolds(p: Answers, c: Controller, rs: seq<Reaction>, failing: set<nat>)
    requires Core(c) && Folded(p, c)
    ensures Folded(p, React(c, rs, failing))
    decreases |rs|
  {
    hide Core, Folded, AfterStep, MarkDead;
    if rs != [] {
      match rs[0] {
        case StepNow(event) =>
          StepKeeps(c, event, failing);
          StepFolds(p, c, event, failing);
        case DisposeNow =>
          MarkDeadKeeps(c);
          MarkDeadFolds(p, c);
      }
      ReactFolds(p, ReactOnce(c, rs[0], failing), rs[1..], failing);
    }
  }

  lemma LoadFolds(p: Answers, c: Controller, passes: bool, created: bool, posts: bool)
    requires Core(c) && Folded(p, c)
    ensures Folded(p, AfterLoad(c, passes, created, posts))
  {
    if !c.dead && !c.worker && passes {
      if created {
        var d := c.(worker := true, generation := c.generation + 1, load := Loading);
        assert Core(Send(d, LoadKind, true)) by { LoadKeeps(c, passes, created, true); }
        SendFolds(p, d, LoadKind, posts);
      } else {
        MarkDeadFolds(p, c.(load := LoadFailed));
      }
    }
  }

  /** A committed step has the view, and leaves the state, of the fold one event further. */
  lemma CommitFolds(p: Answers, c: Controller, m: Reply)
    requires Core(c) && Folded(p, c) && c.ready && !c.dead && Stepping(c) && m.OkReply?
    requires var k := c.inFlight.value.kind;
      m.result == Produced(p.step(k.job, c.state.value, k.event).0, p.step(k.job, c.state.value, k.event).1)
    ensures Folded(p, Committed(c, m))
  {
    var d, job := Committed(c, m), Done(c);
    CommitKeeps(c, m);
    assert c.jobs[..job + 1][..job] == c.jobs[..job];
    forall n | n in d.results && n < |d.jobs| && d.results[n].Resolved? && Valid(d.limits, d.jobs[n])
      ensures d.results[n].view == p.step(n, StateAfter(p, d.limits, d.jobs[..n]), d.jobs[n].text).1
    {
      assert n != job ==> n in c.results && d.results[n] == c.results[n];
    }
  }

  lemma ReplyFolds(p: Answers, c: Controller, m: Reply, timeLeft: bool, posts: bool,
                   reactions: seq<Reaction>, failing: set<nat>)
    requires Inv(c) && Folded(p, c) && c.worker
    requires Faithful(p, c, WorkerReply(m, timeLeft, posts, reactions, failing))
    ensures Folded(p, AfterReply(c, m, timeLeft, posts, reactions, failing))
  {
    if !Acceptable(c.limits, c.inFlight, m) {
      MarkDeadFolds(p, c);
    } else if m.ErrorReply? {
      ThrowIsDeath(c, m, timeLeft, posts, reactions, failing);
      MarkDeadFolds(p, c);
    } else if Stepping(c) {
      CommitKeeps(c, m);
      CommitFolds(p, c, m);
      ReactKeeps(Committed(c, m), reactions, failing);
      ReactFolds(p, Committed(c, m), reactions, failing);
      hide Core, Folded, Pump, React;
      PumpFolds(p, React(Committed(c, m), reactions, failing), failing);
    } else if c.inFlight.value.kind.LoadKind? {
      if timeLeft {
        SendFolds(p, c.(inFlight := None), InitKind, posts);
      } else {
        MarkDeadFolds(p, c);
      }
    }
  }

  lemma NextFolds(p: Answers, c: Controller, i: Input)
    requires Inv(c) && Folded(p, c) && Enabled(c, i) && Faithful(p, c, i)
    ensures Folded(p, Next(c, i))
  {
    match i
    case StepCall(event, failing) => StepFolds(p, c, event, failing);
    case LoadCall(passes, created, posts) => LoadFolds(p, c, passes, created, posts);
    case WorkerReply(m, timeLeft, posts, reactions, failing) =>
      ReplyFolds(p, c, m, timeLeft, posts, reactions, failing);
    case _ => MarkDeadFolds(p, c);
  }

  lemma {:induction false} RunFolds(p: Answers, c: Controller, inputs: seq<Input>)
    requires Inv(c) && Folded(p, c) && IsRun(c, inputs) && FaithfulRun(p, c, inputs)
    ensures Folded(p, After(c, inputs))
    decreases |inputs|
  {
    if inputs != [] {
      NextKeeps(c, inputs[0]);
      NextFolds(p, c, inputs[0]);
      RunFolds(p, Next(c, inputs[0]), inputs[1..]);
    }
  }

  // ----- every run is a fold -----

  /** What is still to be answered after `c`: a run looks at nothing else. */
  ghost predicate AgreeFrom(p: Answers, q: Answers, c: Controller) {
    && (!c.ready ==> p.init == q.init)
    && forall n: nat, state, event :: n >= Done(c) ==> p.step(n, state, event) == q.step(n, state, event)
  }

  lemma AgreeLater(p: Answers, q: Answers, c: Controller, d: Controller)
    requires AgreeFrom(p, q, c) && Core(c) && Core(d) && Extends(c, d)
    ensures AgreeFrom(p, q, d)
  {
    if Done(c) > 0 {
      assert Done(c) - 1 in c.results;
    }
  }

  lemma {:induction false} SameRun(p: Answers, q: Answers, c: Controller, inputs: seq<Input>)
    requires Inv(c) && IsRun(c, inputs) && AgreeFrom(p, q, c) && FaithfulRun(p, c, inputs)
    ensures FaithfulRun(q, c, inputs)
    decreases |inputs|
  {
    if inputs != [] {
      NextKeeps(c, inputs[0]);
      AgreeLater(p, q, c, Next(c, inputs[0]));
      SameRun(p, q, Next(c, inputs[0]), inputs[1..]);
    }
  }

  /** The answers with one more known: the first state and view, or those for one event. */
  function Answered(p: Answers, c: Controller, m: Reply): Answers
    requires m.OkReply? && c.inFlight.Some? && ResultFits(c.limits, c.inFlight.value.kind, m.result)
  {
    match c.inFlight.value.kind
    case LoadKind => p
    case InitKind => p.(init := (m.result.state, m.result.view))
    case StepKind(job, _, _, _) =>
      p.(step := (n, state, event) =>
           if n == job then (m.result.state, m.result.view) else p.step(n, state, event))
  }

  lemma AnsweredOnce(p: Answers, c: Controller, i: Input)
    requires Inv(c) && Enabled(c, i) && i.WorkerReply? && i.m.OkReply? && Acceptable(c.limits, c.inFlight, i.m)
    ensures AgreeFrom(p, Answered(p, c, i.m), Next(c, i))
  {
    NextKeeps(c, i);
    if Stepping(c) {
      var done := Committed(c, i.m);
      CommitKeeps(c, i.m);
      ReactKeeps(done, i.reactions, i.failing);
      PumpKeeps(React(done, i.reactions, i.failing), i.failing);
      assert Done(c) in done.results;
      assert Done(c) in Next(c, i).results;
    }
  }

  /** Whatever a Worker answers, there are answers it is faithful to. */
  lemma {:induction false} EveryRunHasAnswers(c: Controller, inputs: seq<Input>) returns (p: Answers)
    requires Inv(c) && IsRun(c, inputs)
    ensures FaithfulRun(p, c, inputs)
    decreases |inputs|
  {
    if inputs == [] {
      p := Answers(([], []), (n, state, event) => ([], []));
    } else {
      var i := inputs[0];
      NextKeeps(c, i);
      var q := EveryRunHasAnswers(Next(c, i), inputs[1..]);
      p := q;
      if i.WorkerReply? && i.m.OkReply? && Acceptable(c.limits, c.inFlight, i.m) {
        p := Answered(q, c, i.m);
        AnsweredOnce(q, c, i);
        SameRun(q, p, Next(c, i), inputs[1..]);
      }
    }
  }

  /** No update is lost, applied twice or applied to a stale state: a step that resolves
      has the view of the Worker stepped through exactly the valid events before it, in the
      order of submission. */
  lemma ViewIsTheFold(p: Answers, L: Limits, maxQueue: nat, inputs: seq<Input>, n: nat)
    requires IsRun(New(L, maxQueue), inputs) && FaithfulRun(p, New(L, maxQueue), inputs)
    requires n in Reached(L, maxQueue, inputs).results && Reached(L, maxQueue, inputs).results[n].Resolved?
    ensures n < |Reached(L, maxQueue, inputs).jobs| && Valid(L, Reached(L, maxQueue, inputs).jobs[n])
    ensures Reached(L, maxQueue, inputs).results[n].view ==
            p.step(n, StateAfter(p, L, Reached(L, maxQueue, inputs).jobs[..n]),
                   Reached(L, maxQueue, inputs).jobs[n].text).1
  {
    ReachedKeeps(L, maxQueue, inputs);
    RunFolds(p, New(L, maxQueue), inputs);
    assert Explained(Reached(L, maxQueue, inputs), n);
  }

  /** ... and so in every run, for the answers that were given. */
  lemma EveryRunFolds(L: Limits, maxQueue: nat, inputs: seq<Input>) returns (p: Answers)
    requires IsRun(New(L, maxQueue), inputs)
    ensures FaithfulRun(p, New(L, maxQueue), inputs) && Folded(p, Reached(L, maxQueue, inputs))
  {
    p := EveryRunHasAnswers(New(L, maxQueue), inputs);
    RunFolds(p, New(L, maxQueue), inputs);
  }
}

/** Host, Worker and frame together: what a request that resolves as rendered says about
    the display. */
module EndToEnd {
  import opened Dom
  import opened Options
  import opened PolicyRuns
  import opened PolicySession
  import opened PolicyTheorems
  import opened Acceptance
  import F = Frame
  import FC = FrameChannel
  import FR = FrameRuns
  import PR = PolicyReplies
  import R = WorkerReplies
  import W = PolicyWorker

  /** A reply of `rendered` that reaches the live session was posted by that session's
      Worker, whose whole life `workers` tells. Nothing is asked of other messages. */
  ghost predicate Genuine(p: Policy, s: Session<Tree>, e: Event<Tree>, workers: string -> seq<W.Event>)
    requires forall sid :: W.IsRun(p, W.NewWorker(), workers(sid))
  {
    e.FromWorker? && s.link.Some? && e.m.Reply? && e.m.status == RenderedStatus ==>
      e.m in W.After(p, W.NewWorker(), workers(s.link.value.sessionId)).out
  }

  ghost predicate Wired(p: Policy, s: Session<Tree>, events: seq<Event<Tree>>, workers: string -> seq<W.Event>)
    requires forall sid :: W.IsRun(p, W.NewWorker(), workers(sid))
    requires IsRun(s, events)
    decreases |events|
  {
    events == [] || (Genuine(p, s, events[0], workers) && Wired(p, Next(s, events[0]), events[1..], workers))
  }

  lemma {:induction false} WiredAt(p: Policy, s: Session<Tree>, events: seq<Event<Tree>>,
    workers: string -> seq<W.Event>, k: nat)
    requires forall sid :: W.IsRun(p, W.NewWorker(), workers(sid))
    requires IsRun(s, events) && Wired(p, s, events, workers) && k < |events| && IsRun(s, events[..k])
    ensures Genuine(p, After(s, events[..k]), events[k], workers)
    decreases |events|
  {
    hide Genuine, Next, Enabled;
    if k > 0 {
      assert events[..k][0] == events[0] && events[..k][1..] == events[1..][..k - 1];
      WiredAt(p, Next(s, events[0]), events[1..], workers, k - 1);
    }
  }

  /** From the caller's promise to the screen: if a request of a run resolves as rendered,
      some session's Worker held a port on which a tree, accepted by its checker for that
      very request and generation, was called for; the call settled as rendered; and the
      frame had exactly that tree on display when it answered. */
  lemma RenderedMeansOnDisplay(p: Policy, config: Config, events: seq<Event<Tree>>, workers: string -> seq<W.Event>,
                               r: nat, earlier: seq<Tree>)
    returns (sid: string, port: W.Port, n: nat, t: Tree, k: nat)
    requires forall sid :: W.IsRun(p, W.NewWorker(), workers(sid))
    requires IsRun(NewSession<Tree>(config), events) && Wired(p, NewSession<Tree>(config), events, workers)
    requires var s := After(NewSession<Tree>(config), events); r in s.settled && s.settled[r].body.RenderedBody?
    ensures port in W.After(p, W.NewWorker(), workers(sid)).ports
    ensures var g := After(NewSession<Tree>(config), events).settled[r].generation;
      W.Rendered(port, n, g, r, t) && (g, r, t) in W.After(p, W.NewWorker(), workers(sid)).accepted
    ensures k < |W.SystemOf(port).r.log| && W.SystemOf(port).r.log[k].seqNo == n
    ensures F.ShownAt(p, earlier, W.SystemOf(port).r.log, k, t)
  {
    hide Sound, W.After, W.IsRun, W.Rendered, Wired;
    var s0 := NewSession<Tree>(config);
    NewIsSound<Tree>(config);
    var j := VerdictHadALiveReply(s0, events, r);
    WiredAt(p, s0, events, workers, j);
    var before := After(s0, events[..j]);
    sid := before.link.value.sessionId;
    port, n, t, k := W.RenderedRepliesAreBacked(p, workers(sid), events[j].m, earlier);
    VerdictsOfARun(After(s0, events), config, events, r);
  }

  /** And back: a posted request, still pending in the current generation, whose document is
      accepted with a proper record and a tree the frame can show, does resolve as rendered.
      The Worker has a run that serves it on its open port and ends with a reply, and that
      reply gives the request exactly this result. */
  lemma AcceptedResolves(p: Policy, w: W.Worker, s: Session<Tree>, e: Envelope, v: W.Verdict)
    returns (events: seq<W.Event>, reply: W.Answer)
    requires W.Inv(p, w) && R.Open(w) && Sound(s) && s.link.Some? && s.config.hasFrame && s.config.instanceId != ""
    requires e.sessionId == s.link.value.sessionId && e.forFrame && e.requestId in s.pending
    requires 0 <= e.generation == s.pending[e.requestId].generation == s.generation
    requires v.Accepted? && F.Displayable(p, v.tree) && v.authority == s.config.authority
    requires IsAcceptanceToken(v.acceptance) && PR.ForThis(s, v.acceptance, e.requestId)
    requires v.acceptance.checkerVersion == s.config.checkerVersion
    ensures |events| == 3 && events[0] == W.Request(AsPosted(s, e), v, FC.Posted)
    ensures W.IsRun(p, w, events) && W.After(p, w, events).out == w.out + [reply]
    ensures forall attaches, failing ::
      PR.Gives(s, Next(s, FromWorker(reply, attaches, failing)), e.requestId, RenderedBody(v.acceptance),
               PR.Counts(1, 1, 0))
  {
    hide W.Inv, W.Next, W.Enabled, F.Displayable, Sound, IsAcceptanceToken, Next;
    var i, m := |w.ports| - 1, AsPosted(s, e);
    var command, ack := R.AcceptedIsRendered(p, w, m, v);
    var first, second := W.Request(m, v, FC.Posted), W.PortEvent(i, FR.ToReceiver(command, FC.Success));
    var third := W.PortEvent(i, FR.ToSender(ack));
    events := [first, second, third];
    ThreeSteps(p, w, first, second, third);
    reply := W.Next(W.Next(W.Next(w, first), second), third).out[|w.out|];
    forall attaches, failing
      ensures PR.Gives(s, Next(s, FromWorker(reply, attaches, failing)), e.requestId, RenderedBody(v.acceptance),
                       PR.Counts(1, 1, 0))
    {
      PR.RenderedMeaning(s, reply, e.requestId, attaches, failing);
    }
  }

  /** The envelope as it reaches the Worker. */
  function AsPosted(s: Session<Tree>, e: Envelope): W.Asked
    requires e.generation >= 0
  {
    var delivery := if e.forFrame then W.ToFrame else W.ToHost;
    W.Asked(true, s.config.instanceId, e.sessionId, e.generation, e.requestId, delivery)
  }

  lemma Step(p: Policy, w: W.Worker, e: W.Event, rest: seq<W.Event>)
    requires W.Enabled(p, w, e) && W.IsRun(p, W.Next(w, e), rest)
    ensures W.IsRun(p, w, [e] + rest) && W.After(p, w, [e] + rest) == W.After(p, W.Next(w, e), rest)
  {
    assert ([e] + rest)[1..] == rest;
  }

  lemma ThreeSteps(p: Policy, w: W.Worker, first: W.Event, second: W.Event, third: W.Event)
    requires first.Request?
    requires W.Enabled(p, W.Next(w, first), second)
    requires W.Enabled(p, W.Next(W.Next(w, first), second), third)
    ensures W.IsRun(p, w, [first, second, third])
    ensures W.After(p, w, [first, second, third]) == W.Next(W.Next(W.Next(w, first), second), third)
  {
    assert W.Enabled(p, w, first);
    hide W.Next, W.Enabled;
    var w1, w2 := W.Next(w, first), W.Next(W.Next(w, first), second);
    Step(p, w2, third, []);
    Step(p, w1, second, [third] + []);
    Step(p, w, first, [second] + ([third] + []));
    assert [first, second, third] == [first] + ([second] + ([third] + []));
  }
}

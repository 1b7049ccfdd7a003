/** The Worker between the host's session and the frame: it serves requests, hands accepted
    trees to the frame's port, and tells the host `rendered` on the frame's answer. */
module PolicyWorker {
  import opened Acceptance
  import opened Dom
  import opened Options
  import F = Frame
  import FC = FrameChannel
  import FR = FrameRuns
  import PS = PolicySession

  const NAMELESS: PS.Reply<Tree> :=
    PS.Reply(PS.POLICY_PROTOCOL_VERSION, PS.RefusedKind, None, None, -1, -1,
             PS.OtherStatus, false, "", NotARecord, None, None)

  /** What the Worker posts to the host: always a message in shape. */
  type Answer = m: PS.Reply<Tree> | m.Reply? witness NAMELESS

  datatype Delivery = ToFrame | ToHost | Unspecified

  /** A message from the host. What is no well-formed envelope has no identity to echo. */
  datatype Asked =
    | NotAnEnvelope
    | Asked(preprocess: bool, instanceId: string, sessionId: string, generation: nat, requestId: nat,
      delivery: Delivery)

  /** What the checker makes of a document. An accepted tree comes with its record. */
  datatype Verdict = Accepted(tree: Tree, authority: string, acceptance: Token) | Rejected(poisoned: bool)

  /** A private port over its whole life, as the events at its two ends. */
  datatype Port = Port(ids: FC.Ids, events: seq<FR.Event<Tree>>)

  function SystemOf(port: Port): FR.System<Tree> {
    FR.After(FR.Init<Tree>(port.ids), port.events)
  }

  /** The last port is the current one; `served` holds, by call number on it, the replies
      that wait for the frame. `out` and `accepted` are history: everything posted to the
      host, and each tree the checker accepted with the request it was accepted for. */
  datatype Worker = Worker(
    ports: seq<Port>, served: map<nat, Answer>, closed: bool,
    out: seq<Answer>, accepted: set<(int, int, Tree)>)

  function NewWorker(): Worker {
    Worker([], map[], false, [], {})
  }

  function ReplyTo(m: Asked, kind: PS.Kind, status: PS.Status, poisoned: bool): Answer
    requires m.Asked?
  {
    PS.Reply(PS.POLICY_PROTOCOL_VERSION, kind, Some(m.instanceId), Some(m.sessionId), m.generation, m.requestId,
             status, poisoned, "", NotARecord, None, None)
  }

  /** Only a Worker that holds a port serves the frame, and it serves nobody else. */
  predicate DeliveryRefused(d: Delivery, hasPort: bool) {
    d.Unspecified? || (d.ToFrame? && !hasPort) || (d.ToHost? && hasPort)
  }

  function HandleRequest(m: Asked, v: Verdict): Answer {
    if m.NotAnEnvelope? then NAMELESS
    else if !m.preprocess then ReplyTo(m, PS.RefusedKind, PS.OtherStatus, false)
    else if v.Rejected? then ReplyTo(m, PS.ResultKind, PS.RejectedStatus, v.poisoned)
    else
      var r := ReplyTo(m, PS.ResultKind, PS.AcceptedStatus, false);
      r.(authority := v.authority, acceptance := v.acceptance, tree := Some(v.tree))
  }

  /** The reply once the frame has answered. */
  function Settled(rest: Answer, outcome: FC.Outcome): Answer {
    if outcome.Ok? then rest.(status := PS.RenderedStatus)
    else rest.(status := PS.RejectedStatus, poisoned := false, authority := "", acceptance := NotARecord)
  }

  function WithEvent(w: Worker, i: nat, e: FR.Event<Tree>): Worker
    requires i < |w.ports|
  {
    w.(ports := w.ports[i := w.ports[i].(events := w.ports[i].events + [e])])
  }

  /** Hand an accepted tree to the frame. If posting throws, the answer is there at once. */
  function Deliver(w: Worker, reply: Answer, post: FC.Post): Worker
    requires w.ports != [] && reply.tree.Some?
  {
    var i := |w.ports| - 1;
    var n, rest := SystemOf(w.ports[i]).s.seqNo + 1, reply.(tree := None);
    var w' := WithEvent(w, i, FR.CallRender(FC.Call(reply.tree, reply.generation, reply.requestId), post));
    if post.Throws? then w'.(out := w.out + [Settled(rest, FC.PostFailed(None))])
    else w'.(served := w.served[n := rest])
  }

  function Serve(w: Worker, m: Asked, v: Verdict, post: FC.Post): Worker {
    if m.Asked? && DeliveryRefused(m.delivery, w.ports != []) then
      w.(out := w.out + [ReplyTo(m, PS.ResultKind, PS.RejectedStatus, false)])
    else
      var reply := HandleRequest(m, v);
      if reply.status != PS.AcceptedStatus then w.(out := w.out + [reply])
      else
        var w' := w.(accepted := w.accepted + {(reply.generation, reply.requestId, v.tree)});
        if w.ports != [] then Deliver(w', reply, post) else w'.(out := w.out + [reply])
  }

  /** A new port: the old one's sender is disposed, and its answers count no more. */
  function Attach(w: Worker, ids: FC.Ids): Worker {
    var w' := if w.ports == [] then w else WithEvent(w, |w.ports| - 1, FR.DisposeSender);
    w'.(ports := w'.ports + [Port(ids, [])], served := map[])
  }

  /** An acknowledgement that settles a call waiting on the current port. */
  predicate Answers(w: Worker, i: nat, e: FR.Event<Tree>)
    requires i < |w.ports|
  {
    var before := SystemOf(w.ports[i]);
    && i == |w.ports| - 1 && !w.closed
    && e.ToSender? && e.reply.Message? && e.reply.seqNo >= 0 && e.reply.seqNo in w.served
    && e.reply.seqNo in before.s.pending && e.reply.seqNo in FR.Next(before, e).s.settled
  }

  /** Something happens on a port. The frame's answer is passed on in the same step. */
  function OnPort(w: Worker, i: nat, e: FR.Event<Tree>): Worker
    requires i < |w.ports|
  {
    var w' := WithEvent(w, i, e);
    if Answers(w, i, e) then
      var n := e.reply.seqNo;
      w'.(out := w.out + [Settled(w.served[n], FR.Next(SystemOf(w.ports[i]), e).s.settled[n])],
          served := w.served - {n})
    else w'
  }

  datatype Event =
    | Request(m: Asked, v: Verdict, post: FC.Post)
    | TurnAway(m: Asked)
    | AttachFrame(ids: FC.Ids)
    | PortEvent(i: nat, e: FR.Event<Tree>)
    | Close

  /** What happens on a port by itself is delivery, in any order or not at all, and the
      frame closing; the frame's end drives a `DisplayFrame`. */
  ghost predicate Enabled(p: Policy, w: Worker, e: Event) {
    match e
    case PortEvent(i, pe) =>
      && i < |w.ports| && (pe.ToReceiver? || pe.ToSender? || pe.DisposeReceiver?)
      && FR.Enabled(SystemOf(w.ports[i]), pe) && F.Honest(p, SystemOf(w.ports[i]), pe)
    case TurnAway(m) => m.Asked?
    case _ => true
  }

  function Next(w: Worker, e: Event): Worker
    requires e.PortEvent? ==> e.i < |w.ports|
    requires e.TurnAway? ==> e.m.Asked?
  {
    match e
    case PortEvent(i, pe) => OnPort(w, i, pe)
    case Request(m, v, post) => if w.closed then w else Serve(w, m, v, post)
    case TurnAway(m) => if w.closed then w else w.(out := w.out + [ReplyTo(m, PS.ResultKind, PS.RejectedStatus, false)])
    case AttachFrame(ids) => if w.closed then w else Attach(w, ids)
    case Close =>
      if w.closed || w.ports == [] then w.(closed := true)
      else WithEvent(w, |w.ports| - 1, FR.DisposeSender).(closed := true)
  }

  // ----- what a reply of `rendered` rests on -----

  /** Call `n` on a port settled as rendered, for the request and tree named. */
  ghost predicate Rendered(port: Port, n: nat, generation: int, requestId: int, t: Tree) {
    var s := SystemOf(port).s;
    && n in s.settled && s.settled[n] == FC.Ok && 1 <= n <= |s.calls|
    && s.calls[n - 1] == FC.Call(Some(t), generation, requestId)
  }

  ghost predicate Backed(w: Worker, generation: int, requestId: int) {
    exists i: nat, n: nat, t ::
      i < |w.ports| && Rendered(w.ports[i], n, generation, requestId, t) && (generation, requestId, t) in w.accepted
  }

  ghost predicate Sane(p: Policy, port: Port) {
    FR.IsRun(FR.Init<Tree>(port.ids), port.events) && F.Driven(p, FR.Init<Tree>(port.ids), port.events)
  }

  /** A waiting reply is for the call of its number, and that call's tree was accepted. */
  ghost predicate Waits(w: Worker, n: nat)
    requires n in w.served
  {
    && w.served[n].status == PS.AcceptedStatus && w.ports != []
    && var calls := SystemOf(w.ports[|w.ports| - 1]).s.calls;
      && 1 <= n <= |calls| && calls[n - 1].tree.Some?
      && calls[n - 1].generation == w.served[n].generation && calls[n - 1].requestId == w.served[n].requestId
      && (calls[n - 1].generation, calls[n - 1].requestId, calls[n - 1].tree.value) in w.accepted
  }

  ghost predicate PortsSane(p: Policy, w: Worker) {
    forall i :: 0 <= i < |w.ports| ==> Sane(p, w.ports[i])
  }

  ghost predicate CurrentOpen(w: Worker) {
    !w.closed && w.ports != [] ==> !SystemOf(w.ports[|w.ports| - 1]).s.closed
  }

  ghost predicate AllWait(w: Worker) {
    forall n :: n in w.served ==> Waits(w, n)
  }

  ghost predicate AllBacked(w: Worker) {
    forall m :: m in w.out && m.status == PS.RenderedStatus ==> Backed(w, m.generation, m.requestId)
  }

  ghost predicate Inv(p: Policy, w: Worker) {
    PortsSane(p, w) && CurrentOpen(w) && AllWait(w) && AllBacked(w)
  }

  // ----- one more event on a port -----

  lemma {:induction false} RunSnoc(p: Policy, y: FR.System<Tree>, events: seq<FR.Event<Tree>>, e: FR.Event<Tree>)
    requires FR.IsRun(y, events) && F.Driven(p, y, events)
    requires FR.Enabled(FR.After(y, events), e) && F.Honest(p, FR.After(y, events), e)
    ensures FR.IsRun(y, events + [e]) && F.Driven(p, y, events + [e])
    ensures FR.After(y, events + [e]) == FR.Next(FR.After(y, events), e)
    decreases |events|
  {
    hide FR.Next, FR.Enabled, F.Honest;
    if events == [] {
      assert events + [e] == [e] && [e][1..] == [];
    } else {
      assert (events + [e])[0] == events[0] && (events + [e])[1..] == events[1..] + [e];
      RunSnoc(p, FR.Next(y, events[0]), events[1..], e);
    }
  }

  lemma PortGoesOn(p: Policy, port: Port, e: FR.Event<Tree>)
    requires Sane(p, port) && FR.Enabled(SystemOf(port), e) && F.Honest(p, SystemOf(port), e)
    ensures var port' := port.(events := port.events + [e]);
      Sane(p, port') && SystemOf(port') == FR.Next(SystemOf(port), e)
  {
    hide FR.Next, FR.Enabled, FR.IsRun, F.Driven, F.Honest;
    RunSnoc(p, FR.Init<Tree>(port.ids), port.events, e);
  }

  lemma PortInv(p: Policy, port: Port)
    requires Sane(p, port)
    ensures FR.Inv(SystemOf(port))
  {
    hide FR.Inv, FR.IsRun, F.Driven, FR.After;
    FR.InitInv<Tree>(port.ids);
    FR.RunKeeps(FR.Init<Tree>(port.ids), port.events);
  }

  lemma CallsGrow(y: FR.System<Tree>, e: FR.Event<Tree>)
    ensures y.s.calls <= FR.Next(y, e).s.calls
    ensures !e.DisposeSender? ==> FR.Next(y, e).s.closed == y.s.closed
  {
  }

  lemma RenderedStays(p: Policy, port: Port, e: FR.Event<Tree>)
    requires Sane(p, port) && FR.Enabled(SystemOf(port), e) && F.Honest(p, SystemOf(port), e)
    ensures forall n, g, q, t :: Rendered(port, n, g, q, t) ==> Rendered(port.(events := port.events + [e]), n, g, q, t)
  {
    PortGoesOn(p, port, e);
    PortInv(p, port);
    CallsGrow(SystemOf(port), e);
    hide FR.Inv, FR.Next, FR.Enabled, F.Honest, SystemOf;
    forall n, g, q, t | Rendered(port, n, g, q, t) ensures Rendered(port.(events := port.events + [e]), n, g, q, t) {
      FR.SettledOnce(SystemOf(port), e, n);
    }
  }

  /** What a port's event leaves as it was: its calls, and with them what waits for them. */
  lemma WaitsStay(w: Worker, i: nat, e: FR.Event<Tree>)
    requires i < |w.ports| && AllWait(w)
    requires SystemOf(w.ports[i]).s.calls <= SystemOf(WithEvent(w, i, e).ports[i]).s.calls
    ensures AllWait(WithEvent(w, i, e))
  {
    hide SystemOf;
    var w' := WithEvent(w, i, e);
    forall n | n in w'.served ensures Waits(w', n) {
      assert Waits(w, n);
    }
  }

  /** Everything rests on what it rested on, after one more event on one port. */
  lemma EventKeeps(p: Policy, w: Worker, i: nat, e: FR.Event<Tree>)
    requires PortsSane(p, w) && AllWait(w) && AllBacked(w)
    requires i < |w.ports| && FR.Enabled(SystemOf(w.ports[i]), e) && F.Honest(p, SystemOf(w.ports[i]), e)
    ensures var w' := WithEvent(w, i, e);
      && PortsSane(p, w') && AllWait(w') && AllBacked(w')
      && SystemOf(w'.ports[i]) == FR.Next(SystemOf(w.ports[i]), e)
    ensures forall g, q :: Backed(w, g, q) ==> Backed(WithEvent(w, i, e), g, q)
  {
    var w' := WithEvent(w, i, e);
    assert Sane(p, w.ports[i]);
    PortGoesOn(p, w.ports[i], e);
    CallsGrow(SystemOf(w.ports[i]), e);
    BackedStays(p, w, i, e);
    hide FR.Next, FR.Enabled, F.Honest, SystemOf, Sane, AllWait, Backed;
    WaitsStay(w, i, e);
  }

  lemma BackedStays(p: Policy, w: Worker, i: nat, e: FR.Event<Tree>)
    requires i < |w.ports| && Sane(p, w.ports[i])
    requires FR.Enabled(SystemOf(w.ports[i]), e) && F.Honest(p, SystemOf(w.ports[i]), e)
    ensures forall g, q :: Backed(w, g, q) ==> Backed(WithEvent(w, i, e), g, q)
  {
    RenderedStays(p, w.ports[i], e);
    hide Rendered, Sane, SystemOf, F.Honest, FR.Enabled;
    var w' := WithEvent(w, i, e);
    forall g, q | Backed(w, g, q) ensures Backed(w', g, q) {
      var j: nat, n: nat, t :|
        j < |w.ports| && Rendered(w.ports[j], n, g, q, t) && (g, q, t) in w.accepted;
      assert Rendered(w'.ports[j], n, g, q, t);
    }
  }

  // ----- one event of the Worker -----

  /** A reply may be posted that claims nothing, or what is backed. */
  lemma Posts(w: Worker, m: Answer)
    requires AllWait(w) && AllBacked(w) && (m.status == PS.RenderedStatus ==> Backed(w, m.generation, m.requestId))
    ensures AllWait(w.(out := w.out + [m])) && AllBacked(w.(out := w.out + [m]))
  {
    var w' := w.(out := w.out + [m]);
    assert forall g, q :: Backed(w', g, q) <==> Backed(w, g, q);
    hide Backed;
    forall n | n in w.served ensures Waits(w', n) {
      assert Waits(w, n);
    }
  }

  lemma AcceptedMore(w: Worker, a: (int, int, Tree))
    requires AllWait(w) && AllBacked(w)
    ensures AllWait(w.(accepted := w.accepted + {a})) && AllBacked(w.(accepted := w.accepted + {a}))
  {
    hide Rendered;
    var w' := w.(accepted := w.accepted + {a});
    forall n | n in w.served ensures Waits(w', n) {
      assert Waits(w, n);
    }
    forall g, q | Backed(w, g, q) ensures Backed(w', g, q) {
      var i: nat, n: nat, t :|
        i < |w.ports| && Rendered(w.ports[i], n, g, q, t) && (g, q, t) in w.accepted;
      assert Rendered(w'.ports[i], n, g, q, t);
    }
  }

  /** A call may always be made; on an open port it takes the next number and carries what
      it was made with. */
  lemma CallMade(p: Policy, port: Port, c: FC.Call<Tree>, post: FC.Post)
    requires Sane(p, port) && !SystemOf(port).s.closed
    ensures var (y, e) := (SystemOf(port), FR.CallRender(c, post));
      && FR.Enabled(y, e) && F.Honest(p, y, e) && y.s.seqNo == |y.s.calls|
      && FR.Next(y, e).s.calls == y.s.calls + [c] && !FR.Next(y, e).s.closed
  {
    PortInv(p, port);
  }

  lemma DeliverKeeps(p: Policy, w: Worker, reply: Answer, post: FC.Post)
    requires Inv(p, w) && !w.closed && w.ports != []
    requires reply.tree.Some? && reply.status == PS.AcceptedStatus
    requires (reply.generation, reply.requestId, reply.tree.value) in w.accepted
    ensures Inv(p, Deliver(w, reply, post))
  {
    hide FR.Next, FR.Enabled, SystemOf, Sane, AllWait, AllBacked, F.Honest;
    var i, rest := |w.ports| - 1, reply.(tree := None);
    var c := FC.Call(reply.tree, reply.generation, reply.requestId);
    CallMade(p, w.ports[i], c, post);
    EventKeeps(p, w, i, FR.CallRender(c, post));
    var w' := WithEvent(w, i, FR.CallRender(c, post));
    if post.Throws? {
      Posts(w', Settled(rest, FC.PostFailed(None)));
    } else {
      NowWaits(w', SystemOf(w.ports[i]).s.seqNo + 1, rest, reply.tree.value);
    }
  }

  lemma NowWaits(w: Worker, n: nat, rest: Answer, t: Tree)
    requires AllWait(w) && AllBacked(w) && w.ports != [] && rest.status == PS.AcceptedStatus
    requires var calls := SystemOf(w.ports[|w.ports| - 1]).s.calls;
      1 <= n <= |calls| && calls[n - 1] == FC.Call(Some(t), rest.generation, rest.requestId)
    requires (rest.generation, rest.requestId, t) in w.accepted
    ensures AllWait(w.(served := w.served[n := rest])) && AllBacked(w.(served := w.served[n := rest]))
  {
    hide SystemOf;
    var w' := w.(served := w.served[n := rest]);
    forall k | k in w'.served ensures Waits(w', k) {
      assert k != n ==> Waits(w, k);
    }
    assert forall g, q :: Backed(w', g, q) <==> Backed(w, g, q);
  }

  lemma ServeKeeps(p: Policy, w: Worker, m: Asked, v: Verdict, post: FC.Post)
    requires Inv(p, w) && !w.closed
    ensures Inv(p, Serve(w, m, v, post))
  {
    hide Sane, SystemOf, AllWait, AllBacked;
    if m.Asked? && DeliveryRefused(m.delivery, w.ports != []) {
      Posts(w, ReplyTo(m, PS.ResultKind, PS.RejectedStatus, false));
    } else {
      var reply := HandleRequest(m, v);
      if reply.status != PS.AcceptedStatus {
        Posts(w, reply);
      } else {
        var a := (reply.generation, reply.requestId, v.tree);
        var w' := w.(accepted := w.accepted + {a});
        AcceptedMore(w, a);
        if w.ports != [] {
          DeliverKeeps(p, w', reply, post);
        } else {
          Posts(w', reply);
        }
      }
    }
  }

  lemma AttachKeeps(p: Policy, w: Worker, ids: FC.Ids)
    requires Inv(p, w)
    ensures Inv(p, Attach(w, ids))
  {
    DisposeKeeps(p, w);
    hide Sane, SystemOf, AllWait, AllBacked;
    NewPortKeeps(p, if w.ports == [] then w else WithEvent(w, |w.ports| - 1, FR.DisposeSender), ids);
  }

  /** The current port's sender may always be disposed. */
  lemma DisposeKeeps(p: Policy, w: Worker)
    requires Inv(p, w)
    ensures w.ports != [] ==>
      var w' := WithEvent(w, |w.ports| - 1, FR.DisposeSender);
      PortsSane(p, w') && AllWait(w') && AllBacked(w')
  {
    if w.ports != [] {
      EventKeeps(p, w, |w.ports| - 1, FR.DisposeSender);
    }
  }

  lemma NewPortKeeps(p: Policy, w: Worker, ids: FC.Ids)
    requires PortsSane(p, w) && AllBacked(w)
    ensures Inv(p, w.(ports := w.ports + [Port(ids, [])], served := map[]))
  {
    assert Sane(p, Port(ids, [])) && !SystemOf(Port(ids, [])).s.closed;
    hide Sane, SystemOf, Rendered;
    var w' := w.(ports := w.ports + [Port(ids, [])], served := map[]);
    forall g, q | Backed(w, g, q) ensures Backed(w', g, q) {
      var i: nat, n: nat, t :|
        i < |w.ports| && Rendered(w.ports[i], n, g, q, t) && (g, q, t) in w.accepted;
      assert Rendered(w'.ports[i], n, g, q, t);
    }
  }

  /** The reply passed on when the frame has answered is backed by that answer. */
  lemma AnswerIsBacked(w: Worker, w': Worker, n: nat)
    requires n in w.served && Waits(w, n) && |w'.ports| == |w.ports| && w'.accepted == w.accepted
    requires var i := |w.ports| - 1;
      SystemOf(w.ports[i]).s.calls <= SystemOf(w'.ports[i]).s.calls && n in SystemOf(w'.ports[i]).s.settled
    ensures var m := Settled(w.served[n], SystemOf(w'.ports[|w.ports| - 1]).s.settled[n]);
      m.status == PS.RenderedStatus ==> Backed(w', m.generation, m.requestId)
  {
    var i := |w.ports| - 1;
    var c, s := SystemOf(w.ports[i]).s.calls[n - 1], SystemOf(w'.ports[i]).s;
    assert s.calls[n - 1] == c;
    hide SystemOf;
    if s.settled[n] == FC.Ok {
      assert Rendered(w'.ports[i], n, c.generation, c.requestId, c.tree.value);
      hide Rendered;
    }
  }

  lemma OnPortKeeps(p: Policy, w: Worker, i: nat, e: FR.Event<Tree>)
    requires Inv(p, w) && Enabled(p, w, PortEvent(i, e))
    ensures Inv(p, OnPort(w, i, e))
  {
    hide FR.Next, FR.Enabled, F.Honest, SystemOf, Sane, AllBacked, Backed, Settled;
    var w' := WithEvent(w, i, e);
    EventKeeps(p, w, i, e);
    CallsGrow(SystemOf(w.ports[i]), e);
    if Answers(w, i, e) {
      var n := e.reply.seqNo;
      assert Waits(w, n);
      AnswerIsBacked(w, w', n);
      var m := Settled(w.served[n], SystemOf(w'.ports[i]).s.settled[n]);
      Posts(w', m);
      NoLongerWaits(w', m, n);
    }
  }

  lemma NoLongerWaits(w: Worker, m: Answer, n: nat)
    requires AllWait(w) && AllBacked(w.(out := w.out + [m]))
    ensures AllWait(w.(out := w.out + [m], served := w.served - {n}))
    ensures AllBacked(w.(out := w.out + [m], served := w.served - {n}))
  {
    var w1, w2 := w.(out := w.out + [m]), w.(out := w.out + [m], served := w.served - {n});
    forall k | k in w2.served ensures Waits(w2, k) {
      assert Waits(w, k);
    }
    assert forall g, q :: Backed(w1, g, q) <==> Backed(w2, g, q);
  }

  lemma NextKeeps(p: Policy, w: Worker, e: Event)
    requires Inv(p, w) && Enabled(p, w, e)
    ensures Inv(p, Next(w, e))
  {
    hide AllWait, AllBacked, SystemOf, Sane, F.Honest, FR.Next, Serve, Attach, OnPort;
    match e
    case PortEvent(i, pe) => OnPortKeeps(p, w, i, pe);
    case Request(m, v, post) => if !w.closed { ServeKeeps(p, w, m, v, post); }
    case TurnAway(m) =>
      Posts(w, ReplyTo(m, PS.ResultKind, PS.RejectedStatus, false));
    case AttachFrame(ids) => AttachKeeps(p, w, ids);
    case Close =>
      if w.closed || w.ports == [] {
        ClosedKeeps(p, w);
      } else {
        DisposeKeeps(p, w);
        ClosedKeeps(p, WithEvent(w, |w.ports| - 1, FR.DisposeSender));
      }
  }

  lemma ClosedKeeps(p: Policy, w: Worker)
    requires PortsSane(p, w) && AllWait(w) && AllBacked(w)
    ensures Inv(p, w.(closed := true))
  {
    hide Sane, SystemOf;
    forall n | n in w.served ensures Waits(w.(closed := true), n) {
      assert Waits(w, n);
    }
    assert forall g, q :: Backed(w.(closed := true), g, q) <==> Backed(w, g, q);
  }

  // ----- runs -----

  ghost predicate IsRun(p: Policy, w: Worker, events: seq<Event>)
    decreases |events|
  {
    events == []
    || (Enabled(p, w, events[0]) && IsRun(p, Next(w, events[0]), events[1..]))
  }

  ghost function After(p: Policy, w: Worker, events: seq<Event>): Worker
    requires IsRun(p, w, events)
    decreases |events|
  {
    if events == [] then w else After(p, Next(w, events[0]), events[1..])
  }

  lemma {:induction false} RunKeeps(p: Policy, w: Worker, events: seq<Event>)
    requires Inv(p, w) && IsRun(p, w, events)
    ensures Inv(p, After(p, w, events))
    decreases |events|
  {
    hide Inv, Next;
    if events != [] {
      NextKeeps(p, w, events[0]);
      RunKeeps(p, Next(w, events[0]), events[1..]);
    }
  }

  /** Whenever the Worker tells the host `rendered`, a tree its checker accepted for that
      very request was called for on a port it held, that call settled as rendered, and the
      frame had the tree on display when it answered. */
  lemma RenderedRepliesAreBacked(p: Policy, events: seq<Event>, m: Answer, earlier: seq<Tree>)
    returns (port: Port, n: nat, t: Tree, k: nat)
    requires IsRun(p, NewWorker(), events)
    requires m in After(p, NewWorker(), events).out && m.status == PS.RenderedStatus
    ensures port in After(p, NewWorker(), events).ports && Rendered(port, n, m.generation, m.requestId, t)
    ensures (m.generation, m.requestId, t) in After(p, NewWorker(), events).accepted
    ensures k < |SystemOf(port).r.log| && SystemOf(port).r.log[k].seqNo == n
    ensures F.ShownAt(p, earlier, SystemOf(port).r.log, k, t)
  {
    RunKeeps(p, NewWorker(), events);
    var w := After(p, NewWorker(), events);
    assert Backed(w, m.generation, m.requestId);
    var i: nat, j: nat, tree :|
      i < |w.ports| && Rendered(w.ports[i], j, m.generation, m.requestId, tree)
      && (m.generation, m.requestId, tree) in w.accepted;
    port, n, t := w.ports[i], j, tree;
    assert Sane(p, port);
    k := DisplayedThen(p, port, n, m.generation, m.requestId, t, earlier);
  }

  lemma DisplayedThen(p: Policy, port: Port, n: nat, generation: int, requestId: int, t: Tree, earlier: seq<Tree>)
    returns (k: nat)
    requires Sane(p, port) && Rendered(port, n, generation, requestId, t)
    ensures k < |SystemOf(port).r.log| && SystemOf(port).r.log[k].seqNo == n
    ensures F.ShownAt(p, earlier, SystemOf(port).r.log, k, t)
  {
    F.RenderedMeansDisplayed(p, port.ids, port.events, earlier, n);
    var log := SystemOf(port).r.log;
    k :| k < |log| && log[k].seqNo == n && F.ShownAt(p, earlier, log, k, t);
  }
}

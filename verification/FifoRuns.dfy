/** A first-in first-out, lossless port with no disposal, timeout or failing post:
    what delivering everything leaves behind. */
module FifoRuns {
  import opened FrameChannel
  import opened FrameRuns
  import opened Options

  /** `toR` commands and `toS` acknowledgements have been delivered, oldest first. */
  datatype Fifo<T> = Fifo(y: System<T>, toR: nat, toS: nat)

  datatype Step<+T> = Issue(call: Call<T>) | DeliverCommand(drawn: Drawn) | DeliverAck

  predicate CanStep<T>(f: Fifo<T>, e: Step<T>) {
    match e
    case Issue(_) => true
    case DeliverCommand(_) => f.toR < |f.y.s.posted|
    case DeliverAck => f.toS < |f.y.r.posted|
  }

  /** The step of the general system that a delivery in order amounts to. */
  function Underlying<T>(f: Fifo<T>, e: Step<T>): Event<T>
    requires CanStep(f, e)
  {
    match e
    case Issue(call) => CallRender(call, Posted)
    case DeliverCommand(drawn) => ToReceiver(f.y.s.posted[f.toR], drawn)
    case DeliverAck => ToSender(f.y.r.posted[f.toS])
  }

  function Stepped<T>(f: Fifo<T>, e: Step<T>): Fifo<T>
    requires CanStep(f, e)
  {
    Fifo(Next(f.y, Underlying(f, e)),
         if e.DeliverCommand? then f.toR + 1 else f.toR,
         if e.DeliverAck? then f.toS + 1 else f.toS)
  }

  predicate IsSchedule<T>(f: Fifo<T>, steps: seq<Step<T>>)
    decreases |steps|
  {
    steps == [] || (CanStep(f, steps[0]) && IsSchedule(Stepped(f, steps[0]), steps[1..]))
  }

  function Played<T>(f: Fifo<T>, steps: seq<Step<T>>): Fifo<T>
    requires IsSchedule(f, steps)
    decreases |steps|
  {
    if steps == [] then f else Played(Stepped(f, steps[0]), steps[1..])
  }

  /** The frame reads only commands for valid identities with natural numbers and a tree. */
  predicate Deliverable<T>(ids: Ids, c: Call<T>) {
    IdsOk(ids) && c.generation >= 0 && c.requestId >= 0 && c.tree.Some?
  }

  ghost function Logged<T>(log: seq<Rendering<T>>): set<nat> {
    set i | 0 <= i < |log| :: log[i].seqNo
  }

  ghost predicate Commands<T>(s: Sender<T>) {
    && !s.closed && s.ignored == 0
    && |s.posted| == s.seqNo == |s.calls|
    && forall i :: 0 <= i < |s.posted| ==> s.posted[i] == RenderMessage(s.ids, s.calls[i], i + 1)
  }

  /** The frame has drawn exactly the deliverable ones among the first `toR` calls. */
  ghost predicate Drew<T>(r: Receiver<T>, calls: seq<Call<T>>, toR: nat) {
    && !r.closed && toR <= |calls| && r.lastSeq <= toR
    && r.ignored + |r.log| == toR
    && (forall n :: n in Logged(r.log) <==> 1 <= n <= toR && Deliverable(r.ids, calls[n - 1]))
    && |r.posted| == |r.log|
    && forall i :: 0 <= i < |r.posted| ==> IsFrameAck(r.posted[i], r.ids)
  }

  /** The sender has settled exactly what the delivered acknowledgements answer. */
  ghost predicate Heard<T>(s: Sender<T>, log: seq<Rendering<T>>, toS: nat) {
    && toS <= |log|
    && s.settled.Keys == Logged(log[..toS])
    && forall n :: n in s.settled ==> s.settled[n].Ok? || s.settled[n].FrameRefused?
  }

  ghost predicate FifoInv<T>(f: Fifo<T>) {
    && Inv(f.y)
    && Commands(f.y.s)
    && Drew(f.y.r, f.y.s.calls, f.toR)
    && Heard(f.y.s, f.y.r.log, f.toS)
  }

  lemma LoggedSnoc<T>(log: seq<Rendering<T>>, e: Rendering<T>)
    ensures Logged(log + [e]) == Logged(log) + {e.seqNo}
  {
    var log' := log + [e];
    assert log'[|log|] == e;
    forall n | n in Logged(log)
      ensures n in Logged(log')
    {
      var i :| 0 <= i < |log| && log[i].seqNo == n;
      assert log'[i] == log[i];
    }
  }

  lemma IssueStep<T>(f: Fifo<T>, c: Call<T>)
    requires FifoInv(f)
    ensures FifoInv(Stepped(f, Issue(c)))
  {
    hide Inv, Logged, Renders, IsAckOf;
    NextKeeps(f.y, CallRender(c, Posted));
  }

  lemma CommandStep<T>(f: Fifo<T>, drawn: Drawn)
    requires FifoInv(f) && CanStep(f, DeliverCommand(drawn))
    ensures FifoInv(Stepped(f, DeliverCommand(drawn)))
  {
    hide Logged, Inv, RefusalReason;
    var r, c, n := f.y.r, f.y.s.calls[f.toR], f.toR + 1;
    var m := f.y.s.posted[f.toR];
    NextKeeps(f.y, ToReceiver(m, drawn));
    var f' := Stepped(f, DeliverCommand(drawn));
    if Deliverable(r.ids, c) {
      var e := Rendering(c.tree.value, c.generation, c.requestId, n, drawn.Success?);
      LoggedSnoc(r.log, e);
      assert f'.y.r.log == r.log + [e];
      assert f'.y.r.log[..f.toS] == r.log[..f.toS];
    }
  }

  /** The next acknowledgement answers a call that is still pending. */
  lemma NextAckIsAwaited<T>(f: Fifo<T>)
    requires FifoInv(f) && f.toS < |f.y.r.posted|
    ensures var m, e := f.y.r.posted[f.toS], f.y.r.log[f.toS];
      && IsAckOf(m, e) && IsFrameAck(m, f.y.s.ids)
      && e.seqNo in f.y.s.pending
      && f.y.s.pending[e.seqNo] == Entry(m.generation, m.requestId)
  {
    var y := f.y;
    var e := y.r.log[f.toS];
    assert Renders(e, y.s.calls);
    assert e.seqNo !in Logged(y.r.log[..f.toS]);
  }

  lemma AckStep<T>(f: Fifo<T>)
    requires FifoInv(f) && CanStep(f, DeliverAck)
    ensures FifoInv(Stepped(f, DeliverAck))
  {
    hide Inv, Logged, Renders, Deliverable;
    NextAckIsAwaited(f);
    var m, e := f.y.r.posted[f.toS], f.y.r.log[f.toS];
    NextKeeps(f.y, ToSender(m));
    LoggedSnoc(f.y.r.log[..f.toS], e);
    assert f.y.r.log[..f.toS] + [e] == f.y.r.log[..f.toS + 1];
  }

  lemma {:induction false} ScheduleKeeps<T>(f: Fifo<T>, steps: seq<Step<T>>)
    requires FifoInv(f) && IsSchedule(f, steps)
    ensures FifoInv(Played(f, steps))
    decreases |steps|
  {
    if steps != [] {
      match steps[0] {
        case Issue(call) => IssueStep(f, call);
        case DeliverCommand(drawn) => CommandStep(f, drawn);
        case DeliverAck => AckStep(f);
      }
      ScheduleKeeps(Stepped(f, steps[0]), steps[1..]);
    }
  }

  function Start<T>(ids: Ids): Fifo<T> {
    Fifo(Init(ids), 0, 0)
  }

  lemma StartInv<T>(ids: Ids)
    ensures FifoInv(Start<T>(ids))
  {
    InitInv<T>(ids);
  }

  // ----- draining -----

  /** Deliveries still to come, counting the acknowledgement each command may cause. */
  function Outstanding<T>(f: Fifo<T>): int {
    2 * (|f.y.s.posted| - f.toR) + (|f.y.r.posted| - f.toS)
  }

  predicate Quiet<T>(f: Fifo<T>) {
    f.toR == |f.y.s.posted| && f.toS == |f.y.r.posted|
  }

  /** Every delivery, in whatever order commands and acknowledgements are taken, brings
      the channel closer to empty; while it is not empty, some delivery is possible. */
  lemma DeliveringEnds<T>(f: Fifo<T>, e: Step<T>)
    requires FifoInv(f) && CanStep(f, e) && !e.Issue?
    ensures 0 <= Outstanding(Stepped(f, e)) < Outstanding(f)
    ensures Quiet(f) <==> Outstanding(f) == 0
    ensures !Quiet(f) ==> CanStep(f, DeliverAck) || forall drawn :: CanStep(f, DeliverCommand(drawn))
  {
    hide Inv, Logged, Deliverable, RenderMessage, AckMessage, IsFrameRender, IsFrameAck, BoundedReason;
  }

  /** Deliver everything, commands first. */
  ghost function Drain<T>(f: Fifo<T>, drawn: nat -> Drawn): (f': Fifo<T>)
    requires FifoInv(f)
    ensures FifoInv(f') && Quiet(f') && f'.y.s.calls == f.y.s.calls && f'.y.s.ids == f.y.s.ids
    decreases Outstanding(f)
  {
    hide Inv, Commands, Heard, Logged;
    if f.toR < |f.y.s.posted| then
      var e := DeliverCommand(drawn(f.toR));
      CommandStep(f, drawn(f.toR));
      DeliveringEnds(f, e);
      Drain(Stepped(f, e), drawn)
    else if f.toS < |f.y.r.posted| then
      AckStep(f);
      DeliveringEnds(f, DeliverAck);
      Drain(Stepped(f, DeliverAck), drawn)
    else
      QuietBounds(f);
      f
  }

  lemma QuietBounds<T>(f: Fifo<T>)
    requires FifoInv(f) && f.toR >= |f.y.s.posted| && f.toS >= |f.y.r.posted|
    ensures Quiet(f)
  {
  }

  /** A drained channel: the calls the frame could read are settled, the others are still
      pending; both ends agree on what was rendered and refused; the sender ignored
      nothing and the frame ignored exactly the unreadable calls. */
  lemma Drained<T>(f: Fifo<T>)
    requires FifoInv(f) && Quiet(f)
    ensures forall n :: 1 <= n <= f.y.s.seqNo ==> (n in f.y.s.settled <==> Deliverable(f.y.s.ids, f.y.s.calls[n - 1]))
    ensures f.y.s.pending == map[] <==> forall c :: c in f.y.s.calls ==> Deliverable(f.y.s.ids, c)
    ensures f.y.s.rendered == f.y.r.rendered && f.y.s.refused == f.y.r.refused
    ensures f.y.s.ignored == 0 && f.y.r.ignored == |f.y.s.pending|
  {
    hide Inv, Logged, Deliverable, Counted;
    var y := f.y;
    InvParts(y);
    assert y.r.log[..f.toS] == y.r.log;
    SettledAgrees(y);
    PendingIsUndeliverable(f);
    PendingAndSettled(y.s);
    LoggedSize(y.r.log);
  }

  lemma InvParts<T>(y: System<T>)
    requires Inv(y)
    ensures y.s.ids == y.r.ids && SenderInv(y.s) && AllHonest(y.s.settled, y.r.log) && Counted(y)
    ensures ReceiverInv(y.r, y.s.calls)
    ensures forall i, j :: 0 <= i < j < |y.r.log| ==> y.r.log[i].seqNo < y.r.log[j].seqNo
  {
  }

  lemma PendingAndSettled<T>(s: Sender<T>)
    requires SenderInv(s)
    ensures |s.pending| + |s.settled| == s.seqNo
  {
    assert s.pending.Keys + s.settled.Keys == UpTo(s.seqNo);
  }

  lemma PendingIsUndeliverable<T>(f: Fifo<T>)
    requires FifoInv(f) && Quiet(f)
    ensures f.y.s.pending == map[] <==> forall c :: c in f.y.s.calls ==> Deliverable(f.y.s.ids, c)
  {
    var y := f.y;
    assert y.r.log[..f.toS] == y.r.log;
    if y.s.pending == map[] {
      forall c | c in y.s.calls
        ensures Deliverable(y.s.ids, c)
      {
        var i :| 0 <= i < |y.s.calls| && y.s.calls[i] == c;
        assert i + 1 in y.s.settled;
      }
    }
    forall n | n in y.s.pending
      ensures !Deliverable(y.s.ids, y.s.calls[n - 1])
    {
      assert n !in y.s.settled;
    }
    assert y.s.pending != map[] ==> exists n :: n in y.s.pending;
  }

  /** With every answer heard, a call settled as rendered exactly when it was drawn. */
  lemma SettledAgrees<T>(y: System<T>)
    requires ReceiverInv(y.r, y.s.calls) && AllHonest(y.s.settled, y.r.log) && Counted(y)
    requires y.s.settled.Keys == Logged(y.r.log)
    requires forall n :: n in y.s.settled ==> y.s.settled[n].Ok? || y.s.settled[n].FrameRefused?
    ensures y.s.rendered == y.r.rendered && y.s.refused == y.r.refused
  {
    hide IsAckOf, Renders, Counted, OkCalls, RefusedCalls, Numbers;
    OutcomesAgree(y.s, y.r.log);
    CountersAgree(y);
  }

  lemma CountersAgree<T>(y: System<T>)
    requires Counted(y)
    requires OkCalls(y.s) == Numbers(y.r.log, true) && RefusedCalls(y.s) == Numbers(y.r.log, false)
    ensures y.s.rendered == y.r.rendered && y.s.refused == y.r.refused
  {
  }

  lemma OutcomesAgree<T>(s: Sender<T>, log: seq<Rendering<T>>)
    requires forall i, j :: 0 <= i < j < |log| ==> log[i].seqNo < log[j].seqNo
    requires AllHonest(s.settled, log) && s.settled.Keys == Logged(log)
    requires forall n :: n in s.settled ==> s.settled[n].Ok? || s.settled[n].FrameRefused?
    ensures OkCalls(s) == Numbers(log, true) && RefusedCalls(s) == Numbers(log, false)
  {
    forall n | n in s.settled
      ensures n in OkCalls(s) <==> n in Numbers(log, true)
      ensures n in RefusedCalls(s) <==> n in Numbers(log, false)
    {
      assert Honest(n, s.settled[n], log);
    }
    forall i | 0 <= i < |log|
      ensures log[i].seqNo in s.settled
    {
      assert log[i].seqNo in Logged(log);
    }
  }

  lemma {:induction false} LoggedSize<T>(log: seq<Rendering<T>>)
    requires forall i, j :: 0 <= i < j < |log| ==> log[i].seqNo < log[j].seqNo
    ensures |Logged(log)| == |log|
  {
    if log != [] {
      var m := |log| - 1;
      LoggedSize(log[..m]);
      LoggedSnoc(log[..m], log[m]);
      assert log == log[..m] + [log[m]];
      assert log[m].seqNo !in Logged(log[..m]);
    }
  }

  /** On such a port, with readable calls, draining after any
      schedule leaves nothing pending and nothing ignored, and both ends agree. */
  lemma DrainSettlesEverything<T>(ids: Ids, steps: seq<Step<T>>, drawn: nat -> Drawn)
    requires IsSchedule(Start<T>(ids), steps)
    requires forall c :: c in Played(Start<T>(ids), steps).y.s.calls ==> Deliverable(ids, c)
    ensures FifoInv(Played(Start<T>(ids), steps))
    ensures var f := Drain(Played(Start<T>(ids), steps), drawn);
      && f.y.s.pending == map[] && f.y.s.ignored == f.y.r.ignored == 0
      && f.y.s.rendered == f.y.r.rendered && f.y.s.refused == f.y.r.refused
  {
    hide FifoInv, Drain;
    StartInv<T>(ids);
    ScheduleKeeps(Start<T>(ids), steps);
    PlayedIds(Start<T>(ids), steps);
    Drained(Drain(Played(Start<T>(ids), steps), drawn));
  }

  lemma {:induction false} PlayedIds<T>(f: Fifo<T>, steps: seq<Step<T>>)
    requires IsSchedule(f, steps)
    ensures Played(f, steps).y.s.ids == f.y.s.ids
    decreases |steps|
  {
    if steps != [] {
      PlayedIds(Stepped(f, steps[0]), steps[1..]);
    }
  }

  lemma OneCall<T>(ids: Ids, c: Call<T>)
    ensures IsSchedule(Start<T>(ids), [Issue(c)])
    ensures FifoInv(Played(Start<T>(ids), [Issue(c)]))
    ensures var s := Played(Start<T>(ids), [Issue(c)]).y.s; s.calls == [c] && s.ids == ids
  {
    StartInv<T>(ids);
    IssueStep(Start<T>(ids), c);
    hide FifoInv;
    assert [Issue(c)][1..] == [];
  }

  /** Otherwise it need not: a call the frame cannot read is never answered. */
  lemma UnreadableStaysPending<T>(ids: Ids, c: Call<T>, drawn: nat -> Drawn)
    requires !Deliverable(ids, c)
    ensures var steps := [Issue(c)];
      && IsSchedule(Start<T>(ids), steps) && FifoInv(Played(Start<T>(ids), steps))
      && Drain(Played(Start<T>(ids), steps), drawn).y.s.pending != map[]
  {
    hide FifoInv, Drain, IsSchedule, Played, Start;
    OneCall<T>(ids, c);
    assert c in [c];
    Drained(Drain(Played(Start<T>(ids), [Issue(c)]), drawn));
  }

  /** Two such calls, under valid identities: a negative generation, and no tree. */
  lemma UnreadableCallStaysPending<T>(tree: T, drawn: nat -> Drawn)
    ensures var ids, steps := Ids([1], [1]), [Issue(Call(Some(tree), -1, 0))];
      && IsSchedule(Start<T>(ids), steps) && FifoInv(Played(Start<T>(ids), steps))
      && Drain(Played(Start<T>(ids), steps), drawn).y.s.pending != map[]
    ensures var ids, steps := Ids([1], [1]), [Issue(Call<T>.Call(None, 0, 1))];
      && IsSchedule(Start<T>(ids), steps) && FifoInv(Played(Start<T>(ids), steps))
      && Drain(Played(Start<T>(ids), steps), drawn).y.s.pending != map[]
  {
    hide FifoInv, Drain, IsSchedule, Played, Start;
    UnreadableStaysPending(Ids([1], [1]), Call(Some(tree), -1, 0), drawn);
    UnreadableStaysPending(Ids([1], [1]), Call<T>.Call(None, 0, 1), drawn);
  }
}

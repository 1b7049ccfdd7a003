/** Sender, channel and receiver together: what holds over every interleaving, and what
    a first-in first-out channel adds. */
module FrameRuns {
  import opened FrameChannel
  import opened Options
  import opened Utf8

  // ----- an adversarial channel -----

  /** Both ends of one port. `received` counts messages handed to an open receiver. */
  datatype System<T> = System(s: Sender<T>, r: Receiver<T>, received: nat)

  datatype Event<+T> =
    | CallRender(call: Call<T>, post: Post)
    | ToReceiver(command: Message<T>, drawn: Drawn)
    | ToSender(reply: Message<T>)
    | Timeout(n: nat)
    | DisposeSender
    | DisposeReceiver

  /** The port is private: whatever arrives was posted by the other end or does not read
      as a message of its kind. A posted message may arrive late, repeatedly or never. */
  predicate Enabled<T(==)>(y: System<T>, e: Event<T>) {
    match e
    case ToReceiver(m, _) => m in y.s.posted || !IsFrameRender(m, y.r.ids)
    case ToSender(m) => m in y.r.posted || !IsFrameAck(m, y.s.ids)
    case Timeout(n) => n in y.s.pending
    case _ => true
  }

  function Next<T>(y: System<T>, e: Event<T>): System<T> {
    match e
    case CallRender(call, post) => y.(s := AfterRender(y.s, call, post))
    case ToReceiver(m, drawn) =>
      y.(r := AfterCommand(y.r, m, drawn), received := if y.r.closed then y.received else y.received + 1)
    case ToSender(m) => y.(s := AfterAck(y.s, m))
    case Timeout(n) => y.(s := Settle(y.s, n, AckTimeout))
    case DisposeSender => y.(s := AfterSenderDispose(y.s))
    case DisposeReceiver => y.(r := y.r.(closed := true))
  }

  predicate IsRun<T(==)>(y: System<T>, events: seq<Event<T>>)
    decreases |events|
  {
    events == [] || (Enabled(y, events[0]) && IsRun(Next(y, events[0]), events[1..]))
  }

  function After<T>(y: System<T>, events: seq<Event<T>>): System<T>
    decreases |events|
  {
    if events == [] then y else After(Next(y, events[0]), events[1..])
  }

  function Init<T>(ids: Ids): System<T> {
    System(NewSender(ids), NewReceiver(ids), 0)
  }

  // ----- the invariant -----

  /** Every issued call is pending or settled, never both; numbers are used once. */
  ghost predicate SenderInv<T>(s: Sender<T>) {
    && s.seqNo == s.sent == |s.calls|
    && s.pending.Keys !! s.settled.Keys
    && (forall n :: n in s.pending || n in s.settled <==> 1 <= n <= s.seqNo)
    && (forall n :: n in s.pending ==> s.pending[n] == Entry(s.calls[n - 1].generation, s.calls[n - 1].requestId))
    && (forall m :: m in s.posted ==>
      m.Message? && 1 <= m.seqNo <= s.seqNo && m == RenderMessage(s.ids, s.calls[m.seqNo - 1], m.seqNo))
    && (s.closed ==> s.pending == map[])
  }

  /** `e` ran the callback on exactly the tree of the call it is numbered after. */
  ghost predicate Renders<T>(e: Rendering<T>, calls: seq<Call<T>>) {
    && 1 <= e.seqNo <= |calls|
    && var c := calls[e.seqNo - 1];
      c.tree == Some(e.tree) && e.generation == c.generation && e.requestId == c.requestId
  }

  ghost predicate IsAckOf<T>(m: Message<T>, e: Rendering<T>) {
    && m.Message? && m.seqNo == e.seqNo && m.generation == e.generation && m.requestId == e.requestId
    && (m.kind == Rendered <==> e.ok)
    && (m.kind == Refused <==> !e.ok)
  }

  ghost predicate ReceiverInv<T>(r: Receiver<T>, calls: seq<Call<T>>) {
    && (forall i :: 0 <= i < |r.log| ==> Renders(r.log[i], calls) && r.log[i].seqNo <= r.lastSeq)
    && (forall i, j :: 0 <= i < j < |r.log| ==> r.log[i].seqNo < r.log[j].seqNo)
    && |r.posted| == |r.log| == r.rendered + r.refused
    && (forall i :: 0 <= i < |r.log| ==> IsAckOf(r.posted[i], r.log[i]))
  }

  /** What a settled promise says about the frame. */
  ghost predicate Honest<T>(n: nat, outcome: Outcome, log: seq<Rendering<T>>) {
    match outcome
    case Ok => exists i :: 0 <= i < |log| && log[i].seqNo == n && log[i].ok
    case FrameRefused(_) => exists i :: 0 <= i < |log| && log[i].seqNo == n && !log[i].ok
    case _ => true
  }

  ghost function OkCalls<T>(s: Sender<T>): set<nat> {
    set n | n in s.settled && s.settled[n] == Ok
  }

  ghost function RefusedCalls<T>(s: Sender<T>): set<nat> {
    set n | n in s.settled && s.settled[n].FrameRefused?
  }

  ghost function Numbers<T>(log: seq<Rendering<T>>, ok: bool): set<nat> {
    set i | 0 <= i < |log| && log[i].ok == ok :: log[i].seqNo
  }

  /** Each end's counters are the sizes of what they count. */
  ghost predicate Counted<T>(y: System<T>) {
    && y.s.rendered == |OkCalls(y.s)| && y.s.refused == |RefusedCalls(y.s)|
    && y.r.rendered == |Numbers(y.r.log, true)| && y.r.refused == |Numbers(y.r.log, false)|
    && y.received == y.r.rendered + y.r.refused + y.r.ignored
  }

  ghost predicate AllHonest<T>(settled: map<nat, Outcome>, log: seq<Rendering<T>>) {
    forall n :: n in settled ==> Honest(n, settled[n], log)
  }

  ghost predicate Inv<T>(y: System<T>) {
    && y.s.ids == y.r.ids
    && SenderInv(y.s)
    && ReceiverInv(y.r, y.s.calls)
    && AllHonest(y.s.settled, y.r.log)
    && Counted(y)
  }

  // ----- one step -----

  /** Settling removes a call from the pending ones and decides it for good. */
  lemma SettleKeeps<T>(s: Sender<T>, n: nat, outcome: Outcome)
    requires SenderInv(s)
    ensures SenderInv(Settle(s, n, outcome))
    ensures var s' := Settle(s, n, outcome);
      if n in s.pending && outcome == Ok then |OkCalls(s')| == |OkCalls(s)| + 1 else OkCalls(s') == OkCalls(s)
    ensures var s' := Settle(s, n, outcome);
      if n in s.pending && outcome.FrameRefused? then |RefusedCalls(s')| == |RefusedCalls(s)| + 1
      else RefusedCalls(s') == RefusedCalls(s)
  {
    var s' := Settle(s, n, outcome);
    if n in s.pending {
      assert n !in s.settled;
      if outcome == Ok {
        assert OkCalls(s') == OkCalls(s) + {n};
      } else if outcome.FrameRefused? {
        assert RefusedCalls(s') == RefusedCalls(s) + {n};
      }
    }
  }

  /** A new call's number is fresh, and its message says what the call says. */
  lemma IssueKeeps<T>(s: Sender<T>, c: Call<T>, post: Post)
    requires SenderInv(s)
    ensures SenderInv(AfterRender(s, c, post))
    ensures OkCalls(AfterRender(s, c, post)) == OkCalls(s) && RefusedCalls(AfterRender(s, c, post)) == RefusedCalls(s)
  {
    if !s.closed {
      var n := s.seqNo + 1;
      var s' := s.(seqNo := n, sent := s.sent + 1, calls := s.calls + [c],
                   pending := s.pending[n := Entry(c.generation, c.requestId)]);
      assert SenderInv(s') by {
        assert forall k :: k in s'.pending <==> k in s.pending || k == n;
      }
      if post.Throws? {
        SettleKeeps(s', n, PostFailed(BoundedReason(post.message)));
      }
    }
  }

  lemma RenderKeeps<T>(y: System<T>, c: Call<T>, post: Post)
    requires Inv(y)
    ensures Inv(Next(y, CallRender(c, post)))
  {
    IssueKeeps(y.s, c, post);
    var y' := Next(y, CallRender(c, post));
    assert forall n :: n in y'.s.settled && n !in y.s.settled ==> y'.s.settled[n].PostFailed?;
  }

  lemma DisposeKeeps<T>(y: System<T>)
    requires Inv(y)
    ensures Inv(Next(y, DisposeSender))
  {
    var y' := Next(y, DisposeSender);
    assert OkCalls(y'.s) == OkCalls(y.s) && RefusedCalls(y'.s) == RefusedCalls(y.s);
  }

  lemma TimeoutKeeps<T>(y: System<T>, n: nat)
    requires Inv(y)
    ensures Inv(Next(y, Timeout(n)))
  {
    SettleKeeps(y.s, n, AckTimeout);
  }

  lemma NumbersSnoc<T>(log: seq<Rendering<T>>, e: Rendering<T>, ok: bool)
    ensures Numbers(log + [e], ok) == Numbers(log, ok) + if e.ok == ok then {e.seqNo} else {}
  {
    var log' := log + [e];
    forall n | n in Numbers(log, ok)
      ensures n in Numbers(log', ok)
    {
      var i :| 0 <= i < |log| && log[i].ok == ok && log[i].seqNo == n;
      assert log'[i] == log[i];
    }
    assert e.ok == ok ==> log'[|log|] == e;
  }

  lemma HonestInMore<T>(settled: map<nat, Outcome>, log: seq<Rendering<T>>, e: Rendering<T>)
    requires AllHonest(settled, log)
    ensures AllHonest(settled, log + [e])
  {
    forall n | n in settled
      ensures Honest(n, settled[n], log + [e])
    {
      assert Honest(n, settled[n], log);
      if settled[n].Ok? || settled[n].FrameRefused? {
        var i :| 0 <= i < |log| && log[i].seqNo == n && log[i].ok == settled[n].Ok?;
        assert (log + [e])[i] == log[i];
      }
    }
  }

  lemma AcceptKeeps<T>(r: Receiver<T>, calls: seq<Call<T>>, m: Message<T>, drawn: Drawn)
    requires ReceiverInv(r, calls) && !r.closed && IsFrameRender(m, r.ids) && m.seqNo > r.lastSeq
    requires Renders(Rendering(m.tree.value, m.generation, m.requestId, m.seqNo, drawn.Success?), calls)
    ensures ReceiverInv(AfterCommand(r, m, drawn), calls)
  {
    var e := Rendering(m.tree.value, m.generation, m.requestId, m.seqNo, drawn.Success?);
    var r' := AfterCommand(r, m, drawn);
    assert IsAckOf(r'.posted[|r.log|], r'.log[|r.log|]);
  }

  lemma CommandCounts<T>(y: System<T>, m: Message<T>, drawn: Drawn)
    requires ReceiverInv(y.r, y.s.calls) && Counted(y)
    ensures Counted(Next(y, ToReceiver(m, drawn)))
  {
    hide ReceiverInv, Numbers, AckMessage, OkCalls, RefusedCalls;
    if !y.r.closed && IsFrameRender(m, y.r.ids) && m.seqNo > y.r.lastSeq {
      var e := Rendering(m.tree.value, m.generation, m.requestId, m.seqNo, drawn.Success?);
      NumberIsFresh(y.r, y.s.calls, m.seqNo, drawn.Success?);
      NumbersSnoc(y.r.log, e, true);
      NumbersSnoc(y.r.log, e, false);
    }
  }

  lemma NumberIsFresh<T>(r: Receiver<T>, calls: seq<Call<T>>, n: nat, ok: bool)
    requires ReceiverInv(r, calls) && n > r.lastSeq
    ensures n !in Numbers(r.log, ok)
  {
  }

  /** A render command's tree, numbers and place in the order survive the channel. */
  lemma CommandKeeps<T>(y: System<T>, m: Message<T>, drawn: Drawn)
    requires Inv(y) && Enabled(y, ToReceiver(m, drawn))
    ensures Inv(Next(y, ToReceiver(m, drawn)))
  {
    hide AllHonest, Counted, ReceiverInv;
    CommandCounts(y, m, drawn);
    if !y.r.closed && IsFrameRender(m, y.r.ids) && m.seqNo > y.r.lastSeq {
      var e := Rendering(m.tree.value, m.generation, m.requestId, m.seqNo, drawn.Success?);
      assert Renders(e, y.s.calls);
      AcceptKeeps(y.r, y.s.calls, m, drawn);
      HonestInMore(y.s.settled, y.r.log, e);
    } else {
      IgnoreKeeps(y.r, y.s.calls);
    }
  }

  lemma IgnoreKeeps<T>(r: Receiver<T>, calls: seq<Call<T>>)
    requires ReceiverInv(r, calls)
    ensures ReceiverInv(r.(ignored := r.ignored + 1), calls)
  {
  }

  /** The outcome an acknowledgement settles its call with. */
  function OutcomeOf<T>(m: Message<T>): Outcome
    requires m.Message?
  {
    if m.kind == Rendered then Ok else FrameRefused(BoundedReason(m.reason))
  }

  lemma AckIsHonest<T>(y: System<T>, m: Message<T>)
    requires ReceiverInv(y.r, y.s.calls) && m in y.r.posted && IsFrameAck(m, y.s.ids)
    ensures Honest(m.seqNo, OutcomeOf(m), y.r.log)
  {
    var i :| 0 <= i < |y.r.posted| && y.r.posted[i] == m;
    assert IsAckOf(m, y.r.log[i]);
  }

  lemma SettleHonestly<T>(s: Sender<T>, n: nat, outcome: Outcome, log: seq<Rendering<T>>)
    requires AllHonest(s.settled, log) && Honest(n, outcome, log)
    ensures AllHonest(Settle(s, n, outcome).settled, log)
  {
  }

  lemma AckKeeps<T>(y: System<T>, m: Message<T>)
    requires Inv(y) && Enabled(y, ToSender(m))
    ensures Inv(Next(y, ToSender(m)))
  {
    hide SenderInv, ReceiverInv, AllHonest, Honest, Numbers;
    if !y.s.closed && IsFrameAck(m, y.s.ids) && m.seqNo in y.s.pending {
      AckIsHonest(y, m);
      var s := if m.kind == Rendered then y.s.(rendered := y.s.rendered + 1) else y.s.(refused := y.s.refused + 1);
      CountersAside(y.s, s);
      SettleKeeps(s, m.seqNo, OutcomeOf(m));
      SettleHonestly(s, m.seqNo, OutcomeOf(m), y.r.log);
    }
    CountersAside(y.s, y.s.(ignored := y.s.ignored + 1));
  }

  lemma CountersAside<T>(s: Sender<T>, s': Sender<T>)
    requires SenderInv(s) && s' == s.(rendered := s'.rendered, refused := s'.refused, ignored := s'.ignored)
    ensures SenderInv(s') && OkCalls(s') == OkCalls(s) && RefusedCalls(s') == RefusedCalls(s)
  {
  }

  lemma NextKeeps<T>(y: System<T>, e: Event<T>)
    requires Inv(y) && Enabled(y, e)
    ensures Inv(Next(y, e))
  {
    match e
    case CallRender(call, post) => RenderKeeps(y, call, post);
    case ToReceiver(m, drawn) => CommandKeeps(y, m, drawn);
    case ToSender(m) => AckKeeps(y, m);
    case Timeout(n) => TimeoutKeeps(y, n);
    case DisposeSender => DisposeKeeps(y);
    case DisposeReceiver =>
  }

  lemma {:induction false} RunKeeps<T>(y: System<T>, events: seq<Event<T>>)
    requires Inv(y) && IsRun(y, events)
    ensures Inv(After(y, events))
    decreases |events|
  {
    if events != [] {
      NextKeeps(y, events[0]);
      RunKeeps(Next(y, events[0]), events[1..]);
    }
  }

  lemma InitInv<T>(ids: Ids)
    ensures Inv(Init<T>(ids))
  {
    assert OkCalls(NewSender<T>(ids)) == {} && RefusedCalls(NewSender<T>(ids)) == {};
    assert Numbers<T>([], true) == {} && Numbers<T>([], false) == {};
  }

  // ----- over every run -----

  /** A render call settles as rendered only if the frame ran its callback, with success,
      on that call's own tree under that call's number, generation and request id. */
  lemma RenderedMeansDrawn<T>(ids: Ids, events: seq<Event<T>>, n: nat)
    requires IsRun(Init<T>(ids), events)
    requires var s := After(Init<T>(ids), events).s; n in s.settled && s.settled[n] == Ok
    ensures var y := After(Init<T>(ids), events);
      && 1 <= n <= |y.s.calls|
      && var c := y.s.calls[n - 1];
        c.tree.Some? &&
        exists i :: 0 <= i < |y.r.log| && y.r.log[i] == Rendering(c.tree.value, c.generation, c.requestId, n, true)
  {
    hide SenderInv, Counted, After, IsRun;
    InitInv<T>(ids);
    RunKeeps(Init<T>(ids), events);
    var y := After(Init<T>(ids), events);
    assert Honest(n, y.s.settled[n], y.r.log);
    var i :| 0 <= i < |y.r.log| && y.r.log[i].seqNo == n && y.r.log[i].ok;
    assert Renders(y.r.log[i], y.s.calls);
  }

  /** The trees drawn are a subsequence of the trees sent, in the order sent, none twice. */
  lemma DrawnIsSubsequence<T>(ids: Ids, events: seq<Event<T>>)
    requires IsRun(Init<T>(ids), events)
    ensures var y := After(Init<T>(ids), events);
      && (forall i :: 0 <= i < |y.r.log| ==>
            1 <= y.r.log[i].seqNo <= |y.s.calls| && y.s.calls[y.r.log[i].seqNo - 1].tree == Some(y.r.log[i].tree))
      && forall i, j :: 0 <= i < j < |y.r.log| ==> y.r.log[i].seqNo < y.r.log[j].seqNo
  {
    InitInv<T>(ids);
    RunKeeps(Init<T>(ids), events);
    var y := After(Init<T>(ids), events);
    assert forall i :: 0 <= i < |y.r.log| ==> Renders(y.r.log[i], y.s.calls);
  }

  /** Every call issued is pending or settled, never both, and the sender never counts
      more successes than the frame. */
  lemma Accounts<T>(ids: Ids, events: seq<Event<T>>)
    requires IsRun(Init<T>(ids), events)
    ensures var y := After(Init<T>(ids), events);
      && y.s.sent == y.s.seqNo == |y.s.pending| + |y.s.settled|
      && y.s.rendered <= y.r.rendered
      && y.s.refused <= y.r.refused
      && y.received == y.r.rendered + y.r.refused + y.r.ignored
  {
    hide OkCalls, RefusedCalls, Numbers, ReceiverInv, AllHonest, After, IsRun;
    InitInv<T>(ids);
    RunKeeps(Init<T>(ids), events);
    var y := After(Init<T>(ids), events);
    assert y.s.pending.Keys + y.s.settled.Keys == UpTo(y.s.seqNo);
    HonestSubsets(y.s, y.r.log);
    SubsetSize(OkCalls(y.s), Numbers(y.r.log, true));
    SubsetSize(RefusedCalls(y.s), Numbers(y.r.log, false));
  }

  lemma HonestSubsets<T>(s: Sender<T>, log: seq<Rendering<T>>)
    requires AllHonest(s.settled, log)
    ensures OkCalls(s) <= Numbers(log, true) && RefusedCalls(s) <= Numbers(log, false)
  {
    forall n | n in OkCalls(s)
      ensures n in Numbers(log, true)
    {
      assert Honest(n, s.settled[n], log);
    }
    forall n | n in RefusedCalls(s)
      ensures n in Numbers(log, false)
    {
      assert Honest(n, s.settled[n], log);
    }
  }

  ghost function UpTo(k: nat): (u: set<nat>)
    ensures |u| == k && forall n :: n in u <==> 1 <= n <= k
  {
    if k == 0 then {} else UpTo(k - 1) + {k}
  }

  lemma SubsetSize(a: set<nat>, b: set<nat>)
    requires a <= b
    ensures |a| <= |b|
  {
    assert |b| == |a| + |b - a| by {
      assert b == a + (b - a);
    }
  }

  /** A promise that has settled keeps its value at the next event. */
  lemma SettledOnce<T>(y: System<T>, e: Event<T>, n: nat)
    requires Inv(y) && n in y.s.settled
    ensures var s := Next(y, e).s; n in s.settled && s.settled[n] == y.s.settled[n]
  {
    hide ReceiverInv, AllHonest, Counted, AckMessage, RenderMessage, AfterCommand, IsFrameAck;
  }

  /** ... and so for the rest of the run, whatever happens. */
  lemma {:induction false} SettledForGood<T>(y: System<T>, events: seq<Event<T>>, n: nat)
    requires Inv(y) && IsRun(y, events) && n in y.s.settled
    ensures var s := After(y, events).s; n in s.settled && s.settled[n] == y.s.settled[n]
    decreases |events|
  {
    if events != [] {
      NextKeeps(y, events[0]);
      SettledOnce(y, events[0], n);
      hide Inv, Next, Enabled;
      SettledForGood(Next(y, events[0]), events[1..], n);
    }
  }

  /** Disposing the sender leaves no promise open. */
  lemma DisposeSettlesAll<T>(y: System<T>, n: nat)
    requires Inv(y) && 1 <= n <= y.s.seqNo
    ensures var s := Next(y, DisposeSender).s; s.pending == map[] && n in s.settled
  {
  }
}

/** The two ends of the private port between the policy Worker and the frame. */
module FrameChannel {
  import opened Options
  import opened Utf8

  // ----- messages -----

  datatype Kind = Render | Rendered | Refused | OtherKind

  datatype Ids = Ids(instanceId: Str, sessionId: Str)

  /** Anything that can arrive on a port. A generation, request id or sequence number
      that is not a natural number reads as a negative one. */
  datatype Message<+T> =
    | NotAnObject
    | Message(protocol: int, kind: Kind, instanceId: Str, sessionId: Str,
              generation: int, requestId: int, seqNo: int, tree: Option<T>, reason: Option<Str>)

  const FRAME_PROTOCOL_VERSION := 1
  const MAX_ID := 128
  const MAX_REASON := 300

  predicate IsId(s: Str) { 0 < |s| <= MAX_ID }

  predicate IdsOk(ids: Ids) { IsId(ids.instanceId) && IsId(ids.sessionId) }

  predicate IsFrameIdentity<T>(m: Message<T>, ids: Ids) {
    && m.Message?
    && m.protocol == FRAME_PROTOCOL_VERSION
    && IsId(m.instanceId) && IsId(m.sessionId)
    && m.instanceId == ids.instanceId && m.sessionId == ids.sessionId
  }

  predicate CountsOk<T>(m: Message<T>)
    requires m.Message?
  {
    m.generation >= 0 && m.requestId >= 0 && m.seqNo >= 0
  }

  predicate IsFrameRender<T>(m: Message<T>, ids: Ids) {
    IsFrameIdentity(m, ids) && m.kind == Render && CountsOk(m) && m.tree.Some?
  }

  predicate IsFrameAck<T>(m: Message<T>, ids: Ids) {
    IsFrameIdentity(m, ids) && (m.kind == Rendered || m.kind == Refused) && CountsOk(m)
  }

  function Envelope<T>(ids: Ids, kind: Kind, generation: int, requestId: int, seqNo: int,
                       tree: Option<T>, reason: Option<Str>): Message<T>
  {
    Message(FRAME_PROTOCOL_VERSION, kind, ids.instanceId, ids.sessionId, generation, requestId, seqNo, tree, reason)
  }

  function BoundedReason(reason: Option<Str>): Option<Str> {
    if reason.Some? && |reason.value| > MAX_REASON then Some(reason.value[..MAX_REASON]) else reason
  }

  const RENDER_FAILED: Str := [0x72, 0x65, 0x6e, 0x64, 0x65, 0x72, 0x20, 0x66, 0x61, 0x69, 0x6c, 0x65, 0x64]
  const REFUSED: Str := [0x72, 0x65, 0x66, 0x75, 0x73, 0x65, 0x64]

  // ----- the sender's state -----

  /** How a render call settles. */
  datatype Outcome =
    | Ok
    | PortClosed
    | FrameRefused(detail: Option<Str>)
    | AckTimeout
    | PostFailed(detail: Option<Str>)

  datatype Entry = Entry(generation: int, requestId: int)

  /** A render call. Its arguments are not checked: a tree that is no object (null
      included) is absent, a generation or request id that is no natural number negative. */
  datatype Call<+T> = Call(tree: Option<T>, generation: int, requestId: int)

  /** `calls`, `settled` and `posted` are the sender's history: the render issued with
      number n is calls[n - 1], and settled[n] is the value its promise resolved to. */
  datatype Sender<T> = Sender(
    ids: Ids, seqNo: nat, pending: map<nat, Entry>, closed: bool,
    sent: nat, rendered: nat, refused: nat, ignored: nat,
    calls: seq<Call<T>>, settled: map<nat, Outcome>, posted: seq<Message<T>>)

  function NewSender<T>(ids: Ids): Sender<T> {
    Sender(ids, 0, map[], false, 0, 0, 0, 0, [], map[], [])
  }

  function Settle<T>(s: Sender<T>, n: nat, outcome: Outcome): Sender<T> {
    if n in s.pending then s.(pending := s.pending - {n}, settled := s.settled[n := outcome]) else s
  }

  function RenderMessage<T>(ids: Ids, c: Call<T>, n: nat): Message<T> {
    Envelope(ids, Render, c.generation, c.requestId, n, c.tree, None)
  }

  /** Whether posting throws, and with what message. */
  datatype Post = Posted | Throws(message: Option<Str>)

  function AfterRender<T>(s: Sender<T>, c: Call<T>, post: Post): Sender<T> {
    if s.closed then s
    else
      var n := s.seqNo + 1;
      var s' := s.(seqNo := n, sent := s.sent + 1, calls := s.calls + [c],
                   pending := s.pending[n := Entry(c.generation, c.requestId)]);
      match post
      case Posted => s'.(posted := s.posted + [RenderMessage(s.ids, c, n)])
      case Throws(message) => Settle(s', n, PostFailed(BoundedReason(message)))
  }

  function AfterAck<T>(s: Sender<T>, m: Message<T>): Sender<T> {
    if s.closed then s
    else if !IsFrameAck(m, s.ids) || m.seqNo !in s.pending then s.(ignored := s.ignored + 1)
    else
      var entry := s.pending[m.seqNo];
      if m.generation != entry.generation || m.requestId != entry.requestId then s.(ignored := s.ignored + 1)
      else if m.kind == Rendered then Settle(s.(rendered := s.rendered + 1), m.seqNo, Ok)
      else Settle(s.(refused := s.refused + 1), m.seqNo, FrameRefused(BoundedReason(m.reason)))
  }

  function AfterSenderDispose<T>(s: Sender<T>): Sender<T> {
    if s.closed then s
    else s.(closed := true, pending := map[], settled := s.settled + map n | n in s.pending :: PortClosed)
  }

  class FrameSender<T(==)> {
    const ids: Ids
    var seqNo: nat
    var pending: map<nat, Entry>
    var closed: bool
    var sent: nat
    var rendered: nat
    var refused: nat
    var ignored: nat
    ghost var calls: seq<Call<T>>
    var settled: map<nat, Outcome>
    var posted: seq<Message<T>>

    ghost function State(): Sender<T>
      reads this
    {
      Sender(ids, seqNo, pending, closed, sent, rendered, refused, ignored, calls, settled, posted)
    }

    constructor (ids: Ids)
      ensures State() == NewSender(ids)
    {
      this.ids := ids;
      seqNo, pending, closed := 0, map[], false;
      sent, rendered, refused, ignored := 0, 0, 0, 0;
      calls, settled, posted := [], map[], [];
    }

    method SettleEntry(n: nat, outcome: Outcome)
      modifies this
      ensures State() == Settle(old(State()), n, outcome)
    {
      if n !in pending {
        return;
      }
      pending := pending - {n};
      settled := settled[n := outcome];
    }

    method OnMessage(m: Message<T>)
      modifies this
      ensures State() == AfterAck(old(State()), m)
    {
      if closed {
        return;
      }
      if !IsFrameAck(m, ids) || m.seqNo !in pending {
        ignored := ignored + 1;
        return;
      }
      var entry := pending[m.seqNo];
      if m.generation != entry.generation || m.requestId != entry.requestId {
        ignored := ignored + 1;
        return;
      }
      if m.kind == Rendered {
        rendered := rendered + 1;
        SettleEntry(m.seqNo, Ok);
        return;
      }
      refused := refused + 1;
      SettleEntry(m.seqNo, FrameRefused(BoundedReason(m.reason)));
    }

    /** Returns the call's number, or nothing when the call settles at once as closed. */
    method RenderTree(tree: Option<T>, generation: int, requestId: int, post: Post) returns (n: Option<nat>)
      modifies this
      ensures State() == AfterRender(old(State()), Call(tree, generation, requestId), post)
      ensures n == if old(closed) then None else Some(old(seqNo) + 1)
    {
      if closed {
        return None;
      }
      seqNo := seqNo + 1;
      var mine := seqNo;
      sent := sent + 1;
      calls := calls + [Call(tree, generation, requestId)];
      pending := pending[mine := Entry(generation, requestId)];
      n := Some(mine);
      match post
      case Posted =>
        posted := posted + [Envelope(ids, Render, generation, requestId, mine, tree, None)];
      case Throws(message) =>
        SettleEntry(mine, PostFailed(BoundedReason(message)));
    }

    method OnTimeout(n: nat)
      modifies this
      ensures State() == Settle(old(State()), n, AckTimeout)
    {
      SettleEntry(n, AckTimeout);
    }

    method Dispose()
      modifies this
      ensures State() == AfterSenderDispose(old(State()))
    {
      if closed {
        return;
      }
      closed := true;
      var keys := pending.Keys;
      while keys != {}
        invariant keys == pending.Keys <= old(pending).Keys
        invariant settled == old(settled) + map n | n in old(pending) && n !in keys :: PortClosed
        invariant closed && (seqNo, sent, rendered, refused, ignored) == old((seqNo, sent, rendered, refused, ignored))
        invariant calls == old(calls) && posted == old(posted)
      {
        var n :| n in keys;
        SettleEntry(n, PortClosed);
        keys := keys - {n};
      }
    }
  }

  // ----- the receiver's state -----

  /** What the frame's render callback did. */
  datatype Drawn = Success | Failure(reason: Option<Str>) | Threw(message: Option<Str>)

  /** One run of the render callback. */
  datatype Rendering<+T> = Rendering(tree: T, generation: int, requestId: int, seqNo: nat, ok: bool)

  datatype Receiver<T> = Receiver(
    ids: Ids, lastSeq: nat, closed: bool, rendered: nat, refused: nat, ignored: nat,
    log: seq<Rendering<T>>, posted: seq<Message<T>>)

  function NewReceiver<T>(ids: Ids): Receiver<T> {
    Receiver(ids, 0, false, 0, 0, 0, [], [])
  }

  /** The reason sent back with a refusal. */
  function RefusalReason(drawn: Drawn): Str {
    var bounded := match drawn
      case Success => None
      case Failure(reason) => BoundedReason(reason)
      case Threw(message) => BoundedReason(Some(if message.Some? then BoundedReason(message).value else RENDER_FAILED));
    if bounded.Some? then bounded.value else REFUSED
  }

  function AckMessage<T>(ids: Ids, e: Rendering<T>, drawn: Drawn): Message<T> {
    if drawn.Success? then Envelope(ids, Rendered, e.generation, e.requestId, e.seqNo, None, None)
    else Envelope(ids, Refused, e.generation, e.requestId, e.seqNo, None, Some(RefusalReason(drawn)))
  }

  function AfterCommand<T>(r: Receiver<T>, m: Message<T>, drawn: Drawn): Receiver<T> {
    if r.closed then r
    else if !IsFrameRender(m, r.ids) || m.seqNo <= r.lastSeq then r.(ignored := r.ignored + 1)
    else
      var e := Rendering(m.tree.value, m.generation, m.requestId, m.seqNo, drawn.Success?);
      var r' := r.(lastSeq := m.seqNo, log := r.log + [e], posted := r.posted + [AckMessage(r.ids, e, drawn)]);
      if drawn.Success? then r'.(rendered := r.rendered + 1) else r'.(refused := r.refused + 1)
  }

  class FrameReceiver<T(==)> {
    const ids: Ids
    var lastSeq: nat
    var closed: bool
    var rendered: nat
    var refused: nat
    var ignored: nat
    ghost var log: seq<Rendering<T>>
    var posted: seq<Message<T>>

    ghost function State(): Receiver<T>
      reads this
    {
      Receiver(ids, lastSeq, closed, rendered, refused, ignored, log, posted)
    }

    constructor (ids: Ids)
      ensures State() == NewReceiver(ids)
    {
      this.ids := ids;
      lastSeq, closed, rendered, refused, ignored := 0, false, 0, 0, 0;
      log, posted := [], [];
    }

    /** `drawn` is what the render callback does if it is called. */
    method OnMessage(m: Message<T>, drawn: Drawn)
      modifies this
      ensures State() == AfterCommand(old(State()), m, drawn)
    {
      if closed {
        return;
      }
      if !IsFrameRender(m, ids) || m.seqNo <= lastSeq {
        ignored := ignored + 1;
        return;
      }
      lastSeq := m.seqNo;
      log := log + [Rendering(m.tree.value, m.generation, m.requestId, m.seqNo, drawn.Success?)];
      if drawn.Success? {
        rendered := rendered + 1;
        posted := posted + [Envelope(ids, Rendered, m.generation, m.requestId, m.seqNo, None, None)];
      } else {
        refused := refused + 1;
        posted := posted + [Envelope(ids, Refused, m.generation, m.requestId, m.seqNo, None,
          Some(RefusalReason(drawn)))];
      }
    }

    method Dispose()
      modifies this
      ensures State() == old(State()).(closed := true)
    {
      closed := true;
    }
  }
}

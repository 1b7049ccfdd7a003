/** When the class allowlist reaches a session's Worker: exactly when nothing answers the
    session's first request while it is still held. */
module PolicyClasses {
  import opened Acceptance
  import opened Options
  import opened PolicyRuns
  import opened PolicySession
  import opened PolicyTheorems

  /** The first request built in a session, if there is one. */
  function FirstOf<T>(s: Session<T>, sid: string): Option<nat> {
    if sid in s.started then s.started[sid] else None
  }

  ghost predicate Posted<T>(s: Session<T>, sid: string, r: nat) {
    exists e :: e in s.posted && e.sessionId == sid && e.requestId == r
  }

  predicate Live<T>(s: Session<T>, sid: string) {
    s.link.Some? && s.link.value.sessionId == sid
  }

  predicate Waiting<T>(s: Session<T>, r: nat) {
    r in s.pending && !s.pending[r].posted
  }

  /** The live session's first request will never be posted: it was not, and is no longer
      waiting to be. */
  ghost predicate FirstLost<T>(s: Session<T>) {
    s.link.Some? &&
    var sid := s.link.value.sessionId;
    var first := FirstOf(s, sid);
    first.Some? && !Posted(s, sid, first.value) && !Waiting(s, first.value)
  }

  /** The reply settles its request and the session goes on. */
  predicate JustSettles<T>(s: Session<T>, m: Reply<T>)
    requires m.Reply? && m.requestId in s.pending
  {
    var ticket := s.pending[m.requestId];
    || m.generation != ticket.generation
    || m.kind == RefusedKind
    || (m.kind == ResultKind && !(m.status == RejectedStatus && m.poisoned)
        && !(m.status == AcceptedStatus && s.config.hasFrame && ticket.generation == s.generation))
  }

  /** A message from the live Worker that settles the session's first request while it is
      held. */
  predicate AnswersFirstEarly<T>(s: Session<T>, e: Event<T>) {
    && e.FromWorker? && !s.disposed && s.link.Some? && e.m.Reply?
    && e.m.kind in {RefusedKind, ResultKind, OtherKind}
    && IsPolicyEnvelope(e.m, s.config.instanceId, s.link.value.sessionId)
    && FirstOf(s, s.link.value.sessionId) == Some(e.m.requestId)
    && Waiting(s, e.m.requestId)
    && JustSettles(s, e.m)
  }

  // ----- what one session is owed -----

  /** While a session lives its first request is posted or waits to be; whatever it has
      posted, it has posted the first request. */
  ghost predicate Owed<T>(s: Session<T>, sid: string) {
    var first := FirstOf(s, sid);
    && (first.Some? && Live(s, sid) ==> Posted(s, sid, first.value) || Waiting(s, first.value))
    && (first.Some? && (exists e :: e in s.posted && e.sessionId == sid) ==> Posted(s, sid, first.value))
  }

  /** Settled without having been posted. */
  ghost predicate Gone<T>(s: Session<T>, sid: string) {
    var first := FirstOf(s, sid);
    first.Some? && first.value in s.settled && !Posted(s, sid, first.value)
  }

  lemma TerminateOwed<T>(s: Session<T>, cause: Code, timedOut: Option<nat>, sid: string)
    requires Owed(s, sid)
    ensures Owed(Terminate(s, cause, timedOut), sid)
  {
    hide Closing;
    assert forall r :: Posted(Terminate(s, cause, timedOut), sid, r) <==> Posted(s, sid, r);
  }

  /** What is held is held in order, so a waiting first request is at its head. */
  lemma HeadIsFirst<T>(s: Session<T>, e: Envelope, rest: seq<Envelope>)
    requires Core(s) && Ready(s, e, rest)
    ensures e.sessionId == s.link.value.sessionId && FirstOf(s, e.sessionId).Some?
    ensures var first := FirstOf(s, e.sessionId).value; Waiting(s, first) ==> e.requestId == first
  {
    hide Increasing, Ids, Tickets, Attached, Results;
    assert e in s.awaiting;
    assert CarriesClasses(s, e);
    var first := FirstOf(s, e.sessionId).value;
    if Waiting(s, first) {
      IdsConcat([e], rest);
      IdsOne(e);
      if first != e.requestId {
        LaterThanHead(s.posted, e, rest, first);
      }
    }
  }

  lemma LaterThanHead(posted: seq<Envelope>, e: Envelope, rest: seq<Envelope>, r: nat)
    requires Increasing(posted + ([e] + rest)) && r in Ids(rest)
    ensures e.requestId < r
  {
    var all := posted + ([e] + rest);
    var i :| 0 <= i < |rest| && rest[i].requestId == r;
    assert all[|posted|] == e && all[|posted| + 1 + i] == rest[i];
  }

  lemma PostOwed<T>(s: Session<T>, e: Envelope, rest: seq<Envelope>, failing: set<nat>, sid: string)
    requires Core(s) && Ready(s, e, rest) && Owed(s, sid)
    ensures Owed(PostEnvelope(s.(awaiting := rest), e, failing), sid)
  {
    HeadIsFirst(s, e, rest);
    hide Core, Closing;
    var s' := PostEnvelope(s.(awaiting := rest), e, failing);
    if e.requestId in s.pending && e.requestId !in failing {
      PostedMore(s, s', e, sid);
    } else {
      assert forall r :: Posted(s', sid, r) <==> Posted(s, sid, r);
    }
  }

  lemma PostedMore<T>(s: Session<T>, s': Session<T>, e: Envelope, sid: string)
    requires s'.posted == s.posted + [e]
    ensures forall r :: Posted(s, sid, r) ==> Posted(s', sid, r)
    ensures Posted(s', e.sessionId, e.requestId)
    ensures (exists d :: d in s'.posted && d.sessionId == sid) ==>
      e.sessionId == sid || exists d :: d in s.posted && d.sessionId == sid
  {
    assert e in s'.posted;
    forall r | Posted(s, sid, r) ensures Posted(s', sid, r) {
      var d :| d in s.posted && d.sessionId == sid && d.requestId == r;
      assert d in s'.posted;
    }
  }

  lemma {:induction false} ReleaseOwed<T>(s: Session<T>, failing: set<nat>, sid: string)
    requires Core(s) && (s.link.Some? && s.config.hasFrame ==> s.link.value.frameAttached) && Owed(s, sid)
    ensures Owed(ReleaseHeld(s, failing), sid)
    decreases |s.awaiting|
  {
    hide Core, Owed, PostEnvelope;
    if s.awaiting != [] && s.link.Some? {
      var e, rest := s.awaiting[0], s.awaiting[1..];
      PostOwed(s, e, rest, failing, sid);
      PostKeeps(s, e, rest, failing);
      PostKeepsHeldShort(s.(awaiting := rest), e, failing);
      ReleaseOwed(PostEnvelope(s.(awaiting := rest), e, failing), failing, sid);
    }
  }

  /** Nothing is posted in a session before its first request is built. */
  lemma PostedAfterFirst<T>(s: Session<T>, e: Envelope)
    requires Classes(s) && e in s.posted
    ensures FirstOf(s, e.sessionId).Some? && FirstOf(s, e.sessionId).value <= e.requestId
    ensures e.classes <==> s.config.hasClasses && FirstOf(s, e.sessionId).value == e.requestId
  {
    assert CarriesClasses(s, e);
  }

  lemma RegisterOwed<T>(s: Session<T>, q: Request, sid: string)
    requires Sound(s) && s.link.Some? && Owed(s, sid)
    ensures Owed(Register(s, q), sid)
  {
    hide Queues, Results, Attached;
    var s' := Register(s, q);
    assert forall r :: Posted(s', sid, r) <==> Posted(s, sid, r);
    forall e | e in s.posted && e.sessionId == sid ensures FirstOf(s, sid).Some? {
      PostedAfterFirst(s, e);
    }
  }

  lemma SubmitOwed<T>(s: Session<T>, q: Request, failing: set<nat>, sid: string)
    requires Sound(s) && s.link.Some? && Owed(s, sid)
    ensures Owed(Submit(s, q, failing), sid)
  {
    RegisterOwed(s, q, sid);
    RegisterKeeps(s, q);
    var e := NextEnvelope(s, q);
    var held := Register(s, q).(awaiting := s.awaiting + [e]);
    QueueAside(Register(s, q), held, sid);
    if s.config.hasFrame && !s.link.value.frameAttached {
    } else {
      assert held.awaiting == [e] + [];
      assert Register(s, q) == held.(awaiting := []);
      hide Core, Owed, PostEnvelope;
      PostOwed(held, e, [], failing, sid);
    }
  }

  lemma QueueAside<T>(s: Session<T>, s': Session<T>, sid: string)
    requires s'.link.Some? == s.link.Some? && (s.link.Some? ==> s'.link.value.sessionId == s.link.value.sessionId)
    requires s'.started == s.started && s'.pending == s.pending && s'.posted == s.posted && s'.settled == s.settled
    ensures Owed(s', sid) <==> Owed(s, sid)
    ensures Gone(s', sid) <==> Gone(s, sid)
    ensures FirstLost(s') <==> FirstLost(s)
  {
    assert forall i, r :: Posted(s', i, r) <==> Posted(s, i, r);
  }

  lemma StartOwed<T>(s: Session<T>, sessionId: string, created: bool, sid: string)
    requires Sound(s) && s.link.None? && sessionId !in s.started && Owed(s, sid)
    ensures Owed(Start(s, sessionId, created), sid)
  {
    hide Tickets, Queues, Attached, Results, Classes;
    assert forall r :: Posted(Start(s, sessionId, created), sid, r) <==> Posted(s, sid, r);
    assert forall e :: e in s.posted ==> e.sessionId != sessionId;
  }

  lemma PreprocessOwed<T>(s: Session<T>, q: Request, sessionId: string, created: bool, failing: set<nat>, sid: string)
    requires Sound(s) && sessionId !in s.started && sessionId != "" && Owed(s, sid)
    ensures Owed(AfterPreprocess(s, q, sessionId, created, failing), sid)
  {
    hide Submit, Sound, Start;
    if s.disposed {
    } else if s.link.Some? {
      SubmitOwed(s, q, failing, sid);
    } else if created {
      StartKeeps(s, sessionId, true);
      StartOwed(s, sessionId, true, sid);
      assert Start(s, sessionId, true).link.Some? by { StartedLive(s, sessionId); }
      SubmitOwed(Start(s, sessionId, true), q, failing, sid);
    } else {
      var s' := AfterPreprocess(s, q, sessionId, created, failing);
      assert forall r :: Posted(s', sid, r) <==> Posted(s, sid, r);
    }
  }

  lemma StartedLive<T>(s: Session<T>, sessionId: string)
    ensures Live(Start(s, sessionId, true), sessionId)
  {
  }

  // ----- replies -----

  /** Request `r` is settled and the session goes on. */
  ghost predicate OnlySettled<T>(s: Session<T>, s': Session<T>, r: nat) {
    && s'.link == s.link && s'.posted == s.posted && s'.started == s.started && s'.config == s.config
    && s'.pending == s.pending - {r} && r in s'.settled
  }

  /** The session is over, with nothing posted meanwhile. */
  ghost predicate OnlyEnded<T>(s: Session<T>, s': Session<T>) {
    s'.link.None? && s'.posted == s.posted && s'.started == s.started && s'.config == s.config
  }

  lemma SettleOutcome<T>(s: Session<T>, r: nat)
    requires r in s.pending
    ensures forall body :: OnlySettled(s, Settle(s, r, body), r)
    ensures forall reason :: OnlySettled(s, Refuse(s, r, reason), r)
    ensures forall reason, cause :: OnlyEnded(s, Terminate(Refuse(s, r, reason), cause, None))
  {
    hide Closing;
  }

  lemma VerdictOutcome<T>(s: Session<T>, r: nat, m: Reply<T>, sessionId: string)
    requires r in s.pending && m.Reply?
    ensures OnlySettled(s, AfterRendered(s, r, m, sessionId), r) && OnlySettled(s, AfterAccepted(s, r, m, sessionId), r)
  {
    SettleOutcome(s, r);
    hide TokenMatches, TokenNames, IsAcceptanceToken, Refuse;
  }

  /** A reply settles its request, ends the session, or changes nothing. */
  lemma ReplyOutcome<T>(s: Session<T>, r: nat, m: Reply<T>)
    requires r in s.pending && m.Reply? && m.requestId == r && s.link.Some?
    requires m.kind in {RefusedKind, ResultKind, OtherKind}
    ensures var s' := AfterReply(s, r, m, s.link.value.sessionId);
      if JustSettles(s, m) then OnlySettled(s, s', r) else s' == s || OnlyEnded(s, s')
  {
    SettleOutcome(s, r);
    VerdictOutcome(s, r, m, s.link.value.sessionId);
    hide OnlySettled, OnlyEnded, Settle, Refuse, Terminate, AfterRendered, AfterAccepted;
  }

  lemma ReplyOwed<T>(s: Session<T>, r: nat, m: Reply<T>, sid: string)
    requires r in s.pending && m.Reply? && m.requestId == r && s.link.Some? && Owed(s, sid)
    requires m.kind in {RefusedKind, ResultKind, OtherKind}
    requires !(Live(s, sid) && FirstOf(s, sid) == Some(r) && Waiting(s, r) && JustSettles(s, m))
    ensures Owed(AfterReply(s, r, m, s.link.value.sessionId), sid)
  {
    ReplyOutcome(s, r, m);
    hide AfterReply, JustSettles;
    assert forall q :: Posted(AfterReply(s, r, m, s.link.value.sessionId), sid, q) <==> Posted(s, sid, q);
  }

  lemma EnvelopeOwed<T>(s: Session<T>, m: Reply<T>, attaches: bool, failing: set<nat>, sid: string)
    requires Sound(s) && Owed(s, sid) && !s.disposed && s.link.Some? && m.Reply?
    requires m.protocol == POLICY_PROTOCOL_VERSION && m.kind in {RefusedKind, ResultKind, OtherKind}
    requires !(Live(s, sid) && AnswersFirstEarly(s, FromWorker(m, attaches, failing)))
    ensures Owed(AfterMessage(s, m, attaches, failing), sid)
  {
    hide Sound, Owed, Terminate, ReleaseHeld, AfterReply, JustSettles;
    if IsPolicyEnvelope(m, s.config.instanceId, s.link.value.sessionId) && m.requestId in s.pending {
      ReplyOwed(s, m.requestId, m, sid);
    }
  }

  lemma AttachOwed<T>(s: Session<T>, failing: set<nat>, sid: string)
    requires Sound(s) && Owed(s, sid) && s.link.Some?
    ensures var link := s.link.value;
      var s' := s.(link := Some(link.(frameAttached := true)), confirmed := s.confirmed + {link.sessionId});
      Owed(ReleaseHeld(s', failing), sid)
  {
    hide Sound, Core, Owed, ReleaseHeld;
    var link := s.link.value;
    var s' := s.(link := Some(link.(frameAttached := true)), confirmed := s.confirmed + {link.sessionId});
    AttachKeeps(s);
    QueueAside(s, s', sid);
    ReleaseOwed(s', failing, sid);
  }

  lemma MessageOwed<T>(s: Session<T>, m: Reply<T>, attaches: bool, failing: set<nat>, sid: string)
    requires Sound(s) && Owed(s, sid)
    requires !(Live(s, sid) && AnswersFirstEarly(s, FromWorker(m, attaches, failing)))
    ensures Owed(AfterMessage(s, m, attaches, failing), sid)
  {
    SoundParts(s);
    hide Sound, Core, Owed, Terminate, ReleaseHeld, AfterReply, IsPolicyEnvelope, AnswersFirstEarly;
    if !(s.disposed || s.link.None? || m.NotAnObject? || m.protocol != POLICY_PROTOCOL_VERSION) {
      var link := s.link.value;
      match m.kind
      case ReadyKind =>
        var s' := s.(link := Some(link.(handshakeDone := true, handshakeTimer := false)));
        QueueAside(s, s', sid);
        TerminateOwed(s', FrameAttachFailed, None, sid);
      case FrameAttachedKind =>
        AttachOwed(s, failing, sid);
      case CheckerReadyKind =>
        TerminateOwed(s, CheckerIdentityMismatch, None, sid);
        QueueAside(s, s.(link := Some(link.(checkerReady := true, checkerTimer := false))), sid);
      case FailedKind => TerminateOwed(s, CheckerFailed, None, sid);
      case NotAString => NoEnvelope(m);
      case _ => EnvelopeOwed(s, m, attaches, failing, sid);
    }
  }

  // ----- one event -----

  /** Unless the event answers the session's first request early, what is owed stays owed. */
  lemma NextOwed<T>(s: Session<T>, e: Event<T>, sid: string)
    requires Sound(s) && Enabled(s, e) && Owed(s, sid) && !(Live(s, sid) && AnswersFirstEarly(s, e))
    ensures Owed(Next(s, e), sid)
  {
    hide Sound, Owed, Terminate, AfterPreprocess, AfterMessage, Start, AnswersFirstEarly;
    match e
    case PreprocessCall(q, sessionId, created, failing) => PreprocessOwed(s, q, sessionId, created, failing, sid);
    case StartCall(sessionId, created) =>
      if !s.disposed && s.link.None? { StartOwed(s, sessionId, created, sid); }
    case FromWorker(m, attaches, failing) => MessageOwed(s, m, attaches, failing, sid);
    case RequestTimer(r) =>
      var s' := s.(stats := s.stats.(timeouts := s.stats.timeouts + 1));
      QueueAside(s, s', sid);
      TerminateOwed(s', if s.pending[r].posted then RequestTimeout else FrameAttachTimeout, Some(r), sid);
    case HandshakeTimer => TerminateOwed(s, HandshakeTimeout, None, sid);
    case CheckerTimer => TerminateOwed(s, WasmInitTimeout, None, sid);
    case WorkerErrorEvent =>
      TerminateOwed(s, if s.link.value.handshakeDone then WorkerError else WorkerStartupError, None, sid);
    case NextGenerationCall => QueueAside(s, s.(generation := s.generation + 1), sid);
    case DisposeCall =>
      QueueAside(s, s.(disposed := true), sid);
      TerminateOwed(s.(disposed := true), Disposed, None, sid);
  }

  /** A request still waiting has not been posted. */
  lemma WaitingIsUnposted<T>(s: Session<T>, r: nat, sid: string)
    requires Queues(s) && Waiting(s, r)
    ensures !Posted(s, sid, r)
  {
    var all := s.posted + s.awaiting;
    var i :| 0 <= i < |s.awaiting| && s.awaiting[i].requestId == r;
    assert all[|s.posted| + i] == s.awaiting[i];
    forall e | e in s.posted ensures e.requestId != r {
      var j :| 0 <= j < |s.posted| && s.posted[j] == e;
      assert all[j] == e;
    }
  }

  /** Answered early, the first request is gone, and the session goes on without it. */
  lemma NextGoes<T>(s: Session<T>, e: Event<T>)
    requires Sound(s) && Enabled(s, e) && AnswersFirstEarly(s, e)
    ensures Gone(Next(s, e), s.link.value.sessionId) && Next(s, e).link == s.link
    ensures FirstOf(Next(s, e), s.link.value.sessionId) == FirstOf(s, s.link.value.sessionId)
  {
    var m, sid := e.m, s.link.value.sessionId;
    WaitingIsUnposted(s, m.requestId, sid);
    ReplyOutcome(s, m.requestId, m);
    hide Sound, AfterReply, JustSettles;
    assert Next(s, e) == AfterReply(s, m.requestId, m, sid);
    assert Posted(Next(s, e), sid, m.requestId) <==> Posted(s, sid, m.requestId);
  }

  /** Messages are posted for pending or new requests only, and a session's first request
      is settled on once. */
  ghost predicate Follows<T>(s: Session<T>, s': Session<T>) {
    && (forall d :: d in s'.posted ==> d in s.posted || d.requestId in s.pending || d.requestId >= s.nextRequestId)
    && (forall i :: i in s.started && s.started[i].Some? ==> i in s'.started && s'.started[i] == s.started[i])
  }

  lemma PostFollows<T>(s: Session<T>, e: Envelope, failing: set<nat>)
    ensures Follows(s, PostEnvelope(s, e, failing)) && PostEnvelope(s, e, failing).started == s.started
  {
    hide Closing;
  }

  lemma {:induction false} ReleaseFollows<T>(s: Session<T>, failing: set<nat>)
    ensures Follows(s, ReleaseHeld(s, failing))
    decreases |s.awaiting|
  {
    if s.awaiting != [] && s.link.Some? {
      var s', e := s.(awaiting := s.awaiting[1..]), s.awaiting[0];
      PostFollows(s', e, failing);
      PostAges(s', e, failing);
      PostKeepsHeldShort(s', e, failing);
      hide PostEnvelope;
      ReleaseFollows(PostEnvelope(s', e, failing), failing);
    }
  }

  lemma SubmitFollows<T>(s: Session<T>, q: Request, failing: set<nat>)
    requires s.link.Some?
    ensures Follows(s, Submit(s, q, failing))
  {
    PostFollows(Register(s, q), NextEnvelope(s, q), failing);
    hide PostEnvelope;
  }

  lemma MessageFollows<T>(s: Session<T>, m: Reply<T>, attaches: bool, failing: set<nat>)
    ensures Follows(s, AfterMessage(s, m, attaches, failing))
  {
    hide Closing, ReleaseHeld, AfterReply, IsPolicyEnvelope;
    if s.link.Some? && m.Reply? {
      var link := s.link.value;
      ReleaseFollows(s.(link := Some(link.(frameAttached := true)), confirmed := s.confirmed + {link.sessionId}),
        failing);
      if m.kind in {RefusedKind, ResultKind, OtherKind} && m.requestId in s.pending {
        ReplyOutcome(s, m.requestId, m);
      }
      NoEnvelope(m);
    }
  }

  lemma NextFollows<T>(s: Session<T>, e: Event<T>)
    requires Enabled(s, e)
    ensures Follows(s, Next(s, e))
  {
    hide Submit, AfterMessage, Closing;
    match e
    case PreprocessCall(q, sessionId, created, failing) =>
      if s.link.Some? {
        SubmitFollows(s, q, failing);
      } else {
        SubmitFollows(Start(s, sessionId, true), q, failing);
      }
    case FromWorker(m, attaches, failing) => MessageFollows(s, m, attaches, failing);
    case _ =>
  }

  /** A first request that is gone stays gone. */
  lemma GoneStays<T>(s: Session<T>, e: Event<T>, sid: string)
    requires Sound(s) && Enabled(s, e) && Gone(s, sid)
    ensures Gone(Next(s, e), sid)
  {
    SoundParts(s);
    NextFollows(s, e);
    VerdictOnlyFromLiveReply(s, e);
    hide Sound, Core, Next, Enabled, LiveVerdict;
  }

  /** While its session goes on, the first request is lost at exactly the events that
      answer it early. */
  lemma LostExactlyThen<T>(s: Session<T>, e: Event<T>)
    requires Sound(s) && Enabled(s, e) && s.link.Some? && !FirstLost(s)
    requires Live(Next(s, e), s.link.value.sessionId)
    ensures FirstLost(Next(s, e)) <==> AnswersFirstEarly(s, e)
  {
    var sid := s.link.value.sessionId;
    if AnswersFirstEarly(s, e) {
      NextGoes(s, e);
      NextKeeps(s, e);
      SoundParts(Next(s, e));
      hide Sound, Next, AnswersFirstEarly;
    } else {
      LiveIsOwed(s);
      NextOwed(s, e, sid);
      hide Sound, Next, Enabled, AnswersFirstEarly;
    }
  }

  /** A session that lives and has not lost its first request posts nothing before it. */
  lemma LiveIsOwed<T>(s: Session<T>)
    requires Sound(s) && s.link.Some? && !FirstLost(s)
    ensures Owed(s, s.link.value.sessionId)
  {
    var sid := s.link.value.sessionId;
    forall e | e in s.posted && e.sessionId == sid
      ensures FirstOf(s, sid).Some? && Posted(s, sid, FirstOf(s, sid).value)
    {
      PostedAfterFirst(s, e);
      if Waiting(s, FirstOf(s, sid).value) {
        PostedBeforeHeld(s, e, FirstOf(s, sid).value);
      }
    }
  }

  lemma PostedBeforeHeld<T>(s: Session<T>, e: Envelope, r: nat)
    requires Queues(s) && e in s.posted && Waiting(s, r)
    ensures e.requestId < r
  {
    var all := s.posted + s.awaiting;
    var i :| 0 <= i < |s.awaiting| && s.awaiting[i].requestId == r;
    var j :| 0 <= j < |s.posted| && s.posted[j] == e;
    assert all[j] == e && all[|s.posted| + i] == s.awaiting[i];
  }

  // ----- over every run -----

  /** At some event of the run the session's first request is answered while it is held. */
  ghost predicate AnsweredEarly<T>(s: Session<T>, events: seq<Event<T>>, sid: string)
    requires IsRun(s, events)
    decreases |events|
  {
    events != []
    && ((Live(s, sid) && AnswersFirstEarly(s, events[0])) || AnsweredEarly(Next(s, events[0]), events[1..], sid))
  }

  lemma {:induction false} GoneForGood<T>(s: Session<T>, events: seq<Event<T>>, sid: string)
    requires Sound(s) && IsRun(s, events) && Gone(s, sid)
    ensures Gone(After(s, events), sid)
    decreases |events|
  {
    hide Sound, Next, Enabled, Gone;
    if events != [] {
      assert Enabled(s, events[0]);
      NextKeeps(s, events[0]);
      GoneStays(s, events[0], sid);
      GoneForGood(Next(s, events[0]), events[1..], sid);
    }
  }

  lemma {:induction false} RunOwed<T>(s: Session<T>, events: seq<Event<T>>, sid: string)
    requires Sound(s) && IsRun(s, events) && Owed(s, sid)
    ensures if AnsweredEarly(s, events, sid) then Gone(After(s, events), sid) else Owed(After(s, events), sid)
    decreases |events|
  {
    hide Sound, Next, Enabled, Gone, Owed, AnswersFirstEarly;
    if events != [] {
      var e, s' := events[0], Next(s, events[0]);
      NextKeeps(s, e);
      if Live(s, sid) && AnswersFirstEarly(s, e) {
        NextGoes(s, e);
        GoneForGood(s', events[1..], sid);
      } else {
        NextOwed(s, e, sid);
        RunOwed(s', events[1..], sid);
      }
    }
  }

  /** The exact condition, over every run: the first message posted in a session carries
      the allowlist if and only if no reply answered the session's first request while it
      was held; and if one did, no message of the session carries it. */
  lemma FirstPostedCarriesClasses<T>(s: Session<T>, config: Config, events: seq<Event<T>>, e: Envelope)
    requires Reached(s, config, events) && config.hasClasses
    requires e in s.posted && forall d :: d in s.posted && d.sessionId == e.sessionId ==> e.requestId <= d.requestId
    ensures e.classes <==> !AnsweredEarly(NewSession<T>(config), events, e.sessionId)
    ensures (exists d :: d in s.posted && d.sessionId == e.sessionId && d.classes) <==> e.classes
  {
    var sid := e.sessionId;
    ReachedIsSound(s, config, events);
    NewIsSound<T>(config);
    RunOwed(NewSession<T>(config), events, sid);
    assert Classes(s);
    PostedAfterFirst(s, e);
    forall d | d in s.posted && d.sessionId == sid ensures d.classes ==> e.classes {
      PostedAfterFirst(s, d);
    }
    hide Sound, Core, Classes, AnsweredEarly, Reached, IsRun;
    if Posted(s, sid, FirstOf(s, sid).value) {
      var d :| d in s.posted && d.sessionId == sid && d.requestId == FirstOf(s, sid).value;
    }
  }
}

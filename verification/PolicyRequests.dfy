/** What becomes of a request before its reply: posted, held for the port, or given up; and
    what the session's announcements and timers do. */
module PolicyRequests {
  import opened Acceptance
  import opened Options
  import opened PolicyReplies
  import opened PolicyRuns
  import opened PolicySession
  import opened PolicyTheorems

  // ----- a new request -----

  /** The session in which a request made now is built: the live one or, with the same
      books, one just started. */
  ghost predicate BuiltIn<T>(s: Session<T>, from: Session<T>, sessionId: string) {
    if s.link.Some? then from == s
    else
      && from.link == Some(Link(sessionId, false, false, false, true, true, false))
      && from == s.(link := from.link, started := s.started[sessionId := None],
                    stats := s.stats.(sessions := s.stats.sessions + 1))
  }

  /** What the request's message says: the live session, its generation, where to deliver,
      and the class allowlist if none has been built into a message of this session. */
  ghost predicate Asks<T>(from: Session<T>, e: Envelope, q: Request) {
    && from.link.Some? && e.sessionId == from.link.value.sessionId && e.requestId == from.nextRequestId
    && e.forFrame == from.config.hasFrame
    && e.generation == (if q.generation.None? then from.generation else q.generation.value)
    && (e.classes <==> from.config.hasClasses && !from.link.value.classesSent)
  }

  /** The request is counted and pending; nothing else about the requests has changed. */
  ghost predicate Enters<T>(from: Session<T>, s': Session<T>, e: Envelope, q: Request, posted: bool) {
    && s'.nextRequestId == from.nextRequestId + 1 && s'.settled == from.settled
    && s'.stats == from.stats.(requests := from.stats.requests + 1)
    && s'.pending.Keys == from.pending.Keys + {e.requestId}
    && s'.pending[e.requestId] == Ticket(e.generation, q.budget, posted)
    && (forall r :: r in from.pending && r != e.requestId ==> s'.pending[r] == from.pending[r])
    && from.link.Some? && s'.link.Some?
    && s'.link.value == from.link.value.(classesSent := from.link.value.classesSent || e.classes)
    && s'.generation == from.generation && s'.disposed == from.disposed && s'.confirmed == from.confirmed
  }

  /** Posting threw: the session ends with this request pending in it. */
  ghost predicate FailsToPost<T>(from: Session<T>, s': Session<T>, e: Envelope) {
    && s'.link.None? && s'.awaiting == [] && s'.pending == map[] && s'.posted == from.posted
    && s'.nextRequestId == from.nextRequestId + 1
    && s'.settled.Keys == from.settled.Keys + from.pending.Keys + {e.requestId}
    && s'.settled[e.requestId] == Settled(e.generation, Rejected(SessionTerminated(PostFailed)))
    && forall r :: r in from.pending && r != e.requestId ==>
         s'.settled[r] == Settled(from.pending[r].generation, Rejected(SessionTerminated(PostFailed)))
  }

  lemma SubmitMeaning<T>(from: Session<T>, q: Request, failing: set<nat>) returns (e: Envelope)
    requires from.link.Some?
    ensures Asks(from, e, q)
    ensures var (s', held) := (Submit(from, q, failing), from.config.hasFrame && !from.link.value.frameAttached);
      && (held ==> Enters(from, s', e, q, false) && s'.awaiting == from.awaiting + [e] && s'.posted == from.posted)
      && (!held && e.requestId !in failing ==>
            Enters(from, s', e, q, true) && s'.posted == from.posted + [e] && s'.awaiting == from.awaiting)
      && (!held && e.requestId in failing ==> FailsToPost(from, s', e))
  {
    e := NextEnvelope(from, q);
    var entered := Register(from, q);
    EntersUnposted(from, q);
    hide NoteFirst, Register, NextEnvelope;
    if e.requestId in failing {
      FailedPost(from, entered, e, q);
    } else {
      MarkedPosted(from, entered, e, q);
    }
    hide Enters, FailsToPost, Terminate;
  }

  lemma EntersUnposted<T>(from: Session<T>, q: Request)
    requires from.link.Some?
    ensures var (e, s') := (NextEnvelope(from, q), Register(from, q));
      && Asks(from, e, q) && Enters(from, s', e, q, false)
      && s'.awaiting == from.awaiting && s'.posted == from.posted && s'.config == from.config
    ensures NextEnvelope(from, q).requestId == from.nextRequestId
    ensures forall awaiting :: Enters(from, Register(from, q).(awaiting := awaiting), NextEnvelope(from, q), q, false)
  {
    hide NoteFirst;
  }

  lemma MarkedPosted<T>(from: Session<T>, entered: Session<T>, e: Envelope, q: Request)
    requires Enters(from, entered, e, q, false)
    ensures Enters(from,
      entered.(pending := entered.pending[e.requestId := entered.pending[e.requestId].(posted := true)],
               posted := entered.posted + [e]), e, q, true)
  {
  }

  lemma FailedPost<T>(from: Session<T>, entered: Session<T>, e: Envelope, q: Request)
    requires Enters(from, entered, e, q, false) && entered.posted == from.posted
    ensures var marked := entered.(
        pending := entered.pending[e.requestId := entered.pending[e.requestId].(posted := true)]);
      FailsToPost(from, Terminate(marked, PostFailed, None), e)
  {
  }

  /** A request on a usable session is posted at once, or held while a frame session waits
      for its port. */
  lemma RequestMeaning<T>(s: Session<T>, q: Request, sessionId: string, created: bool, failing: set<nat>)
    returns (from: Session<T>, e: Envelope)
    requires !s.disposed && (s.link.Some? || created)
    ensures BuiltIn(s, from, sessionId) && Asks(from, e, q)
    ensures var (s', held) := (AfterPreprocess(s, q, sessionId, created, failing),
        from.config.hasFrame && !from.link.value.frameAttached);
      && (held ==> Enters(from, s', e, q, false) && s'.awaiting == from.awaiting + [e] && s'.posted == from.posted)
      && (!held && e.requestId !in failing ==>
            Enters(from, s', e, q, true) && s'.posted == from.posted + [e] && s'.awaiting == from.awaiting)
      && (!held && e.requestId in failing ==> FailsToPost(from, s', e))
  {
    from := if s.link.Some? then s else Start(s, sessionId, true);
    hide Submit, Enters, FailsToPost, Asks;
    e := SubmitMeaning(from, q, failing);
  }

  /** No request gets through after disposal, and none without a Worker to start. */
  lemma RequestTurnedAway<T>(s: Session<T>, q: Request, sessionId: string, created: bool, failing: set<nat>)
    requires s.disposed || (s.link.None? && !created)
    ensures var s' := AfterPreprocess(s, q, sessionId, created, failing);
      && (s.disposed ==> s' == s)
      && (!s.disposed ==>
            s' == s.(nextRequestId := s.nextRequestId + 1,
                     settled := s.settled[s.nextRequestId := Settled(s.generation, Rejected(StartupFailed))],
                     stats := Stats(s.stats.requests + 1, s.stats.accepted, s.stats.rendered, s.stats.rejected + 1,
                                    s.stats.timeouts, s.stats.sessions)))
  {
    if s.link.Some? {
      assert s.disposed;
    }
  }

  // ----- confirmation of the port -----

  /** The held messages whose requests are still pending, in order. */
  function Outstanding<T>(s: Session<T>, held: seq<Envelope>): seq<Envelope> {
    if held == [] then []
    else Outstanding(s, held[..|held| - 1])
         + if held[|held| - 1].requestId in s.pending then [held[|held| - 1]] else []
  }

  lemma {:induction false} OutstandingFromFront<T>(s: Session<T>, held: seq<Envelope>)
    requires held != []
    ensures Outstanding(s, held) ==
      (if held[0].requestId in s.pending then [held[0]] else []) + Outstanding(s, held[1..])
  {
    if |held| > 1 {
      OutstandingFromFront(s, held[..|held| - 1]);
      assert held[1..][..|held| - 2] == held[..|held| - 1][1..];
    }
  }

  lemma {:induction false} OutstandingKeys<T>(s: Session<T>, s': Session<T>, held: seq<Envelope>)
    requires s'.pending.Keys == s.pending.Keys
    ensures Outstanding(s', held) == Outstanding(s, held)
  {
    if held != [] {
      OutstandingKeys(s, s', held[..|held| - 1]);
    }
  }

  ghost predicate NoneFails<T>(s: Session<T>, held: seq<Envelope>, failing: set<nat>) {
    forall e :: e in held ==> e.requestId !in failing || e.requestId !in s.pending
  }

  lemma PostedOne<T>(s: Session<T>, e: Envelope, failing: set<nat>)
    requires e.requestId in s.pending && e.requestId !in failing
    ensures PostEnvelope(s, e, failing) == s.(
      pending := s.pending[e.requestId := s.pending[e.requestId].(posted := true)], posted := s.posted + [e])
  {
  }

  lemma FirstHeldAside<T>(s: Session<T>, failing: set<nat>)
    requires s.awaiting != [] && NoneFails(s, s.awaiting, failing)
    ensures s.awaiting[0].requestId in s.pending ==> s.awaiting[0].requestId !in failing
    ensures forall s': Session<T> :: s'.pending.Keys == s.pending.Keys ==> NoneFails(s', s.awaiting[1..], failing)
  {
    assert s.awaiting[0] in s.awaiting;
  }

  /** When nothing fails to post, every message still wanted is posted, in order. */
  lemma {:induction false} ReleaseMeaning<T>(s: Session<T>, failing: set<nat>)
    requires s.link.Some? && NoneFails(s, s.awaiting, failing)
    ensures var s' := ReleaseHeld(s, failing);
      && s'.link == s.link && s'.awaiting == [] && s'.posted == s.posted + Outstanding(s, s.awaiting)
      && s'.settled == s.settled && s'.stats == s.stats && s'.pending.Keys == s.pending.Keys
      && s'.confirmed == s.confirmed
      && forall r :: r in s.pending ==>
           s'.pending[r].generation == s.pending[r].generation && s'.pending[r].budget == s.pending[r].budget
    decreases |s.awaiting|
  {
    hide NoneFails, Outstanding, PostEnvelope;
    if s.awaiting == [] {
      NothingHeld(s);
    } else {
      var e, rest := s.awaiting[0], s.(awaiting := s.awaiting[1..]);
      FirstHeldAside(s, failing);
      OutstandingFromFront(s, s.awaiting);
      if e.requestId in s.pending {
        PostedOne(rest, e, failing);
      } else {
        SkippedOne(rest, e, failing);
      }
      var next := PostEnvelope(rest, e, failing);
      assert next.pending.Keys == s.pending.Keys;
      OutstandingKeys(s, next, s.awaiting[1..]);
      ReleaseMeaning(next, failing);
    }
  }

  /** When one that is still wanted fails to post, the session ends there: those before it
      are posted, and every request is settled. */
  lemma {:induction false} ReleaseFails<T>(s: Session<T>, failing: set<nat>) returns (k: nat)
    requires s.link.Some? && !NoneFails(s, s.awaiting, failing)
    ensures k < |s.awaiting| && s.awaiting[k].requestId in failing && s.awaiting[k].requestId in s.pending
    ensures var s' := ReleaseHeld(s, failing);
      && s'.link.None? && s'.awaiting == [] && s'.pending == map[]
      && s'.posted == s.posted + Outstanding(s, s.awaiting[..k])
      && s'.settled.Keys == s.settled.Keys + s.pending.Keys
      && forall r :: r in s.pending ==>
           s'.settled[r] == Settled(s.pending[r].generation, Rejected(SessionTerminated(PostFailed)))
    decreases |s.awaiting|
  {
    hide Outstanding, PostEnvelope, NoneFails;
    SomeHeld(s, failing);
    var e, rest := s.awaiting[0], s.(awaiting := s.awaiting[1..]);
    if e.requestId in s.pending && e.requestId in failing {
      k := 0;
      FailedOne(rest, e, failing);
      NothingOf(s);
      assert s.awaiting[..0] == [];
    } else {
      if e.requestId in s.pending {
        PostedOne(rest, e, failing);
      } else {
        SkippedOne(rest, e, failing);
      }
      var next := PostEnvelope(rest, e, failing);
      assert next.pending.Keys == s.pending.Keys;
      StillFails(s, next, failing);
      var j := ReleaseFails(next, failing);
      k := j + 1;
      OutstandingKeys(s, next, next.awaiting[..j]);
      OutstandingFromFront(s, s.awaiting[..k]);
      assert s.awaiting[..k][1..] == next.awaiting[..j];
    }
  }

  lemma SomeHeld<T>(s: Session<T>, failing: set<nat>)
    requires !NoneFails(s, s.awaiting, failing)
    ensures s.awaiting != []
  {
  }

  lemma NothingOf<T>(s: Session<T>)
    ensures Outstanding(s, []) == []
  {
  }

  lemma StillFails<T>(s: Session<T>, next: Session<T>, failing: set<nat>)
    requires s.awaiting != [] && !NoneFails(s, s.awaiting, failing)
    requires s.awaiting[0].requestId !in failing || s.awaiting[0].requestId !in s.pending
    requires next.pending.Keys == s.pending.Keys
    ensures !NoneFails(next, s.awaiting[1..], failing)
  {
    var e :| e in s.awaiting && e.requestId in failing && e.requestId in s.pending;
    assert e in s.awaiting[1..];
  }

  lemma FailedOne<T>(s: Session<T>, e: Envelope, failing: set<nat>)
    requires e.requestId in s.pending && e.requestId in failing
    ensures var s' := PostEnvelope(s, e, failing);
      && s'.link.None? && s'.awaiting == [] && s'.pending == map[] && s'.posted == s.posted
      && ReleaseHeld(s', failing) == s'
      && s'.settled.Keys == s.settled.Keys + s.pending.Keys
      && forall r :: r in s.pending ==>
           s'.settled[r] == Settled(s.pending[r].generation, Rejected(SessionTerminated(PostFailed)))
  {
  }

  lemma NothingHeld<T>(s: Session<T>)
    ensures s.awaiting == [] ==> Outstanding(s, s.awaiting) == []
  {
  }

  lemma SkippedOne<T>(s: Session<T>, e: Envelope, failing: set<nat>)
    requires e.requestId !in s.pending
    ensures PostEnvelope(s, e, failing) == s
  {
  }

  /** The confirmation of the live session's port lets go of everything held for it. Under
      any other identity it is ignored. */
  lemma AttachedMeaning<T>(s: Session<T>, m: Reply<T>, attaches: bool, failing: set<nat>)
    requires m.Reply? && m.protocol == 1 && m.kind == FrameAttachedKind && s.link.Some? && !s.disposed
    ensures var (s', ours) := (AfterMessage(s, m, attaches, failing),
        m.instanceId == Some(s.config.instanceId) && m.sessionId == Some(s.link.value.sessionId));
      && (!ours ==> s' == s)
      && (ours && NoneFails(s, s.awaiting, failing) ==>
            && s'.link == Some(s.link.value.(frameAttached := true))
            && s'.confirmed == s.confirmed + {s.link.value.sessionId}
            && s'.awaiting == [] && s'.posted == s.posted + Outstanding(s, s.awaiting)
            && s'.settled == s.settled && s'.pending.Keys == s.pending.Keys)
      && (ours && !NoneFails(s, s.awaiting, failing) ==>
            s'.link.None? && s'.awaiting == [] && s'.pending == map[]
            && s'.settled.Keys == s.settled.Keys + s.pending.Keys)
  {
    var attached := s.(link := Some(s.link.value.(frameAttached := true)),
      confirmed := s.confirmed + {s.link.value.sessionId});
    hide NoneFails, Outstanding, ReleaseHeld;
    NoneFailsAside(s, attached, failing);
    if NoneFails(s, s.awaiting, failing) {
      OutstandingKeys(s, attached, s.awaiting);
      ReleaseMeaning(attached, failing);
    } else {
      var k := ReleaseFails(attached, failing);
    }
  }

  lemma NoneFailsAside<T>(s: Session<T>, s': Session<T>, failing: set<nat>)
    requires s'.pending == s.pending
    ensures NoneFails(s', s.awaiting, failing) <==> NoneFails(s, s.awaiting, failing)
  {
  }

  // ----- announcements, timers and the end -----

  /** The Worker's announcements: the handshake, once, which in a frame session must get the
      frame its port; the checker, which must be this build's; and its failure. */
  lemma AnnouncementMeaning<T>(s: Session<T>, m: Reply<T>, attaches: bool, failing: set<nat>)
    requires m.Reply? && m.protocol == 1 && s.link.Some? && !s.disposed
    ensures var (s', link) := (AfterMessage(s, m, attaches, failing), s.link.value);
      && (m.kind == ReadyKind && link.handshakeDone ==> s' == s)
      && (m.kind == ReadyKind && !link.handshakeDone && (attaches || !s.config.hasFrame) ==>
            s' == s.(link := Some(link.(handshakeDone := true, handshakeTimer := false))))
      && (m.kind == ReadyKind && !link.handshakeDone && !attaches && s.config.hasFrame ==>
            Ends(s, s', FrameAttachFailed, None) && s'.stats == s.stats)
      && (m.kind == CheckerReadyKind && m.checkerVersion == Some(s.config.checkerVersion) ==>
            s' == s.(link := Some(link.(checkerReady := true, checkerTimer := false))))
      && (m.kind == CheckerReadyKind && m.checkerVersion != Some(s.config.checkerVersion) ==>
            Ends(s, s', CheckerIdentityMismatch, None) && s'.stats == s.stats)
      && (m.kind == FailedKind ==> Ends(s, s', CheckerFailed, None) && s'.stats == s.stats)
      && (m.kind == NotAString ==> s' == s)
  {
    hide Terminate, ReleaseHeld, AfterReply, Ends;
    TerminateMeaning(s, CheckerIdentityMismatch, None);
    TerminateMeaning(s, CheckerFailed, None);
    var greeted := s.(link := Some(s.link.value.(handshakeDone := true, handshakeTimer := false)));
    TerminateMeaning(greeted, FrameAttachFailed, None);
    EndsLinked(s, greeted, Terminate(greeted, FrameAttachFailed, None), FrameAttachFailed);
  }

  lemma EndsLinked<T>(s: Session<T>, greeted: Session<T>, s': Session<T>, cause: Code)
    requires Ends(greeted, s', cause, None) && greeted == s.(link := greeted.link)
    ensures Ends(s, s', cause, None)
  {
  }

  /** A message that comes to nothing: not to a live session, of no or another protocol, or
      under identities or of a request that are not the live session's own. */
  lemma IgnoredMeaning<T>(s: Session<T>, m: Reply<T>, attaches: bool, failing: set<nat>)
    requires
      || s.disposed || s.link.None? || m.NotAnObject? || m.protocol != 1
      || ((m.kind == ResultKind || m.kind == RefusedKind || m.kind == OtherKind)
          && (m.instanceId != Some(s.config.instanceId) || m.sessionId != Some(s.link.value.sessionId)
              || m.generation < 0 || m.requestId < 0 || (m.requestId as int) !in s.pending))
    ensures AfterMessage(s, m, attaches, failing) == s
  {
    hide Terminate, ReleaseHeld, AfterReply;
  }

  /** A request's timer ends the session and names the wait the request was in. */
  lemma RequestTimerMeaning<T>(s: Session<T>, r: nat)
    requires Enabled(s, RequestTimer(r))
    ensures var s' := Next(s, RequestTimer(r));
      && (s.pending[r].posted ==> Ends(s, s', RequestTimeout, Some(r)))
      && (!s.pending[r].posted ==> Ends(s, s', FrameAttachTimeout, Some(r)))
      && s'.stats == s.stats.(timeouts := s.stats.timeouts + 1) && s'.disposed == s.disposed
  {
    hide Terminate, Ends, AfterMessage, AfterPreprocess;
    var cause := if s.pending[r].posted then RequestTimeout else FrameAttachTimeout;
    var counted := s.(stats := s.stats.(timeouts := s.stats.timeouts + 1));
    TerminateMeaning(counted, cause, Some(r));
    EndsAside(s, counted, Terminate(counted, cause, Some(r)), cause, Some(r));
  }

  /** The other ways a session ends: a startup timer whose stage is not done, and an error. */
  lemma FailureMeaning<T>(s: Session<T>)
    requires s.link.Some?
    ensures var s' := Next(s, WorkerErrorEvent);
      && (s.link.value.handshakeDone ==> Ends(s, s', WorkerError, None))
      && (!s.link.value.handshakeDone ==> Ends(s, s', WorkerStartupError, None))
    ensures s.link.value.handshakeTimer ==>
      var s' := Next(s, HandshakeTimer);
      if s.link.value.handshakeDone then s' == s else Ends(s, s', HandshakeTimeout, None)
    ensures s.link.value.checkerTimer ==>
      var s' := Next(s, CheckerTimer);
      if s.link.value.checkerReady then s' == s else Ends(s, s', WasmInitTimeout, None)
  {
    hide Terminate, AfterMessage, AfterPreprocess, AfterRequestTimeout, Ends;
    TerminateMeaning(s, HandshakeTimeout, None);
    TerminateMeaning(s, WasmInitTimeout, None);
    TerminateMeaning(s, WorkerError, None);
    TerminateMeaning(s, WorkerStartupError, None);
  }

  /** The host's own calls: disposal ends the session for good, a new generation nothing. */
  lemma HostMeaning<T>(s: Session<T>)
    ensures var s' := Next(s, DisposeCall); if s.disposed then s' == s else Ends(s, s', Disposed, None) && s'.disposed
    ensures Next(s, NextGenerationCall) == s.(generation := s.generation + 1)
  {
    hide Terminate, AfterMessage, AfterPreprocess, AfterRequestTimeout, Ends;
    var over := s.(disposed := true);
    TerminateMeaning(over, Disposed, None);
    EndsAside(s, over, Terminate(over, Disposed, None), Disposed, None);
  }

  lemma EndsAside<T>(s: Session<T>, counted: Session<T>, s': Session<T>, cause: Code, timedOut: Option<nat>)
    requires Ends(counted, s', cause, timedOut) && counted == s.(stats := counted.stats, disposed := counted.disposed)
    ensures Ends(s, s', cause, timedOut)
  {
  }

  /** Starting the session ahead of its first request. */
  lemma StartMeaning<T>(s: Session<T>, sessionId: string, created: bool)
    requires Enabled(s, StartCall(sessionId, created))
    ensures var s' := Next(s, StartCall(sessionId, created));
      if s.disposed || s.link.Some? || !created then s' == s else BuiltIn(s, s', sessionId)
  {
  }

  // ----- from nothing to a verdict -----

  /** A message about the first request under a session's identities. */
  function Told<T>(config: Config, sessionId: string, kind: Kind, status: Status, token: Token): Reply<T> {
    Reply(1, kind, Some(config.instanceId), Some(sessionId), 0, 1, status, false, config.authority, token, None, None)
  }

  /** The first request of a frame session starts its Worker, waits for the port, is posted
      on its confirmation, and resolves as rendered on a proper reply. */
  lemma FirstRequestRenders<T>(config: Config, sessionId: string, budget: int, token: Token)
    returns (events: seq<Event<T>>)
    requires config.hasFrame && config.instanceId != "" && sessionId != ""
    requires IsAcceptanceToken(token) && token.checkerVersion == config.checkerVersion
    requires token.instanceId == Some(config.instanceId) && token.sessionId == Some(sessionId)
    requires token.requestId == 1 && token.generation == 0
    ensures IsRun(NewSession<T>(config), events)
    ensures var s := After(NewSession<T>(config), events);
      && s.settled == map[1 := Settled(0, RenderedBody(token))] && s.pending == map[] && s.link.Some?
      && s.posted == [Envelope(sessionId, 0, 1, true, config.hasClasses)]
      && s.stats == Stats(1, 1, 1, 0, 0, 1)
  {
    hide IsAcceptanceToken, Sound, Next, Enabled;
    var s0, ask := NewSession<T>(config), PreprocessCall(Request(None, budget), sessionId, true, {});
    var confirm := FromWorker(Told<T>(config, sessionId, FrameAttachedKind, OtherStatus, NotARecord), true, {});
    var reply := Told<T>(config, sessionId, ResultKind, RenderedStatus, token);
    var answer := FromWorker(reply, true, {});
    FirstIsHeld(s0, config, sessionId, budget, ask);
    var s1 := Next(s0, ask);
    FirstIsPosted(s1, config, sessionId, budget, confirm);
    var s2 := Next(s1, confirm);
    NewIsSound<T>(config);
    NextKeeps(s0, ask);
    NextKeeps(s1, confirm);
    TokenHas(token);
    RenderedMeaning(s2, reply, 1, true, {});
    AnswerEnabled(s2, answer);
    var s3 := Next(s2, answer);
    RunCons(s2, answer, []);
    RunCons(s1, confirm, [answer] + []);
    RunCons(s0, ask, [confirm] + ([answer] + []));
    events := [ask] + ([confirm] + ([answer] + []));
    assert After(s3, []) == s3;
    assert s3.settled == map[1 := Settled(0, RenderedBody(token))];
  }

  lemma AnswerEnabled<T>(s: Session<T>, e: Event<T>)
    requires e.FromWorker?
    ensures Enabled(s, e)
  {
  }

  lemma FirstIsHeld<T>(s0: Session<T>, config: Config, sessionId: string, budget: int, ask: Event<T>)
    requires s0 == NewSession<T>(config) && config.hasFrame && sessionId != ""
    requires ask == PreprocessCall(Request(None, budget), sessionId, true, {})
    ensures Enabled(s0, ask)
    ensures var (s, e) := (Next(s0, ask), Envelope(sessionId, 0, 1, true, config.hasClasses));
      && s.config == config && s.pending == map[1 := Ticket(0, budget, false)] && s.awaiting == [e] && s.posted == []
      && s.settled == map[] && s.generation == 0 && !s.disposed
      && s.link == Some(Link(sessionId, config.hasClasses, false, false, true, true, false))
      && s.stats == Stats(1, 0, 0, 0, 0, 1)
  {
  }

  lemma FirstIsPosted<T>(s: Session<T>, config: Config, sessionId: string, budget: int, confirm: Event<T>)
    requires s.config == config && s.pending == map[1 := Ticket(0, budget, false)] && !s.disposed && s.posted == []
    requires s.awaiting == [Envelope(sessionId, 0, 1, true, config.hasClasses)]
    requires s.link == Some(Link(sessionId, config.hasClasses, false, false, true, true, false))
    requires confirm == FromWorker(Told<T>(config, sessionId, FrameAttachedKind, OtherStatus, NotARecord), true, {})
    ensures Enabled(s, confirm)
    ensures var s' := Next(s, confirm);
      && s' == s.(pending := map[1 := Ticket(0, budget, true)], awaiting := [],
                  posted := [Envelope(sessionId, 0, 1, true, config.hasClasses)],
                  link := Some(s.link.value.(frameAttached := true)), confirmed := s.confirmed + {sessionId})
  {
    var e, open := s.awaiting[0],
      s.(link := Some(s.link.value.(frameAttached := true)), confirmed := s.confirmed + {sessionId});
    var rest := open.(awaiting := open.awaiting[1..]);
    PostedOne(rest, e, {});
    assert rest.posted + [e] == [e];
    assert rest.pending[1 := Ticket(0, budget, true)] == map[1 := Ticket(0, budget, true)];
    var next := PostEnvelope(rest, e, {});
    assert ReleaseHeld(open, {}) == ReleaseHeld(next, {}) == next;
  }
}

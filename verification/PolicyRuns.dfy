/** What every run of a policy session keeps, and what follows for its requests. */
module PolicyRuns {
  import opened Acceptance
  import opened Options
  import opened PolicySession

  datatype Event<+T> =
    | PreprocessCall(q: Request, sessionId: string, created: bool, failing: set<nat>)
    | StartCall(sessionId: string, created: bool)
    | FromWorker(m: Reply<T>, attaches: bool, failing: set<nat>)
    | RequestTimer(r: nat)
    | HandshakeTimer
    | CheckerTimer
    | WorkerErrorEvent
    | NextGenerationCall
    | DisposeCall

  /** Session identities are new every time; timers and Worker events need what they
      belong to. */
  predicate Enabled<T>(s: Session<T>, e: Event<T>) {
    match e
    case PreprocessCall(_, sessionId, _, _) => sessionId !in s.started && sessionId != ""
    case StartCall(sessionId, _) => sessionId !in s.started && sessionId != ""
    case RequestTimer(r) => r in s.pending
    case HandshakeTimer => s.link.Some? && s.link.value.handshakeTimer
    case CheckerTimer => s.link.Some? && s.link.value.checkerTimer
    case WorkerErrorEvent => s.link.Some?
    case _ => true
  }

  function Next<T>(s: Session<T>, e: Event<T>): Session<T>
    requires Enabled(s, e)
  {
    match e
    case PreprocessCall(q, sessionId, created, failing) => AfterPreprocess(s, q, sessionId, created, failing)
    case StartCall(sessionId, created) => if s.disposed || s.link.Some? then s else Start(s, sessionId, created)
    case FromWorker(m, attaches, failing) => AfterMessage(s, m, attaches, failing)
    case RequestTimer(r) => AfterRequestTimeout(s, r)
    case HandshakeTimer => AfterHandshakeTimeout(s)
    case CheckerTimer => AfterCheckerTimeout(s)
    case WorkerErrorEvent => AfterWorkerError(s)
    case NextGenerationCall => s.(generation := s.generation + 1)
    case DisposeCall => AfterDispose(s)
  }

  predicate IsRun<T>(s: Session<T>, events: seq<Event<T>>)
    decreases |events|
  {
    events == [] || (Enabled(s, events[0]) && IsRun(Next(s, events[0]), events[1..]))
  }

  function After<T>(s: Session<T>, events: seq<Event<T>>): Session<T>
    requires IsRun(s, events)
    decreases |events|
  {
    if events == [] then s else After(Next(s, events[0]), events[1..])
  }

  // ----- the invariant, part by part -----

  /** Every request issued is pending or settled, never both. */
  ghost predicate Tickets<T>(s: Session<T>) {
    && s.nextRequestId >= 1 && s.stats.requests == s.nextRequestId - 1
    && s.pending.Keys !! s.settled.Keys
    && forall r :: r in s.pending || r in s.settled <==> 1 <= r < s.nextRequestId
  }

  ghost function Ids(es: seq<Envelope>): set<nat> {
    set i | 0 <= i < |es| :: es[i].requestId
  }

  ghost predicate Increasing(es: seq<Envelope>) {
    forall i, j :: 0 <= i < j < |es| ==> es[i].requestId < es[j].requestId
  }

  /** Held and posted messages together, in the order of their request ids; what is
      pending and not posted is exactly what is pending and held. */
  ghost predicate Queues<T>(s: Session<T>) {
    && Increasing(s.posted + s.awaiting)
    && (forall r :: r in Ids(s.posted) ==> 1 <= r < s.nextRequestId)
    && (forall r :: r in Ids(s.awaiting) ==> 1 <= r < s.nextRequestId)
    && (forall r :: r in s.pending ==> (s.pending[r].posted <==> r !in Ids(s.awaiting)))
  }

  /** Without a Worker nothing is outstanding; held messages are the live session's. */
  ghost predicate Linked<T>(s: Session<T>) {
    && (s.link.None? ==> s.pending == map[] && s.awaiting == [])
    && (s.disposed ==> s.link.None?)
    && (s.link.Some? ==> s.link.value.sessionId in s.started && s.link.value.sessionId != "")
    && (forall e :: e in s.awaiting ==> s.link.Some? && e.sessionId == s.link.value.sessionId)
    && (forall e :: e in s.posted ==> e.sessionId in s.started)
  }

  /** A frame session posts only in sessions whose port was confirmed. */
  ghost predicate Attached<T>(s: Session<T>) {
    && s.confirmed <= s.started.Keys
    && (s.link.Some? ==> (s.link.value.frameAttached <==> s.link.value.sessionId in s.confirmed))
    && (s.config.hasFrame ==> forall e :: e in s.posted ==> e.sessionId in s.confirmed)
  }

  /** The class allowlist travels with the first request built in each session. */
  ghost predicate CarriesClasses<T>(s: Session<T>, e: Envelope) {
    && e.sessionId in s.started && s.started[e.sessionId].Some?
    && s.started[e.sessionId].value <= e.requestId
    && (e.classes <==> s.config.hasClasses && s.started[e.sessionId].value == e.requestId)
  }

  ghost predicate Classes<T>(s: Session<T>) {
    && (forall e :: e in s.posted ==> CarriesClasses(s, e))
    && (forall e :: e in s.awaiting ==> CarriesClasses(s, e))
    && (forall i :: i in s.started && s.started[i].Some? ==> 1 <= s.started[i].value < s.nextRequestId)
    && (s.link.Some? ==> s.link.value.sessionId in s.started)
    && (s.link.Some? ==> (s.link.value.classesSent <==> s.config.hasClasses && s.started[s.link.value.sessionId].Some?))
  }

  /** A record a request resolved with names this client, that request, its generation
      and the checker version of this build. */
  ghost predicate Names<T>(s: Session<T>, r: nat, t: Token)
    requires r in s.settled
  {
    && IsAcceptanceToken(t)
    && t.instanceId == Some(s.config.instanceId)
    && t.sessionId.Some? && t.sessionId.value in s.started
    && t.requestId == r && t.generation == s.settled[r].generation
    && t.checkerVersion == s.config.checkerVersion
  }

  ghost predicate ResultOk<T>(s: Session<T>, r: nat)
    requires r in s.settled
  {
    match s.settled[r].body
    case RenderedBody(t) => Names(s, r, t)
    case AcceptedBody(t, _) => !s.config.hasFrame && Names(s, r, t)
    case _ => true
  }

  ghost predicate Results<T>(s: Session<T>) {
    && (forall r :: r in s.settled ==> ResultOk(s, r))
    && (s.config.hasFrame ==> s.stats.accepted == s.stats.rendered)
  }

  /** All of it, except that a hold queue may still be waiting to be released. */
  ghost predicate Core<T>(s: Session<T>) {
    Tickets(s) && Queues(s) && Linked(s) && Attached(s) && Classes(s) && Results(s)
  }

  ghost predicate Sound<T>(s: Session<T>) {
    && Core(s)
    && (s.link.Some? && (s.link.value.frameAttached || !s.config.hasFrame) ==> s.awaiting == [])
  }

  lemma NewIsSound<T>(config: Config)
    ensures Sound(NewSession<T>(config))
  {
  }

  // ----- settling and terminating -----

  lemma SettleKeeps<T>(s: Session<T>, r: nat, body: Body<T>)
    requires Core(s) && r in s.pending
    requires body.RenderedBody? || body.AcceptedBody? ==> Names(Settle(s, r, body), r, body.acceptance)
    requires body.AcceptedBody? ==> !s.config.hasFrame
    ensures Core(Settle(s, r, body))
  {
    var s' := Settle(s, r, body);
    forall q | q in s'.settled
      ensures ResultOk(s', q)
    {
      if q != r {
        assert ResultOk(s, q);
      }
    }
  }

  lemma TerminateTickets<T>(s: Session<T>, cause: Code, timedOut: Option<nat>)
    requires Tickets(s)
    ensures Tickets(Terminate(s, cause, timedOut))
  {
  }

  lemma TerminateQueues<T>(s: Session<T>, cause: Code, timedOut: Option<nat>)
    requires Queues(s)
    ensures Queues(Terminate(s, cause, timedOut))
  {
    hide Closing, Increasing;
    assert Ids([]) == {};
    assert s.posted + [] == s.posted;
    PostedIncreasing(s.posted, s.awaiting);
  }

  lemma TerminateResults<T>(s: Session<T>, cause: Code, timedOut: Option<nat>)
    requires Results(s)
    ensures Results(Terminate(s, cause, timedOut))
  {
    hide IsAcceptanceToken;
    var s' := Terminate(s, cause, timedOut);
    forall q | q in s'.settled
      ensures ResultOk(s', q)
    {
      if q !in s.pending {
        assert ResultOk(s, q) && s'.settled[q] == s.settled[q];
      }
    }
  }

  lemma TerminateKeeps<T>(s: Session<T>, cause: Code, timedOut: Option<nat>)
    requires Core(s)
    ensures Sound(Terminate(s, cause, timedOut))
  {
    hide Tickets, Queues, Results, Closing;
    TerminateTickets(s, cause, timedOut);
    TerminateQueues(s, cause, timedOut);
    TerminateResults(s, cause, timedOut);
  }

  lemma PostedIncreasing(posted: seq<Envelope>, awaiting: seq<Envelope>)
    requires Increasing(posted + awaiting)
    ensures Increasing(posted)
  {
    var all := posted + awaiting;
    assert forall i :: 0 <= i < |posted| ==> all[i] == posted[i];
  }

  // ----- building and posting -----

  lemma IdsConcat(a: seq<Envelope>, b: seq<Envelope>)
    ensures Ids(a + b) == Ids(a) + Ids(b)
  {
    var c := a + b;
    forall r | r in Ids(a)
      ensures r in Ids(c)
    {
      var i :| 0 <= i < |a| && a[i].requestId == r;
      assert c[i] == a[i];
    }
    forall r | r in Ids(b)
      ensures r in Ids(c)
    {
      var i :| 0 <= i < |b| && b[i].requestId == r;
      assert c[|a| + i] == b[i];
    }
  }

  lemma IdsOne(e: Envelope)
    ensures Ids([e]) == {e.requestId}
  {
    assert [e][0] == e;
  }

  /** Moving the first held message to the posted ones changes no order. */
  lemma HandOver(posted: seq<Envelope>, e: Envelope, rest: seq<Envelope>)
    requires Increasing(posted + ([e] + rest))
    ensures (posted + [e]) + rest == posted + ([e] + rest)
    ensures Increasing(posted + rest) && Increasing((posted + [e]) + rest)
    ensures e.requestId !in Ids(rest) && e.requestId !in Ids(posted)
  {
    var all, less := posted + ([e] + rest), posted + rest;
    assert (posted + [e]) + rest == all;
    forall i | 0 <= i < |less|
      ensures less[i] == all[if i < |posted| then i else i + 1]
    {
    }
    assert all[|posted|] == e;
    forall i | 0 <= i < |rest|
      ensures rest[i].requestId > e.requestId
    {
      assert all[|posted| + 1 + i] == rest[i];
    }
    forall i | 0 <= i < |posted|
      ensures posted[i].requestId < e.requestId
    {
      assert all[i] == posted[i];
    }
  }

  /** The state with the first held message taken out of the queue and about to be posted. */
  ghost predicate Ready<T>(s: Session<T>, e: Envelope, rest: seq<Envelope>) {
    && s.awaiting == [e] + rest
    && s.link.Some?
    && (s.config.hasFrame ==> s.link.value.frameAttached)
  }

  /** The same with its request marked as posted, if it is still pending. */
  ghost function Taken<T>(s: Session<T>, e: Envelope, rest: seq<Envelope>): Session<T> {
    if e.requestId in s.pending then
      s.(awaiting := rest, pending := s.pending[e.requestId := s.pending[e.requestId].(posted := true)])
    else s.(awaiting := rest)
  }

  lemma TakenKeeps<T>(s: Session<T>, e: Envelope, rest: seq<Envelope>)
    requires Core(s) && Ready(s, e, rest)
    ensures Core(Taken(s, e, rest))
    ensures Queues(Taken(s, e, rest).(posted := s.posted + [e]))
  {
    hide Closing, Ids, Increasing, CarriesClasses, Results;
    HandOver(s.posted, e, rest);
    IdsConcat([e], rest);
    IdsConcat(s.posted, [e]);
    IdsOne(e);
    assert forall d :: d in rest ==> d in s.awaiting;
    ResultsAside(s, Taken(s, e, rest));
    ClassesAside(s, Taken(s, e, rest));
  }

  lemma ResultsAside<T>(s: Session<T>, s': Session<T>)
    requires Results(s) && s'.settled == s.settled && s'.config == s.config && s.started.Keys <= s'.started.Keys
    requires s'.stats.accepted == s.stats.accepted && s'.stats.rendered == s.stats.rendered
    ensures Results(s')
  {
    forall r | r in s'.settled
      ensures ResultOk(s', r)
    {
      assert ResultOk(s, r);
    }
  }

  lemma ClassesAside<T>(s: Session<T>, s': Session<T>)
    requires Classes(s) && s'.config == s.config && s'.started == s.started && s'.nextRequestId == s.nextRequestId
    requires s'.link == s.link
    requires forall e :: e in s'.posted + s'.awaiting ==> e in s.posted || e in s.awaiting
    ensures Classes(s')
  {
    forall e | e in s'.posted + s'.awaiting
      ensures CarriesClasses(s', e)
    {
      assert CarriesClasses(s, e);
    }
  }

  lemma PostKeeps<T>(s: Session<T>, e: Envelope, rest: seq<Envelope>, failing: set<nat>)
    requires Core(s) && Ready(s, e, rest)
    ensures var s' := PostEnvelope(s.(awaiting := rest), e, failing);
      && Core(s')
      && (s'.link.None? || (s'.link == s.link && s'.awaiting == rest))
      && s'.config == s.config
  {
    hide Closing, Ids, Increasing, CarriesClasses, Results, Queues, Tickets;
    TakenKeeps(s, e, rest);
    var taken := Taken(s, e, rest);
    TerminateKeeps(taken, PostFailed, None);
    var s' := taken.(posted := s.posted + [e]);
    assert e in s.awaiting;
    ResultsAside(s, s');
    ClassesAside(s, s');
    TicketsAside(taken, s');
  }

  lemma TicketsAside<T>(s: Session<T>, s': Session<T>)
    requires Tickets(s) && s'.pending.Keys == s.pending.Keys && s'.settled == s.settled
    requires s'.nextRequestId == s.nextRequestId && s'.stats.requests == s.stats.requests
    ensures Tickets(s')
  {
  }

  lemma {:induction false} ReleaseKeeps<T>(s: Session<T>, failing: set<nat>)
    requires Core(s) && (s.link.Some? && s.config.hasFrame ==> s.link.value.frameAttached)
    ensures Sound(ReleaseHeld(s, failing))
    decreases |s.awaiting|
  {
    hide Core, PostEnvelope;
    if s.awaiting == [] || s.link.None? {
    } else {
      var e, rest := s.awaiting[0], s.awaiting[1..];
      PostKeeps(s, e, rest, failing);
      PostKeepsHeldShort(s.(awaiting := rest), e, failing);
      ReleaseKeeps(PostEnvelope(s.(awaiting := rest), e, failing), failing);
    }
  }

  // ----- one event -----

  /** A new Worker starts with nothing outstanding, under a name never used before. */
  lemma StartKeeps<T>(s: Session<T>, sessionId: string, created: bool)
    requires Sound(s) && s.link.None? && !s.disposed && sessionId !in s.started && sessionId != ""
    ensures Sound(Start(s, sessionId, created))
  {
    hide Ids, Increasing, Results, Queues, Tickets;
    if created {
      var s' := Start(s, sessionId, true);
      ResultsAside(s, s');
      TicketsAside(s, s');
      QueuesAside(s, s');
      forall e | e in s.posted
        ensures CarriesClasses(s', e)
      {
        assert CarriesClasses(s, e);
      }
    }
  }

  lemma QueuesAside<T>(s: Session<T>, s': Session<T>)
    requires Queues(s) && s'.pending == s.pending && s'.posted == s.posted && s'.awaiting == s.awaiting
    requires s'.nextRequestId == s.nextRequestId
    ensures Queues(s')
  {
  }

  lemma RegisterQueues<T>(s: Session<T>, q: Request)
    requires Tickets(s) && Queues(s) && s.link.Some?
    ensures Queues(Register(s, q).(awaiting := s.awaiting + [NextEnvelope(s, q)]))
  {
    hide Ids, NoteFirst;
    var e, all := NextEnvelope(s, q), s.posted + s.awaiting;
    IdsConcat(s.awaiting, [e]);
    IdsOne(e);
    forall i | 0 <= i < |all|
      ensures all[i].requestId < s.nextRequestId
    {
      AllBelow(s, i);
    }
    assert s.posted + (s.awaiting + [e]) == all + [e];
  }

  lemma AllBelow<T>(s: Session<T>, i: nat)
    requires Queues(s) && i < |s.posted + s.awaiting|
    ensures (s.posted + s.awaiting)[i].requestId < s.nextRequestId
  {
    if i < |s.posted| {
      assert s.posted[i].requestId in Ids(s.posted);
    } else {
      assert s.awaiting[i - |s.posted|].requestId in Ids(s.awaiting);
    }
  }

  lemma RegisterClasses<T>(s: Session<T>, q: Request)
    requires Classes(s) && s.nextRequestId >= 1 && s.link.Some?
    ensures Classes(Register(s, q).(awaiting := s.awaiting + [NextEnvelope(s, q)]))
  {
    var e := NextEnvelope(s, q);
    var s' := Register(s, q).(awaiting := s.awaiting + [e]);
    forall d | d in s.posted + s.awaiting
      ensures CarriesClasses(s', d)
    {
      assert CarriesClasses(s, d);
    }
    assert CarriesClasses(s', e);
  }

  lemma RegisterKeeps<T>(s: Session<T>, q: Request)
    requires Sound(s) && s.link.Some?
    ensures Core(Register(s, q).(awaiting := s.awaiting + [NextEnvelope(s, q)]))
  {
    hide Queues, Classes, Results;
    var s' := Register(s, q).(awaiting := s.awaiting + [NextEnvelope(s, q)]);
    RegisterQueues(s, q);
    RegisterClasses(s, q);
    ResultsAside(s, s');
  }

  lemma SubmitKeeps<T>(s: Session<T>, q: Request, failing: set<nat>)
    requires Sound(s) && s.link.Some?
    ensures Sound(Submit(s, q, failing))
  {
    hide Core, PostEnvelope;
    RegisterKeeps(s, q);
    var e := NextEnvelope(s, q);
    var s' := Register(s, q).(awaiting := s.awaiting + [e]);
    if !(s.config.hasFrame && !s.link.value.frameAttached) {
      assert s'.awaiting == [e] + [];
      assert Register(s, q) == s'.(awaiting := []);
      PostKeeps(s', e, [], failing);
    }
  }

  lemma PreprocessKeeps<T>(s: Session<T>, q: Request, sessionId: string, created: bool, failing: set<nat>)
    requires Sound(s) && sessionId !in s.started && sessionId != ""
    ensures Sound(AfterPreprocess(s, q, sessionId, created, failing))
  {
    hide Submit;
    if s.disposed {
    } else if s.link.Some? {
      SubmitKeeps(s, q, failing);
    } else if created {
      StartKeeps(s, sessionId, true);
      SubmitKeeps(Start(s, sessionId, true), q, failing);
    } else {
      FailedStartKeeps(s, q, sessionId, failing);
    }
  }

  lemma FailedStartKeeps<T>(s: Session<T>, q: Request, sessionId: string, failing: set<nat>)
    requires Sound(s) && !s.disposed && s.link.None?
    ensures Sound(AfterPreprocess(s, q, sessionId, false, failing))
  {
    hide Ids, Increasing, IsAcceptanceToken;
    var s' := AfterPreprocess(s, q, sessionId, false, failing);
    forall r | r in s'.settled
      ensures ResultOk(s', r)
    {
      if r != s.nextRequestId {
        assert ResultOk(s, r);
      }
    }
    forall e | e in s.posted
      ensures CarriesClasses(s', e)
    {
      assert CarriesClasses(s, e);
    }
  }

  /** Settling with anything but a verdict, after counting it or not. */
  lemma RefuseKeeps<T>(s: Session<T>, r: nat, body: Body<T>, rejected: nat)
    requires Sound(s) && r in s.pending && (body.Superseded? || body.Rejected?)
    ensures Sound(Settle(s.(stats := s.stats.(rejected := rejected)), r, body))
  {
    var s' := s.(stats := s.stats.(rejected := rejected));
    CountKeeps(s, s');
    SettleKeeps(s', r, body);
  }

  lemma CountKeeps<T>(s: Session<T>, s': Session<T>)
    requires Core(s) && s' == s.(stats := s'.stats)
    requires s'.stats.requests == s.stats.requests
    requires s.config.hasFrame ==> s'.stats.accepted == s'.stats.rendered
    ensures Core(s')
  {
    hide Ids, Increasing, IsAcceptanceToken;
    forall e | e in s.posted + s.awaiting
      ensures CarriesClasses(s', e)
    {
      assert CarriesClasses(s, e);
    }
    forall r | r in s'.settled
      ensures ResultOk(s', r)
    {
      assert ResultOk(s, r);
    }
  }

  lemma RenderedKeeps<T>(s: Session<T>, r: nat, m: Reply<T>, sessionId: string)
    requires Sound(s) && r in s.pending && m.Reply? && m.requestId == r && m.generation == s.pending[r].generation
    requires sessionId in s.started
    ensures Sound(AfterRendered(s, r, m, sessionId))
  {
    hide Core, Settle, IsAcceptanceToken;
    if m.authority == s.config.authority && TokenMatches(m.acceptance, s.config, sessionId, m) && m.tree.None? {
      var s' := s.(stats := s.stats.(accepted := s.stats.accepted + 1, rendered := s.stats.rendered + 1));
      AcceptedCounts(s);
      CountKeeps(s, s');
      VerdictKeeps(s', r, RenderedBody(m.acceptance), sessionId);
    } else {
      RefuseAnyhow(s, r);
    }
  }

  lemma AcceptedKeeps<T>(s: Session<T>, r: nat, m: Reply<T>, sessionId: string)
    requires Sound(s) && r in s.pending && m.Reply? && m.requestId == r && m.generation == s.pending[r].generation
    requires sessionId in s.started && !s.config.hasFrame
    ensures Sound(AfterAccepted(s, r, m, sessionId))
  {
    hide Core, Settle, IsAcceptanceToken;
    if m.authority == s.config.authority && TokenMatches(m.acceptance, s.config, sessionId, m) {
      var s' := s.(stats := s.stats.(accepted := s.stats.accepted + 1));
      CountKeeps(s, s');
      VerdictKeeps(s', r, AcceptedBody(m.acceptance, m.tree), sessionId);
    } else {
      RefuseAnyhow(s, r);
    }
  }

  lemma AcceptedCounts<T>(s: Session<T>)
    requires Core(s)
    ensures s.config.hasFrame ==> s.stats.accepted == s.stats.rendered
  {
  }

  lemma RefuseAnyhow<T>(s: Session<T>, r: nat)
    requires Sound(s) && r in s.pending
    ensures forall reason :: Sound(Refuse(s, r, reason))
  {
    hide Core, Settle;
    forall reason
      ensures Sound(Refuse(s, r, reason))
    {
      RefuseKeeps(s, r, Rejected(reason), s.stats.rejected + 1);
    }
  }

  /** Settling with a verdict whose record has been checked. */
  lemma VerdictKeeps<T>(s: Session<T>, r: nat, body: Body<T>, sessionId: string)
    requires Core(s) && r in s.pending && (body.RenderedBody? || body.AcceptedBody?)
    requires s.link.Some? && (s.link.value.frameAttached || !s.config.hasFrame) ==> s.awaiting == []
    requires body.AcceptedBody? ==> !s.config.hasFrame
    requires var t := body.acceptance;
      && IsAcceptanceToken(t) && t.instanceId == Some(s.config.instanceId) && t.sessionId == Some(sessionId)
      && sessionId in s.started && t.requestId == r && t.generation == s.pending[r].generation
      && t.checkerVersion == s.config.checkerVersion
    ensures Sound(Settle(s, r, body))
  {
    SettleKeeps(s, r, body);
  }

  lemma ReplyKeeps<T>(s: Session<T>, r: nat, m: Reply<T>)
    requires Sound(s) && r in s.pending && m.Reply? && m.requestId == r
    requires s.link.Some? && s.link.value.sessionId in s.started
    ensures Sound(AfterReply(s, r, m, s.link.value.sessionId))
  {
    hide Core, Settle, Refuse, AfterRendered, AfterAccepted, Terminate;
    RefuseAnyhow(s, r);
    RefuseKeeps(s, r, Superseded, s.stats.rejected);
    RefuseKeeps(s, r, Rejected(GenerationMismatch), s.stats.rejected);
    TerminateKeeps(Refuse(s, r, RejectedByWorker), CheckerPoisoned, None);
    TerminateKeeps(Refuse(s, r, AuthorityPathMismatch), AuthorityPathMismatch, None);
    if m.generation == s.pending[r].generation {
      RenderedKeeps(s, r, m, s.link.value.sessionId);
      if !s.config.hasFrame {
        AcceptedKeeps(s, r, m, s.link.value.sessionId);
      }
    }
  }

  /** The link may note a handshake or a checker; the port once it is confirmed. */
  lemma LinkKeeps<T>(s: Session<T>, link: Link)
    requires Sound(s) && s.link.Some?
    requires link == s.link.value.(handshakeDone := link.handshakeDone, handshakeTimer := link.handshakeTimer,
                                   checkerReady := link.checkerReady, checkerTimer := link.checkerTimer)
    ensures Sound(s.(link := Some(link)))
  {
    hide Ids, Increasing, Tickets, Queues, Results;
    var s' := s.(link := Some(link));
    TicketsAside(s, s');
    QueuesAside(s, s');
    ResultsAside(s, s');
    forall e | e in s.posted + s.awaiting
      ensures CarriesClasses(s', e)
    {
      assert CarriesClasses(s, e);
    }
  }

  lemma AttachKeeps<T>(s: Session<T>)
    requires Sound(s) && s.link.Some?
    ensures Core(s.(link := Some(s.link.value.(frameAttached := true)),
      confirmed := s.confirmed + {s.link.value.sessionId}))
  {
    hide Ids, Increasing, Tickets, Queues, Results;
    var s' := s.(link := Some(s.link.value.(frameAttached := true)),
      confirmed := s.confirmed + {s.link.value.sessionId});
    TicketsAside(s, s');
    QueuesAside(s, s');
    ResultsAside(s, s');
    forall e | e in s.posted + s.awaiting
      ensures CarriesClasses(s', e)
    {
      assert CarriesClasses(s, e);
    }
  }

  lemma LiveIsStarted<T>(s: Session<T>)
    requires Core(s) && s.link.Some?
    ensures s.link.value.sessionId in s.started
  {
  }

  lemma MessageKeeps<T>(s: Session<T>, m: Reply<T>, attaches: bool, failing: set<nat>)
    requires Sound(s)
    ensures Sound(AfterMessage(s, m, attaches, failing))
  {
    hide Core, Terminate, ReleaseHeld, AfterReply;
    if !(s.disposed || s.link.None? || m.NotAnObject? || m.protocol != POLICY_PROTOCOL_VERSION) {
      var link := s.link.value;
      match m.kind
      case ReadyKind =>
        LinkKeeps(s, link.(handshakeDone := true, handshakeTimer := false));
        TerminateKeeps(s.(link := Some(link.(handshakeDone := true, handshakeTimer := false))), FrameAttachFailed,
          None);
      case FrameAttachedKind =>
        AttachKeeps(s);
        ReleaseKeeps(s.(link := Some(link.(frameAttached := true)), confirmed := s.confirmed + {link.sessionId}),
          failing);
      case CheckerReadyKind =>
        TerminateKeeps(s, CheckerIdentityMismatch, None);
        LinkKeeps(s, link.(checkerReady := true, checkerTimer := false));
      case FailedKind =>
        TerminateKeeps(s, CheckerFailed, None);
      case _ =>
        LiveIsStarted(s);
        if m.requestId in s.pending {
          ReplyKeeps(s, m.requestId, m);
        }
    }
  }

  lemma NextKeeps<T>(s: Session<T>, e: Event<T>)
    requires Sound(s) && Enabled(s, e)
    ensures Sound(Next(s, e))
  {
    hide Core, Terminate, AfterPreprocess, AfterMessage, Start;
    match e
    case PreprocessCall(q, sessionId, created, failing) => PreprocessKeeps(s, q, sessionId, created, failing);
    case StartCall(sessionId, created) =>
      if !s.disposed && s.link.None? {
        StartKeeps(s, sessionId, created);
      }
    case FromWorker(m, attaches, failing) => MessageKeeps(s, m, attaches, failing);
    case RequestTimer(r) =>
      var s' := s.(stats := s.stats.(timeouts := s.stats.timeouts + 1));
      AcceptedCounts(s);
      CountKeeps(s, s');
      TerminateKeeps(s', if s.pending[r].posted then RequestTimeout else FrameAttachTimeout, Some(r));
    case HandshakeTimer => TerminateKeeps(s, HandshakeTimeout, None);
    case CheckerTimer => TerminateKeeps(s, WasmInitTimeout, None);
    case WorkerErrorEvent =>
      TerminateKeeps(s, if s.link.value.handshakeDone then WorkerError else WorkerStartupError, None);
    case NextGenerationCall => GenerationKeeps(s);
    case DisposeCall => DisposeKeeps(s);
  }

  lemma GenerationKeeps<T>(s: Session<T>)
    requires Sound(s)
    ensures Sound(s.(generation := s.generation + 1))
  {
    hide Ids, Increasing;
    var s' := s.(generation := s.generation + 1);
    ResultsAside(s, s');
    ClassesAside(s, s');
  }

  lemma DisposeKeeps<T>(s: Session<T>)
    requires Sound(s)
    ensures Sound(AfterDispose(s))
  {
    hide Closing, Tickets, Queues, Results, Ids, Increasing;
    if !s.disposed {
      TerminateKeeps(s, Disposed, None);
      var ended := Terminate(s, Disposed, None);
      var s' := ended.(disposed := true);
      assert s' == AfterDispose(s);
      TicketsAside(ended, s');
      QueuesAside(ended, s');
      ResultsAside(ended, s');
      ClassesAside(ended, s');
    }
  }

  lemma {:induction false} RunKeeps<T>(s: Session<T>, events: seq<Event<T>>)
    requires Sound(s) && IsRun(s, events)
    ensures Sound(After(s, events))
    decreases |events|
  {
    if events != [] {
      NextKeeps(s, events[0]);
      RunKeeps(Next(s, events[0]), events[1..]);
    }
  }
}

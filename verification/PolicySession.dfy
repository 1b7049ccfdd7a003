/** The host's client of the policy Worker: a restartable session with pending requests,
    requests held until the frame's port is confirmed, generations, timers and termination. */
module PolicySession {
  import opened Acceptance
  import opened Options

  const POLICY_PROTOCOL_VERSION := 1

  /** What the build fixes: this client's identity, whether a frame and a class allowlist
      were given, and the authority and checker version it accepts. */
  datatype Config = Config(
    instanceId: string, hasFrame: bool, hasClasses: bool, authority: string, checkerVersion: string)

  datatype Code =
    | Disposed | HandshakeTimeout | WasmInitTimeout | WorkerError | WorkerStartupError | StartupFailed
    | FrameAttachFailed | CheckerIdentityMismatch | CheckerFailed | CheckerPoisoned | AuthorityPathMismatch | PostFailed
    | RequestTimeout | FrameAttachTimeout
    | SessionTerminated(cause: Code) | TimedOut(cause: Code, budget: int)
    | GenerationMismatch | RefusedByWorker | AuthorityNotLean | AcceptanceIdentityMismatch | RenderedWithTree
    | AcceptanceMalformed | AcceptanceCheckerVersion | RejectedByWorker | MalformedReply

  /** What a preprocess promise resolves to. */
  datatype Body<+T> =
    | Superseded
    | RenderedBody(acceptance: Token)
    | AcceptedBody(acceptance: Token, tree: Option<T>)
    | Rejected(reason: Code)

  datatype Settled<+T> = Settled(generation: int, body: Body<T>)

  // ----- messages -----

  /** `NotAString` is the kind of a message whose kind is no string at all. */
  datatype Kind =
    | ReadyKind | FrameAttachedKind | CheckerReadyKind | FailedKind | RefusedKind | ResultKind | OtherKind | NotAString

  datatype Status = RenderedStatus | AcceptedStatus | RejectedStatus | OtherStatus

  /** A message from the Worker. Identities that are not strings are absent, and numbers
      that are not natural read as negative. */
  datatype Reply<+T> =
    | NotAnObject
    | Reply(protocol: int, kind: Kind, instanceId: Option<string>, sessionId: Option<string>,
            generation: int, requestId: int, status: Status, poisoned: bool, authority: string,
            acceptance: Token, tree: Option<T>, checkerVersion: Option<string>)

  predicate IsPolicyEnvelope<T>(m: Reply<T>, instanceId: string, sessionId: string) {
    && m.Reply? && m.protocol == POLICY_PROTOCOL_VERSION && m.kind != NotAString
    && instanceId != [] && m.instanceId == Some(instanceId)
    && sessionId != [] && m.sessionId == Some(sessionId)
    && m.generation >= 0 && m.requestId >= 0
  }

  datatype Envelope = Envelope(sessionId: string, generation: int, requestId: nat, forFrame: bool, classes: bool)

  // ----- state -----

  datatype Ticket = Ticket(generation: int, budget: int, posted: bool)

  datatype Stats = Stats(requests: nat, accepted: nat, rendered: nat, rejected: nat, timeouts: nat, sessions: nat)

  /** A live Worker's session: its identity and what it has confirmed so far. */
  datatype Link = Link(
    sessionId: string, classesSent: bool, checkerReady: bool, handshakeDone: bool,
    handshakeTimer: bool, checkerTimer: bool, frameAttached: bool)

  /** `settled`, `posted`, `confirmed` and `started` are history: each request's result,
      every envelope posted to a Worker, the sessions whose port was confirmed, and every
      session with the first request built in it, if any. */
  datatype Session<T> = Session(
    config: Config, link: Option<Link>, generation: nat, nextRequestId: nat, disposed: bool,
    pending: map<nat, Ticket>, awaiting: seq<Envelope>, stats: Stats,
    settled: map<nat, Settled<T>>, posted: seq<Envelope>, confirmed: set<string>, started: map<string, Option<nat>>)

  function NewSession<T>(config: Config): Session<T> {
    Session(config, None, 0, 1, false, map[], [], Stats(0, 0, 0, 0, 0, 0), map[], [], {}, map[])
  }

  function Settle<T>(s: Session<T>, r: nat, body: Body<T>): Session<T>
    requires r in s.pending
  {
    s.(pending := s.pending - {r}, settled := s.settled[r := Settled(s.pending[r].generation, body)])
  }

  function TerminationBody<T>(ticket: Ticket, r: nat, cause: Code, timedOut: Option<nat>): Body<T> {
    if timedOut == Some(r) then Rejected(TimedOut(cause, ticket.budget)) else Rejected(SessionTerminated(cause))
  }

  /** The results of the pending requests other than `open` when a session ends. */
  function Closing<T>(pending: map<nat, Ticket>, open: set<nat>, cause: Code, timedOut: Option<nat>)
    : map<nat, Settled<T>>
  {
    map r | r in pending && r !in open ::
      Settled(pending[r].generation, TerminationBody(pending[r], r, cause, timedOut))
  }

  lemma NothingClosed<T>(pending: map<nat, Ticket>, cause: Code, timedOut: Option<nat>)
    ensures Closing<T>(pending, pending.Keys, cause, timedOut) == map[]
  {
  }

  lemma CloseOne<T>(pending: map<nat, Ticket>, open: set<nat>, r: nat, cause: Code, timedOut: Option<nat>)
    requires r in open && open <= pending.Keys
    ensures Closing<T>(pending, open - {r}, cause, timedOut) ==
      Closing<T>(pending, open, cause, timedOut)[
        r := Settled(pending[r].generation, TerminationBody(pending[r], r, cause, timedOut))]
  {
  }

  /** The Worker is gone and every pending request is settled. */
  function Terminate<T>(s: Session<T>, cause: Code, timedOut: Option<nat>): Session<T> {
    s.(link := None, awaiting := [], pending := map[], settled := s.settled + Closing(s.pending, {}, cause, timedOut))
  }

  /** A fresh Worker under a new session identity; creating it may throw. */
  function Start<T>(s: Session<T>, sessionId: string, created: bool): Session<T> {
    if !created then s
    else
      s.(link := Some(Link(sessionId, false, false, false, true, true, false)),
         stats := s.stats.(sessions := s.stats.sessions + 1),
         started := s.started[sessionId := None])
  }

  /** Post one envelope unless its request was settled while it was held. `failing` are
      the requests whose post throws. */
  function PostEnvelope<T>(s: Session<T>, e: Envelope, failing: set<nat>): Session<T> {
    if e.requestId !in s.pending then s
    else
      var s' := s.(pending := s.pending[e.requestId := s.pending[e.requestId].(posted := true)]);
      if e.requestId in failing then Terminate(s', PostFailed, None) else s'.(posted := s.posted + [e])
  }

  /** Release what was held, in order, for as long as there is a Worker. */
  function ReleaseHeld<T>(s: Session<T>, failing: set<nat>): Session<T>
    decreases |s.awaiting|
  {
    if s.awaiting == [] || s.link.None? then s
    else ReleaseHeld(PostEnvelope(s.(awaiting := s.awaiting[1..]), s.awaiting[0], failing), failing)
  }

  datatype Request = Request(generation: Option<int>, budget: int)

  /** The message for the next request. */
  function NextEnvelope<T>(s: Session<T>, q: Request): Envelope
    requires s.link.Some?
  {
    Envelope(s.link.value.sessionId, if q.generation.Some? then q.generation.value else s.generation,
             s.nextRequestId, s.config.hasFrame, !s.link.value.classesSent && s.config.hasClasses)
  }

  /** Remember the first request built in a session. */
  function NoteFirst(started: map<string, Option<nat>>, sessionId: string, r: nat): map<string, Option<nat>> {
    if sessionId in started && started[sessionId].None? then started[sessionId := Some(r)] else started
  }

  /** The next request is pending, its message built but not yet posted. */
  function Register<T>(s: Session<T>, q: Request): Session<T>
    requires s.link.Some?
  {
    var link, e := s.link.value, NextEnvelope(s, q);
    s.(nextRequestId := s.nextRequestId + 1,
       stats := s.stats.(requests := s.stats.requests + 1),
       pending := s.pending[e.requestId := Ticket(e.generation, q.budget, false)],
       link := Some(link.(classesSent := link.classesSent || e.classes)),
       started := NoteFirst(s.started, link.sessionId, e.requestId))
  }

  /** A request on a session that has a Worker: held until the port is confirmed. */
  function Submit<T>(s: Session<T>, q: Request, failing: set<nat>): Session<T>
    requires s.link.Some?
  {
    var s', e := Register(s, q), NextEnvelope(s, q);
    if s.config.hasFrame && !s.link.value.frameAttached then s'.(awaiting := s.awaiting + [e])
    else PostEnvelope(s', e, failing)
  }

  /** A preprocess call; without a Worker it starts one first. */
  function AfterPreprocess<T>(s: Session<T>, q: Request, sessionId: string, created: bool,
    failing: set<nat>): Session<T> {
    if s.disposed then s
    else if s.link.Some? then Submit(s, q, failing)
    else if created then Submit(Start(s, sessionId, true), q, failing)
    else
      s.(nextRequestId := s.nextRequestId + 1,
         stats := s.stats.(requests := s.stats.requests + 1, rejected := s.stats.rejected + 1),
         settled := s.settled[s.nextRequestId := Settled(s.generation, Rejected(StartupFailed))])
  }

  function Refuse<T>(s: Session<T>, r: nat, reason: Code): Session<T>
    requires r in s.pending
  {
    Settle(s.(stats := s.stats.(rejected := s.stats.rejected + 1)), r, Rejected(reason))
  }

  /** The record names this client, this session, this request and its generation. */
  predicate TokenNames<T>(t: Token, c: Config, sessionId: string, m: Reply<T>)
    requires t.Token? && m.Reply?
  {
    && t.instanceId == Some(c.instanceId) && t.sessionId == Some(sessionId)
    && t.requestId == m.requestId && t.generation == m.generation
  }

  predicate TokenMatches<T>(t: Token, c: Config, sessionId: string, m: Reply<T>)
    requires m.Reply?
  {
    IsAcceptanceToken(t) && TokenNames(t, c, sessionId, m) && t.checkerVersion == c.checkerVersion
  }

  function AfterRendered<T>(s: Session<T>, r: nat, m: Reply<T>, sessionId: string): Session<T>
    requires r in s.pending && m.Reply?
  {
    if m.authority != s.config.authority then Refuse(s, r, AuthorityNotLean)
    else if !TokenMatches(m.acceptance, s.config, sessionId, m) then Refuse(s, r, AcceptanceIdentityMismatch)
    else if m.tree.Some? then Refuse(s, r, RenderedWithTree)
    else
      Settle(s.(stats := s.stats.(accepted := s.stats.accepted + 1, rendered := s.stats.rendered + 1)),
             r, RenderedBody(m.acceptance))
  }

  function AfterAccepted<T>(s: Session<T>, r: nat, m: Reply<T>, sessionId: string): Session<T>
    requires r in s.pending && m.Reply?
  {
    var t := m.acceptance;
    if m.authority != s.config.authority then Refuse(s, r, AuthorityNotLean)
    else if !IsAcceptanceToken(t) then Refuse(s, r, AcceptanceMalformed)
    else if !TokenNames(t, s.config, sessionId, m) then Refuse(s, r, AcceptanceIdentityMismatch)
    else if t.checkerVersion != s.config.checkerVersion then Refuse(s, r, AcceptanceCheckerVersion)
    else Settle(s.(stats := s.stats.(accepted := s.stats.accepted + 1)), r, AcceptedBody(t, m.tree))
  }

  /** A reply addressed to a pending request of the live session. */
  function AfterReply<T>(s: Session<T>, r: nat, m: Reply<T>, sessionId: string): Session<T>
    requires r in s.pending && m.Reply?
  {
    var ticket := s.pending[r];
    if m.generation != ticket.generation then Settle(s, r, Rejected(GenerationMismatch))
    else if m.kind == RefusedKind then Refuse(s, r, RefusedByWorker)
    else if m.kind != ResultKind then s
    else if m.status == RejectedStatus && m.poisoned then
      Terminate(Refuse(s, r, RejectedByWorker), CheckerPoisoned, None)
    else if ticket.generation != s.generation then Settle(s, r, Superseded)
    else match m.status
      case RenderedStatus => AfterRendered(s, r, m, sessionId)
      case AcceptedStatus =>
        if s.config.hasFrame then Terminate(Refuse(s, r, AuthorityPathMismatch), AuthorityPathMismatch, None)
        else AfterAccepted(s, r, m, sessionId)
      case RejectedStatus => Refuse(s, r, RejectedByWorker)
      case OtherStatus => Refuse(s, r, MalformedReply)
  }

  /** Any message from the Worker. `attaches` says whether handing the frame its port
      works, `failing` which requests fail to post. */
  function AfterMessage<T>(s: Session<T>, m: Reply<T>, attaches: bool, failing: set<nat>): Session<T> {
    if s.disposed || s.link.None? || m.NotAnObject? || m.protocol != POLICY_PROTOCOL_VERSION then s
    else
      var link := s.link.value;
      match m.kind
      case ReadyKind =>
        if link.handshakeDone then s
        else
          var s' := s.(link := Some(link.(handshakeDone := true, handshakeTimer := false)));
          if s.config.hasFrame && !attaches then Terminate(s', FrameAttachFailed, None) else s'
      case FrameAttachedKind =>
        if m.instanceId != Some(s.config.instanceId) || m.sessionId != Some(link.sessionId) then s
        else
          ReleaseHeld(s.(link := Some(link.(frameAttached := true)), confirmed := s.confirmed + {link.sessionId}),
            failing)
      case CheckerReadyKind =>
        if m.checkerVersion != Some(s.config.checkerVersion) then Terminate(s, CheckerIdentityMismatch, None)
        else s.(link := Some(link.(checkerReady := true, checkerTimer := false)))
      case FailedKind => Terminate(s, CheckerFailed, None)
      case _ =>
        if !IsPolicyEnvelope(m, s.config.instanceId, link.sessionId) || m.requestId !in s.pending then s
        else AfterReply(s, m.requestId, m, link.sessionId)
  }

  function AfterRequestTimeout<T>(s: Session<T>, r: nat): Session<T>
    requires r in s.pending
  {
    Terminate(s.(stats := s.stats.(timeouts := s.stats.timeouts + 1)),
              if s.pending[r].posted then RequestTimeout else FrameAttachTimeout, Some(r))
  }

  function AfterHandshakeTimeout<T>(s: Session<T>): Session<T>
    requires s.link.Some?
  {
    if s.link.value.handshakeDone then s else Terminate(s, HandshakeTimeout, None)
  }

  function AfterCheckerTimeout<T>(s: Session<T>): Session<T>
    requires s.link.Some?
  {
    if s.link.value.checkerReady then s else Terminate(s, WasmInitTimeout, None)
  }

  /** Before the handshake an error is a failure to start. */
  function AfterWorkerError<T>(s: Session<T>): Session<T>
    requires s.link.Some?
  {
    Terminate(s, if s.link.value.handshakeDone then WorkerError else WorkerStartupError, None)
  }

  function AfterDispose<T>(s: Session<T>): Session<T> {
    if s.disposed then s else Terminate(s.(disposed := true), Disposed, None)
  }

  class PolicyClient<T(==)> {
    const config: Config
    var link: Option<Link>
    var generation: nat
    var nextRequestId: nat
    var disposed: bool
    var pending: map<nat, Ticket>
    var awaiting: seq<Envelope>
    var stats: Stats
    var settled: map<nat, Settled<T>>
    var posted: seq<Envelope>
    ghost var confirmed: set<string>
    ghost var started: map<string, Option<nat>>

    ghost function State(): Session<T>
      reads this
    {
      Session(config, link, generation, nextRequestId, disposed, pending, awaiting, stats, settled, posted, confirmed,
        started)
    }

    constructor (config: Config)
      ensures State() == NewSession(config)
    {
      this.config := config;
      link, generation, nextRequestId, disposed := None, 0, 1, false;
      pending, awaiting, stats := map[], [], Stats(0, 0, 0, 0, 0, 0);
      settled, posted, confirmed, started := map[], [], {}, map[];
    }

    method SettleTicket(r: nat, body: Body<T>)
      requires r in pending
      modifies this`settled, this`pending
      ensures State() == Settle(old(State()), r, body)
    {
      settled := settled[r := Settled(pending[r].generation, body)];
      pending := pending - {r};
    }

    method TerminateWorker(cause: Code, timedOut: Option<nat>)
      modifies this
      ensures State() == Terminate(old(State()), cause, timedOut)
    {
      hide Closing;
      link := None;
      awaiting := [];
      SettleAll(cause, timedOut);
    }

    method SettleAll(cause: Code, timedOut: Option<nat>)
      modifies this`settled, this`pending
      ensures pending == map[] && settled == old(settled) + Closing(old(pending), {}, cause, timedOut)
    {
      hide Closing, TerminationBody;
      var open := pending.Keys;
      NothingClosed<T>(pending, cause, timedOut);
      while open != {}
        invariant open == pending.Keys <= old(pending).Keys
        invariant forall r :: r in open ==> pending[r] == old(pending)[r]
        invariant settled == old(settled) + Closing(old(pending), open, cause, timedOut)
      {
        var r :| r in open;
        CloseOne<T>(old(pending), open, r, cause, timedOut);
        SettleTicket(r, TerminationBody(pending[r], r, cause, timedOut));
        open := open - {r};
      }
    }

    method StartWorker(sessionId: string, created: bool)
      modifies this
      ensures State() == Start(old(State()), sessionId, created)
    {
      if !created {
        return;
      }
      link := Some(Link(sessionId, false, false, false, true, true, false));
      stats := stats.(sessions := stats.sessions + 1);
      started := started[sessionId := None];
    }

    method Post(e: Envelope, failing: set<nat>)
      modifies this
      ensures State() == PostEnvelope(old(State()), e, failing)
    {
      if e.requestId !in pending {
        return;
      }
      pending := pending[e.requestId := pending[e.requestId].(posted := true)];
      if e.requestId in failing {
        TerminateWorker(PostFailed, None);
      } else {
        posted := posted + [e];
      }
    }

    /** `sessionId` and `created` are used only when a Worker has to be started. */
    method Preprocess(q: Request, sessionId: string, created: bool, failing: set<nat>)
      modifies this
      ensures State() == AfterPreprocess(old(State()), q, sessionId, created, failing)
    {
      if disposed {
        return;
      }
      if link.None? {
        StartWorker(sessionId, created);
        if !created {
          stats := stats.(requests := stats.requests + 1, rejected := stats.rejected + 1);
          settled := settled[nextRequestId := Settled(generation, Rejected(StartupFailed))];
          nextRequestId := nextRequestId + 1;
          return;
        }
      }
      Send(q, failing);
    }

    method Send(q: Request, failing: set<nat>)
      requires link.Some?
      modifies this
      ensures State() == Submit(old(State()), q, failing)
    {
      hide PostEnvelope, Register, NextEnvelope;
      var e := RegisterRequest(q);
      if config.hasFrame && !link.value.frameAttached {
        awaiting := awaiting + [e];
      } else {
        Post(e, failing);
      }
    }

    method RegisterRequest(q: Request) returns (e: Envelope)
      requires link.Some?
      modifies this`nextRequestId, this`stats, this`pending, this`link, this`started
      ensures State() == Register(old(State()), q) && e == NextEnvelope(old(State()), q)
      ensures link.Some? && link.value.frameAttached == old(link).value.frameAttached
    {
      hide NoteFirst, NextEnvelope;
      var here := link.value;
      e := BuildEnvelope(q);
      nextRequestId, stats, pending, link, started :=
        nextRequestId + 1,
        stats.(requests := stats.requests + 1),
        pending[e.requestId := Ticket(e.generation, q.budget, false)],
        Some(here.(classesSent := here.classesSent || e.classes)),
        NoteFirst(started, here.sessionId, e.requestId);
    }

    method BuildEnvelope(q: Request) returns (e: Envelope)
      requires link.Some?
      ensures e == NextEnvelope(State(), q)
    {
      var here := link.value;
      var requestGeneration := if q.generation.Some? then q.generation.value else generation;
      var classes := !here.classesSent && config.hasClasses;
      e := Envelope(here.sessionId, requestGeneration, nextRequestId, config.hasFrame, classes);
    }

    method RefuseTicket(r: nat, reason: Code)
      requires r in pending
      modifies this
      ensures State() == Refuse(old(State()), r, reason)
    {
      stats := stats.(rejected := stats.rejected + 1);
      SettleTicket(r, Rejected(reason));
    }

    method OnReply(r: nat, m: Reply<T>)
      requires r in pending && m.Reply? && link.Some?
      modifies this
      ensures State() == AfterReply(old(State()), r, m, old(link).value.sessionId)
    {
      var ticket, sessionId, t := pending[r], link.value.sessionId, m.acceptance;
      if m.generation != ticket.generation {
        SettleTicket(r, Rejected(GenerationMismatch));
      } else if m.kind == RefusedKind {
        RefuseTicket(r, RefusedByWorker);
      } else if m.kind != ResultKind {
      } else if m.status == RejectedStatus && m.poisoned {
        RefuseTicket(r, RejectedByWorker);
        TerminateWorker(CheckerPoisoned, None);
      } else if ticket.generation != generation {
        SettleTicket(r, Superseded);
      } else if m.status == RenderedStatus {
        if m.authority != config.authority {
          RefuseTicket(r, AuthorityNotLean);
        } else if !TokenMatches(t, config, sessionId, m) {
          RefuseTicket(r, AcceptanceIdentityMismatch);
        } else if m.tree.Some? {
          RefuseTicket(r, RenderedWithTree);
        } else {
          stats := stats.(accepted := stats.accepted + 1, rendered := stats.rendered + 1);
          SettleTicket(r, RenderedBody(t));
        }
      } else if m.status == AcceptedStatus && config.hasFrame {
        RefuseTicket(r, AuthorityPathMismatch);
        TerminateWorker(AuthorityPathMismatch, None);
      } else if m.status == AcceptedStatus {
        if m.authority != config.authority {
          RefuseTicket(r, AuthorityNotLean);
        } else if !IsAcceptanceToken(t) {
          RefuseTicket(r, AcceptanceMalformed);
        } else if !TokenNames(t, config, sessionId, m) {
          RefuseTicket(r, AcceptanceIdentityMismatch);
        } else if t.checkerVersion != config.checkerVersion {
          RefuseTicket(r, AcceptanceCheckerVersion);
        } else {
          stats := stats.(accepted := stats.accepted + 1);
          SettleTicket(r, AcceptedBody(t, m.tree));
        }
      } else if m.status == RejectedStatus {
        RefuseTicket(r, RejectedByWorker);
      } else {
        RefuseTicket(r, MalformedReply);
      }
    }

    method OnMessage(m: Reply<T>, attaches: bool, failing: set<nat>)
      modifies this
      ensures State() == AfterMessage(old(State()), m, attaches, failing)
    {
      if disposed || link.None? || m.NotAnObject? || m.protocol != POLICY_PROTOCOL_VERSION {
        return;
      }
      var here := link.value;
      if m.kind == ReadyKind {
        if here.handshakeDone {
          return;
        }
        link := Some(here.(handshakeDone := true, handshakeTimer := false));
        if config.hasFrame && !attaches {
          TerminateWorker(FrameAttachFailed, None);
        }
      } else if m.kind == FrameAttachedKind {
        if m.instanceId != Some(config.instanceId) || m.sessionId != Some(here.sessionId) {
          return;
        }
        link := Some(here.(frameAttached := true));
        confirmed := confirmed + {here.sessionId};
        ghost var attached := State();
        while awaiting != [] && link.Some?
          invariant ReleaseHeld(State(), failing) == ReleaseHeld(attached, failing)
          decreases |awaiting|
        {
          var e := awaiting[0];
          awaiting := awaiting[1..];
          PostKeepsHeldShort(State(), e, failing);
          Post(e, failing);
        }
      } else if m.kind == CheckerReadyKind {
        if m.checkerVersion != Some(config.checkerVersion) {
          TerminateWorker(CheckerIdentityMismatch, None);
          return;
        }
        link := Some(here.(checkerReady := true, checkerTimer := false));
      } else if m.kind == FailedKind {
        TerminateWorker(CheckerFailed, None);
      } else if IsPolicyEnvelope(m, config.instanceId, here.sessionId) && m.requestId in pending {
        OnReply(m.requestId, m);
      }
    }

    method OnRequestTimeout(r: nat)
      requires r in pending
      modifies this
      ensures State() == AfterRequestTimeout(old(State()), r)
    {
      stats := stats.(timeouts := stats.timeouts + 1);
      TerminateWorker(if pending[r].posted then RequestTimeout else FrameAttachTimeout, Some(r));
    }

    method OnHandshakeTimeout()
      requires link.Some?
      modifies this
      ensures State() == AfterHandshakeTimeout(old(State()))
    {
      if !link.value.handshakeDone {
        TerminateWorker(HandshakeTimeout, None);
      }
    }

    method OnCheckerTimeout()
      requires link.Some?
      modifies this
      ensures State() == AfterCheckerTimeout(old(State()))
    {
      if !link.value.checkerReady {
        TerminateWorker(WasmInitTimeout, None);
      }
    }

    method OnWorkerError()
      requires link.Some?
      modifies this
      ensures State() == AfterWorkerError(old(State()))
    {
      if !link.value.handshakeDone {
        TerminateWorker(WorkerStartupError, None);
        return;
      }
      TerminateWorker(WorkerError, None);
    }

    method NextGeneration() returns (g: nat)
      modifies this
      ensures State() == old(State()).(generation := g) && g == old(generation) + 1
    {
      generation := generation + 1;
      g := generation;
    }

    method Dispose()
      modifies this
      ensures State() == AfterDispose(old(State()))
    {
      if disposed {
        return;
      }
      disposed := true;
      TerminateWorker(Disposed, None);
    }
  }

  lemma PostKeepsHeldShort<T>(s: Session<T>, e: Envelope, failing: set<nat>)
    ensures |PostEnvelope(s, e, failing).awaiting| <= |s.awaiting|
  {
  }
}

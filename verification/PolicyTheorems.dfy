/** The policy session's promises, over every run. */
module PolicyTheorems {
  import opened Acceptance
  import opened Options
  import opened PolicyRuns
  import opened PolicySession

  /** The session reached from nothing by some run. */
  ghost predicate Reached<T>(s: Session<T>, config: Config, events: seq<Event<T>>) {
    IsRun(NewSession<T>(config), events) && s == After(NewSession<T>(config), events)
  }

  lemma ReachedIsSound<T>(s: Session<T>, config: Config, events: seq<Event<T>>)
    requires Reached(s, config, events)
    ensures Sound(s) && s.config == config
  {
    NewIsSound<T>(config);
    RunKeeps(NewSession<T>(config), events);
    ConfigKept(NewSession<T>(config), events);
  }

  lemma {:induction false} ConfigKept<T>(s: Session<T>, events: seq<Event<T>>)
    requires IsRun(s, events)
    ensures After(s, events).config == s.config
    decreases |events|
  {
    if events != [] {
      NextConfig(s, events[0]);
      ConfigKept(Next(s, events[0]), events[1..]);
    }
  }

  lemma {:induction false} ReleaseConfig<T>(s: Session<T>, failing: set<nat>)
    ensures ReleaseHeld(s, failing).config == s.config
    decreases |s.awaiting|
  {
    if s.awaiting != [] && s.link.Some? {
      var s' := s.(awaiting := s.awaiting[1..]);
      PostKeepsHeldShort(s', s.awaiting[0], failing);
      ReleaseConfig(PostEnvelope(s', s.awaiting[0], failing), failing);
    }
  }

  lemma NextConfig<T>(s: Session<T>, e: Event<T>)
    requires Enabled(s, e)
    ensures Next(s, e).config == s.config
  {
    hide Closing, NoteFirst, ReleaseHeld, IsAcceptanceToken;
    if e.FromWorker? && s.link.Some? {
      var link := s.link.value;
      ReleaseConfig(s.(link := Some(link.(frameAttached := true)), confirmed := s.confirmed + {link.sessionId}),
        e.failing);
    }
  }

  /** Without a Worker nothing is outstanding; with the port confirmed nothing is held;
      a pending request is unposted exactly when it is held; and every request made so
      far is either pending or settled, so losing the Worker settles them all. */
  lemma Outstanding<T>(s: Session<T>, config: Config, events: seq<Event<T>>)
    requires Reached(s, config, events)
    ensures s.link.None? ==> s.pending == map[] && s.awaiting == []
    ensures s.link.Some? && s.link.value.frameAttached ==> s.awaiting == []
    ensures forall r :: r in s.pending ==> (!s.pending[r].posted <==> r in Ids(s.awaiting))
    ensures forall r :: 1 <= r < s.nextRequestId <==> (r in s.pending) != (r in s.settled)
    ensures s.link.None? ==> forall r :: 1 <= r < s.nextRequestId ==> r in s.settled
  {
    ReachedIsSound(s, config, events);
    hide Ids, Increasing, Results, Classes, Attached, Reached;
    assert forall r :: r in s.pending ==> r !in s.settled;
  }

  /** A frame session posts a request only in a session whose port was confirmed, and
      requests are posted in strictly increasing order of their ids. */
  lemma PostedAfterConfirmation<T>(s: Session<T>, config: Config, events: seq<Event<T>>)
    requires Reached(s, config, events)
    ensures config.hasFrame ==> forall e :: e in s.posted ==> e.sessionId in s.confirmed
    ensures Increasing(s.posted)
  {
    ReachedIsSound(s, config, events);
    PostedIncreasing(s.posted, s.awaiting);
  }

  /** The class allowlist is posted in a session exactly when the session's first request
      is; at most one posted message carries it, and that one is the session's first. */
  lemma ClassesGoWithTheFirst<T>(s: Session<T>, config: Config, events: seq<Event<T>>, e: Envelope)
    requires Reached(s, config, events) && e in s.posted
    ensures e.sessionId in s.started && s.started[e.sessionId].Some?
    ensures e.classes <==> config.hasClasses && e.requestId == s.started[e.sessionId].value
    ensures e.classes ==> forall d :: d in s.posted && d.sessionId == e.sessionId && d != e ==>
      !d.classes && e.requestId < d.requestId
  {
    ReachedIsSound(s, config, events);
    PostedIncreasing(s.posted, s.awaiting);
    assert CarriesClasses(s, e);
    if e.classes {
      forall d | d in s.posted && d.sessionId == e.sessionId && d != e
        ensures !d.classes && e.requestId < d.requestId
      {
        assert CarriesClasses(s, d);
      }
    }
  }

  // ----- a run that loses the allowlist -----

  const FRAME_CONFIG := Config("i", true, true, "lean-wasm", "v")
  const ASK: Event<()> := PreprocessCall(Request(None, 0), "a", true, {})
  const ANSWER_EARLY: Event<()> :=
    FromWorker(Reply(1, RefusedKind, Some("i"), Some("a"), 0, 1, OtherStatus, false, "", NotARecord, None, None), true,
      {})
  const CONFIRM: Event<()> :=
    FromWorker(Reply(1, FrameAttachedKind, Some("i"), Some("a"), 0, 0, OtherStatus, false, "", NotARecord, None, None),
      true, {})
  const ASK_AGAIN: Event<()> := PreprocessCall(Request(None, 0), "ab", true, {})

  ghost function Asked(): Session<()> {
    Session(FRAME_CONFIG, Some(Link("a", true, false, false, true, true, false)), 0, 2, false,
            map[1 := Ticket(0, 0, false)], [Envelope("a", 0, 1, true, true)], Stats(1, 0, 0, 0, 0, 1),
            map[], [], {}, map["a" := Some(1)])
  }

  ghost function Answered(): Session<()> {
    Asked().(pending := map[], stats := Stats(1, 0, 0, 1, 0, 1),
      settled := map[1 := Settled(0, Rejected(RefusedByWorker))])
  }

  ghost function Confirmed(): Session<()> {
    Answered().(link := Some(Link("a", true, false, false, true, true, true)), awaiting := [], confirmed := {"a"})
  }

  lemma AskStep()
    ensures Enabled(NewSession<()>(FRAME_CONFIG), ASK) && Next(NewSession<()>(FRAME_CONFIG), ASK) == Asked()
  {
    var s := Next(NewSession<()>(FRAME_CONFIG), ASK);
    assert s.pending == Asked().pending && s.awaiting == Asked().awaiting && s.started == Asked().started;
  }

  lemma AnswerStep()
    ensures Next(Asked(), ANSWER_EARLY) == Answered()
  {
    var s := Next(Asked(), ANSWER_EARLY);
    assert s.pending == map[] && s.settled == Answered().settled;
  }

  lemma ConfirmStep()
    ensures Next(Answered(), CONFIRM) == Confirmed()
  {
    var open := Confirmed().(awaiting := Answered().awaiting);
    assert Answered().confirmed + {"a"} == {"a"};
    assert Next(Answered(), CONFIRM) == ReleaseHeld(open, {});
    assert open.awaiting[1..] == [];
    assert ReleaseHeld(open, {}) == ReleaseHeld(Confirmed(), {}) == Confirmed();
  }

  lemma AskAgainStep()
    ensures Enabled(Confirmed(), ASK_AGAIN)
    ensures Next(Confirmed(), ASK_AGAIN).posted == [Envelope("a", 0, 2, true, false)]
  {
    assert |"ab"| != |"a"|;
  }

  /** The session's first request need not be posted: a Worker that answers it while it is
      still held makes the client drop it, and the allowlist with it. */
  lemma ClassesCanBeLost()
    ensures exists s, events :: Reached<()>(s, FRAME_CONFIG, events) && s.posted == [Envelope("a", 0, 2, true, false)]
  {
    hide Next, Enabled, Asked, Answered, Confirmed;
    AskStep();
    AnswerStep();
    ConfirmStep();
    AskAgainStep();
    RunCons(Confirmed(), ASK_AGAIN, []);
    RunCons(Answered(), CONFIRM, [ASK_AGAIN] + []);
    RunCons(Asked(), ANSWER_EARLY, [CONFIRM] + ([ASK_AGAIN] + []));
    var events := [ASK] + ([ANSWER_EARLY] + ([CONFIRM] + ([ASK_AGAIN] + [])));
    RunCons(NewSession<()>(FRAME_CONFIG), ASK, [ANSWER_EARLY] + ([CONFIRM] + ([ASK_AGAIN] + [])));
    assert Reached(Next(Confirmed(), ASK_AGAIN), FRAME_CONFIG, events);
  }

  lemma RunCons<T>(s: Session<T>, e: Event<T>, rest: seq<Event<T>>)
    requires Enabled(s, e) && IsRun(Next(s, e), rest)
    ensures IsRun(s, [e] + rest) && After(s, [e] + rest) == After(Next(s, e), rest)
  {
    assert ([e] + rest)[1..] == rest;
  }

  // ----- how requests resolve -----

  ghost predicate IsVerdict<T>(body: Body<T>) {
    body.RenderedBody? || body.AcceptedBody?
  }

  /** What was settled stays as it was, and what is newly settled is no verdict. */
  ghost predicate OnlyRefuses<T>(s: Session<T>, s': Session<T>) {
    && (forall r :: r in s.settled ==> r in s'.settled && s'.settled[r] == s.settled[r])
    && forall r :: r in s'.settled ==> r in s.settled || !IsVerdict(s'.settled[r].body)
  }

  lemma TerminateRefuses<T>(s: Session<T>, cause: Code, timedOut: Option<nat>)
    requires Tickets(s)
    ensures OnlyRefuses(s, Terminate(s, cause, timedOut))
  {
  }

  lemma PostRefuses<T>(s: Session<T>, e: Envelope, failing: set<nat>)
    requires Tickets(s)
    ensures OnlyRefuses(s, PostEnvelope(s, e, failing))
  {
    if e.requestId in s.pending {
      var marked := s.(pending := s.pending[e.requestId := s.pending[e.requestId].(posted := true)]);
      TicketsAside(s, marked);
      hide Tickets, Closing;
      TerminateRefuses(marked, PostFailed, None);
    }
  }

  lemma {:induction false} ReleaseRefuses<T>(s: Session<T>, failing: set<nat>)
    requires Core(s) && (s.link.Some? && s.config.hasFrame ==> s.link.value.frameAttached)
    ensures OnlyRefuses(s, ReleaseHeld(s, failing))
    decreases |s.awaiting|
  {
    if s.awaiting != [] && s.link.Some? {
      var e, rest := s.awaiting[0], s.awaiting[1..];
      var s' := s.(awaiting := rest);
      assert Tickets(s');
      PostRefuses(s', e, failing);
      PostKeeps(s, e, rest, failing);
      PostKeepsHeldShort(s', e, failing);
      hide Core, Tickets, PostEnvelope;
      ReleaseRefuses(PostEnvelope(s', e, failing), failing);
    }
  }

  /** Message `m` is a verdict from the live Worker on pending request `r`, current in both
      its own and the client's generation, under a record that names all of it. */
  ghost predicate LiveVerdict<T>(s: Session<T>, m: Reply<T>, r: nat, body: Body<T>) {
    && m.Reply? && m.kind == ResultKind
    && s.link.Some? && r in s.pending
    && m.instanceId == Some(s.config.instanceId) && m.sessionId == Some(s.link.value.sessionId)
    && m.requestId == r && m.generation == s.pending[r].generation == s.generation
    && m.authority == s.config.authority
    && IsVerdict(body) && body.acceptance == m.acceptance
    && TokenMatches(m.acceptance, s.config, s.link.value.sessionId, m)
    && (body.RenderedBody? ==> m.status == RenderedStatus && m.tree.None?)
    && (body.AcceptedBody? ==> m.status == AcceptedStatus && !s.config.hasFrame && body.tree == m.tree)
  }

  /** A step settles anew only with refusals, or one request with a live verdict. */
  ghost predicate SettlesProperly<T>(s: Session<T>, m: Reply<T>, s': Session<T>) {
    && (forall r :: r in s.settled ==> r in s'.settled && s'.settled[r] == s.settled[r])
    && forall r :: r in s'.settled ==>
         r in s.settled || !IsVerdict(s'.settled[r].body) || LiveVerdict(s, m, r, s'.settled[r].body)
  }

  lemma SettleRefuses<T>(s: Session<T>, r: nat, body: Body<T>)
    requires Tickets(s) && r in s.pending && !IsVerdict(body)
    ensures OnlyRefuses(s, Settle(s, r, body)) && Tickets(Settle(s, r, body))
  {
  }

  lemma RefuseRefuses<T>(s: Session<T>, r: nat)
    requires Tickets(s) && r in s.pending
    ensures forall reason :: OnlyRefuses(s, Refuse(s, r, reason)) && Tickets(Refuse(s, r, reason))
    ensures forall reason, cause :: OnlyRefuses(s, Terminate(Refuse(s, r, reason), cause, None))
  {
    hide Tickets, Terminate, Settle;
    forall reason
      ensures OnlyRefuses(s, Refuse(s, r, reason)) && Tickets(Refuse(s, r, reason))
    {
      var s' := s.(stats := s.stats.(rejected := s.stats.rejected + 1));
      TicketsAside(s, s');
      SettleRefuses(s', r, Rejected(reason));
    }
    forall reason, cause
      ensures OnlyRefuses(s, Terminate(Refuse(s, r, reason), cause, None))
    {
      TerminateRefuses(Refuse(s, r, reason), cause, None);
    }
  }

  lemma VerdictSettles<T>(s: Session<T>, s1: Session<T>, m: Reply<T>, r: nat, body: Body<T>)
    requires Tickets(s) && s1 == s.(stats := s1.stats) && r in s.pending && LiveVerdict(s, m, r, body)
    ensures SettlesProperly(s, m, Settle(s1, r, body))
  {
  }

  lemma ReplySettles<T>(s: Session<T>, r: nat, m: Reply<T>)
    requires Tickets(s) && s.link.Some? && r in s.pending && m.Reply? && m.requestId == r
    requires m.instanceId == Some(s.config.instanceId) && m.sessionId == Some(s.link.value.sessionId)
    ensures SettlesProperly(s, m, AfterReply(s, r, m, s.link.value.sessionId))
  {
    hide Tickets, Settle, Refuse, Terminate, IsAcceptanceToken;
    RefuseRefuses(s, r);
    SettleRefuses(s, r, Superseded);
    SettleRefuses(s, r, Rejected(GenerationMismatch));
    var sessionId := s.link.value.sessionId;
    if m.generation == s.pending[r].generation == s.generation && m.kind == ResultKind
       && m.authority == s.config.authority && TokenMatches(m.acceptance, s.config, sessionId, m) {
      if m.status == RenderedStatus && m.tree.None? {
        var counted := s.stats.(accepted := s.stats.accepted + 1, rendered := s.stats.rendered + 1);
        VerdictSettles(s, s.(stats := counted), m, r, RenderedBody(m.acceptance));
      } else if m.status == AcceptedStatus && !s.config.hasFrame {
        var counted := s.stats.(accepted := s.stats.accepted + 1);
        VerdictSettles(s, s.(stats := counted), m, r, AcceptedBody(m.acceptance, m.tree));
      }
    }
  }

  lemma MessageSettles<T>(s: Session<T>, m: Reply<T>, attaches: bool, failing: set<nat>)
    requires Sound(s)
    ensures SettlesProperly(s, m, AfterMessage(s, m, attaches, failing))
  {
    SoundParts(s);
    hide Core, Tickets, Terminate, ReleaseHeld, AfterReply;
    if !(s.disposed || s.link.None? || m.NotAnObject? || m.protocol != POLICY_PROTOCOL_VERSION) {
      var link := s.link.value;
      match m.kind
      case ReadyKind =>
        var s' := s.(link := Some(link.(handshakeDone := true, handshakeTimer := false)));
        TicketsAside(s, s');
        TerminateRefuses(s', FrameAttachFailed, None);
      case FrameAttachedKind =>
        AttachKeeps(s);
        ReleaseRefuses(s.(link := Some(link.(frameAttached := true)), confirmed := s.confirmed + {link.sessionId}),
          failing);
      case CheckerReadyKind => TerminateRefuses(s, CheckerIdentityMismatch, None);
      case FailedKind => TerminateRefuses(s, CheckerFailed, None);
      case NotAString =>
      case _ =>
        if IsPolicyEnvelope(m, s.config.instanceId, link.sessionId) && m.requestId in s.pending {
          ReplySettles(s, m.requestId, m);
        }
    }
  }

  lemma NoEnvelope<T>(m: Reply<T>)
    ensures forall i, j :: IsPolicyEnvelope(m, i, j) ==> m.Reply? && m.kind != NotAString && m.requestId >= 0
  {
  }

  lemma SoundParts<T>(s: Session<T>)
    requires Sound(s)
    ensures Core(s) && Tickets(s)
  {
  }

  lemma SubmitRefuses<T>(s: Session<T>, q: Request, failing: set<nat>)
    requires Tickets(s) && s.link.Some?
    ensures OnlyRefuses(s, Submit(s, q, failing))
  {
    var s' := Register(s, q);
    assert Tickets(s');
    hide Tickets, PostEnvelope;
    PostRefuses(s', NextEnvelope(s, q), failing);
  }

  lemma PreprocessRefuses<T>(s: Session<T>, q: Request, sessionId: string, created: bool, failing: set<nat>)
    requires Tickets(s)
    ensures OnlyRefuses(s, AfterPreprocess(s, q, sessionId, created, failing))
  {
    hide Submit;
    if s.link.Some? {
      SubmitRefuses(s, q, failing);
    } else {
      var s' := Start(s, sessionId, true);
      TicketsAside(s, s');
      SubmitRefuses(s', q, failing);
    }
  }

  /** A request resolves as rendered or accepted only through a reply of the live Worker
      that matches the session, the request, its generation and the current one, under a
      record naming instance, session, request, generation and checker version; and
      whatever has resolved never changes. */
  lemma VerdictOnlyFromLiveReply<T>(s: Session<T>, e: Event<T>)
    requires Sound(s) && Enabled(s, e)
    ensures if e.FromWorker? then SettlesProperly(s, e.m, Next(s, e)) else OnlyRefuses(s, Next(s, e))
  {
    SoundParts(s);
    hide Core, Tickets, Terminate, AfterPreprocess, AfterMessage;
    match e
    case PreprocessCall(q, sessionId, created, failing) => PreprocessRefuses(s, q, sessionId, created, failing);
    case FromWorker(m, attaches, failing) => MessageSettles(s, m, attaches, failing);
    case RequestTimer(r) =>
      var s' := s.(stats := s.stats.(timeouts := s.stats.timeouts + 1));
      TicketsAside(s, s');
      TerminateRefuses(s', if s.pending[r].posted then RequestTimeout else FrameAttachTimeout, Some(r));
    case HandshakeTimer => TerminateRefuses(s, HandshakeTimeout, None);
    case CheckerTimer => TerminateRefuses(s, WasmInitTimeout, None);
    case WorkerErrorEvent =>
      TerminateRefuses(s, if s.link.value.handshakeDone then WorkerError else WorkerStartupError, None);
    case DisposeCall =>
      TicketsAside(s, s.(disposed := true));
      TerminateRefuses(s.(disposed := true), Disposed, None);
    case _ =>
  }

  /** Request ids and the generation only grow, and a pending request keeps its own. */
  ghost predicate Ages<T>(s: Session<T>, s': Session<T>) {
    && s.nextRequestId <= s'.nextRequestId && s.generation <= s'.generation
    && forall r :: r in s.pending && r in s'.pending && r < s.nextRequestId ==>
      s'.pending[r].generation == s.pending[r].generation
  }

  lemma PostAges<T>(s: Session<T>, e: Envelope, failing: set<nat>)
    ensures Ages(s, PostEnvelope(s, e, failing)) && PostEnvelope(s, e, failing).pending.Keys <= s.pending.Keys
    ensures PostEnvelope(s, e, failing).nextRequestId == s.nextRequestId
  {
    hide Closing;
  }

  lemma {:induction false} ReleaseAges<T>(s: Session<T>, failing: set<nat>)
    ensures Ages(s, ReleaseHeld(s, failing)) && ReleaseHeld(s, failing).pending.Keys <= s.pending.Keys
    decreases |s.awaiting|
  {
    if s.awaiting != [] && s.link.Some? {
      var s', e := s.(awaiting := s.awaiting[1..]), s.awaiting[0];
      PostAges(s', e, failing);
      PostKeepsHeldShort(s', e, failing);
      ReleaseAges(PostEnvelope(s', e, failing), failing);
    }
  }

  lemma SettleAges<T>(s: Session<T>, r: nat)
    requires r in s.pending
    ensures Ages(s, s) && forall body :: Ages(s, Settle(s, r, body))
    ensures forall reason :: Ages(s, Refuse(s, r, reason))
    ensures forall reason, cause :: Ages(s, Terminate(Refuse(s, r, reason), cause, None))
  {
    hide Closing;
  }

  lemma VerdictAges<T>(s: Session<T>, r: nat, m: Reply<T>, sessionId: string)
    requires r in s.pending && m.Reply?
    ensures Ages(s, AfterRendered(s, r, m, sessionId)) && Ages(s, AfterAccepted(s, r, m, sessionId))
  {
    SettleAges(s, r);
    hide TokenMatches, TokenNames, IsAcceptanceToken, Refuse;
  }

  lemma ReplyAges<T>(s: Session<T>, r: nat, m: Reply<T>, sessionId: string)
    requires r in s.pending && m.Reply?
    ensures Ages(s, AfterReply(s, r, m, sessionId))
  {
    SettleAges(s, r);
    VerdictAges(s, r, m, sessionId);
    hide Ages, Settle, Refuse, Terminate, AfterRendered, AfterAccepted;
  }

  lemma MessageAges<T>(s: Session<T>, m: Reply<T>, attaches: bool, failing: set<nat>)
    ensures Ages(s, AfterMessage(s, m, attaches, failing))
  {
    hide Closing, ReleaseHeld, AfterReply, IsPolicyEnvelope;
    if s.link.Some? {
      var link := s.link.value;
      if m.Reply? && m.requestId in s.pending {
        ReplyAges(s, m.requestId, m, link.sessionId);
      }
      NoEnvelope(m);
      ReleaseAges(s.(link := Some(link.(frameAttached := true)), confirmed := s.confirmed + {link.sessionId}), failing);
    }
  }

  lemma SubmitAges<T>(s: Session<T>, q: Request, failing: set<nat>)
    requires s.link.Some?
    ensures Ages(s, Submit(s, q, failing))
  {
    hide PostEnvelope, NoteFirst;
    PostAges(Register(s, q), NextEnvelope(s, q), failing);
  }

  lemma NextAges<T>(s: Session<T>, e: Event<T>)
    requires Enabled(s, e)
    ensures Ages(s, Next(s, e))
  {
    hide Submit, AfterMessage, Closing;
    match e
    case PreprocessCall(q, sessionId, created, failing) =>
      if s.link.Some? {
        SubmitAges(s, q, failing);
      } else {
        SubmitAges(Start(s, sessionId, true), q, failing);
      }
    case FromWorker(m, attaches, failing) => MessageAges(s, m, attaches, failing);
    case _ =>
  }

  /** A pending request is either settled by a step or still pending, as old as before. */
  lemma TicketKept<T>(s: Session<T>, e: Event<T>, r: nat)
    requires Sound(s) && Enabled(s, e) && r in s.pending
    ensures var s' := Next(s, e);
      && s.generation <= s'.generation
      && (r !in s'.settled ==> r in s'.pending && s'.pending[r].generation == s.pending[r].generation)
  {
    NextKeeps(s, e);
    NextAges(s, e);
    SoundParts(s);
    SoundParts(Next(s, e));
    hide Core, Next;
  }

  /** Once a request's generation is behind, it never resolves with a verdict. */
  lemma {:induction false} SupersededNeverRenders<T>(s: Session<T>, events: seq<Event<T>>, r: nat)
    requires Sound(s) && IsRun(s, events)
    requires if r in s.settled then !IsVerdict(s.settled[r].body)
             else r in s.pending && s.pending[r].generation < s.generation
    ensures var s' := After(s, events); r in s'.settled ==> !IsVerdict(s'.settled[r].body)
    decreases |events|
  {
    if events != [] {
      var s' := Next(s, events[0]);
      NextKeeps(s, events[0]);
      VerdictOnlyFromLiveReply(s, events[0]);
      if r in s.pending {
        TicketKept(s, events[0], r);
      }
      hide Sound, Next, Enabled;
      SupersededNeverRenders(s', events[1..], r);
    }
  }

  /** A frame session never hands the host a tree, and counts as accepted only what was
      rendered; every verdict of any session carries a record of that very request. */
  lemma VerdictsOfARun<T>(s: Session<T>, config: Config, events: seq<Event<T>>, r: nat)
    requires Reached(s, config, events) && r in s.settled
    ensures config.hasFrame ==> !s.settled[r].body.AcceptedBody? && s.stats.accepted == s.stats.rendered
    ensures IsVerdict(s.settled[r].body) ==>
      var t := s.settled[r].body.acceptance;
      && IsAcceptanceToken(t) && t.instanceId == Some(config.instanceId) && t.checkerVersion == config.checkerVersion
      && t.requestId == r && t.generation == s.settled[r].generation
  {
    ReachedIsSound(s, config, events);
    hide IsAcceptanceToken, Reached, Classes, Queues;
    assert ResultOk(s, r);
  }

  /** Over a whole run: behind every verdict there is one moment at which a live reply gave it. */
  lemma {:induction false} VerdictHadALiveReply<T>(s: Session<T>, events: seq<Event<T>>, r: nat) returns (k: nat)
    requires Sound(s) && IsRun(s, events) && r !in s.settled
    requires var s' := After(s, events); r in s'.settled && IsVerdict(s'.settled[r].body)
    ensures k < |events| && events[k].FromWorker? && IsRun(s, events[..k])
    ensures LiveVerdict(After(s, events[..k]), events[k].m, r, After(s, events).settled[r].body)
    decreases |events|
  {
    hide Sound, Next, Enabled, LiveVerdict;
    var e, rest, s1 := events[0], events[1..], Next(s, events[0]);
    NextKeeps(s, e);
    VerdictOnlyFromLiveReply(s, e);
    if r in s1.settled {
      KeptByRun(s1, rest, r);
      k := 0;
    } else {
      var j := VerdictHadALiveReply(s1, rest, r);
      k := j + 1;
      assert events[..k] == [e] + rest[..j];
      RunCons(s, e, rest[..j]);
    }
  }

  /** A settled request keeps its result for the rest of the run. */
  lemma {:induction false} KeptByRun<T>(s: Session<T>, events: seq<Event<T>>, r: nat)
    requires Sound(s) && IsRun(s, events) && r in s.settled
    ensures r in After(s, events).settled && After(s, events).settled[r] == s.settled[r]
    decreases |events|
  {
    if events != [] {
      NextKeeps(s, events[0]);
      VerdictOnlyFromLiveReply(s, events[0]);
      KeptByRun(Next(s, events[0]), events[1..], r);
    }
  }
}

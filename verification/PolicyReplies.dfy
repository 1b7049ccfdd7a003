/** What each event does to a policy session, told by the fields of the event: which result
    a reply gives its request, and when a request is posted, held or given up. */
module PolicyReplies {
  import opened Acceptance
  import opened Options
  import opened PolicyRuns
  import opened PolicySession

  // ----- a reply to a pending request -----

  /** A message under the live session's identities, for a request still pending. */
  ghost predicate Addressed<T>(s: Session<T>, m: Reply<T>, r: nat) {
    && m.Reply? && m.protocol == 1 && (m.kind == RefusedKind || m.kind == ResultKind || m.kind == OtherKind)
    && s.link.Some? && s.config.instanceId != ""
    && m.instanceId == Some(s.config.instanceId) && m.sessionId == Some(s.link.value.sessionId)
    && m.requestId == r && r in s.pending && m.generation >= 0
  }

  datatype Counts = Counts(accepted: nat, rendered: nat, rejected: nat)

  /** Request `r` has this result, under its own generation; the counters have moved by so
      much and nothing else has changed. */
  ghost predicate Gives<T>(s: Session<T>, s': Session<T>, r: nat, body: Body<T>, more: Counts)
    requires r in s.pending
  {
    s' == s.(
      pending := map q | q in s.pending && q != r :: s.pending[q],
      settled := s.settled[r := Settled(s.pending[r].generation, body)],
      stats := Stats(s.stats.requests, s.stats.accepted + more.accepted, s.stats.rendered + more.rendered,
                     s.stats.rejected + more.rejected, s.stats.timeouts, s.stats.sessions))
  }

  /** The record names this client, session, request and generation. */
  predicate ForThis<T>(s: Session<T>, t: Token, r: nat)
    requires s.link.Some? && r in s.pending
  {
    && t.Token? && t.instanceId == Some(s.config.instanceId) && t.sessionId == Some(s.link.value.sessionId)
    && t.requestId == r && t.generation == s.pending[r].generation
  }

  /** The session is over: no Worker, nothing held, and every request that was pending has
      been settled under its own generation, with the budget it exceeded if it timed out. */
  ghost predicate Ends<T>(s: Session<T>, s': Session<T>, cause: Code, timedOut: Option<nat>) {
    && s'.link.None? && s'.awaiting == [] && s'.pending == map[]
    && s'.posted == s.posted && s'.generation == s.generation && s'.nextRequestId == s.nextRequestId
    && s'.config == s.config && s'.confirmed == s.confirmed && s'.started == s.started
    && s'.settled.Keys == s.settled.Keys + s.pending.Keys
    && (forall q :: q in s.settled && q !in s.pending ==> s'.settled[q] == s.settled[q])
    && forall q :: q in s.pending ==>
         s'.settled[q] == Settled(s.pending[q].generation, Rejected(
           if timedOut == Some(q) then TimedOut(cause, s.pending[q].budget) else SessionTerminated(cause)))
  }

  lemma TerminateMeaning<T>(s: Session<T>, cause: Code, timedOut: Option<nat>)
    ensures Ends(s, Terminate(s, cause, timedOut), cause, timedOut)
    ensures Terminate(s, cause, timedOut).stats == s.stats && Terminate(s, cause, timedOut).disposed == s.disposed
  {
  }

  lemma SettleMeaning<T>(s: Session<T>, r: nat, body: Body<T>)
    requires r in s.pending
    ensures Gives(s, Settle(s, r, body), r, body, Counts(0, 0, 0))
    ensures body.Rejected? ==> Gives(s, Refuse(s, r, body.reason), r, body, Counts(0, 0, 1))
  {
    assert s.pending - {r} == map q | q in s.pending && q != r :: s.pending[q];
  }

  lemma Delivered<T>(s: Session<T>, m: Reply<T>, r: nat, attaches: bool, failing: set<nat>)
    requires Sound(s) && Addressed(s, m, r)
    ensures AfterMessage(s, m, attaches, failing) == AfterReply(s, r, m, s.link.value.sessionId)
  {
    hide AfterReply;
    LiveNamed(s);
  }

  lemma LiveNamed<T>(s: Session<T>)
    requires Sound(s) && s.link.Some?
    ensures !s.disposed && s.link.value.sessionId != ""
  {
    hide Tickets, Queues, Attached, Classes, Results;
  }

  /** A reply that gives no verdict: it is for another generation, a refusal, of no kind
      that answers, behind the current generation, or a rejection. */
  lemma RefusalMeaning<T>(s: Session<T>, m: Reply<T>, r: nat, attaches: bool, failing: set<nat>)
    requires Sound(s) && Addressed(s, m, r)
    ensures var (s', ticket) := (Next(s, FromWorker(m, attaches, failing)), s.pending[r]);
      var (own, current) := (m.generation == ticket.generation, ticket.generation == s.generation);
      && (!own ==> Gives(s, s', r, Rejected(GenerationMismatch), Counts(0, 0, 0)))
      && (own && m.kind == OtherKind ==> s' == s)
      && (own && m.kind == RefusedKind ==> Gives(s, s', r, Rejected(RefusedByWorker), Counts(0, 0, 1)))
      && (own && m.kind == ResultKind && !(m.status == RejectedStatus && m.poisoned) && !current ==>
            Gives(s, s', r, Superseded, Counts(0, 0, 0)))
      && (own && m.kind == ResultKind && m.status == RejectedStatus && !m.poisoned && current ==>
            Gives(s, s', r, Rejected(RejectedByWorker), Counts(0, 0, 1)))
      && (own && m.kind == ResultKind && m.status == OtherStatus && current ==>
            Gives(s, s', r, Rejected(MalformedReply), Counts(0, 0, 1)))
  {
    Delivered(s, m, r, attaches, failing);
    SettleMeaning(s, r, Rejected(GenerationMismatch));
    SettleMeaning(s, r, Rejected(RefusedByWorker));
    SettleMeaning(s, r, Superseded);
    SettleMeaning(s, r, Rejected(RejectedByWorker));
    SettleMeaning(s, r, Rejected(MalformedReply));
    hide Sound, Settle, Refuse, Terminate, AfterRendered, AfterAccepted, AfterMessage, Gives;
  }

  /** Request `r` is refused and counted, and the session ends there and then. */
  ghost predicate RefusesAndEnds<T>(s: Session<T>, s': Session<T>, r: nat, reason: Code, cause: Code)
    requires r in s.pending
  {
    && s'.link.None? && s'.pending == map[] && s'.awaiting == []
    && s'.settled.Keys == s.settled.Keys + s.pending.Keys
    && s'.settled[r] == Settled(s.pending[r].generation, Rejected(reason))
    && (forall q :: q in s.pending && q != r ==>
          s'.settled[q] == Settled(s.pending[q].generation, Rejected(SessionTerminated(cause))))
    && s'.stats == s.stats.(rejected := s.stats.rejected + 1)
  }

  lemma RefusedAndEnded<T>(s: Session<T>, r: nat, reason: Code, cause: Code)
    requires r in s.pending
    ensures RefusesAndEnds(s, Terminate(Refuse(s, r, reason), cause, None), r, reason, cause)
  {
  }

  /** A reply that the checker is poisoned, or an accepted tree sent to a frame session,
      refuses its request and ends the session. */
  lemma FatalReplyMeaning<T>(s: Session<T>, m: Reply<T>, r: nat, attaches: bool, failing: set<nat>)
    requires Sound(s) && Addressed(s, m, r) && m.kind == ResultKind && m.generation == s.pending[r].generation
    ensures var s' := Next(s, FromWorker(m, attaches, failing));
      && (m.status == RejectedStatus && m.poisoned ==> RefusesAndEnds(s, s', r, RejectedByWorker, CheckerPoisoned))
      && (m.status == AcceptedStatus && s.config.hasFrame && m.generation == s.generation ==>
            RefusesAndEnds(s, s', r, AuthorityPathMismatch, AuthorityPathMismatch))
  {
    Delivered(s, m, r, attaches, failing);
    RefusedAndEnded(s, r, RejectedByWorker, CheckerPoisoned);
    RefusedAndEnded(s, r, AuthorityPathMismatch, AuthorityPathMismatch);
    hide Sound, Settle, Refuse, Terminate, AfterRendered, AfterAccepted, AfterMessage, RefusesAndEnds;
  }

  /** A current reply of `rendered` gives exactly what its authority, its record and its
      tree say: the verdict if all are as they should be, else the first that is not. */
  lemma RenderedMeaning<T>(s: Session<T>, m: Reply<T>, r: nat, attaches: bool, failing: set<nat>)
    requires Sound(s) && Addressed(s, m, r) && m.kind == ResultKind && m.status == RenderedStatus
    requires m.generation == s.pending[r].generation == s.generation
    ensures var (s', t) := (Next(s, FromWorker(m, attaches, failing)), m.acceptance);
      var (lean, named) := (m.authority == s.config.authority,
        IsAcceptanceToken(t) && ForThis(s, t, r) && t.checkerVersion == s.config.checkerVersion);
      && (!lean ==> Gives(s, s', r, Rejected(AuthorityNotLean), Counts(0, 0, 1)))
      && (lean && !named ==> Gives(s, s', r, Rejected(AcceptanceIdentityMismatch), Counts(0, 0, 1)))
      && (lean && named && m.tree.Some? ==> Gives(s, s', r, Rejected(RenderedWithTree), Counts(0, 0, 1)))
      && (lean && named && m.tree.None? ==> Gives(s, s', r, RenderedBody(t), Counts(1, 1, 0)))
  {
    Delivered(s, m, r, attaches, failing);
    SettleMeaning(s, r, Rejected(AuthorityNotLean));
    SettleMeaning(s, r, Rejected(AcceptanceIdentityMismatch));
    SettleMeaning(s, r, Rejected(RenderedWithTree));
    hide Sound, AfterMessage, IsAcceptanceToken;
    CountedVerdict(s, r, RenderedBody(m.acceptance), 1);
    hide Settle, Refuse, Gives;
  }

  /** In a session without a frame the same for `accepted`, with a code of its own for each
      way the record can be wrong; the result carries the reply's tree. */
  lemma AcceptedMeaning<T>(s: Session<T>, m: Reply<T>, r: nat, attaches: bool, failing: set<nat>)
    requires Sound(s) && Addressed(s, m, r) && m.kind == ResultKind && m.status == AcceptedStatus
    requires m.generation == s.pending[r].generation == s.generation && !s.config.hasFrame
    ensures var (s', t) := (Next(s, FromWorker(m, attaches, failing)), m.acceptance);
      var (lean, formed, named, ours) := (m.authority == s.config.authority, IsAcceptanceToken(t), ForThis(s, t, r),
        t.Token? && t.checkerVersion == s.config.checkerVersion);
      && (!lean ==> Gives(s, s', r, Rejected(AuthorityNotLean), Counts(0, 0, 1)))
      && (lean && !formed ==> Gives(s, s', r, Rejected(AcceptanceMalformed), Counts(0, 0, 1)))
      && (lean && formed && !named ==> Gives(s, s', r, Rejected(AcceptanceIdentityMismatch), Counts(0, 0, 1)))
      && (lean && formed && named && !ours ==> Gives(s, s', r, Rejected(AcceptanceCheckerVersion), Counts(0, 0, 1)))
      && (lean && formed && named && ours ==> Gives(s, s', r, AcceptedBody(t, m.tree), Counts(1, 0, 0)))
  {
    Delivered(s, m, r, attaches, failing);
    SettleMeaning(s, r, Rejected(AuthorityNotLean));
    SettleMeaning(s, r, Rejected(AcceptanceMalformed));
    SettleMeaning(s, r, Rejected(AcceptanceIdentityMismatch));
    SettleMeaning(s, r, Rejected(AcceptanceCheckerVersion));
    TokenHas(m.acceptance);
    hide Sound, AfterMessage, IsAcceptanceToken;
    CountedVerdict(s, r, AcceptedBody(m.acceptance, m.tree), 0);
    hide Settle, Refuse, Gives;
  }

  lemma TokenHas(t: Token)
    ensures IsAcceptanceToken(t) ==> t.Token?
  {
  }

  lemma CountedVerdict<T>(s: Session<T>, r: nat, body: Body<T>, rendered: nat)
    requires r in s.pending
    ensures var counted := s.(stats :=
        s.stats.(accepted := s.stats.accepted + 1, rendered := s.stats.rendered + rendered));
      Gives(s, Settle(counted, r, body), r, body, Counts(1, rendered, 0))
  {
    assert s.pending - {r} == map q | q in s.pending && q != r :: s.pending[q];
  }

  /** One step gives a pending request the result `rendered` exactly when it is a reply that
      names this client, session, request and both generations, comes from the authority
      without a tree, and carries a well-formed record naming all of that and the checker. */
  lemma RendersExactlyThen<T>(s: Session<T>, m: Reply<T>, r: nat, attaches: bool, failing: set<nat>)
    requires Sound(s) && Addressed(s, m, r)
    ensures var (s', t) := (Next(s, FromWorker(m, attaches, failing)), m.acceptance);
      (r in s'.settled && s'.settled[r].body.RenderedBody?) <==>
        && m.kind == ResultKind && m.status == RenderedStatus && m.tree.None?
        && m.generation == s.pending[r].generation == s.generation && m.authority == s.config.authority
        && IsAcceptanceToken(t) && ForThis(s, t, r) && t.checkerVersion == s.config.checkerVersion
  {
    RefusalMeaning(s, m, r, attaches, failing);
    PendingUnsettled(s, r);
    var own, current := m.generation == s.pending[r].generation, s.pending[r].generation == s.generation;
    hide Sound, Next, IsAcceptanceToken;
    if own && m.kind == ResultKind {
      if m.status == RejectedStatus && m.poisoned {
        FatalReplyMeaning(s, m, r, attaches, failing);
      } else if current && m.status == RenderedStatus {
        RenderedMeaning(s, m, r, attaches, failing);
      } else if current && m.status == AcceptedStatus {
        if s.config.hasFrame {
          FatalReplyMeaning(s, m, r, attaches, failing);
        } else {
          AcceptedMeaning(s, m, r, attaches, failing);
        }
      }
    }
  }

  lemma PendingUnsettled<T>(s: Session<T>, r: nat)
    requires Sound(s) && r in s.pending
    ensures r !in s.settled
  {
    hide Queues, Linked, Attached, Classes, Results;
  }
}

/** Whole histories of a registry, from empty. */
module AcceptanceRuns {
  import opened Acceptance
  import opened Options

  datatype Op<+T> =
    | RecordOp(token: Token, tree: T)
    | ClaimOp(claimed: Token, generation: Option<int>)
    | InvalidateOp(drop: Token -> bool)

  /** Within its capacity, a positive whole number of entries, and everything in it accounted for. */
  ghost predicate Sized<T>(r: Registry<T>, max: int) {
    max >= 1 && Inv(r) && |r.entries| <= max
  }

  ghost function Next<T>(r: Registry<T>, max: int, wanted: Wanted, op: Op<T>): Registry<T>
    requires Sized(r, max)
  {
    match op
    case RecordOp(token, tree) => AfterRecord(r, max, token, tree).0
    case ClaimOp(token, generation) => AfterClaim(r, wanted, token, generation).0
    case InvalidateOp(drop) => AfterInvalidate(r, drop, 0)
  }

  lemma NextKeeps<T>(r: Registry<T>, max: int, wanted: Wanted, op: Op<T>)
    requires Sized(r, max)
    ensures Sized(Next(r, max, wanted, op), max)
  {
    match op
    case RecordOp(token, tree) => RecordKeeps(r, max, token, tree);
    case ClaimOp(token, generation) =>
      ClaimKeeps(r, wanted, token, generation);
      ClaimShrinks(r, wanted, token, generation);
    case InvalidateOp(_) =>
  }

  lemma ClaimShrinks<T>(r: Registry<T>, wanted: Wanted, token: Token, generation: Option<int>)
    requires Inv(r)
    ensures |AfterClaim(r, wanted, token, generation).0.entries| <= |r.entries|
  {
    TokensAreRecords(r);
    hide Inv, ClaimProblem, IsAcceptanceToken;
    if IsAcceptanceToken(token) && Find(r.entries, token.nonce) < |r.entries| {
      EntryIsHeld(r, Find(r.entries, token.nonce));
    }
  }

  ghost function After<T>(r: Registry<T>, max: int, wanted: Wanted, ops: seq<Op<T>>): (r': Registry<T>)
    requires Sized(r, max)
    ensures Sized(r', max)
    decreases |ops|
  {
    if ops == [] then r
    else
      NextKeeps(r, max, wanted, ops[0]);
      After(Next(r, max, wanted, ops[0]), max, wanted, ops[1..])
  }

  ghost function Empty<T>(): Registry<T> {
    Registry([], 0, 0, 0, 0, [], [])
  }

  /** Capacity, contents and books of a registry after any history: it never holds more
      than `max`; it holds exactly the recordings still held, oldest first; whatever was
      evicted is older than all of them; and every recording is accounted for once. */
  lemma HoldsTheYoungest<T>(max: int, wanted: Wanted, ops: seq<Op<T>>)
    requires max >= 1
    ensures Sized(Empty<T>(), max)
    ensures var r := After(Empty<T>(), max, wanted, ops);
      && |r.entries| <= max
      && (forall n :: 0 <= n < |r.fates| ==> (r.fates[n] == Held <==> exists e :: e in r.entries && e.event == n))
      && (forall i, j :: 0 <= i < j < |r.entries| ==> r.entries[i].event < r.entries[j].event)
      && (forall m, n :: 0 <= m < |r.fates| && 0 <= n < |r.fates| && r.fates[m] == Evicted && r.fates[n] == Held ==>
        m < n)
      && r.recorded == r.claimed + r.evicted + Count(r.fates, Burned) + Count(r.fates, Invalidated) + |r.entries|
  {
    Conservation(After(Empty<T>(), max, wanted, ops));
  }

  // ----- one claim each -----

  lemma FinalUnderRecord<T>(r: Registry<T>, max: int, token: Token, tree: T, n: nat)
    requires Inv(r) && max >= 1 && n < |r.fates| && r.fates[n] != Held
    ensures n < |AfterRecord(r, max, token, tree).0.fates| && AfterRecord(r, max, token, tree).0.fates[n] == r.fates[n]
  {
    TokensAreRecords(r);
    EvictIsFinal(r, max, n);
    hide Inv, Evict, IsAcceptanceToken, Find;
  }

  lemma FinalUnderClaim<T>(r: Registry<T>, wanted: Wanted, token: Token, generation: Option<int>, n: nat)
    requires Inv(r) && n < |r.fates| && r.fates[n] != Held
    ensures n < |AfterClaim(r, wanted, token, generation).0.fates|
    ensures AfterClaim(r, wanted, token, generation).0.fates[n] == r.fates[n]
  {
    TokensAreRecords(r);
    hide Inv, ClaimProblem, IsAcceptanceToken, Find;
    if IsAcceptanceToken(token) && Find(r.entries, token.nonce) < |r.entries| {
      EntryIsHeld(r, Find(r.entries, token.nonce));
    }
  }

  /** A fate other than being held is final, whatever is done next. */
  lemma FatesAreFinal<T>(r: Registry<T>, max: int, wanted: Wanted, op: Op<T>, n: nat)
    requires Sized(r, max) && n < |r.fates| && r.fates[n] != Held
    ensures n < |Next(r, max, wanted, op).fates| && Next(r, max, wanted, op).fates[n] == r.fates[n]
  {
    hide Inv, AfterRecord, AfterClaim, AfterInvalidate;
    match op
    case RecordOp(token, tree) => FinalUnderRecord(r, max, token, tree, n);
    case ClaimOp(token, generation) => FinalUnderClaim(r, wanted, token, generation, n);
    case InvalidateOp(drop) => InvalidateIsFinal(r, drop, 0, n);
  }

  /** The operation is a claim that succeeds on recording `n` and hands out its tree. */
  ghost predicate Claims<T>(r: Registry<T>, wanted: Wanted, op: Op<T>, n: nat)
    requires Inv(r)
  {
    && op.ClaimOp? && AfterClaim(r, wanted, op.claimed, op.generation).1.ClaimOk?
    && n < |r.fates| && r.fates[n] == Held
    && AfterClaim(r, wanted, op.claimed, op.generation).0.fates == r.fates[n := Claimed]
    && |r.records| == |r.fates|
    && r.records[n] == (AfterClaim(r, wanted, op.claimed, op.generation).1.token,
      AfterClaim(r, wanted, op.claimed, op.generation).1.tree)
  }

  ghost function ClaimsOf<T>(r: Registry<T>, max: int, wanted: Wanted, ops: seq<Op<T>>, n: nat): nat
    requires Sized(r, max)
    decreases |ops|
  {
    if ops == [] then 0
    else
      NextKeeps(r, max, wanted, ops[0]);
      (if Claims(r, wanted, ops[0], n) then 1 else 0) + ClaimsOf(Next(r, max, wanted, ops[0]), max, wanted, ops[1..], n)
  }

  /** Every successful claim is a claim on some recording held, with that recording's tree. */
  lemma SuccessClaimsOne<T>(r: Registry<T>, wanted: Wanted, token: Token, generation: Option<int>)
    requires Inv(r) && AfterClaim(r, wanted, token, generation).1.ClaimOk?
    ensures exists n :: Claims(r, wanted, ClaimOp(token, generation), n)
  {
    ClaimReturnsItsOwnTree(r, wanted, token, generation);
    var n :| 0 <= n < |r.fates| && r.fates[n] == Held
      && r.records[n] == (AfterClaim(r, wanted, token, generation).1.token,
        AfterClaim(r, wanted, token, generation).1.tree)
      && AfterClaim(r, wanted, token, generation).0.fates == r.fates[n := Claimed];
    assert Claims(r, wanted, ClaimOp(token, generation), n);
  }

  /** In any history each recording yields at most one successful claim, and none once it
      was evicted, burned, invalidated or claimed. */
  lemma {:induction false} ClaimedAtMostOnce<T>(r: Registry<T>, max: int, wanted: Wanted, ops: seq<Op<T>>, n: nat)
    requires Sized(r, max)
    ensures ClaimsOf(r, max, wanted, ops, n) <= 1
    ensures n < |r.fates| && r.fates[n] != Held ==> ClaimsOf(r, max, wanted, ops, n) == 0
    decreases |ops|
  {
    if ops != [] {
      var op := ops[0];
      NextKeeps(r, max, wanted, op);
      ClaimedAtMostOnce(Next(r, max, wanted, op), max, wanted, ops[1..], n);
      hide Inv, AfterRecord, AfterClaim, AfterInvalidate;
      if n < |r.fates| && r.fates[n] != Held {
        FatesAreFinal(r, max, wanted, op, n);
      }
    }
  }
}

/** When a record is taken, kept and given out, on the fields of what is asked and held. */
module AcceptanceClaims {
  import opened Acceptance
  import opened Options
  import R = AcceptanceRuns

  const HEX := "0123456789abcdef"

  lemma HexDigits(c: char)
    ensures IsHexDigit(c) <==> c in HEX
  {
    assert HEX[0] == '0' && HEX[1] == '1' && HEX[2] == '2' && HEX[3] == '3' && HEX[4] == '4' && HEX[5] == '5'
      && HEX[6] == '6' && HEX[7] == '7' && HEX[8] == '8' && HEX[9] == '9' && HEX[10] == 'a' && HEX[11] == 'b'
      && HEX[12] == 'c' && HEX[13] == 'd' && HEX[14] == 'e' && HEX[15] == 'f';
    if IsHexDigit(c) {
      var k := if c <= '9' then c as int - '0' as int else c as int - 'a' as int + 10;
      assert HEX[k] == c;
    }
  }

  /** A record is well-formed when its nonce is 32 hexadecimal digits, its names are strings
      and not empty, its identities strings, and its numbers natural. */
  lemma TokenMeaning(t: Token)
    ensures IsAcceptanceToken(t) <==>
      && t.Token?
      && |t.nonce| == 32 && (forall c :: c in t.nonce ==> c in HEX)
      && |t.authority| > 0 && |t.checkerVersion| > 0 && |t.profile| > 0
      && t.abi >= 0 && t.capabilityVersion >= 0 && t.generation >= 0 && t.requestId >= 0
      && !t.instanceId.None? && !t.sessionId.None?
  {
    forall c: char ensures IsHexDigit(c) <==> c in HEX {
      HexDigits(c);
    }
  }

  // ----- claiming -----

  /** Some named field of the claim is not the issued one's. */
  predicate Differs(a: Token, b: Token)
    requires a.Token? && b.Token?
  {
    || a.authority != b.authority
    || a.checkerVersion != b.checkerVersion
    || a.capabilityVersion != b.capabilityVersion
    || a.profile != b.profile
    || a.instanceId != b.instanceId
    || a.sessionId != b.sessionId
    || a.requestId != b.requestId
    || a.generation != b.generation
  }

  predicate Unlike<V(==)>(expected: Option<V>, v: V) {
    expected.Some? && expected.value != v
  }

  lemma FindEntry<T>(r: Registry<T>, i: nat)
    requires Inv(r) && i < |r.entries|
    ensures (forall e :: e in r.entries ==> e.token.Token?) && Find(r.entries, r.entries[i].token.nonce) == i
  {
    TokensAreRecords(r);
    EventsTellTokens(r, i);
    assert r.entries[i] in r.entries;
  }

  /** A claim on a record that is held succeeds exactly when the eight named fields are
      equal one by one and the checker version, the authority and the generation asked for,
      where they are, are the issued ones; else it names the first check that fails. Either
      way the record is held no more, and everything else is as it was. */
  lemma ClaimMeaning<T>(r: Registry<T>, wanted: Wanted, token: Token, generation: Option<int>, i: nat)
    requires Inv(r) && i < |r.entries| && IsAcceptanceToken(token) && r.entries[i].token.nonce == token.nonce
    ensures r.entries[i].token.Token? && r.entries[i].event < |r.fates|
    ensures var (issued, after, result) :=
        (r.entries[i].token, AfterClaim(r, wanted, token, generation).0, AfterClaim(r, wanted, token, generation).1);
      var (field, version, authority, stale) :=
        (Differs(token, issued), Unlike(wanted.checkerVersion, issued.checkerVersion),
         Unlike(wanted.authority, issued.authority), Unlike(generation, issued.generation));
      && (result == Refusal(FieldMismatch) <==> field)
      && (result == Refusal(CheckerVersion) <==> !field && version)
      && (result == Refusal(Authority) <==> !field && !version && authority)
      && (result == Refusal(SupersededRecord) <==> !field && !version && !authority && stale)
      && (result == ClaimOk(r.entries[i].tree, issued) <==> !field && !version && !authority && !stale)
      && after.fates == r.fates[r.entries[i].event := if result.ClaimOk? then Claimed else Burned]
      && after.entries == r.entries[..i] + r.entries[i + 1..]
      && after.claimed == r.claimed + (if result.ClaimOk? then 1 else 0)
      && after.refused == r.refused + (if result.ClaimOk? then 0 else 1)
      && after.records == r.records && after.recorded == r.recorded && after.evicted == r.evicted
  {
    FindEntry(r, i);
    EntryIsHeld(r, i);
    hide Inv, IsAcceptanceToken;
  }

  /** A claim on anything else is refused and counted, and changes nothing. */
  lemma ClaimMissing<T>(r: Registry<T>, wanted: Wanted, token: Token, generation: Option<int>)
    requires Inv(r)
    requires IsAcceptanceToken(token) ==> forall e :: e in r.entries && e.token.Token? ==> e.token.nonce != token.nonce
    ensures AfterClaim(r, wanted, token, generation) ==
      (r.(refused := r.refused + 1), if IsAcceptanceToken(token) then UnknownOrClaimed else ClaimMalformed)
  {
    TokensAreRecords(r);
    hide Inv, IsAcceptanceToken;
    if IsAcceptanceToken(token) {
      var i := Find(r.entries, token.nonce);
      assert i < |r.entries| ==> r.entries[i] in r.entries;
    }
  }

  // ----- recording -----

  /** How many of the oldest must go before one more fits. */
  function Surplus(held: nat, max: int): nat
    requires max >= 1
  {
    if held < max then 0 else held - max + 1
  }

  /** One round of the loop takes the oldest. */
  ghost function WithoutOldest<T>(r: Registry<T>): Registry<T>
    requires Inv(r) && r.entries != []
  {
    EntryIsHeld(r, 0);
    Drop(r, 0, Evicted).(evicted := r.evicted + 1)
  }

  lemma EvictStep<T>(r: Registry<T>, max: int)
    requires Inv(r) && max >= 1
    ensures |r.entries| < max ==> Evict(r, max) == r
    ensures |r.entries| >= max ==> Inv(WithoutOldest(r)) && Evict(r, max) == Evict(WithoutOldest(r), max)
  {
    hide Inv;
    if |r.entries| >= max {
      DropKeeps(r, 0, Evicted);
    }
  }

  lemma OldestTaken<T>(r: Registry<T>)
    requires Inv(r) && r.entries != []
    ensures var next := WithoutOldest(r);
      && next.entries == r.entries[1..] && next.evicted == r.evicted + 1
      && next.recorded == r.recorded && next.claimed == r.claimed && next.refused == r.refused
  {
    hide Inv;
  }

  lemma {:induction false} EvictMeaning<T>(r: Registry<T>, max: int)
    requires Inv(r) && max >= 1
    ensures var d := Surplus(|r.entries|, max);
      && Evict(r, max).entries == r.entries[d..] && Evict(r, max).evicted == r.evicted + d
      && Evict(r, max).recorded == r.recorded && Evict(r, max).claimed == r.claimed
      && Evict(r, max).refused == r.refused
    decreases |r.entries|
  {
    hide Inv, Evict, WithoutOldest;
    EvictStep(r, max);
    if |r.entries| >= max {
      OldestTaken(r);
      EvictMeaning(WithoutOldest(r), max);
    }
  }

  /** A record is refused when it is malformed or its nonce is held; otherwise it becomes the
      youngest entry, the oldest having left one by one until there was room. */
  lemma RecordMeaning<T>(r: Registry<T>, max: int, token: Token, tree: T)
    requires Inv(r) && max >= 1
    ensures var (after, result) := (AfterRecord(r, max, token, tree).0, AfterRecord(r, max, token, tree).1);
      && (result == RecordMalformed <==> !IsAcceptanceToken(token))
      && (result == NonceReused <==>
            IsAcceptanceToken(token) && exists e :: e in r.entries && e.token.Token? && e.token.nonce == token.nonce)
      && (result != Recorded ==> after == r)
      && (result == Recorded ==>
            var d := Surplus(|r.entries|, max);
            && after.entries == r.entries[d..] + [Entry(token, tree, |r.records|)]
            && after.records == r.records + [(token, tree)]
            && after.recorded == r.recorded + 1 && after.evicted == r.evicted + d
            && after.claimed == r.claimed && after.refused == r.refused)
  {
    TokensAreRecords(r);
    EvictMeaning(r, max);
    hide Inv, IsAcceptanceToken;
    if IsAcceptanceToken(token) {
      var i := Find(r.entries, token.nonce);
      assert i < |r.entries| ==> r.entries[i] in r.entries;
    }
  }

  /** Invalidation counts nothing. */
  lemma {:induction false} InvalidateCounts<T>(r: Registry<T>, drop: Token -> bool, i: nat)
    requires Inv(r) && i <= |r.entries|
    ensures var after := AfterInvalidate(r, drop, i);
      && after.recorded == r.recorded && after.claimed == r.claimed
      && after.evicted == r.evicted && after.refused == r.refused
    decreases |r.entries| - i
  {
    hide Inv;
    if i < |r.entries| {
      if drop(r.entries[i].token) {
        DropKeeps(r, i, Invalidated);
        InvalidateCounts(Drop(r, i, Invalidated), drop, i);
      } else {
        InvalidateCounts(r, drop, i + 1);
      }
    }
  }

  /** There and back, in any history: a well-formed record whose nonce is not held, recorded
      with its tree and claimed next, gives that very tree back, once. */
  lemma RecordThenClaim<T>(r: Registry<T>, max: int, wanted: Wanted, token: Token, tree: T, generation: Option<int>)
    requires R.Sized(r, max) && IsAcceptanceToken(token)
    requires forall e :: e in r.entries && e.token.Token? ==> e.token.nonce != token.nonce
    requires !Unlike(wanted.checkerVersion, token.checkerVersion) && !Unlike(wanted.authority, token.authority)
    requires !Unlike(generation, token.generation)
    ensures var held := R.After(r, max, wanted, [R.RecordOp(token, tree)]);
      && held.recorded == r.recorded + 1 && held.records == r.records + [(token, tree)]
      && AfterClaim(held, wanted, token, generation).1 == ClaimOk(tree, token)
      && var claimed := R.After(held, max, wanted, [R.ClaimOp(token, generation)]);
        claimed.claimed == r.claimed + 1 && AfterClaim(claimed, wanted, token, generation).1 == UnknownOrClaimed
  {
    var held := R.Next(r, max, wanted, R.RecordOp(token, tree));
    R.NextKeeps(r, max, wanted, R.RecordOp(token, tree));
    RecordMeaning(r, max, token, tree);
    OneStep(r, max, wanted, R.RecordOp(token, tree));
    var i := |held.entries| - 1;
    ClaimMeaning(held, wanted, token, generation, i);
    var claimed := R.Next(held, max, wanted, R.ClaimOp(token, generation));
    R.NextKeeps(held, max, wanted, R.ClaimOp(token, generation));
    OneStep(held, max, wanted, R.ClaimOp(token, generation));
    NonceGone(held, i);
    ClaimMissing(claimed, wanted, token, generation);
  }

  lemma OneStep<T>(r: Registry<T>, max: int, wanted: Wanted, op: R.Op<T>)
    requires R.Sized(r, max)
    ensures R.After(r, max, wanted, [op]) == R.Next(r, max, wanted, op)
  {
    R.NextKeeps(r, max, wanted, op);
    hide R.Next, R.Sized;
    assert [op][1..] == [];
  }

  lemma NonceGone<T>(r: Registry<T>, i: nat)
    requires Inv(r) && i < |r.entries|
    ensures r.entries[i].token.Token?
    ensures forall e :: e in r.entries[..i] + r.entries[i + 1..] && e.token.Token? ==>
      e.token.nonce != r.entries[i].token.nonce
  {
    EntryIsHeld(r, i);
  }
}

/** Acceptance records and the bounded registry that lets each be claimed once. */
module Acceptance {
  import opened Options

  /** A record as it arrives over a message boundary. A field that should be a nonempty
      string and is not a string reads as empty, a number that is not a natural number
      as negative, and an identity that is not a string as absent. */
  datatype Token =
    | NotARecord
    | Token(nonce: string, authority: string, abi: int, checkerVersion: string, capabilityVersion: int, profile: string,
            instanceId: Option<string>, sessionId: Option<string>, generation: int, requestId: int)

  const NONCE_BYTES := 16

  predicate IsHexDigit(c: char) { '0' <= c <= '9' || 'a' <= c <= 'f' }

  predicate IsAcceptanceToken(t: Token) {
    && t.Token?
    && |t.nonce| == NONCE_BYTES * 2 && (forall c :: c in t.nonce ==> IsHexDigit(c))
    && t.authority != [] && t.checkerVersion != []
    && t.abi >= 0 && t.capabilityVersion >= 0
    && t.profile != []
    && t.instanceId.Some? && t.sessionId.Some?
    && t.generation >= 0 && t.requestId >= 0
  }

  // ----- the registry -----

  /** What became of one recorded acceptance. */
  datatype Fate = Held | Evicted | Claimed | Burned | Invalidated

  /** A kept record; `event` says which recording it came from. */
  datatype Entry<+T> = Entry(token: Token, tree: T, event: nat)

  datatype Wanted = Wanted(checkerVersion: Option<string>, authority: Option<string>)

  /** `records` and `fates` are history: the i-th successful recording and its fate. */
  datatype Registry<+T> = Registry(
    entries: seq<Entry<T>>, recorded: nat, claimed: nat, evicted: nat, refused: nat,
    records: seq<(Token, T)>, fates: seq<Fate>)

  datatype RecordResult = Recorded | RecordMalformed | NonceReused

  /** Why a claim on a kept record is refused. */
  datatype Problem = FieldMismatch | CheckerVersion | Authority | SupersededRecord

  datatype ClaimResult<+T> =
    | ClaimOk(tree: T, token: Token)
    | ClaimMalformed
    | UnknownOrClaimed
    | Refusal(problem: Problem)

  predicate SameIdentity(a: Token, b: Token)
    requires a.Token? && b.Token?
  {
    && a.authority == b.authority && a.checkerVersion == b.checkerVersion
    && a.capabilityVersion == b.capabilityVersion && a.profile == b.profile
    && a.instanceId == b.instanceId && a.sessionId == b.sessionId
    && a.requestId == b.requestId && a.generation == b.generation
  }

  function ClaimProblem(wanted: Wanted, token: Token, issued: Token, generation: Option<int>): Option<Problem>
    requires token.Token? && issued.Token?
  {
    if !SameIdentity(token, issued) then Some(FieldMismatch)
    else if wanted.checkerVersion.Some? && issued.checkerVersion != wanted.checkerVersion.value then
      Some(CheckerVersion)
    else if wanted.authority.Some? && issued.authority != wanted.authority.value then Some(Authority)
    else if generation.Some? && issued.generation != generation.value then Some(SupersededRecord)
    else None
  }

  /** Where a nonce is kept, or the end of the list. */
  function Find<T>(entries: seq<Entry<T>>, nonce: string): (i: nat)
    requires forall e :: e in entries ==> e.token.Token?
    ensures i <= |entries|
    ensures i < |entries| ==> entries[i].token.nonce == nonce
    ensures i == |entries| ==> forall e :: e in entries ==> e.token.nonce != nonce
  {
    if entries == [] then 0 else if entries[0].token.nonce == nonce then 0 else 1 + Find(entries[1..], nonce)
  }

  /** Taking one entry out and deciding its fate. */
  function Drop<T>(r: Registry<T>, i: nat, fate: Fate): Registry<T>
    requires i < |r.entries| && r.entries[i].event < |r.fates|
  {
    r.(entries := r.entries[..i] + r.entries[i + 1..], fates := r.fates[r.entries[i].event := fate])
  }

  function Count(fates: seq<Fate>, f: Fate): nat {
    if fates == [] then 0 else Count(fates[..|fates| - 1], f) + if fates[|fates| - 1] == f then 1 else 0
  }

  ghost predicate Free<T>(entries: seq<Entry<T>>, nonce: string) {
    forall e :: e in entries && e.token.Token? ==> e.token.nonce != nonce
  }

  /** Oldest first, each under a nonce of its own. */
  ghost predicate Ordered<T>(entries: seq<Entry<T>>) {
    && (forall i, j :: 0 <= i < j < |entries| ==> entries[i].event < entries[j].event)
    && (forall i, j :: 0 <= i < j < |entries| && entries[i].token.Token? && entries[j].token.Token? ==>
          entries[i].token.nonce != entries[j].token.nonce)
  }

  /** Every entry is one of the recordings, with its own token and tree. */
  ghost predicate FromRecords<T>(r: Registry<T>) {
    && |r.records| == |r.fates| == r.recorded
    && forall e :: e in r.entries ==>
         e.event < |r.records| && r.records[e.event] == (e.token, e.tree) && IsAcceptanceToken(e.token)
  }

  /** What is held is exactly what the registry contains. */
  ghost predicate HeldAreEntries<T>(r: Registry<T>) {
    forall n :: 0 <= n < |r.fates| ==> (r.fates[n] == Held <==> exists e :: e in r.entries && e.event == n)
  }

  ghost predicate EvictedFirst(fates: seq<Fate>) {
    forall m, n :: 0 <= m < |fates| && 0 <= n < |fates| && fates[m] == Evicted && fates[n] == Held ==> m < n
  }

  ghost predicate Counted<T>(r: Registry<T>) {
    && Count(r.fates, Held) == |r.entries|
    && Count(r.fates, Claimed) == r.claimed
    && Count(r.fates, Evicted) == r.evicted
  }

  /** The registry holds exactly the recordings still held, oldest first, each with its
      own token and tree under a nonce of its own, and everything evicted is older than
      everything held. Each counter counts one kind of fate. */
  ghost predicate Inv<T>(r: Registry<T>) {
    FromRecords(r) && Ordered(r.entries) && HeldAreEntries(r) && EvictedFirst(r.fates) && Counted(r)
  }

  lemma {:induction false} CountUpdate(fates: seq<Fate>, n: nat, to: Fate, f: Fate)
    requires n < |fates|
    ensures Count(fates[n := to], f) ==
      Count(fates, f) - (if fates[n] == f then 1 else 0) + (if to == f then 1 else 0)
  {
    var m := |fates| - 1;
    if n < m {
      CountUpdate(fates[..m], n, to, f);
      assert fates[n := to][..m] == fates[..m][n := to];
    } else {
      assert fates[n := to][..m] == fates[..m];
    }
  }

  lemma {:induction false} CountAll(fates: seq<Fate>)
    ensures |fates| == Count(fates, Held) + Count(fates, Claimed) + Count(fates, Evicted)
                     + Count(fates, Burned) + Count(fates, Invalidated)
  {
    if fates != [] {
      CountAll(fates[..|fates| - 1]);
    }
  }

  /** A registry after one entry is taken out and its departure counted. */
  function Without<T>(r: Registry<T>, i: nat, fate: Fate): Registry<T>
    requires i < |r.entries| && r.entries[i].event < |r.fates|
  {
    Drop(r, i, fate).(claimed := r.claimed + (if fate == Claimed then 1 else 0),
                      evicted := r.evicted + (if fate == Evicted then 1 else 0))
  }

  lemma DropKeepsEntries<T>(r: Registry<T>, i: nat, fate: Fate)
    requires FromRecords(r) && Ordered(r.entries) && HeldAreEntries(r) && i < |r.entries| && fate != Held
    ensures FromRecords(Drop(r, i, fate)) && Ordered(Drop(r, i, fate).entries) && HeldAreEntries(Drop(r, i, fate))
  {
    hide Ordered, IsAcceptanceToken;
    var n := r.entries[i].event;
    var r' := Drop(r, i, fate);
    DropEntries(r.entries, i);
    forall k | 0 <= k < |r'.fates|
      ensures r'.fates[k] == Held <==> exists e :: e in r'.entries && e.event == k
    {
      if k != n && r.fates[k] == Held {
        var e :| e in r.entries && e.event == k;
        assert e in r'.entries;
      }
    }
  }

  lemma DropKeepsOrder(fates: seq<Fate>, n: nat, fate: Fate)
    requires EvictedFirst(fates) && n < |fates| && fate != Held
    requires fate == Evicted ==> forall k :: 0 <= k < |fates| && fates[k] == Held ==> n <= k
    ensures EvictedFirst(fates[n := fate])
  {
  }

  lemma DropKeepsCounts<T>(r: Registry<T>, i: nat, fate: Fate)
    requires Counted(r) && i < |r.entries| && r.entries[i].event < |r.fates|
    requires r.fates[r.entries[i].event] == Held && fate != Held
    ensures Counted(Without(r, i, fate))
  {
    var n := r.entries[i].event;
    CountUpdate(r.fates, n, fate, Held);
    CountUpdate(r.fates, n, fate, Claimed);
    CountUpdate(r.fates, n, fate, Evicted);
  }

  /** The first entry is the oldest recording held. */
  lemma FirstIsOldest<T>(r: Registry<T>, n: nat)
    requires Ordered(r.entries) && HeldAreEntries(r) && r.entries != [] && n < |r.fates| && r.fates[n] == Held
    ensures r.entries[0].event <= n
  {
    var e :| e in r.entries && e.event == n;
    var k :| 0 <= k < |r.entries| && r.entries[k] == e;
  }

  lemma DropKeeps<T>(r: Registry<T>, i: nat, fate: Fate)
    requires Inv(r) && i < |r.entries| && fate != Held && (fate == Evicted ==> i == 0)
    ensures r.entries[i].event < |r.fates| && Inv(Without(r, i, fate))
  {
    EntryIsHeld(r, i);
    hide FromRecords, Ordered, HeldAreEntries, EvictedFirst, Counted, Count;
    DropKeepsEntries(r, i, fate);
    DropKeepsCounts(r, i, fate);
    if i == 0 {
      forall k: nat | k < |r.fates| && r.fates[k] == Held ensures r.entries[0].event <= k {
        FirstIsOldest(r, k);
      }
    }
    DropKeepsOrder(r.fates, r.entries[i].event, fate);
  }

  /** Every entry is a recording still held. */
  lemma EntryIsHeld<T>(r: Registry<T>, i: nat)
    requires Inv(r) && i < |r.entries|
    ensures r.entries[i].event < |r.fates| == |r.records| && r.fates[r.entries[i].event] == Held
    ensures r.records[r.entries[i].event] == (r.entries[i].token, r.entries[i].tree)
    ensures r.entries[i].token.Token?
  {
    assert r.entries[i] in r.entries;
  }

  /** A claim takes its entry out either way. */
  function Released<T>(r: Registry<T>, i: nat, ok: bool): Registry<T>
    requires i < |r.entries| && r.entries[i].event < |r.fates|
  {
    if ok then Drop(r, i, Claimed).(claimed := r.claimed + 1) else Drop(r, i, Burned).(refused := r.refused + 1)
  }

  lemma ReleasedKeeps<T>(r: Registry<T>, i: nat, ok: bool)
    requires Inv(r) && i < |r.entries|
    ensures r.entries[i].event < |r.fates| && Inv(Released(r, i, ok))
  {
    DropKeeps(r, i, if ok then Claimed else Burned);
    hide Inv;
    if !ok {
    }
  }

  lemma DropEntries<T>(entries: seq<Entry<T>>, i: nat)
    requires Ordered(entries) && i < |entries|
    ensures Ordered(entries[..i] + entries[i + 1..])
    ensures forall e :: e in entries[..i] + entries[i + 1..] <==> e in entries && e.event != entries[i].event
  {
    var rest := entries[..i] + entries[i + 1..];
    assert entries == entries[..i] + [entries[i]] + entries[i + 1..];
    assert forall k :: 0 <= k < |rest| ==> rest[k] == entries[if k < i then k else k + 1];
    forall e | e in rest
      ensures e.event != entries[i].event
    {
      var k :| 0 <= k < |rest| && rest[k] == e;
    }
  }

  // ----- operations -----

  /** Oldest first, until there is room for one more. */
  ghost function Evict<T>(r: Registry<T>, max: int): (r': Registry<T>)
    requires Inv(r) && max >= 1
    ensures Inv(r') && |r'.entries| < max && r'.records == r.records
    ensures |r'.entries| == if |r.entries| >= max then max - 1 else |r.entries|
    decreases |r.entries|
  {
    if |r.entries| >= max then
      DropKeeps(r, 0, Evicted);
      Evict(Drop(r, 0, Evicted).(evicted := r.evicted + 1), max)
    else r
  }

  ghost function AfterRecord<T>(r: Registry<T>, max: int, token: Token, tree: T): (Registry<T>, RecordResult)
    requires Inv(r) && (max >= 1 || !IsAcceptanceToken(token))
  {
    if !IsAcceptanceToken(token) then (r, RecordMalformed)
    else if Find(r.entries, token.nonce) < |r.entries| then (r, NonceReused)
    else (Append(Evict(r, max), token, tree), Recorded)
  }

  function Append<T>(r: Registry<T>, token: Token, tree: T): Registry<T> {
    r.(entries := r.entries + [Entry(token, tree, |r.records|)], recorded := r.recorded + 1,
       records := r.records + [(token, tree)], fates := r.fates + [Held])
  }

  ghost function AfterClaim<T>(r: Registry<T>, wanted: Wanted, token: Token, generation: Option<int>)
    : (Registry<T>, ClaimResult<T>)
    requires Inv(r)
  {
    if !IsAcceptanceToken(token) then (r.(refused := r.refused + 1), ClaimMalformed)
    else
      var i := Find(r.entries, token.nonce);
      if i == |r.entries| then (r.(refused := r.refused + 1), UnknownOrClaimed)
      else
        var e := r.entries[i];
        var problem := ClaimProblem(wanted, token, e.token, generation);
        (Released(r, i, problem.None?), if problem.Some? then Refusal(problem.value) else ClaimOk(e.tree, e.token))
  }

  ghost function AfterInvalidate<T>(r: Registry<T>, drop: Token -> bool, i: nat): (r': Registry<T>)
    requires Inv(r) && i <= |r.entries|
    ensures Inv(r') && r'.records == r.records && |r'.entries| <= |r.entries|
    decreases |r.entries| - i
  {
    if i == |r.entries| then r
    else if drop(r.entries[i].token) then
      DropKeeps(r, i, Invalidated);
      AfterInvalidate(Drop(r, i, Invalidated), drop, i)
    else AfterInvalidate(r, drop, i + 1)
  }

  lemma RecordKeeps<T>(r: Registry<T>, max: int, token: Token, tree: T)
    requires Inv(r) && max >= 1 && |r.entries| <= max
    ensures var r' := AfterRecord(r, max, token, tree).0; Inv(r') && |r'.entries| <= max
    ensures AfterRecord(r, max, token, tree).1.Recorded? ==>
      |AfterRecord(r, max, token, tree).0.entries| == if |r.entries| < max then |r.entries| + 1 else max
  {
    if AfterRecord(r, max, token, tree).1 == Recorded {
      EvictKeepsNoncesOut(r, max, token.nonce);
      AppendKeeps(Evict(r, max), token, tree);
    }
  }

  lemma {:induction false} EvictKeepsNoncesOut<T>(r: Registry<T>, max: int, nonce: string)
    requires Inv(r) && max >= 1 && Free(r.entries, nonce)
    ensures Free(Evict(r, max).entries, nonce)
    decreases |r.entries|
  {
    hide Inv;
    if |r.entries| >= max {
      DropKeeps(r, 0, Evicted);
      EntryIsHeld(r, 0);
      EvictKeepsNoncesOut(Drop(r, 0, Evicted).(evicted := r.evicted + 1), max, nonce);
    }
  }

  lemma AppendKeeps<T>(r: Registry<T>, token: Token, tree: T)
    requires Inv(r) && IsAcceptanceToken(token) && Free(r.entries, token.nonce)
    ensures Inv(Append(r, token, tree))
  {
    hide Ordered, Free;
    var r', e' := Append(r, token, tree), Entry(token, tree, |r.records|);
    assert r'.fates[..|r.fates|] == r.fates;
    assert forall e :: e in r'.entries <==> e in r.entries || e == e';
    AppendOrdered(r.entries, e');
    forall n | 0 <= n < |r'.fates|
      ensures r'.fates[n] == Held <==> exists e :: e in r'.entries && e.event == n
    {
      if n == |r.fates| {
        assert e' in r'.entries;
      } else if r.fates[n] == Held {
        var e :| e in r.entries && e.event == n;
        assert e in r'.entries;
      }
    }
  }

  lemma AppendOrdered<T>(entries: seq<Entry<T>>, e: Entry<T>)
    requires Ordered(entries) && e.token.Token? && Free(entries, e.token.nonce)
    requires forall d :: d in entries ==> d.event < e.event
    ensures Ordered(entries + [e])
  {
  }

  lemma ClaimKeeps<T>(r: Registry<T>, wanted: Wanted, token: Token, generation: Option<int>)
    requires Inv(r)
    ensures Inv(AfterClaim(r, wanted, token, generation).0)
  {
    TokensAreRecords(r);
    hide Inv, Released, ClaimProblem, IsAcceptanceToken, Find;
    if IsAcceptanceToken(token) && Find(r.entries, token.nonce) < |r.entries| {
      var i := Find(r.entries, token.nonce);
      ReleasedKeeps(r, i, ClaimProblem(wanted, token, r.entries[i].token, generation).None?);
    }
  }

  lemma TokensAreRecords<T>(r: Registry<T>)
    requires Inv(r)
    ensures forall e :: e in r.entries ==> e.token.Token?
  {
  }

  // ----- what a registry guarantees -----

  /** Every recording is accounted for: claimed, evicted, burned by a failed claim,
      invalidated, or still held. */
  lemma Conservation<T>(r: Registry<T>)
    requires Inv(r)
    ensures r.recorded == r.claimed + r.evicted + Count(r.fates, Burned) + Count(r.fates, Invalidated) + |r.entries|
  {
    CountAll(r.fates);
  }

  /** A successful claim returns the very tree of the one recording with that nonce that
      is held, and that recording is held no more. */
  lemma ClaimReturnsItsOwnTree<T>(r: Registry<T>, wanted: Wanted, token: Token, generation: Option<int>)
    requires Inv(r)
    requires AfterClaim(r, wanted, token, generation).1.ClaimOk?
    ensures var (r', c) := AfterClaim(r, wanted, token, generation);
      exists n :: 0 <= n < |r.fates| && r.fates[n] == Held && r.records[n] == (c.token, c.tree)
        && c.token.nonce == token.nonce && SameIdentity(token, c.token)
        && r'.fates == r.fates[n := Claimed]
  {
    var i := Find(r.entries, token.nonce);
    var n := r.entries[i].event;
    assert r.entries[i] in r.entries;
    assert r.fates[n] == Held;
  }

  lemma {:induction false} EvictIsFinal<T>(r: Registry<T>, max: int, n: nat)
    requires Inv(r) && max >= 1 && n < |r.fates| && r.fates[n] != Held
    ensures n < |Evict(r, max).fates| && Evict(r, max).fates[n] == r.fates[n]
    decreases |r.entries|
  {
    hide Inv;
    if |r.entries| >= max {
      DropKeeps(r, 0, Evicted);
      EntryIsHeld(r, 0);
      EvictIsFinal(Drop(r, 0, Evicted).(evicted := r.evicted + 1), max, n);
    }
  }

  lemma {:induction false} InvalidateIsFinal<T>(r: Registry<T>, drop: Token -> bool, i: nat, n: nat)
    requires Inv(r) && i <= |r.entries| && n < |r.fates| && r.fates[n] != Held
    ensures n < |AfterInvalidate(r, drop, i).fates| && AfterInvalidate(r, drop, i).fates[n] == r.fates[n]
    decreases |r.entries| - i
  {
    hide Inv;
    if i < |r.entries| {
      EntryIsHeld(r, i);
      if drop(r.entries[i].token) {
        DropKeeps(r, i, Invalidated);
        InvalidateIsFinal(Drop(r, i, Invalidated), drop, i, n);
      } else {
        InvalidateIsFinal(r, drop, i + 1, n);
      }
    }
  }

  lemma EventsTellTokens<T>(r: Registry<T>, i: nat)
    requires Inv(r) && i < |r.entries|
    ensures Ordered(r.entries)
    ensures forall e :: e in r.entries && e.event == r.entries[i].event ==> e.token == r.entries[i].token
  {
    assert r.entries[i] in r.entries;
  }

  /** Invalidation removes what the predicate names and nothing else. */
  lemma {:induction false} InvalidateIsExact<T>(r: Registry<T>, drop: Token -> bool, i: nat)
    requires Inv(r) && i <= |r.entries|
    requires forall k :: 0 <= k < i ==> !drop(r.entries[k].token)
    ensures forall e :: e in AfterInvalidate(r, drop, i).entries <==> e in r.entries && !drop(e.token)
    decreases |r.entries| - i
  {
    if i < |r.entries| {
      EventsTellTokens(r, i);
      EntryIsHeld(r, i);
      if drop(r.entries[i].token) {
        DropKeeps(r, i, Invalidated);
        DropEntries(r.entries, i);
        hide Inv, Ordered;
        InvalidateIsExact(Drop(r, i, Invalidated), drop, i);
      } else {
        InvalidateIsExact(r, drop, i + 1);
      }
    }
  }

  // ----- capacities -----

  /** For a whole number of entries a capacity counts as the next whole number. */
  function Ceiling(x: real): int {
    if x.Floor as real == x then x.Floor else x.Floor + 1
  }

  lemma RoomMeaning(capacity: real)
    ensures capacity > 0.0 ==> Room(capacity) == Ceiling(capacity)
  {
  }

  lemma CeilingMeaning(x: real, k: int)
    ensures k as real >= x <==> k >= Ceiling(x)
  {
  }

  /** The most entries a registry of this capacity can come to hold. */
  function Room(capacity: real): nat {
    if capacity > 0.0 then Ceiling(capacity) else 0
  }

  /** The entries after `k` rounds of the eviction loop; a round on an empty map deletes
      nothing. */
  function Rounds<T>(entries: seq<Entry<T>>, k: nat): seq<Entry<T>> {
    if k == 0 then entries
    else
      var before := Rounds(entries, k - 1);
      if before == [] then [] else before[1..]
  }

  lemma {:induction false} RoundsLength<T>(entries: seq<Entry<T>>, k: nat)
    ensures |Rounds(entries, k)| == if k <= |entries| then |entries| - k else 0
  {
    if k > 0 {
      RoundsLength(entries, k - 1);
    }
  }

  /** The eviction loop comes to an end exactly when the capacity is positive, fractions
      included: with none, an empty registry still counts as full. */
  lemma EvictionStops<T>(entries: seq<Entry<T>>, capacity: real)
    ensures (exists k: nat :: !(|Rounds(entries, k)| as real >= capacity)) <==> capacity > 0.0
  {
    RoundsLength(entries, |entries|);
  }

  class AcceptanceRegistry<T(==)> {
    const capacity: real
    const wanted: Wanted
    var entries: seq<Entry<T>>
    var recorded: nat
    var claimed: nat
    var evicted: nat
    var refused: nat
    ghost var records: seq<(Token, T)>
    ghost var fates: seq<Fate>

    ghost function State(): Registry<T>
      reads this
    {
      Registry(entries, recorded, claimed, evicted, refused, records, fates)
    }

    ghost predicate Valid()
      reads this
    {
      Inv(State()) && |entries| <= Room(capacity)
    }

    constructor (capacity: real, wanted: Wanted)
      ensures Valid() && this.capacity == capacity && this.wanted == wanted
      ensures State() == Registry([], 0, 0, 0, 0, [], [])
    {
      this.capacity, this.wanted := capacity, wanted;
      entries, recorded, claimed, evicted, refused := [], 0, 0, 0, 0;
      records, fates := [], [];
    }

    method Delete(i: nat, ghost fate: Fate)
      requires i < |entries| && entries[i].event < |fates|
      modifies this`entries, this`fates
      ensures State() == Drop(old(State()), i, fate)
    {
      fates := fates[entries[i].event := fate];
      entries := entries[..i] + entries[i + 1..];
    }

    /** Evict the oldest entries until one more fits. */
    method MakeRoom()
      requires Valid() && capacity > 0.0
      modifies this`entries, this`fates, this`evicted
      ensures State() == Evict(old(State()), Ceiling(capacity))
    {
      hide Inv;
      ghost var max := Ceiling(capacity);
      while |entries| as real >= capacity
        invariant Inv(State()) && Evict(State(), max) == Evict(old(State()), max)
        decreases |entries|
      {
        CeilingMeaning(capacity, |entries|);
        DropKeeps(State(), 0, Evicted);
        EntryIsHeld(State(), 0);
        Delete(0, Evicted);
        evicted := evicted + 1;
      }
      CeilingMeaning(capacity, |entries|);
    }

    /** With no capacity the loop never ends, unless the record is refused before it. */
    method Record(token: Token, tree: T) returns (r: RecordResult)
      requires Valid() && (capacity > 0.0 || !IsAcceptanceToken(token))
      modifies this
      ensures Valid()
      ensures (State(), r) == AfterRecord(old(State()), Ceiling(capacity), token, tree)
    {
      if !IsAcceptanceToken(token) {
        return RecordMalformed;
      }
      CeilingMeaning(capacity, 0);
      RoomMeaning(capacity);
      RecordKeeps(State(), Ceiling(capacity), token, tree);
      TokensAreRecords(State());
      hide Inv, Evict, Append, Ceiling, Room, IsAcceptanceToken;
      if Find(entries, token.nonce) < |entries| {
        return NonceReused;
      }
      MakeRoom();
      Set(token, tree);
      r := Recorded;
    }

    /** Enter a record at the end. */
    method Set(token: Token, tree: T)
      requires recorded == |records|
      modifies this`entries, this`recorded, this`records, this`fates
      ensures State() == Append(old(State()), token, tree)
    {
      entries := entries + [Entry(token, tree, recorded)];
      recorded := recorded + 1;
      records, fates := records + [(token, tree)], fates + [Held];
    }

    method Claim(token: Token, generation: Option<int>) returns (r: ClaimResult<T>)
      requires Valid()
      modifies this
      ensures Valid()
      ensures (State(), r) == AfterClaim(old(State()), wanted, token, generation)
    {
      ClaimKeeps(State(), wanted, token, generation);
      TokensAreRecords(State());
      hide Inv, ClaimProblem;
      if !IsAcceptanceToken(token) {
        refused := refused + 1;
        return ClaimMalformed;
      }
      var i := Find(entries, token.nonce);
      if i == |entries| {
        refused := refused + 1;
        return UnknownOrClaimed;
      }
      EntryIsHeld(State(), i);
      var entry := entries[i];
      var issued := entry.token;
      var problem := ClaimProblem(wanted, token, issued, generation);
      Delete(i, if problem.Some? then Burned else Claimed);
      if problem.Some? {
        refused := refused + 1;
        return Refusal(problem.value);
      }
      claimed := claimed + 1;
      r := ClaimOk(entry.tree, issued);
    }

    /** Drops every entry the predicate names; clearing everything is the constant true. */
    method Invalidate(drop: Token -> bool)
      requires Valid()
      modifies this
      ensures Valid()
      ensures State() == AfterInvalidate(old(State()), drop, 0)
    {
      hide Inv, EvictedFirst;
      var i := 0;
      while i < |entries|
        invariant i <= |entries| <= Room(capacity) && Inv(State())
        invariant AfterInvalidate(State(), drop, i) == AfterInvalidate(old(State()), drop, 0)
        decreases |entries| - i
      {
        EntryIsHeld(State(), i);
        if drop(entries[i].token) {
          DropKeeps(State(), i, Invalidated);
          Delete(i, Invalidated);
        } else {
          i := i + 1;
        }
      }
    }
  }
}

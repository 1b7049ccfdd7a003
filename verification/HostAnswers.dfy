/** Which answer a call to attach gets, and why: told by the message, the call and the slots
    it finds. */
module HostAnswers {
  import opened Host
  import opened Options

  // ----- one message or call -----

  /** `bound` answers true whatever call waits once the callback has returned, and tells the
      host, the first time, that the frame was bound. Nothing else is settled by it. */
  lemma BoundMeaning(f: Frame, during: seq<Call>)
    requires AtRest(f)
    ensures var (g, f') := (ApplyAll(f.(portBound := true), during), Next(f, BoundMessage(during)));
      && (f.destroyed ==> f' == f)
      && (!f.destroyed && g.awaiting.Some? ==>
            && g.awaiting.value !in g.settled && f'.settled == g.settled[g.awaiting.value := true]
            && g.awaiting.value in f'.fates && f'.fates[g.awaiting.value] == Transferred)
      && (!f.destroyed && g.awaiting.None? ==> f'.settled == g.settled)
      && (!f.destroyed ==>
            && f'.awaiting.None? && f'.pending == g.pending && f'.fates == g.fates && f'.calls == g.calls
            && f'.destroyed == g.destroyed
            && f'.everBound == if g.everBound.None? then Some(true) else g.everBound)
  {
    if !f.destroyed {
      ApplyAllKeeps(f.(portBound := true), during, None);
    }
  }

  /** With a callback that does nothing: the call that waits is answered true. */
  lemma BoundAnswersTrue(f: Frame, n: nat)
    requires AtRest(f) && !f.destroyed && f.awaiting == Some(n)
    ensures var f' := Next(f, BoundMessage([]));
      f'.settled == f.settled[n := true] && f'.portBound && f'.everBound.Some? && f'.awaiting.None?
  {
  }

  /** What stood in a slot when a port comes, or when the frame is destroyed: answered false,
      and closed if it was parked. */
  ghost predicate ClearsSlots(f: Frame, f': Frame, apart: set<nat>) {
    && (forall n: nat :: n in f.settled ==> n in f'.settled && f'.settled[n] == f.settled[n])
    && (forall n: nat | Some(n) == f.awaiting || Some(n) == f.pending :: n in f'.settled && !f'.settled[n])
    && (forall n: nat | Some(n) == f.pending :: n in f'.fates && f'.fates[n] == Closed)
    && (forall n: nat | n in f'.settled && n !in apart ::
          n in f.settled || Some(n) == f.awaiting || Some(n) == f.pending)
  }

  lemma SupersededClears(f: Frame)
    requires Sound(f, None)
    ensures ClearsSlots(f, Superseded(f), {}) && Superseded(f).awaiting.None? && Superseded(f).pending.None?
    ensures f.calls !in Superseded(f).settled
  {
  }

  /** A port that comes to a destroyed frame is turned away and closed; one that comes before
      the frame is ready is parked. */
  lemma AttachWaits(f: Frame, posts: bool)
    requires AtRest(f) && (f.destroyed || !f.ready)
    ensures var (f', n) := (Apply(f, Attach(posts, [])), f.calls);
      && f'.calls == n + 1 && f'.destroyed == f.destroyed && f'.ready == f.ready && n in f'.fates
      && (f.destroyed ==> f'.fates[n] == Closed && f'.settled == f.settled[n := false])
      && (!f.destroyed ==>
            && ClearsSlots(f, f', {}) && f'.fates[n] == Parked && f'.pending == Some(n) && f'.awaiting.None?
            && n !in f'.settled)
  {
    SupersededClears(f);
    hide Sound;
  }

  /** In a ready frame it is transferred and its call waits, or, when its bootstrap message
      does not post, it is closed and its call answered false at once. */
  lemma AttachPosts(f: Frame, posts: bool)
    requires AtRest(f) && !f.destroyed && f.ready
    ensures var (f', n) := (Apply(f, Attach(posts, [])), f.calls);
      && f'.calls == n + 1 && !f'.destroyed && f'.ready && n in f'.fates && f'.pending.None?
      && ClearsSlots(f, f', {n})
      && (posts ==> f'.fates[n] == Transferred && f'.awaiting == Some(n) && n !in f'.settled)
      && (!posts ==> f'.fates[n] == Closed && f'.awaiting.None? && n in f'.settled && !f'.settled[n])
  {
    SupersededClears(f);
    AttachComes(f, posts);
    NewCallAside(f, Superseded(f), Apply(f, Attach(posts, [])), f.calls);
    hide ClearsSlots, Superseded, Apply;
  }

  lemma AttachComes(f: Frame, posts: bool)
    requires AtRest(f) && !f.destroyed && f.ready
    ensures var (g, n) := (Superseded(f), f.calls);
      Apply(f, Attach(posts, [])) ==
        if posts then g.(calls := n + 1, awaiting := Some(n), fates := g.fates[n := Transferred])
        else g.(calls := n + 1, awaiting := None, fates := g.fates[n := Closed], settled := g.settled[n := false])
    ensures Superseded(f).destroyed == f.destroyed && Superseded(f).ready == f.ready
    ensures f.awaiting != Some(f.calls) && f.pending != Some(f.calls)
  {
    SupersededClears(f);
  }

  /** What is said of the slots' calls stays so when a new call gets its place. */
  lemma NewCallAside(f: Frame, g: Frame, h: Frame, n: nat)
    requires ClearsSlots(f, g, {}) && n !in g.settled && f.pending != Some(n)
    requires h.settled == g.settled || h.settled == g.settled[n := false]
    requires h.fates == g.fates[n := Transferred] || h.fates == g.fates[n := Closed]
    ensures ClearsSlots(f, h, {n})
  {
  }

  /** The first `ready` posts what is parked; a second one destroys the frame. */
  lemma ReadyMeaning(f: Frame, posts: bool)
    requires AtRest(f)
    ensures var f' := Next(f, ReadyMessage([], posts, []));
      && (f.destroyed ==> f' == f)
      && (!f.destroyed && f.ready ==> f' == Next(f, ApiCall(Destroy)))
      && (!f.destroyed && !f.ready ==> f'.ready && f'.pending.None? && f'.calls == f.calls && !f'.destroyed)
      && (!f.destroyed && !f.ready && f.pending.None? ==> f' == f.(ready := true))
      && (!f.destroyed && !f.ready && f.pending.Some? && posts ==>
            && f'.awaiting == f.pending && f'.settled == f.settled
            && f'.fates == f.fates[f.pending.value := Transferred])
      && (!f.destroyed && !f.ready && f.pending.Some? && !posts ==>
            && f'.awaiting.None? && f'.settled == f.settled[f.pending.value := false]
            && f'.fates == f.fates[f.pending.value := Closed])
  {
  }

  /** Destroying answers and closes whatever stands in a slot, once and for all. */
  lemma DestroyMeaning(f: Frame)
    requires AtRest(f)
    ensures var f' := Next(f, ApiCall(Destroy));
      && f'.destroyed && (f.destroyed ==> f' == f)
      && f'.pending.None? && f'.awaiting.None? && !f'.portBound && f'.calls == f.calls
      && (!f.destroyed ==> ClearsSlots(f, f', {}))
      && f'.everBound == if f.everBound.None? then Some(false) else f.everBound
  {
  }

  // ----- only `bound` says true -----

  ghost function Trues(f: Frame): set<nat> {
    set n | n in f.settled && f.settled[n]
  }

  lemma {:induction false} PostedSaysNotTrue(f: Frame, n: nat, posts: bool, during: seq<Call>)
    ensures Trues(Posted(f, n, posts, during)) <= Trues(f)
    decreases during, 1
  {
    if !posts {
      CallsSayNotTrue(f.(awaiting := Some(n), fates := f.fates[n := Closed]), during);
    }
  }

  lemma {:induction false} CallSaysNotTrue(f: Frame, c: Call)
    ensures Trues(Apply(f, c)) <= Trues(f)
    decreases c, 0
  {
    if c.Attach? && !f.destroyed && f.ready {
      PostedSaysNotTrue(Superseded(f).(calls := f.calls + 1), f.calls, c.posts, c.during);
    }
  }

  lemma {:induction false} CallsSayNotTrue(f: Frame, cs: seq<Call>)
    ensures Trues(ApplyAll(f, cs)) <= Trues(f)
    decreases cs, 0
  {
    if cs != [] {
      CallSaysNotTrue(f, cs[0]);
      CallsSayNotTrue(Apply(f, cs[0]), cs[1..]);
    }
  }

  /** A promise becomes true only by `bound`, and only if it was the one waiting when the
      callback had returned. */
  lemma OnlyBoundSaysTrue(f: Frame, i: Input, n: nat)
    requires AtRest(f) && n !in Trues(f) && n in Trues(Next(f, i))
    ensures i.BoundMessage? && !f.destroyed && ApplyAll(f.(portBound := true), i.during).awaiting == Some(n)
  {
    match i
    case ApiCall(c) =>
      CallSaysNotTrue(f, c);
    case ReadyMessage(during, posts, onFailure) =>
      CallsSayNotTrue(f.(ready := true), during);
      var g := ApplyAll(f.(ready := true), during);
      if g.pending.Some? {
        PostedSaysNotTrue(g.(pending := None), g.pending.value, posts, onFailure);
      }
    case BoundMessage(during) =>
      CallsSayNotTrue(f.(portBound := true), during);
  }

  /** In a run that loses no promise, once the frame is ready, whichever promise is still
      open is the one the next `bound` answers true. */
  lemma OpenIsAnsweredTrue(inputs: seq<Input>, n: nat)
    requires !LosesInRun(New(), inputs) && After(New(), inputs).ready
    requires n < After(New(), inputs).calls && n !in After(New(), inputs).settled
    ensures var f := After(New(), inputs);
      After(New(), inputs + [BoundMessage([])]).settled == f.settled[n := true]
  {
    var f := After(New(), inputs);
    EveryPromiseAnswerable(inputs);
    RunKeeps(New(), inputs);
    assert n !in Orphans(f);
    BoundAnswersTrue(f, n);
    AfterSnoc(New(), inputs, BoundMessage([]));
  }

  lemma {:induction false} AfterSnoc(f: Frame, inputs: seq<Input>, i: Input)
    ensures After(f, inputs + [i]) == Next(After(f, inputs), i)
    decreases |inputs|
  {
    hide Next;
    if inputs == [] {
      assert inputs + [i] == [i] && [i][1..] == [];
    } else {
      assert (inputs + [i])[0] == inputs[0] && (inputs + [i])[1..] == inputs[1..] + [i];
      AfterSnoc(Next(f, inputs[0]), inputs[1..], i);
    }
  }

  // ----- why an answer is false -----

  /** The calls whose bootstrap message failed to post. */
  ghost function FailedPost(f: Frame, n: nat, posts: bool, during: seq<Call>): set<nat>
    decreases during, 1
  {
    if posts then {} else {n} + FailedCalls(f.(awaiting := Some(n), fates := f.fates[n := Closed]), during)
  }

  ghost function FailedCall(f: Frame, c: Call): set<nat>
    decreases c, 0
  {
    if c.Destroy? || f.destroyed || !f.ready then {}
    else FailedPost(Superseded(f).(calls := f.calls + 1), f.calls, c.posts, c.during)
  }

  ghost function FailedCalls(f: Frame, cs: seq<Call>): set<nat>
    decreases cs, 0
  {
    if cs == [] then {} else FailedCall(f, cs[0]) + FailedCalls(Apply(f, cs[0]), cs[1..])
  }

  ghost function Failed(f: Frame, i: Input): set<nat> {
    match i
    case ApiCall(c) => FailedCall(f, c)
    case ReadyMessage(during, posts, onFailure) =>
      if f.destroyed || f.ready then {}
      else
        var g := ApplyAll(f.(ready := true), during);
        FailedCalls(f.(ready := true), during)
        + if g.pending.Some? then FailedPost(g.(pending := None), g.pending.value, posts, onFailure) else {}
    case BoundMessage(during) => if f.destroyed then {} else FailedCalls(f.(portBound := true), during)
  }

  ghost function FailedInRun(f: Frame, inputs: seq<Input>): set<nat>
    decreases |inputs|
  {
    if inputs == [] then {} else Failed(f, inputs[0]) + FailedInRun(Next(f, inputs[0]), inputs[1..])
  }

  ghost predicate Excused(f: Frame, failed: set<nat>, n: nat) {
    f.destroyed || n + 1 < f.calls || n in failed
  }

  /** A call answered false, or whose port was closed, was superseded by a later one, met a
      destroyed frame, or failed to post. */
  ghost predicate Reasoned(f: Frame, failed: set<nat>) {
    && (forall n :: n in f.settled && !f.settled[n] ==> Excused(f, failed, n))
    && (forall n :: n in f.fates && f.fates[n] == Closed ==> Excused(f, failed, n))
  }

  lemma {:induction false} PostReasoned(f: Frame, n: nat, posts: bool, during: seq<Call>, closing: Option<nat>,
                                        failed: set<nat>)
    requires f.ready && !f.destroyed && f.pending.None? && f.awaiting.None? && n < f.calls && n !in f.settled
    requires n !in f.fates || f.fates[n] == Parked
    requires Sound(f.(fates := f.fates[n := Transferred]), closing) && Reasoned(f, failed)
    ensures Reasoned(Posted(f, n, posts, during), failed + FailedPost(f, n, posts, during))
    decreases during, 1
  {
    if !posts {
      var start := f.(awaiting := Some(n), fates := f.fates[n := Closed]);
      assert start.fates.Keys == f.fates[n := Transferred].Keys;
      CallsReasoned(start, during, Some(n), failed + {n});
      assert failed + {n} + FailedCalls(start, during) == failed + FailedPost(f, n, posts, during);
    }
  }

  lemma {:induction false} CallReasoned(f: Frame, c: Call, closing: Option<nat>, failed: set<nat>)
    requires Sound(f, closing) && Reasoned(f, failed)
    ensures Reasoned(Apply(f, c), failed + FailedCall(f, c))
    decreases c, 0
  {
    if c.Attach? && !f.destroyed && f.ready {
      SupersededKeeps(f, closing);
      var g := Superseded(f).(calls := f.calls + 1);
      assert g.fates - {f.calls} == g.fates;
      PostReasoned(g, f.calls, c.posts, c.during, closing, failed);
    }
  }

  lemma {:induction false} CallsReasoned(f: Frame, cs: seq<Call>, closing: Option<nat>, failed: set<nat>)
    requires Sound(f, closing) && Reasoned(f, failed)
    ensures Reasoned(ApplyAll(f, cs), failed + FailedCalls(f, cs))
    decreases cs, 0
  {
    if cs != [] {
      ApplyKeeps(f, cs[0], closing);
      CallReasoned(f, cs[0], closing, failed);
      CallsReasoned(Apply(f, cs[0]), cs[1..], closing, failed + FailedCall(f, cs[0]));
      hide Sound, Reasoned, Apply, FailedCall;
      assert failed + FailedCall(f, cs[0]) + FailedCalls(Apply(f, cs[0]), cs[1..]) == failed + FailedCalls(f, cs);
    }
  }

  lemma NextReasoned(f: Frame, i: Input, failed: set<nat>)
    requires AtRest(f) && Reasoned(f, failed)
    ensures Reasoned(Next(f, i), failed + Failed(f, i))
  {
    match i
    case ApiCall(c) => CallReasoned(f, c, None, failed);
    case ReadyMessage(during, posts, onFailure) => ReadyReasoned(f, during, posts, onFailure, failed);
    case BoundMessage(during) =>
      if !f.destroyed {
        CallsReasoned(f.(portBound := true), during, None, failed);
      }
  }

  lemma FlushReasoned(f: Frame, posts: bool, onFailure: seq<Call>, failed: set<nat>)
    requires Sound(f, None) && f.ready && f.pending.Some? && Reasoned(f, failed)
    ensures var held := f.(pending := None);
      Reasoned(Posted(held, f.pending.value, posts, onFailure),
               failed + FailedPost(held, f.pending.value, posts, onFailure))
  {
    PostReasoned(f.(pending := None), f.pending.value, posts, onFailure, None, failed);
  }

  lemma ReadyStarts(f: Frame, failed: set<nat>)
    requires AtRest(f) && Reasoned(f, failed)
    ensures Sound(f, None) && (!f.ready ==> Sound(f.(ready := true), None)) && Reasoned(f.(ready := true), failed)
  {
  }

  lemma ReadyReasoned(f: Frame, during: seq<Call>, posts: bool, onFailure: seq<Call>, failed: set<nat>)
    requires AtRest(f) && Reasoned(f, failed)
    ensures Reasoned(AfterReady(f, during, posts, onFailure),
      failed + Failed(f, ReadyMessage(during, posts, onFailure)))
  {
    hide Sound, AtRest, Reasoned, FailedCalls, FailedPost, Posted, Apply, ApplyAll;
    ReadyStarts(f, failed);
    if f.destroyed {
    } else if f.ready {
      CallReasoned(f, Destroy, None, failed);
      DestroyFails(f);
    } else {
      var start := f.(ready := true);
      ApplyAllKeeps(start, during, None);
      CallsReasoned(start, during, None, failed);
      var g, more := ApplyAll(start, during), failed + FailedCalls(start, during);
      if g.pending.Some? {
        FlushReasoned(g, posts, onFailure, more);
        assert more + FailedPost(g.(pending := None), g.pending.value, posts, onFailure)
            == failed + Failed(f, ReadyMessage(during, posts, onFailure));
      } else {
        assert more == failed + Failed(f, ReadyMessage(during, posts, onFailure));
      }
    }
    assert failed + {} == failed;
  }

  lemma DestroyFails(f: Frame)
    ensures FailedCall(f, Destroy) == {} && Apply(f, Destroy) == Destroyed(f)
  {
  }

  lemma {:induction false} RunReasoned(f: Frame, inputs: seq<Input>, failed: set<nat>)
    requires AtRest(f) && Reasoned(f, failed)
    ensures Reasoned(After(f, inputs), failed + FailedInRun(f, inputs))
    decreases |inputs|
  {
    if inputs != [] {
      NextKeeps(f, inputs[0]);
      NextReasoned(f, inputs[0], failed);
      RunReasoned(Next(f, inputs[0]), inputs[1..], failed + Failed(f, inputs[0]));
      hide AtRest, Reasoned, Next, Failed;
      assert failed + Failed(f, inputs[0]) + FailedInRun(Next(f, inputs[0]), inputs[1..])
          == failed + FailedInRun(f, inputs);
    }
  }

  /** Over any run: a promise is false only because a later port superseded it, its bootstrap
      message failed to post, or the frame was destroyed. */
  lemma FalseOnlyThen(inputs: seq<Input>, n: nat)
    requires var f := After(New(), inputs); n in f.settled && !f.settled[n]
    ensures n + 1 < After(New(), inputs).calls || n in FailedInRun(New(), inputs) || After(New(), inputs).destroyed
  {
    RunReasoned(New(), inputs, {});
    assert {} + FailedInRun(New(), inputs) == FailedInRun(New(), inputs);
    assert Excused(After(New(), inputs), FailedInRun(New(), inputs), n);
  }
}

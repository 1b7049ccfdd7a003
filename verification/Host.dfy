/** The host's end of the port hand-off: a port given to the frame is parked until the frame
    is ready, transferred with the bootstrap message, or closed. Reporting a status runs the
    host's own callback, which may call back in. */
module Host {
  import opened Options

  /** A call into the frame. `posts` says whether the bootstrap message could be posted;
      `during` is what the host's callback does while a failure to post is reported. */
  datatype Call = Attach(posts: bool, during: seq<Call>) | Destroy

  datatype Fate = Parked | Transferred | Closed

  /** Calls to attach are numbered; each brings a port of its own. `pending` holds the call
      whose port is parked, `awaiting` the one whose promise the next `bound` settles. */
  datatype Frame = Frame(
    ready: bool, destroyed: bool, portBound: bool, everBound: Option<bool>,
    pending: Option<nat>, awaiting: Option<nat>,
    calls: nat, fates: map<nat, Fate>, settled: map<nat, bool>)

  function New(): Frame {
    Frame(false, false, false, None, None, None, 0, map[], map[])
  }

  /** A promise keeps the first value it is given. */
  function Settle(settled: map<nat, bool>, who: Option<nat>, v: bool): map<nat, bool> {
    if who.None? || who.value in settled then settled else settled[who.value := v]
  }

  function Close(fates: map<nat, Fate>, who: Option<nat>): map<nat, Fate> {
    if who.None? then fates else fates[who.value := Closed]
  }

  /** Whatever was outstanding is answered false, a parked port is closed. */
  function Superseded(f: Frame): Frame {
    f.(awaiting := None, pending := None, fates := Close(f.fates, f.pending),
       settled := Settle(Settle(f.settled, f.awaiting, false), f.pending, false))
  }

  function Destroyed(f: Frame): Frame {
    if f.destroyed then f
    else
      Superseded(f).(destroyed := true, portBound := false,
                     everBound := if f.everBound.None? then Some(false) else f.everBound)
  }

  /** Post call `n`'s port. A failure closes it and is reported; only when the callback has
      returned is the outstanding promise forgotten and this one answered. */
  function Posted(f: Frame, n: nat, posts: bool, during: seq<Call>): Frame
    decreases during, 1
  {
    if posts then f.(awaiting := Some(n), fates := f.fates[n := Transferred])
    else
      var after := ApplyAll(f.(awaiting := Some(n), fates := f.fates[n := Closed]), during);
      after.(awaiting := None, settled := Settle(after.settled, Some(n), false))
  }

  function Apply(f: Frame, c: Call): Frame
    decreases c, 0
  {
    match c
    case Destroy => Destroyed(f)
    case Attach(posts, during) =>
      var n := f.calls;
      if f.destroyed then f.(calls := n + 1, fates := f.fates[n := Closed], settled := f.settled[n := false])
      else
        var g := Superseded(f).(calls := n + 1);
        if !f.ready then g.(pending := Some(n), fates := g.fates[n := Parked])
        else Posted(g, n, posts, during)
  }

  function ApplyAll(f: Frame, cs: seq<Call>): Frame
    decreases cs, 0
  {
    if cs == [] then f else ApplyAll(Apply(f, cs[0]), cs[1..])
  }

  /** The frame's first `ready` message: report it, then post what is parked, if it still
      is. A second one means the frame navigated. */
  function AfterReady(f: Frame, during: seq<Call>, posts: bool, onFailure: seq<Call>): Frame {
    if f.destroyed then f
    else if f.ready then Destroyed(f)
    else
      var g := ApplyAll(f.(ready := true), during);
      if g.pending.None? then g else Posted(g.(pending := None), g.pending.value, posts, onFailure)
  }

  function AfterBound(f: Frame, during: seq<Call>): Frame {
    if f.destroyed then f
    else
      var g := ApplyAll(f.(portBound := true), during);
      g.(awaiting := None, settled := Settle(g.settled, g.awaiting, true),
         everBound := if g.everBound.None? then Some(true) else g.everBound)
  }

  class SandboxFrame {
    var ready: bool
    var destroyed: bool
    var portBound: bool
    var everBound: Option<bool>
    var pendingBootstrap: Option<nat>
    var bootstrapResolve: Option<nat>
    var calls: nat
    var settled: map<nat, bool>
    ghost var fates: map<nat, Fate>

    ghost function State(): Frame
      reads this
    {
      Frame(ready, destroyed, portBound, everBound, pendingBootstrap, bootstrapResolve, calls, fates, settled)
    }

    constructor ()
      ensures State() == New()
    {
      ready, destroyed, portBound, everBound := false, false, false, None;
      pendingBootstrap, bootstrapResolve, calls := None, None, 0;
      settled, fates := map[], map[];
    }

    method Resolve(n: nat, v: bool)
      modifies this`settled
      ensures settled == Settle(old(settled), Some(n), v)
    {
      if n !in settled {
        settled := settled[n := v];
      }
    }

    method Supersede()
      modifies this`settled, this`fates, this`pendingBootstrap, this`bootstrapResolve
      ensures State() == Superseded(old(State()))
    {
      if bootstrapResolve.Some? {
        Resolve(bootstrapResolve.value, false);
        bootstrapResolve := None;
      }
      if pendingBootstrap.Some? {
        fates := fates[pendingBootstrap.value := Closed];
        Resolve(pendingBootstrap.value, false);
        pendingBootstrap := None;
      }
    }

    method DestroyFrame()
      modifies this
      ensures State() == Destroyed(old(State()))
    {
      if destroyed {
        return;
      }
      destroyed, portBound := true, false;
      Supersede();
      if everBound.None? {
        everBound := Some(false);
      }
    }

    method PostBootstrap(n: nat, posts: bool, during: seq<Call>)
      modifies this
      ensures State() == Posted(old(State()), n, posts, during)
      decreases during, 1
    {
      bootstrapResolve := Some(n);
      if posts {
        fates := fates[n := Transferred];
      } else {
        fates := fates[n := Closed];
        RunCallback(during);
        bootstrapResolve := None;
        Resolve(n, false);
      }
    }

    method RunCallback(cs: seq<Call>)
      modifies this
      ensures State() == ApplyAll(old(State()), cs)
      decreases cs, 0
    {
      if cs != [] {
        if cs[0].Destroy? {
          DestroyFrame();
        } else {
          AttachPort(cs[0].posts, cs[0].during);
        }
        RunCallback(cs[1..]);
      }
    }

    method AttachPort(posts: bool, during: seq<Call>)
      modifies this
      ensures State() == Apply(old(State()), Attach(posts, during))
      decreases during, 2
    {
      var n := calls;
      calls := calls + 1;
      if destroyed {
        fates := fates[n := Closed];
        settled := settled[n := false];
        return;
      }
      Supersede();
      if !ready {
        pendingBootstrap := Some(n);
        fates := fates[n := Parked];
        return;
      }
      PostBootstrap(n, posts, during);
    }

    method OnReady(during: seq<Call>, posts: bool, onFailure: seq<Call>)
      modifies this
      ensures State() == AfterReady(old(State()), during, posts, onFailure)
    {
      if destroyed {
        return;
      }
      if ready {
        DestroyFrame();
        return;
      }
      ready := true;
      RunCallback(during);
      if pendingBootstrap.Some? {
        var n := pendingBootstrap.value;
        pendingBootstrap := None;
        PostBootstrap(n, posts, onFailure);
      }
    }

    method OnBound(during: seq<Call>)
      modifies this
      ensures State() == AfterBound(old(State()), during)
    {
      if destroyed {
        return;
      }
      portBound := true;
      RunCallback(during);
      if bootstrapResolve.Some? {
        Resolve(bootstrapResolve.value, true);
        bootstrapResolve := None;
      }
      if everBound.None? {
        everBound := Some(true);
      }
    }
  }

  // ----- what every call keeps -----

  /** Every port has one fate, and it is parked exactly while it is the one held. At most
      one of the two slots is filled, with an unanswered call, and none once destroyed.
      `closing` is the call whose failure to post is being reported, if any. */
  ghost predicate Sound(f: Frame, closing: Option<nat>) {
    && (forall n: nat :: n in f.fates <==> n < f.calls)
    && (forall n: nat :: n in f.settled ==> n < f.calls)
    && (forall n: nat :: n in f.fates ==> (f.fates[n] == Parked <==> f.pending == Some(n)))
    && (f.pending.Some? ==>
      !f.destroyed && f.awaiting.None? && f.pending.value < f.calls && f.pending.value !in f.settled)
    && (f.awaiting.Some? ==> !f.destroyed && f.ready && f.awaiting.value < f.calls && f.awaiting.value !in f.settled)
    && (f.awaiting.Some? ==> f.fates[f.awaiting.value] == Transferred || f.awaiting == closing)
    && (f.destroyed ==> !f.portBound && f.everBound.Some?)
    && (forall n: nat :: n in f.settled && f.settled[n] ==> f.fates[n] == Transferred)
  }

  /** A port transferred or closed is never touched again; a promise keeps its answer. */
  ghost predicate Later(f: Frame, g: Frame) {
    && f.calls <= g.calls && (f.destroyed ==> g.destroyed)
    && (forall n: nat :: n in f.fates && f.fates[n] != Parked ==> n in g.fates && g.fates[n] == f.fates[n])
    && (forall n: nat :: n in f.settled ==> n in g.settled && g.settled[n] == f.settled[n])
  }

  lemma SupersededKeeps(f: Frame, closing: Option<nat>)
    requires Sound(f, closing)
    ensures Sound(Superseded(f), closing) && Later(f, Superseded(f))
  {
  }

  lemma {:induction false} PostedKeeps(f: Frame, n: nat, posts: bool, during: seq<Call>, closing: Option<nat>)
    requires f.ready && !f.destroyed && f.pending.None? && f.awaiting.None? && n < f.calls && n !in f.settled
    requires n !in f.fates || f.fates[n] == Parked
    requires Sound(f.(fates := f.fates[n := Transferred]), closing)
    ensures Sound(Posted(f, n, posts, during), closing)
    ensures Later(f.(fates := f.fates - {n}), Posted(f, n, posts, during))
    ensures Posted(f, n, posts, during).pending.None? && Posted(f, n, posts, during).ready
    decreases during, 1
  {
    if !posts {
      var start := f.(awaiting := Some(n), fates := f.fates[n := Closed]);
      assert start.fates.Keys == f.fates[n := Transferred].Keys;
      ApplyAllKeeps(start, during, Some(n));
    }
  }

  lemma DestroyedKeeps(f: Frame, closing: Option<nat>)
    requires Sound(f, closing)
    ensures Sound(Destroyed(f), closing) && Later(f, Destroyed(f))
  {
    SupersededKeeps(f, closing);
  }

  lemma TurnedAwayKeeps(f: Frame, c: Call, closing: Option<nat>)
    requires Sound(f, closing) && c.Attach? && f.destroyed
    ensures Sound(Apply(f, c), closing) && Later(f, Apply(f, c))
  {
  }

  lemma ParkKeeps(f: Frame, c: Call, closing: Option<nat>)
    requires Sound(f, closing) && c.Attach? && !f.destroyed && !f.ready
    ensures Sound(Apply(f, c), closing) && Later(f, Apply(f, c))
  {
    SupersededKeeps(f, closing);
  }

  lemma {:induction false} AttachKeeps(f: Frame, c: Call, closing: Option<nat>)
    requires Sound(f, closing) && c.Attach? && !f.destroyed && f.ready
    ensures Sound(Apply(f, c), closing) && Later(f, Apply(f, c))
    ensures Apply(f, c).pending.None? && Apply(f, c).ready
    decreases c.during, 2
  {
    SupersededKeeps(f, closing);
    var g, n := Superseded(f).(calls := f.calls + 1), f.calls;
    assert g.fates - {n} == g.fates;
    PostedKeeps(g, n, c.posts, c.during, closing);
  }

  lemma {:induction false} ApplyKeeps(f: Frame, c: Call, closing: Option<nat>)
    requires Sound(f, closing)
    ensures Sound(Apply(f, c), closing) && Later(f, Apply(f, c)) && Apply(f, c).ready == f.ready
    ensures f.ready && f.pending.None? ==> Apply(f, c).pending.None?
    decreases c, 0
  {
    hide Sound, Later;
    if c.Destroy? {
      DestroyedKeeps(f, closing);
    } else if f.destroyed {
      TurnedAwayKeeps(f, c, closing);
    } else if f.ready {
      AttachKeeps(f, c, closing);
    } else {
      ParkKeeps(f, c, closing);
    }
  }

  lemma {:induction false} ApplyAllKeeps(f: Frame, cs: seq<Call>, closing: Option<nat>)
    requires Sound(f, closing)
    ensures Sound(ApplyAll(f, cs), closing) && Later(f, ApplyAll(f, cs)) && ApplyAll(f, cs).ready == f.ready
    ensures f.ready && f.pending.None? ==> ApplyAll(f, cs).pending.None?
    decreases cs, 0
  {
    if cs != [] {
      ApplyKeeps(f, cs[0], closing);
      ApplyAllKeeps(Apply(f, cs[0]), cs[1..], closing);
    }
  }

  // ----- runs -----

  datatype Input =
    | ApiCall(call: Call)
    | ReadyMessage(during: seq<Call>, posts: bool, onFailure: seq<Call>)
    | BoundMessage(during: seq<Call>)

  function Next(f: Frame, i: Input): Frame {
    match i
    case ApiCall(c) => Apply(f, c)
    case ReadyMessage(during, posts, onFailure) => AfterReady(f, during, posts, onFailure)
    case BoundMessage(during) => AfterBound(f, during)
  }

  function After(f: Frame, inputs: seq<Input>): Frame
    decreases |inputs|
  {
    if inputs == [] then f else After(Next(f, inputs[0]), inputs[1..])
  }

  /** Between messages nothing is being reported, and nothing is parked once ready: what is
      parked then could never be posted. */
  ghost predicate AtRest(f: Frame) {
    Sound(f, None) && (f.ready ==> f.pending.None?)
  }

  lemma FlushKeeps(f: Frame, posts: bool, onFailure: seq<Call>)
    requires Sound(f, None) && f.ready && f.pending.Some?
    ensures AtRest(Posted(f.(pending := None), f.pending.value, posts, onFailure))
    ensures Later(f, Posted(f.(pending := None), f.pending.value, posts, onFailure))
  {
    PostedKeeps(f.(pending := None), f.pending.value, posts, onFailure, None);
  }

  lemma NextKeeps(f: Frame, i: Input)
    requires AtRest(f)
    ensures AtRest(Next(f, i)) && Later(f, Next(f, i))
  {
    match i
    case ApiCall(c) => ApplyKeeps(f, c, None);
    case ReadyMessage(during, posts, onFailure) =>
      if f.destroyed || f.ready {
        DestroyedKeeps(f, None);
      } else {
        ApplyAllKeeps(f.(ready := true), during, None);
        var g := ApplyAll(f.(ready := true), during);
        if g.pending.Some? { FlushKeeps(g, posts, onFailure); }
      }
    case BoundMessage(during) =>
      if !f.destroyed {
        ApplyAllKeeps(f.(portBound := true), during, None);
      }
  }

  lemma {:induction false} RunKeeps(f: Frame, inputs: seq<Input>)
    requires AtRest(f)
    ensures AtRest(After(f, inputs)) && Later(f, After(f, inputs))
    decreases |inputs|
  {
    if inputs != [] {
      NextKeeps(f, inputs[0]);
      RunKeeps(Next(f, inputs[0]), inputs[1..]);
    }
  }

  /** Every port given to the frame is in exactly one of the three places, at most one is
      parked, and none is once the frame is ready or destroyed. A promise that resolves
      true is one whose port was transferred. */
  lemma EveryPortIsPlaced(inputs: seq<Input>, n: nat)
    requires n < After(New(), inputs).calls
    ensures n in After(New(), inputs).fates
    ensures After(New(), inputs).fates[n] == Parked <==> After(New(), inputs).pending == Some(n)
    ensures After(New(), inputs).ready || After(New(), inputs).destroyed ==> After(New(), inputs).fates[n] != Parked
    ensures n in After(New(), inputs).settled && After(New(), inputs).settled[n] ==>
      After(New(), inputs).fates[n] == Transferred
  {
    RunKeeps(New(), inputs);
  }

  // ----- which promises can still be answered -----

  /** Unanswered calls that no slot holds: nothing can ever settle them. */
  ghost function Orphans(f: Frame): set<nat> {
    set n: nat | n < f.calls && n !in f.settled && f.pending != Some(n) && f.awaiting != Some(n)
  }

  /** Running the calls in a ready frame destroys it. */
  predicate Destroys(c: Call)
    decreases c, 0
  {
    c.Destroy? || (!c.posts && DestroysAny(c.during))
  }

  predicate DestroysAny(cs: seq<Call>)
    decreases cs, 0
  {
    cs != [] && (Destroys(cs[0]) || DestroysAny(cs[1..]))
  }

  /** Called while a failure to post is reported: the last thing done is an attach that
      posts, so the promise it leaves waiting is the one forgotten on return. */
  predicate Clobbers(cs: seq<Call>) {
    cs != [] && cs[|cs| - 1].Attach? && cs[|cs| - 1].posts && !DestroysAny(cs)
  }

  predicate Loses(c: Call)
    decreases c, 0
  {
    c.Attach? && !c.posts && (Clobbers(c.during) || LosesAny(c.during))
  }

  predicate LosesAny(cs: seq<Call>)
    decreases cs, 0
  {
    cs != [] && (Loses(cs[0]) || (!Destroys(cs[0]) && LosesAny(cs[1..])))
  }

  /** What one call, or a callback's calls, leave waiting in a ready frame. */
  lemma {:induction false} LeftWaiting(f: Frame, c: Call)
    requires f.ready && !f.destroyed
    ensures Apply(f, c).ready && f.calls <= Apply(f, c).calls
    ensures Apply(f, c).destroyed <==> Destroys(c)
    ensures !Destroys(c) ==> Apply(f, c).awaiting == if c.posts then Some(f.calls) else None
    decreases c, 0
  {
    if c.Attach? && !c.posts {
      AllLeaveWaiting(Superseded(f).(calls := f.calls + 1, awaiting := Some(f.calls),
                                     fates := Superseded(f).fates[f.calls := Closed]), c.during);
    }
  }

  lemma {:induction false} AllLeaveWaiting(f: Frame, cs: seq<Call>)
    requires f.ready
    ensures ApplyAll(f, cs).ready && f.calls <= ApplyAll(f, cs).calls
    ensures ApplyAll(f, cs).destroyed <==> f.destroyed || DestroysAny(cs)
    ensures !ApplyAll(f, cs).destroyed && cs != [] ==> cs[|cs| - 1].Attach?
    ensures !ApplyAll(f, cs).destroyed && cs != [] ==> (ApplyAll(f, cs).awaiting.Some? <==> cs[|cs| - 1].posts)
    ensures !ApplyAll(f, cs).destroyed && cs != [] && ApplyAll(f, cs).awaiting.Some? ==>
      f.calls <= ApplyAll(f, cs).awaiting.value
    decreases cs, 0
  {
    if cs != [] {
      if !f.destroyed {
        LeftWaiting(f, cs[0]);
      }
      AllLeaveWaiting(Apply(f, cs[0]), cs[1..]);
    }
  }

  /** Older calls are never lost later: what a call can lose is what came during it. */
  ghost predicate OnlyNewLost(f: Frame, g: Frame) {
    forall n: nat :: n < f.calls ==> (n in Orphans(g) <==> n in Orphans(f))
  }

  lemma {:induction false} PostedOrphans(f: Frame, n: nat, posts: bool, during: seq<Call>, closing: Option<nat>)
    requires f.ready && !f.destroyed && f.pending.None? && f.awaiting.None? && n < f.calls && n !in f.settled
    requires n !in f.fates || f.fates[n] == Parked
    requires Sound(f.(fates := f.fates[n := Transferred]), closing)
    ensures forall m: nat :: m < f.calls && m != n ==> (m in Orphans(Posted(f, n, posts, during)) <==> m in Orphans(f))
    ensures n !in Orphans(Posted(f, n, posts, during))
    ensures Orphans(Posted(f, n, posts, during)) == Orphans(f) - {n} <==>
      posts || !(Clobbers(during) || LosesAny(during))
    decreases during, 1
  {
    if !posts {
      var start := f.(awaiting := Some(n), fates := f.fates[n := Closed]);
      assert start.fates.Keys == f.fates[n := Transferred].Keys;
      ApplyAllKeeps(start, during, Some(n));
      AllOrphans(start, during, Some(n));
      AllLeaveWaiting(start, during);
      var after := ApplyAll(start, during);
      assert Orphans(start) == Orphans(f) - {n};
      var end := Posted(f, n, posts, during);
      if after.awaiting.Some? && after.awaiting.value != n {
        assert Orphans(end) == Orphans(after) + {after.awaiting.value};
      } else {
        assert Orphans(end) == Orphans(after);
      }
    }
  }

  lemma SupersededOrphans(f: Frame, closing: Option<nat>)
    requires Sound(f, closing)
    ensures Orphans(Superseded(f)) == Orphans(f)
  {
  }

  lemma {:induction false} AttachOrphans(f: Frame, c: Call, closing: Option<nat>)
    requires Sound(f, closing) && c.Attach? && !f.destroyed && f.ready
    ensures OnlyNewLost(f, Apply(f, c))
    ensures Orphans(Apply(f, c)) == Orphans(f) <==> !Loses(c)
    decreases c.during, 2
  {
    SupersededKeeps(f, closing);
    SupersededOrphans(f, closing);
    var g, n := Superseded(f).(calls := f.calls + 1), f.calls;
    assert Orphans(g) == Orphans(f) + {n};
    assert Orphans(g) - {n} == Orphans(f);
    hide Orphans, Settle, Close;
    PostedOrphans(g, n, c.posts, c.during, closing);
  }

  lemma {:induction false} ApplyOrphans(f: Frame, c: Call, closing: Option<nat>)
    requires Sound(f, closing)
    ensures OnlyNewLost(f, Apply(f, c))
    ensures Orphans(Apply(f, c)) == Orphans(f) <==> f.destroyed || !f.ready || !Loses(c)
    decreases c, 0
  {
    SupersededOrphans(f, closing);
    if c.Attach? && !f.destroyed && f.ready {
      AttachOrphans(f, c, closing);
    }
  }

  lemma {:induction false} AllOrphans(f: Frame, cs: seq<Call>, closing: Option<nat>)
    requires Sound(f, closing)
    ensures OnlyNewLost(f, ApplyAll(f, cs))
    ensures Orphans(ApplyAll(f, cs)) == Orphans(f) <==> f.destroyed || !f.ready || !LosesAny(cs)
    decreases cs, 0
  {
    if cs != [] {
      var g := Apply(f, cs[0]);
      ApplyKeeps(f, cs[0], closing);
      ApplyOrphans(f, cs[0], closing);
      AllOrphans(g, cs[1..], closing);
      if !f.destroyed && f.ready { LeftWaiting(f, cs[0]); }
    }
  }

  /** The messages and calls that lose a promise: those in which the host's callback, told
      of a failure to post, ends by attaching another port successfully. */
  ghost predicate LosesInput(f: Frame, i: Input) {
    !f.destroyed &&
    match i
    case ApiCall(c) => f.ready && Loses(c)
    case ReadyMessage(during, posts, onFailure) =>
      !f.ready && (LosesAny(during)
        || (during == [] && f.pending.Some? && !posts && (Clobbers(onFailure) || LosesAny(onFailure))))
    case BoundMessage(during) => f.ready && LosesAny(during)
  }

  ghost predicate LosesInRun(f: Frame, inputs: seq<Input>)
    decreases |inputs|
  {
    inputs != [] && (LosesInput(f, inputs[0]) || LosesInRun(Next(f, inputs[0]), inputs[1..]))
  }

  /** Any call made while ready is reported takes what is parked out of its slot. */
  lemma FlushedByCalls(f: Frame, cs: seq<Call>)
    requires f.ready && !f.destroyed && Sound(f, None)
    ensures cs != [] ==> ApplyAll(f, cs).pending.None?
  {
    if cs != [] {
      ApplyKeeps(f, cs[0], None);
      if cs[0].Attach? {
        AttachKeeps(f, cs[0], None);
      }
      ApplyAllKeeps(Apply(f, cs[0]), cs[1..], None);
    }
  }

  lemma ReadyOrphans(f: Frame, during: seq<Call>, posts: bool, onFailure: seq<Call>)
    requires AtRest(f) && !f.destroyed && !f.ready
    ensures OnlyNewLost(f, AfterReady(f, during, posts, onFailure))
    ensures Orphans(AfterReady(f, during, posts, onFailure)) == Orphans(f) <==>
      !LosesInput(f, ReadyMessage(during, posts, onFailure))
  {
    var start := f.(ready := true);
    assert Orphans(start) == Orphans(f);
    ApplyAllKeeps(start, during, None);
    AllOrphans(start, during, None);
    FlushedByCalls(start, during);
    var g := ApplyAll(start, during);
    if g.pending.Some? {
      var held := g.(pending := None);
      assert Orphans(held) == Orphans(f) + {g.pending.value};
      PostedOrphans(held, g.pending.value, posts, onFailure, None);
      assert Orphans(held) - {g.pending.value} == Orphans(f);
    }
  }

  lemma NextOrphans(f: Frame, i: Input)
    requires AtRest(f)
    ensures OnlyNewLost(f, Next(f, i))
    ensures Orphans(Next(f, i)) == Orphans(f) <==> !LosesInput(f, i)
  {
    match i
    case ApiCall(c) => ApplyOrphans(f, c, None);
    case ReadyMessage(during, posts, onFailure) =>
      if f.destroyed || f.ready {
        ApplyOrphans(f, Destroy, None);
      } else {
        ReadyOrphans(f, during, posts, onFailure);
      }
    case BoundMessage(during) =>
      if !f.destroyed {
        var start := f.(portBound := true);
        assert Orphans(start) == Orphans(f);
        AllOrphans(start, during, None);
        assert Orphans(AfterBound(f, during)) == Orphans(ApplyAll(start, during));
      }
  }

  lemma {:induction false} RunOrphans(f: Frame, inputs: seq<Input>)
    requires AtRest(f)
    ensures OnlyNewLost(f, After(f, inputs))
    ensures Orphans(After(f, inputs)) == Orphans(f) <==> !LosesInRun(f, inputs)
    decreases |inputs|
  {
    if inputs != [] {
      var g := Next(f, inputs[0]);
      NextKeeps(f, inputs[0]);
      NextOrphans(f, inputs[0]);
      RunKeeps(g, inputs[1..]);
      RunOrphans(g, inputs[1..]);
      if LosesInput(f, inputs[0]) {
        var n :| n in Orphans(g) && n !in Orphans(f);
        assert n in Orphans(After(f, inputs));
      }
    }
  }

  /** Every promise is answered or still held by a slot, in every run in which no callback
      loses one, and only in those. */
  lemma EveryPromiseAnswerable(inputs: seq<Input>)
    ensures Orphans(After(New(), inputs)) == {} <==> !LosesInRun(New(), inputs)
  {
    assert Orphans(New()) == {};
    RunOrphans(New(), inputs);
  }

  /** Then at most one promise is open at a time, and none once the frame is destroyed. */
  lemma AtMostOneOpen(inputs: seq<Input>, m: nat, n: nat)
    requires !LosesInRun(New(), inputs)
    requires m < After(New(), inputs).calls && m !in After(New(), inputs).settled
    requires n < After(New(), inputs).calls && n !in After(New(), inputs).settled
    ensures m == n && !After(New(), inputs).destroyed
  {
    var f := After(New(), inputs);
    EveryPromiseAnswerable(inputs);
    RunKeeps(New(), inputs);
    assert m !in Orphans(f) && n !in Orphans(f);
  }

  /** A lost promise stays open whatever happens next. */
  lemma LostForEver(before: seq<Input>, later: seq<Input>, n: nat)
    requires n in Orphans(After(New(), before))
    ensures n in Orphans(After(After(New(), before), later))
  {
    RunKeeps(New(), before);
    RunOrphans(After(New(), before), later);
  }

  /** Such a callback: told that posting failed, it attaches another port at once. That
      port is transferred, yet neither `bound` nor destroying the frame answers it. */
  lemma ReentrantAttachIsLost()
    ensures
      var inputs := [ReadyMessage([], true, []), ApiCall(Attach(false, [Attach(true, [])])), BoundMessage([]),
                     ApiCall(Destroy)];
      var f := After(New(), inputs);
      f.destroyed && f.fates == map[0 := Closed, 1 := Transferred] && f.settled == map[0 := false]
  {
    var ready := New().(ready := true);
    assert Next(New(), ReadyMessage([], true, [])) == ready;
    var failing := ready.(calls := 1, awaiting := Some(0), fates := map[0 := Closed]);
    var nested := Apply(failing, Attach(true, []));
    assert nested == failing.(calls := 2, awaiting := Some(1), settled := map[0 := false],
      fates := map[0 := Closed, 1 := Transferred]);
    assert ApplyAll(failing, [Attach(true, [])]) == nested by {
      assert ApplyAll(nested, [Attach(true, [])][1..]) == nested;
    }
    var lost := Next(ready, ApiCall(Attach(false, [Attach(true, [])])));
    assert lost == nested.(awaiting := None);
    var bound := Next(lost, BoundMessage([]));
    assert bound == lost.(portBound := true, everBound := Some(true));
    var inputs := [ReadyMessage([], true, []), ApiCall(Attach(false, [Attach(true, [])])), BoundMessage([]),
                   ApiCall(Destroy)];
    assert inputs[1..] == [ApiCall(Attach(false, [Attach(true, [])])), BoundMessage([]), ApiCall(Destroy)];
    assert inputs[1..][1..] == [BoundMessage([]), ApiCall(Destroy)];
    assert inputs[1..][1..][1..] == [ApiCall(Destroy)];
    assert After(New(), inputs) == After(ready, inputs[1..]) == After(lost, inputs[1..][1..])
        == After(bound, inputs[1..][1..][1..]) == Next(bound, ApiCall(Destroy));
  }
}

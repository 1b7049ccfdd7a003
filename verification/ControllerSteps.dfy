/** When the controller takes an event in, sends it, commits its answer or dies, told by the
    fields of the call or reply, for every reachable controller. */
module ControllerSteps {
  import opened Controller
  import opened ControllerRuns
  import opened Options

  /** An event crosses when it serializes and its text is within the limit. */
  predicate Crosses(c: Controller, event: Event) {
    !event.NotSerializable? && |event.text| <= c.limits.maxEventChars
  }

  /** The session is over: nothing in flight or waiting, no Worker, every event ever taken in
      settled, those not settled before as died; nothing else has changed. */
  ghost predicate Dies(c: Controller, d: Controller) {
    && d.dead && !d.worker && d.inFlight.None? && d.queue == []
    && d.generation == c.generation + 1 && d.state == c.state && d.ready == c.ready
    && d.jobs == c.jobs && d.dropped == c.dropped && d.limits == c.limits && d.maxQueue == c.maxQueue
    && d.load == (if c.load.Loading? then LoadFailed else c.load)
    && (forall n :: n in d.results <==> 0 <= n < |c.jobs|)
    && forall n :: n in d.results ==> d.results[n] == if n in c.results then c.results[n] else Died
  }

  lemma DeathMeaning(c: Controller)
    requires Core(c)
    ensures if c.dead then MarkDead(c) == c else Dies(c, MarkDead(c))
  {
    if !c.dead {
      DeathResults(c);
      hide RejectAll, WithActive;
    }
  }

  // ----- a step -----

  /** Not taken in: a dead or unloaded controller changes nothing, a full one only counts. */
  lemma StepRefused(c: Controller, event: Event, failing: set<nat>)
    requires Inv(c) && (c.dead || !c.ready || |c.queue| == c.maxQueue)
    ensures c.dead || !c.ready ==> AfterStep(c, event, failing) == c
    ensures !c.dead && c.ready ==> AfterStep(c, event, failing) == c.(dropped := c.dropped + 1)
  {
  }

  /** A live controller with room takes every event in, whatever becomes of it. */
  lemma StepTaken(c: Controller, event: Event, failing: set<nat>)
    requires Inv(c) && !c.dead && c.ready && |c.queue| < c.maxQueue
    ensures var d := AfterStep(c, event, failing);
      d.jobs == c.jobs + [event] && d.dropped == c.dropped && d.limits == c.limits && d.maxQueue == c.maxQueue
  {
    PumpKeepsJobs(Queued(c, event), failing);
    PumpCounts(Queued(c, event), failing);
  }

  lemma {:induction false} PumpCounts(c: Controller, failing: set<nat>)
    ensures Pump(c, failing).dropped == c.dropped
    ensures Pump(c, failing).limits == c.limits && Pump(c, failing).maxQueue == c.maxQueue
    decreases |c.queue|
  {
    if !(c.dead || c.inFlight.Some? || c.queue == []) && !Valid(c.limits, c.queue[0].event) {
      PumpCounts(c.(queue := c.queue[1..], results := c.results[c.queue[0].n := BadEvent]), failing);
    }
  }

  /** Behind a request in flight it waits, last. */
  lemma StepWaits(c: Controller, event: Event, failing: set<nat>)
    requires Inv(c) && !c.dead && c.ready && |c.queue| < c.maxQueue && c.inFlight.Some?
    ensures AfterStep(c, event, failing) ==
      c.(queue := c.queue + [Job(|c.jobs|, event)], jobs := c.jobs + [event])
  {
  }

  /** With nothing in flight it is sent at once with the current state, or refused alone when
      it cannot cross; if posting throws, the session ends with it. */
  lemma StepSent(c: Controller, event: Event, failing: set<nat>)
    requires Inv(c) && !c.dead && c.ready && |c.queue| < c.maxQueue && c.inFlight.None?
    ensures var (d, n) := (AfterStep(c, event, failing), |c.jobs|);
      && (!Crosses(c, event) ==> d == c.(jobs := c.jobs + [event], results := c.results[n := BadEvent]))
      && (Crosses(c, event) && n !in failing ==>
            d == c.(jobs := c.jobs + [event], nextId := c.nextId + 1,
                    inFlight := Some(Request(c.nextId, StepKind(n, c.generation, c.state, event.text)))))
      && (Crosses(c, event) && n in failing ==> d.dead && n in d.results && d.results[n] == Died)
  {
    var (queued, n) := (Queued(c, event), |c.jobs|);
    assert queued.queue[1..] == [] && queued.queue[0] == Job(n, event);
    hide Core;
    if !Crosses(c, event) {
      var d := queued.(queue := [], results := c.results[n := BadEvent]);
      assert Pump(d, failing) == d;
    }
  }

  // ----- loading -----

  /** A load call that passes its checks creates the one Worker there ever is and asks it to
      load; if it cannot be created or posted to, the session ends with the load failed. */
  lemma LoadMeaning(c: Controller, passes: bool, created: bool, posts: bool)
    requires Inv(c)
    ensures var d := AfterLoad(c, passes, created, posts);
      && (c.dead || c.worker || !passes ==> d == c)
      && (!c.dead && !c.worker && passes && created && posts ==>
            d == c.(worker := true, generation := c.generation + 1, load := Loading, nextId := c.nextId + 1,
                    inFlight := Some(Request(c.nextId, LoadKind))))
      && (!c.dead && !c.worker && passes && !(created && posts) ==>
            d.dead && !d.worker && d.load == LoadFailed && d.inFlight.None? && d.jobs == c.jobs
            && d.results == c.results)
  {
  }

  // ----- a reply -----

  /** The reply is the outstanding request's own: its id, the shape its kind asks for, and
      every text within its limit. */
  predicate Answers(c: Controller, m: Reply) {
    && c.inFlight.Some? && (m.OkReply? || m.ErrorReply?) && m.id == c.inFlight.value.id
    && if m.ErrorReply? then |m.error| <= c.limits.maxDiagnosticChars
       else if c.inFlight.value.kind.LoadKind? then m.result == Loaded
       else m.result.Produced? && |m.result.state| <= c.limits.maxStateChars && |m.result.view| <= c.limits.maxViewChars
  }

  /** Any other message ends the session, and so does an error. */
  lemma BadReplyMeaning(c: Controller, m: Reply, timeLeft: bool, posts: bool,
                        reactions: seq<Reaction>, failing: set<nat>)
    requires Inv(c) && c.worker && (!Answers(c, m) || m.ErrorReply?)
    ensures Dies(c, AfterReply(c, m, timeLeft, posts, reactions, failing))
  {
    DeathMeaning(c);
    if Answers(c, m) {
      ThrowIsDeath(c, m, timeLeft, posts, reactions, failing);
    }
    hide Dies, MarkDead, React, Pump;
  }

  /** The stages of loading: in time, the answer to `load` sends `init`, whose answer makes
      the controller ready with that state and view; late, or if posting throws, it ends. */
  lemma LoadReplyMeaning(c: Controller, m: Reply, timeLeft: bool, posts: bool,
                         reactions: seq<Reaction>, failing: set<nat>)
    requires Inv(c) && c.worker && Answers(c, m) && m.OkReply? && !c.inFlight.value.kind.StepKind?
    ensures var (d, loading) := (AfterReply(c, m, timeLeft, posts, reactions, failing),
        c.inFlight.value.kind.LoadKind?);
      && (loading && timeLeft && posts ==>
            d == c.(nextId := c.nextId + 1, inFlight := Some(Request(c.nextId, InitKind))))
      && (loading && !(timeLeft && posts) ==> d.dead && !d.worker && d.load == LoadFailed && d.inFlight.None?)
      && (!loading ==>
            d == c.(inFlight := None, ready := true, state := Some(m.result.state), load := LoadedView(m.result.view)))
  {
    hide React, Pump;
  }

  /** The answer to a step is committed, whatever the host does about it and whatever is next:
      its promise has that view under the step's generation. */
  lemma StepReplyMeaning(c: Controller, m: Reply, timeLeft: bool, posts: bool,
                         reactions: seq<Reaction>, failing: set<nat>)
    requires Inv(c) && c.worker && Answers(c, m) && m.OkReply? && c.inFlight.value.kind.StepKind?
    ensures var (d, k) := (AfterReply(c, m, timeLeft, posts, reactions, failing), c.inFlight.value.kind);
      && k.job in d.results && d.results[k.job] == Resolved(m.result.view, c.generation)
      && (reactions == [] && c.queue == [] ==>
            d == c.(inFlight := None, state := Some(m.result.state),
                    results := c.results[k.job := Resolved(m.result.view, c.generation)]))
      && (reactions == [] && c.queue != [] && Crosses(c, c.queue[0].event) && c.queue[0].n !in failing ==>
            var next := c.queue[0];
            d == c.(queue := c.queue[1..], state := Some(m.result.state), nextId := c.nextId + 1,
                    inFlight := Some(Request(c.nextId, StepKind(next.n, c.generation, Some(m.result.state),
                                                                next.event.text))),
                    results := c.results[k.job := Resolved(m.result.view, c.generation)]))
  {
    CommitKeeps(c, m);
    assert c.inFlight.value.kind.generation == c.generation;
    hide Core, AfterStep;
    var done := Committed(c, m);
    ReactKeeps(done, reactions, failing);
    PumpKeeps(React(done, reactions, failing), failing);
  }

  // ----- the queue, the host's reactions and the end -----

  /** With nothing in flight the first waiting event that crosses is sent, and those before it
      are refused one by one. */
  lemma {:induction false} PumpMeaning(c: Controller, k: nat, failing: set<nat>)
    requires !c.dead && c.inFlight.None? && k < |c.queue| && c.queue[k].n !in failing
    requires Crosses(c, c.queue[k].event) && forall i :: 0 <= i < k ==> !Crosses(c, c.queue[i].event)
    requires forall i, j :: 0 <= i < j < |c.queue| ==> c.queue[i].n < c.queue[j].n
    ensures var (d, job) := (Pump(c, failing), c.queue[k]);
      && d.inFlight == Some(Request(c.nextId, StepKind(job.n, c.generation, c.state, job.event.text)))
      && d.queue == c.queue[k + 1..] && d.nextId == c.nextId + 1 && d.state == c.state && !d.dead
      && d.jobs == c.jobs && d.dropped == c.dropped
      && (forall i :: 0 <= i < k ==> c.queue[i].n in d.results && d.results[c.queue[i].n] == BadEvent)
      && forall n :: n in c.results && n < c.queue[0].n ==> n in d.results && d.results[n] == c.results[n]
    decreases k
  {
    if k > 0 {
      var next := c.(queue := c.queue[1..], results := c.results[c.queue[0].n := BadEvent]);
      PumpMeaning(next, k - 1, failing);
      assert forall i :: 1 <= i < |c.queue| ==> next.queue[i - 1] == c.queue[i];
      assert next.queue[k..] == c.queue[k + 1..];
    }
  }

  /** The host's reactions as the calls they are. */
  function AsCalls(rs: seq<Reaction>, failing: set<nat>): seq<Input> {
    seq(|rs|, i requires 0 <= i < |rs| => if rs[i].StepNow? then StepCall(rs[i].event, failing) else DisposeCall)
  }

  lemma {:induction false} ReactIsRun(c: Controller, rs: seq<Reaction>, failing: set<nat>)
    ensures IsRun(c, AsCalls(rs, failing)) && React(c, rs, failing) == After(c, AsCalls(rs, failing))
    decreases |rs|
  {
    hide AfterStep, MarkDead;
    var calls := AsCalls(rs, failing);
    if rs != [] {
      assert calls[1..] == AsCalls(rs[1..], failing);
      ReactIsRun(ReactOnce(c, rs[0], failing), rs[1..], failing);
    }
  }

  /** What the host calls when a view reaches it happens as if called one by one after the
      commit, with nothing in flight, before the next waiting event is sent. */
  lemma ReactionMeaning(c: Controller, m: Reply, timeLeft: bool, posts: bool,
                        reactions: seq<Reaction>, failing: set<nat>)
    requires Inv(c) && c.worker && Answers(c, m) && m.OkReply? && c.inFlight.value.kind.StepKind?
    ensures var done := c.(inFlight := None, state := Some(m.result.state),
        results := c.results[c.inFlight.value.kind.job := Resolved(m.result.view, c.generation)]);
      IsRun(done, AsCalls(reactions, failing))
      && AfterReply(c, m, timeLeft, posts, reactions, failing)
         == Pump(After(done, AsCalls(reactions, failing)), failing)
  {
    assert c.inFlight.value.kind.generation == c.generation;
    hide AfterStep, MarkDead, Pump, React;
    ReactIsRun(Committed(c, m), reactions, failing);
  }

  /** A timer, a failure of the Worker and disposal end a session that is not over. */
  lemma EndingMeaning(c: Controller, i: Input)
    requires Inv(c) && Enabled(c, i) && (i.Watchdog? || i.WorkerFailure? || i.DisposeCall?)
    ensures if c.dead then Next(c, i) == c else Dies(c, Next(c, i))
  {
    DeathMeaning(c);
    hide Dies, MarkDead;
  }

  // ----- from loading to a view -----

  /** A controller that is loaded in time and given one event that crosses answers it with
      the Worker's own view, and holds the Worker's own states. */
  lemma LoadsAndAnswers(L: Limits, maxQueue: nat, first: Result, event: Event, second: Result)
    returns (inputs: seq<Input>)
    requires first.Produced? && |first.state| <= L.maxStateChars && |first.view| <= L.maxViewChars
    requires second.Produced? && |second.state| <= L.maxStateChars && |second.view| <= L.maxViewChars
    requires event.Json? && |event.text| <= L.maxEventChars && maxQueue > 0
    ensures IsRun(New(L, maxQueue), inputs)
    ensures var c := After(New(L, maxQueue), inputs);
      && c.load == LoadedView(first.view) && c.jobs == [event] && c.state == Some(second.state)
      && 0 in c.results && c.results[0] == Resolved(second.view, c.generation) && !c.dead
  {
    var c0 := New(L, maxQueue);
    var c1 := c0.(worker := true, generation := 1, load := Loading, nextId := 2,
                  inFlight := Some(Request(1, LoadKind)));
    var c2 := c1.(nextId := 3, inFlight := Some(Request(2, InitKind)));
    var c3 := c2.(inFlight := None, ready := true, state := Some(first.state), load := LoadedView(first.view));
    var c4 := c3.(jobs := [event], nextId := 4,
                  inFlight := Some(Request(3, StepKind(0, 1, Some(first.state), event.text))));
    var i0, i1 := LoadCall(true, true, true), WorkerReply(OkReply(1, Loaded), true, true, [], {});
    var i2, i3 := WorkerReply(OkReply(2, first), true, true, [], {}), StepCall(event, {});
    var i4 := WorkerReply(OkReply(3, second), true, true, [], {});
    NextKeeps(c0, i0);
    LoadMeaning(c0, true, true, true);
    NextKeeps(c1, i1);
    LoadReplyMeaning(c1, i1.m, true, true, [], {});
    NextKeeps(c2, i2);
    LoadReplyMeaning(c2, i2.m, true, true, [], {});
    StepSent(c3, event, {});
    NextKeeps(c3, i3);
    StepReplyMeaning(c4, i4.m, true, true, [], {});
    hide Next, Enabled;
    var c5 := Next(c4, i4);
    RunCons(c4, i4, []);
    RunCons(c3, i3, [i4] + []);
    RunCons(c2, i2, [i3] + ([i4] + []));
    RunCons(c1, i1, [i2] + ([i3] + ([i4] + [])));
    RunCons(c0, i0, [i1] + ([i2] + ([i3] + ([i4] + []))));
    inputs := [i0] + ([i1] + ([i2] + ([i3] + ([i4] + []))));
  }

  lemma RunCons(c: Controller, i: Input, rest: seq<Input>)
    requires Enabled(c, i) && IsRun(Next(c, i), rest)
    ensures IsRun(c, [i] + rest) && After(c, [i] + rest) == After(Next(c, i), rest)
  {
    assert ([i] + rest)[1..] == rest;
  }
}

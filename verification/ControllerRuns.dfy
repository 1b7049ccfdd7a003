/** Every run of the controller, whatever its Worker answers: one request at a time, no
    stall, every promise settled once, and death final. */
module ControllerRuns {
  import opened Controller
  import opened Options

  datatype Input =
    | StepCall(event: Event, failing: set<nat>)
    | LoadCall(passes: bool, created: bool, posts: bool)
    | WorkerReply(m: Reply, timeLeft: bool, posts: bool, reactions: seq<Reaction>, failing: set<nat>)
    | Watchdog
    | WorkerFailure
    | DisposeCall

  predicate Enabled(c: Controller, i: Input) {
    match i
    case WorkerReply(_, _, _, _, _) => c.worker
    case Watchdog => c.inFlight.Some?
    case WorkerFailure => c.worker
    case _ => true
  }

  function Next(c: Controller, i: Input): Controller
    requires Enabled(c, i)
  {
    match i
    case StepCall(event, failing) => AfterStep(c, event, failing)
    case LoadCall(passes, created, posts) => AfterLoad(c, passes, created, posts)
    case WorkerReply(m, timeLeft, posts, reactions, failing) => AfterReply(c, m, timeLeft, posts, reactions, failing)
    case _ => MarkDead(c)
  }

  predicate IsRun(c: Controller, inputs: seq<Input>)
    decreases |inputs|
  {
    inputs == [] || (Enabled(c, inputs[0]) && IsRun(Next(c, inputs[0]), inputs[1..]))
  }

  function After(c: Controller, inputs: seq<Input>): Controller
    requires IsRun(c, inputs)
    decreases |inputs|
  {
    if inputs == [] then c else After(Next(c, inputs[0]), inputs[1..])
  }

  // ----- the invariant -----

  function Taken(c: Controller): int { |c.jobs| - |c.queue| }

  predicate Stepping(c: Controller) { c.inFlight.Some? && c.inFlight.value.kind.StepKind? }

  /** Jobs whose outcome is known: all that left the queue but the one in flight. */
  function Done(c: Controller): int { if Stepping(c) then Taken(c) - 1 else Taken(c) }

  ghost predicate Lifecycle(c: Controller) {
    && (c.dead || !c.worker ==> c.inFlight.None? && c.queue == [])
    && (c.dead ==> !c.worker)
    && (!c.dead && !c.worker ==> !c.ready)
    && (c.load.Loading? <==> c.worker && !c.ready)
    && (if c.ready then c.state.Some? else c.jobs == [] && c.queue == [])
    && |c.queue| <= c.maxQueue
    && (c.inFlight.Some? ==> (Stepping(c) <==> c.ready) && c.inFlight.value.id + 1 == c.nextId)
  }

  /** The queue is the tail of what was submitted; the job in flight comes just before it,
      with the current state and generation; everything older is settled. */
  ghost predicate Numbered(c: Controller) {
    && Done(c) >= 0
    && (forall i :: 0 <= i < |c.queue| ==> c.queue[i] == Job(Taken(c) + i, c.jobs[Taken(c) + i]))
    && (Stepping(c) ==>
          var k := c.inFlight.value.kind;
          && k.job == Done(c) && c.jobs[k.job] == Json(k.event) && Valid(c.limits, c.jobs[k.job])
          && k.generation == c.generation && k.state == c.state)
    && (forall n :: n in c.results <==> 0 <= n < Done(c))
  }

  /** Each job's outcome: with an event that cannot cross it is refused; a resolved one
      comes after all its predecessors resolved; only death fails one. */
  ghost predicate Outcomes(c: Controller) {
    forall n :: n in c.results && n < |c.jobs| ==> Explained(c, n)
  }

  ghost predicate Explained(c: Controller, n: nat)
    requires n in c.results && n < |c.jobs|
  {
    match c.results[n]
    case Resolved(_, _) =>
      && Valid(c.limits, c.jobs[n])
      && forall m :: 0 <= m < n && Valid(c.limits, c.jobs[m]) ==> m in c.results && c.results[m].Resolved?
    case BadEvent => !Valid(c.limits, c.jobs[n])
    case StaleGeneration => false
    case Died => c.dead
  }

  ghost predicate Core(c: Controller) {
    Lifecycle(c) && Numbered(c) && Outcomes(c)
  }

  /** ... and a ready session with work waiting has something in flight. */
  ghost predicate Inv(c: Controller) {
    Core(c) && (c.ready && !c.dead && c.inFlight.None? ==> c.queue == [])
  }

  // ----- every step keeps it -----

  ghost function Numbers(queue: seq<Job>): set<nat> {
    set j | j in queue :: j.n
  }

  lemma {:induction false} RejectAllMeaning(results: map<nat, Outcome>, queue: seq<Job>)
    ensures RejectAll(results, queue).Keys == results.Keys + Numbers(queue)
    ensures forall n :: n in Numbers(queue) ==> RejectAll(results, queue)[n] == Died
    ensures forall n :: n in results && n !in Numbers(queue) ==> RejectAll(results, queue)[n] == results[n]
    decreases |queue|
  {
    if queue != [] {
      RejectAllMeaning(results[queue[0].n := Died], queue[1..]);
      assert queue == [queue[0]] + queue[1..];
      assert Numbers(queue) == {queue[0].n} + Numbers(queue[1..]);
    }
  }

  /** The waiting jobs carry the last numbers handed out. */
  lemma WaitingNumbers(c: Controller)
    requires Numbered(c)
    ensures forall n: nat :: n in Numbers(c.queue) <==> Taken(c) <= n < |c.jobs|
  {
    forall n: nat | Taken(c) <= n < |c.jobs| ensures n in Numbers(c.queue) {
      assert c.queue[n - Taken(c)].n == n;
    }
  }

  /** Death settles the job in flight and every waiting one, and touches nothing settled. */
  lemma DeathResults(c: Controller)
    requires Lifecycle(c) && Numbered(c) && !c.dead
    ensures forall n: nat :: n in MarkDead(c).results <==> n < |c.jobs|
    ensures forall n :: n in c.results ==> n in MarkDead(c).results && MarkDead(c).results[n] == c.results[n]
    ensures forall n: nat :: Done(c) <= n < |c.jobs| ==> MarkDead(c).results[n] == Died
  {
    WaitingNumbers(c);
    RejectAllMeaning(WithActive(c.results, c.inFlight), c.queue);
  }

  /** What is settled stays as it settled; nothing submitted is forgotten; death is final. */
  ghost predicate Extends(c: Controller, d: Controller) {
    && d.limits == c.limits && d.maxQueue == c.maxQueue
    && c.jobs <= d.jobs && (c.dead ==> d.dead) && (c.ready ==> d.ready)
    && (forall n :: n in c.results ==> n in d.results && d.results[n] == c.results[n])
  }

  /** A job's outcome stays explained as later jobs come and settle. */
  lemma StaysExplained(c: Controller, d: Controller, n: nat)
    requires Extends(c, d) && n in c.results && n < |c.jobs| && Explained(c, n)
    ensures Explained(d, n)
  {
  }

  lemma MarkDeadKeeps(c: Controller)
    requires Core(c)
    ensures Inv(MarkDead(c)) && Extends(c, MarkDead(c))
  {
    if !c.dead {
      DeathResults(c);
      var d := MarkDead(c);
      forall n | n in d.results && n < |d.jobs| ensures Explained(d, n) {
        if n < Done(c) { StaysExplained(c, d, n); }
      }
    }
  }

  lemma SendKeeps(c: Controller, kind: Kind, posts: bool)
    requires Core(Send(c, kind, true))
    ensures Core(Send(c, kind, posts)) && Extends(Send(c, kind, true), Send(c, kind, posts))
    ensures posts || Inv(Send(c, kind, posts))
  {
    MarkDeadKeeps(Send(c, kind, true));
  }

  /** One more job is settled, all its predecessors being so. */
  lemma SettleKeeps(c: Controller, d: Controller)
    requires Core(c) && Extends(c, d) && d.jobs == c.jobs && Lifecycle(d) && Numbered(d)
    requires !d.dead && Done(d) == Done(c) + 1 && Explained(d, Done(c))
    ensures Core(d)
  {
    forall n | n in d.results && n < |d.jobs| ensures Explained(d, n) {
      if n < Done(c) { StaysExplained(c, d, n); }
    }
  }

  lemma {:induction false} PumpKeeps(c: Controller, failing: set<nat>)
    requires Core(c)
    ensures Inv(Pump(c, failing)) && Extends(c, Pump(c, failing))
    decreases |c.queue|
  {
    if !(c.dead || c.inFlight.Some? || c.queue == []) {
      var job, rest := c.queue[0], c.(queue := c.queue[1..]);
      if Valid(c.limits, job.event) {
        StartKeeps(c);
        SendKeeps(rest, StepFor(c, job), job.n !in failing);
      } else {
        RefuseKeeps(c);
        PumpKeeps(rest.(results := c.results[job.n := BadEvent]), failing);
      }
    }
  }

  /** The first waiting job cannot cross: it settles alone and the state stays. */
  lemma RefuseKeeps(c: Controller)
    requires Core(c) && !c.dead && c.inFlight.None? && c.queue != [] && !Valid(c.limits, c.queue[0].event)
    ensures Core(c.(queue := c.queue[1..], results := c.results[c.queue[0].n := BadEvent]))
    ensures Extends(c, c.(queue := c.queue[1..], results := c.results[c.queue[0].n := BadEvent]))
  {
    var d := c.(queue := c.queue[1..], results := c.results[c.queue[0].n := BadEvent]);
    assert c.queue[0] == Job(Done(c), c.jobs[Done(c)]);
    SettleKeeps(c, d);
  }

  /** The first waiting job goes in flight with the current state and generation. */
  lemma StartKeeps(c: Controller)
    requires Core(c) && !c.dead && c.inFlight.None? && c.queue != [] && Valid(c.limits, c.queue[0].event)
    ensures Inv(Send(c.(queue := c.queue[1..]), StepFor(c, c.queue[0]), true))
    ensures Extends(c, Send(c.(queue := c.queue[1..]), StepFor(c, c.queue[0]), true))
  {
    var d := Send(c.(queue := c.queue[1..]), StepFor(c, c.queue[0]), true);
    assert c.queue[0] == Job(Taken(c), c.jobs[Taken(c)]);
    forall n | n in d.results && n < |d.jobs| ensures Explained(d, n) {
      StaysExplained(c, d, n);
    }
  }

  function Queued(c: Controller, event: Event): Controller {
    c.(queue := c.queue + [Job(|c.jobs|, event)], jobs := c.jobs + [event])
  }

  lemma QueuedKeeps(c: Controller, event: Event)
    requires Core(c) && !c.dead && c.ready && |c.queue| < c.maxQueue
    ensures Core(Queued(c, event)) && Extends(c, Queued(c, event))
  {
    var d := Queued(c, event);
    forall n | n in d.results && n < |d.jobs| ensures Explained(d, n) {
      StaysExplained(c, d, n);
    }
  }

  lemma StepKeeps(c: Controller, event: Event, failing: set<nat>)
    requires Core(c)
    ensures Core(AfterStep(c, event, failing)) && Extends(c, AfterStep(c, event, failing))
    ensures Inv(c) ==> Inv(AfterStep(c, event, failing))
  {
    if !c.dead && c.ready && |c.queue| < c.maxQueue {
      QueuedKeeps(c, event);
      PumpKeeps(Queued(c, event), failing);
    }
  }

  lemma LoadKeeps(c: Controller, passes: bool, created: bool, posts: bool)
    requires Inv(c)
    ensures Inv(AfterLoad(c, passes, created, posts)) && Extends(c, AfterLoad(c, passes, created, posts))
  {
    if !c.dead && !c.worker && passes {
      if created {
        SendKeeps(c.(worker := true, generation := c.generation + 1, load := Loading), LoadKind, posts);
      } else {
        MarkDeadKeeps(c.(load := LoadFailed));
      }
    }
  }

  lemma RejectedApart(results: map<nat, Outcome>, queue: seq<Job>, job: nat)
    requires job !in Numbers(queue)
    ensures RejectAll(results, queue)[job := Died] == RejectAll(results[job := Died], queue)
  {
    RejectAllMeaning(results, queue);
    RejectAllMeaning(results[job := Died], queue);
    hide RejectAll, Numbers;
  }

  /** A program that throws ends the session: the same as dying with its job in flight. */
  lemma ThrowIsDeath(c: Controller, m: Reply, timeLeft: bool, posts: bool,
                     reactions: seq<Reaction>, failing: set<nat>)
    requires Lifecycle(c) && Numbered(c) && c.worker && Acceptable(c.limits, c.inFlight, m) && m.ErrorReply?
    ensures AfterReply(c, m, timeLeft, posts, reactions, failing) == MarkDead(c)
  {
    if Stepping(c) {
      var job := c.inFlight.value.kind.job;
      WaitingNumbers(c);
      hide RejectAll, Numbers, React, Pump;
      RejectedApart(c.results, c.queue, job);
    }
  }

  /** The reply to a step: its state becomes current, its view settles the promise. */
  function Committed(c: Controller, m: Reply): Controller
    requires Stepping(c) && m.OkReply? && m.result.Produced?
  {
    var k := c.inFlight.value.kind;
    c.(inFlight := None, state := Some(m.result.state),
      results := c.results[k.job := Resolved(m.result.view, k.generation)])
  }

  lemma CommitKeeps(c: Controller, m: Reply)
    requires Core(c) && Stepping(c) && m.OkReply? && m.result.Produced?
    ensures Core(Committed(c, m)) && Extends(c, Committed(c, m))
  {
    var d, job := Committed(c, m), Done(c);
    forall i | 0 <= i < job && Valid(c.limits, c.jobs[i]) ensures i in d.results && d.results[i].Resolved? {
      assert Explained(c, i);
    }
    SettleKeeps(c, d);
  }

  /** What the host does on hearing the view leaves the next job to be started. */
  lemma {:induction false} ReactKeeps(c: Controller, rs: seq<Reaction>, failing: set<nat>)
    requires Core(c)
    ensures Core(React(c, rs, failing)) && Extends(c, React(c, rs, failing))
    decreases |rs|
  {
    hide Core, AfterStep, MarkDead;
    if rs != [] {
      StepKeeps(c, if rs[0].StepNow? then rs[0].event else NotSerializable, failing);
      MarkDeadKeeps(c);
      ReactKeeps(ReactOnce(c, rs[0], failing), rs[1..], failing);
    }
  }

  lemma ReplyKeeps(c: Controller, m: Reply, timeLeft: bool, posts: bool, reactions: seq<Reaction>, failing: set<nat>)
    requires Inv(c) && c.worker
    ensures Inv(AfterReply(c, m, timeLeft, posts, reactions, failing))
    ensures Extends(c, AfterReply(c, m, timeLeft, posts, reactions, failing))
  {
    if !Acceptable(c.limits, c.inFlight, m) {
      MarkDeadKeeps(c);
    } else if m.ErrorReply? {
      ThrowIsDeath(c, m, timeLeft, posts, reactions, failing);
      MarkDeadKeeps(c);
    } else if Stepping(c) {
      CommitKeeps(c, m);
      hide Core, Pump, React;
      ReactKeeps(Committed(c, m), reactions, failing);
      PumpKeeps(React(Committed(c, m), reactions, failing), failing);
    } else if c.inFlight.value.kind.LoadKind? {
      if timeLeft {
        SendKeeps(c.(inFlight := None), InitKind, posts);
      } else {
        MarkDeadKeeps(c);
      }
    }
  }

  lemma NextKeeps(c: Controller, i: Input)
    requires Inv(c) && Enabled(c, i)
    ensures Inv(Next(c, i)) && Extends(c, Next(c, i))
  {
    match i
    case StepCall(event, failing) => StepKeeps(c, event, failing);
    case LoadCall(passes, created, posts) => LoadKeeps(c, passes, created, posts);
    case WorkerReply(m, timeLeft, posts, reactions, failing) => ReplyKeeps(c, m, timeLeft, posts, reactions, failing);
    case _ => MarkDeadKeeps(c);
  }

  lemma {:induction false} RunKeeps(c: Controller, inputs: seq<Input>)
    requires Inv(c) && IsRun(c, inputs)
    ensures Inv(After(c, inputs)) && Extends(c, After(c, inputs))
    decreases |inputs|
  {
    if inputs != [] {
      NextKeeps(c, inputs[0]);
      RunKeeps(Next(c, inputs[0]), inputs[1..]);
    }
  }

  // ----- what follows for every run -----

  ghost function Reached(L: Limits, maxQueue: nat, inputs: seq<Input>): Controller
    requires IsRun(New(L, maxQueue), inputs)
  {
    After(New(L, maxQueue), inputs)
  }

  lemma ReachedKeeps(L: Limits, maxQueue: nat, inputs: seq<Input>)
    requires IsRun(New(L, maxQueue), inputs)
    ensures Inv(Reached(L, maxQueue, inputs)) && Extends(New(L, maxQueue), Reached(L, maxQueue, inputs))
  {
    RunKeeps(New(L, maxQueue), inputs);
  }

  /** The waiting jobs stay within the bound, and a live session that has any of them
      waiting has a step in flight. */
  lemma NoStall(L: Limits, maxQueue: nat, inputs: seq<Input>)
    requires IsRun(New(L, maxQueue), inputs)
    ensures |Reached(L, maxQueue, inputs).queue| <= maxQueue
    ensures Reached(L, maxQueue, inputs).queue != [] ==>
              !Reached(L, maxQueue, inputs).dead && Stepping(Reached(L, maxQueue, inputs))
  {
    ReachedKeeps(L, maxQueue, inputs);
  }

  /** The branch that would find the generation moved is never taken. */
  lemma NeverStale(L: Limits, maxQueue: nat, inputs: seq<Input>, n: nat)
    requires IsRun(New(L, maxQueue), inputs) && n in Reached(L, maxQueue, inputs).results
    ensures !Reached(L, maxQueue, inputs).results[n].StaleGeneration?
  {
    ReachedKeeps(L, maxQueue, inputs);
    assert Explained(Reached(L, maxQueue, inputs), n);
  }

  /** Steps resolve in the order of submission: before one does, every earlier event that
      could cross the boundary did. */
  lemma ResolvedInOrder(L: Limits, maxQueue: nat, inputs: seq<Input>, m: nat, n: nat)
    requires IsRun(New(L, maxQueue), inputs)
    requires n in Reached(L, maxQueue, inputs).results && Reached(L, maxQueue, inputs).results[n].Resolved?
    requires m < n < |Reached(L, maxQueue, inputs).jobs| && Valid(L, Reached(L, maxQueue, inputs).jobs[m])
    ensures m in Reached(L, maxQueue, inputs).results && Reached(L, maxQueue, inputs).results[m].Resolved?
  {
    ReachedKeeps(L, maxQueue, inputs);
    assert Explained(Reached(L, maxQueue, inputs), n);
  }

  /** A live session with nothing in flight has answered everything: with a view exactly
      when the event could cross the boundary. */
  lemma QuietMeansAnswered(L: Limits, maxQueue: nat, inputs: seq<Input>, n: nat)
    requires IsRun(New(L, maxQueue), inputs)
    requires !Reached(L, maxQueue, inputs).dead && Reached(L, maxQueue, inputs).inFlight.None?
    requires n < |Reached(L, maxQueue, inputs).jobs|
    ensures n in Reached(L, maxQueue, inputs).results
    ensures Reached(L, maxQueue, inputs).results[n].Resolved? <==> Valid(L, Reached(L, maxQueue, inputs).jobs[n])
  {
    ReachedKeeps(L, maxQueue, inputs);
    assert Explained(Reached(L, maxQueue, inputs), n);
  }

  /** Death leaves no promise open and no Worker, and nothing afterwards changes anything:
      no state commit, no late outcome, no restart. */
  lemma DeathSettlesAndFreezes(L: Limits, maxQueue: nat, inputs: seq<Input>, i: Input)
    requires IsRun(New(L, maxQueue), inputs) && Reached(L, maxQueue, inputs).dead
    ensures forall n: nat :: n < |Reached(L, maxQueue, inputs).jobs| ==> n in Reached(L, maxQueue, inputs).results
    ensures !Reached(L, maxQueue, inputs).worker && !Reached(L, maxQueue, inputs).load.Loading?
    ensures Enabled(Reached(L, maxQueue, inputs), i) ==>
      Next(Reached(L, maxQueue, inputs), i) == Reached(L, maxQueue, inputs)
  {
    ReachedKeeps(L, maxQueue, inputs);
  }
}

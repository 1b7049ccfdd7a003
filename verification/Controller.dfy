/** The host's controller of the sandboxed program: one request in flight, a bounded queue
    of events, and the program's state threaded through the replies as text. */
module Controller {
  import opened Options
  import Utf8

  /** Text as UTF-16 code units. */
  type Text = Utf8.Str

  datatype Limits = Limits(maxStateChars: nat, maxViewChars: nat, maxEventChars: nat, maxDiagnosticChars: nat)

  /** An event as it serializes: to text, or not at all. */
  datatype Event = Json(text: Text) | NotSerializable

  predicate Valid(L: Limits, e: Event) {
    e.Json? && |e.text| <= L.maxEventChars
  }

  // ----- messages -----

  datatype Result = Loaded | Produced(state: Text, view: Text) | WrongShape

  /** `NotAReply` stands for everything refused before the id is compared. */
  datatype Reply = NotAReply | OkReply(id: int, result: Result) | ErrorReply(id: int, error: Text)

  datatype Kind = LoadKind | InitKind | StepKind(job: nat, generation: nat, state: Option<Text>, event: Text)

  datatype Request = Request(id: nat, kind: Kind)

  predicate ResultFits(L: Limits, kind: Kind, r: Result) {
    match kind
    case LoadKind => r.Loaded?
    case _ => r.Produced? && |r.state| <= L.maxStateChars && |r.view| <= L.maxViewChars
  }

  /** The reply answers the request outstanding, in shape and within every bound. */
  predicate Acceptable(L: Limits, active: Option<Request>, m: Reply) {
    && active.Some? && !m.NotAReply? && m.id == active.value.id
    && (m.ErrorReply? ==> |m.error| <= L.maxDiagnosticChars)
    && (m.OkReply? ==> ResultFits(L, active.value.kind, m.result))
  }

  // ----- state -----

  /** A queued event, numbered in the order of submission. */
  datatype Job = Job(n: nat, event: Event)

  datatype Outcome = Resolved(view: Text, generation: nat) | BadEvent | StaleGeneration | Died

  datatype Load = NotAsked | Loading | LoadedView(view: Text) | LoadFailed

  /** `jobs` and `results` are history: every event ever queued and what each promise
      settled to. */
  datatype Controller = Controller(
    limits: Limits, maxQueue: nat,
    worker: bool, nextId: nat, generation: nat, state: Option<Text>, dead: bool, ready: bool,
    inFlight: Option<Request>, queue: seq<Job>, dropped: nat,
    load: Load, jobs: seq<Event>, results: map<nat, Outcome>)

  function New(limits: Limits, maxQueue: nat): Controller {
    Controller(limits, maxQueue, false, 1, 0, None, false, false, None, [], 0, NotAsked, [], map[])
  }

  function RejectAll(results: map<nat, Outcome>, queue: seq<Job>): map<nat, Outcome>
    decreases |queue|
  {
    if queue == [] then results else RejectAll(results[queue[0].n := Died], queue[1..])
  }

  function WithActive(results: map<nat, Outcome>, active: Option<Request>): map<nat, Outcome> {
    if active.Some? && active.value.kind.StepKind? then results[active.value.kind.job := Died] else results
  }

  /** The session is over: the request in flight and everything queued is rejected, and
      the generation moves so that nothing late can count. */
  function MarkDead(c: Controller): Controller {
    if c.dead then c
    else
      c.(dead := true, generation := c.generation + 1, inFlight := None, queue := [], worker := false,
         load := if c.load.Loading? then LoadFailed else c.load,
         results := RejectAll(WithActive(c.results, c.inFlight), c.queue))
  }

  /** Post a request; posting may throw, which ends the session. */
  function Send(c: Controller, kind: Kind, posts: bool): Controller {
    var c' := c.(nextId := c.nextId + 1, inFlight := Some(Request(c.nextId, kind)));
    if posts then c' else MarkDead(c')
  }

  function StepFor(c: Controller, job: Job): Kind
    requires job.event.Json?
  {
    StepKind(job.n, c.generation, c.state, job.event.text)
  }

  /** Start the next job that can cross the boundary, if nothing is in flight. */
  function Pump(c: Controller, failing: set<nat>): Controller
    decreases |c.queue|
  {
    if c.dead || c.inFlight.Some? || c.queue == [] then c
    else
      var job, c' := c.queue[0], c.(queue := c.queue[1..]);
      if !Valid(c.limits, job.event) then Pump(c'.(results := c.results[job.n := BadEvent]), failing)
      else Send(c', StepFor(c, job), job.n !in failing)
  }

  /** A step call that is queued, or nothing when it is rejected at once. */
  function AfterStep(c: Controller, event: Event, failing: set<nat>): Controller {
    if c.dead || !c.ready then c
    else if |c.queue| >= c.maxQueue then c.(dropped := c.dropped + 1)
    else Pump(c.(queue := c.queue + [Job(|c.jobs|, event)], jobs := c.jobs + [event]), failing)
  }

  /** A load call. `passes` says whether the source and data pass the checks made before
      any Worker exists. */
  function AfterLoad(c: Controller, passes: bool, created: bool, posts: bool): Controller {
    if c.dead || c.worker || !passes then c
    else if !created then MarkDead(c.(load := LoadFailed))
    else Send(c.(worker := true, generation := c.generation + 1, load := Loading), LoadKind, posts)
  }

  /** What the host does in its own reaction to a step's promise. */
  datatype Reaction = StepNow(event: Event) | DisposeNow

  function ReactOnce(c: Controller, r: Reaction, failing: set<nat>): Controller {
    match r
    case StepNow(event) => AfterStep(c, event, failing)
    case DisposeNow => MarkDead(c)
  }

  function React(c: Controller, rs: seq<Reaction>, failing: set<nat>): Controller
    decreases |rs|
  {
    if rs == [] then c else React(ReactOnce(c, rs[0], failing), rs[1..], failing)
  }

  /** A reply together with the reactions it triggers: the next stage of loading, or
      committing a step, then what the host does about it, then starting the next one. */
  function AfterReply(c: Controller, m: Reply, timeLeft: bool, posts: bool,
                      reactions: seq<Reaction>, failing: set<nat>): Controller
    requires c.worker
  {
    if !Acceptable(c.limits, c.inFlight, m) then MarkDead(c)
    else
      var kind, free := c.inFlight.value.kind, c.(inFlight := None);
      match kind
      case LoadKind => if m.OkReply? && timeLeft then Send(free, InitKind, posts) else MarkDead(free)
      case InitKind =>
        if m.OkReply? then free.(state := Some(m.result.state), ready := true, load := LoadedView(m.result.view))
        else MarkDead(free)
      case StepKind(job, generation, _, _) =>
        if m.ErrorReply? then
          var over := MarkDead(free);
          over.(results := over.results[job := Died])
        else if generation != c.generation then
          Pump(React(free.(results := c.results[job := StaleGeneration]), reactions, failing), failing)
        else
          var done := free.(state := Some(m.result.state),
                            results := c.results[job := Resolved(m.result.view, generation)]);
          Pump(React(done, reactions, failing), failing)
  }

  class RuntimeController {
    const limits: Limits
    const maxQueue: nat
    var worker: bool
    var nextId: nat
    var generation: nat
    var stateJson: Option<Text>
    var dead: bool
    var ready: bool
    var inFlight: Option<Request>
    var queue: seq<Job>
    var dropped: nat
    var load: Load
    ghost var jobs: seq<Event>
    var submitted: nat
    var results: map<nat, Outcome>

    ghost function State(): Controller
      reads this
    {
      Controller(limits, maxQueue, worker, nextId, generation, stateJson, dead, ready, inFlight, queue, dropped, load,
        jobs, results)
    }

    constructor (limits: Limits, maxQueue: nat)
      ensures State() == New(limits, maxQueue) && submitted == |jobs|
    {
      this.limits, this.maxQueue := limits, maxQueue;
      worker, nextId, generation, stateJson, dead, ready := false, 1, 0, None, false, false;
      inFlight, queue, dropped, load := None, [], 0, NotAsked;
      jobs, submitted, results := [], 0, map[];
    }

    method Die()
      modifies this
      ensures State() == MarkDead(old(State())) && submitted == old(submitted)
    {
      hide RejectAll, WithActive;
      if dead {
        return;
      }
      dead, generation := true, generation + 1;
      RejectActive();
      if load.Loading? {
        load := LoadFailed;
      }
      RejectQueue();
      worker := false;
    }

    method RejectActive()
      modifies this`results, this`inFlight
      ensures inFlight.None? && results == WithActive(old(results), old(inFlight))
    {
      if inFlight.Some? {
        var active := inFlight.value;
        inFlight := None;
        if active.kind.StepKind? {
          results := results[active.kind.job := Died];
        }
      }
    }

    method RejectQueue()
      modifies this`results, this`queue
      ensures queue == [] && results == RejectAll(old(results), old(queue))
    {
      while queue != []
        invariant RejectAll(results, queue) == RejectAll(old(results), old(queue))
        decreases |queue|
      {
        results := results[queue[0].n := Died];
        queue := queue[1..];
      }
    }

    method SendRequest(kind: Kind, posts: bool)
      modifies this
      ensures State() == Send(old(State()), kind, posts) && submitted == old(submitted)
    {
      inFlight := Some(Request(nextId, kind));
      nextId := nextId + 1;
      if !posts {
        Die();
      }
    }

    method RunQueue(failing: set<nat>)
      modifies this
      ensures State() == Pump(old(State()), failing) && submitted == old(submitted)
    {
      while !dead && inFlight.None? && queue != []
        invariant Pump(State(), failing) == Pump(old(State()), failing)
        invariant submitted == old(submitted)
        decreases |queue|
      {
        var job := queue[0];
        queue := queue[1..];
        if !Valid(limits, job.event) {
          results := results[job.n := BadEvent];
        } else {
          SendRequest(StepKind(job.n, generation, stateJson, job.event.text), job.n !in failing);
          return;
        }
      }
    }

    method Step(event: Event, failing: set<nat>)
      requires submitted == |jobs|
      modifies this
      ensures State() == AfterStep(old(State()), event, failing) && submitted == |jobs|
    {
      if dead || !ready {
        return;
      }
      if |queue| >= maxQueue {
        dropped := dropped + 1;
        return;
      }
      queue := queue + [Job(submitted, event)];
      jobs, submitted := jobs + [event], submitted + 1;
      ghost var before := jobs;
      RunQueue(failing);
      PumpKeepsJobs(old(State()).(queue := old(queue) + [Job(old(submitted), event)], jobs := before), failing);
    }

    method LoadProgram(passes: bool, created: bool, posts: bool)
      modifies this
      ensures State() == AfterLoad(old(State()), passes, created, posts) && submitted == old(submitted)
    {
      if dead || worker || !passes {
        return;
      }
      if !created {
        load := LoadFailed;
        Die();
        return;
      }
      worker, load := true, Loading;
      generation := generation + 1;
      SendRequest(LoadKind, posts);
    }

    method OnMessage(m: Reply, timeLeft: bool, posts: bool, reactions: seq<Reaction>, failing: set<nat>)
      requires worker && submitted == |jobs|
      modifies this
      ensures State() == AfterReply(old(State()), m, timeLeft, posts, reactions, failing) && submitted == |jobs|
    {
      hide Pump, React, MarkDead;
      if !Acceptable(limits, inFlight, m) {
        DeathKeepsJobs(State());
        Die();
        return;
      }
      var active := inFlight.value;
      inFlight := None;
      DeathKeepsJobs(State());
      if active.kind.LoadKind? {
        if m.OkReply? && timeLeft {
          SendKeepsJobs(State(), InitKind, posts);
          SendRequest(InitKind, posts);
        } else {
          Die();
        }
      } else if active.kind.InitKind? {
        if m.OkReply? {
          stateJson, ready, load := Some(m.result.state), true, LoadedView(m.result.view);
        } else {
          Die();
        }
      } else if m.ErrorReply? {
        Die();
        results := results[active.kind.job := Died];
      } else {
        if active.kind.generation != generation {
          results := results[active.kind.job := StaleGeneration];
        } else {
          stateJson := Some(m.result.state);
          results := results[active.kind.job := Resolved(m.result.view, active.kind.generation)];
        }
        RunReactions(reactions, failing);
        PumpKeepsJobs(State(), failing);
        RunQueue(failing);
      }
    }

    /** The host's reactions run before the next job is started. */
    method RunReactions(reactions: seq<Reaction>, failing: set<nat>)
      requires submitted == |jobs|
      modifies this
      ensures State() == React(old(State()), reactions, failing) && submitted == |jobs|
    {
      hide Pump, MarkDead, AfterStep;
      for i := 0 to |reactions|
        invariant React(State(), reactions[i..], failing) == React(old(State()), reactions, failing)
        invariant submitted == |jobs|
      {
        assert reactions[i..][0] == reactions[i] && reactions[i..][1..] == reactions[i + 1..];
        if reactions[i].StepNow? {
          Step(reactions[i].event, failing);
        } else {
          DeathKeepsJobs(State());
          Die();
        }
      }
    }
  }

  lemma DeathKeepsJobs(c: Controller)
    ensures MarkDead(c).jobs == c.jobs
  {
  }

  lemma SendKeepsJobs(c: Controller, kind: Kind, posts: bool)
    ensures Send(c, kind, posts).jobs == c.jobs
  {
  }

  lemma {:induction false} PumpKeepsJobs(c: Controller, failing: set<nat>)
    ensures Pump(c, failing).jobs == c.jobs
    decreases |c.queue|
  {
    if !(c.dead || c.inFlight.Some? || c.queue == []) && !Valid(c.limits, c.queue[0].event) {
      PumpKeepsJobs(c.(queue := c.queue[1..], results := c.results[c.queue[0].n := BadEvent]), failing);
    }
  }
}

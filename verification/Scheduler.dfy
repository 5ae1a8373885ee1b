/** The dual-write scheduler: producers, a bounded channel, a ticking dispatcher and its workers.
    Every event below is one goroutine's next action; any interleaving is a run. */
module Scheduler {
  import opened Common

  datatype Config = Config(maxChanSize: nat, maxWorker: nat)

  datatype Worker =
    | Launched            // started with go, not counted yet
    | Idle                // in its select
    | Got(task: nat)      // received a function, about to call it
    | Running(task: nat)
    | Exiting             // left the loop
    | Uncounting          // past wg.Done, before the counter goes down

  datatype Dispatcher =
    | Selecting
    | Spawning(i: nat, need: int)
    | Added(i: nat, need: int)   // past wg.Add, before go
    | Waiting                    // context done: in wg.Wait
    | Closed

  /** What has become of a task that a producer offered. */
  datatype Fate = Offered | Queued | Held | Started | Ran | Skipped | Dropped | SendPanicked

  /** The channel, and the ledger of all tasks. */
  datatype Tasks = Tasks(
    queue: seq<nat>,
    blocking: map<nat, bool>,   // the flag as the producer of a task read it
    fate: map<nat, Fate>,
    atDrop: map<nat, nat>,      // how long the queue was when a task was dropped
    accepted: seq<nat>, taken: seq<nat>, calls: seq<nat>)

  /** The goroutines of the scheduler and what they count. */
  datatype Crew = Crew(
    workers: map<nat, Worker>, dispatcher: Dispatcher, wg: int, numWorker: int,
    nilCall: bool)              // a worker received from the closed channel

  datatype State = State(tasks: Tasks, crew: Crew, processAll: bool, cancelled: bool)

  const START := State(Tasks([], map[], map[], map[], [], [], []), Crew(map[], Selecting, 0, 0, false), false, false)

  datatype ProducerAction = Offer | Accept | Drop | SendOnClosed
  datatype DispatcherAction = Check | Launch(w: nat) | StopTicking | Close
  datatype WorkerAction = Count | Take | TakeFromClosed | Begin | Finish | Leave | WgDone | Uncount

  datatype Event =
    | Producer(task: nat, pa: ProducerAction)
    | Tick(avgLatency: real)
    | Dispatch(da: DispatcherAction)
    | Work(w: nat, wa: WorkerAction)
    | Toggle   // the flag is reloaded
    | Cancel

  /** How many workers a tick asks for: one, or the backlog times the latency in seconds, rounded up. */
  function Need(backlog: nat, avgLatency: real): int {
    if avgLatency > 0.0 then -(-(backlog as real * (avgLatency / 1000000000.0))).Floor else 1
  }

  predicate Has(s: State, t: nat, f: Fate) { t in s.tasks.fate && s.tasks.fate[t] == f }

  predicate ProducerCan(c: Config, s: State, t: nat, a: ProducerAction) {
    match a
    case Offer => t !in s.tasks.fate
    case Accept => Has(s, t, Offered) && s.crew.dispatcher != Closed && |s.tasks.queue| < c.maxChanSize
    case Drop =>
      Has(s, t, Offered) && s.crew.dispatcher != Closed && |s.tasks.queue| >= c.maxChanSize
      && t in s.tasks.blocking && !s.tasks.blocking[t]
    case SendOnClosed => Has(s, t, Offered) && s.crew.dispatcher == Closed
  }

  function ProducerStep(s: State, t: nat, a: ProducerAction): State {
    var ts := s.tasks;
    s.(tasks :=
      match a
      case Offer => ts.(fate := ts.fate[t := Offered], blocking := ts.blocking[t := s.processAll])
      case Accept => ts.(queue := ts.queue + [t], fate := ts.fate[t := Queued], accepted := ts.accepted + [t])
      case Drop => ts.(fate := ts.fate[t := Dropped], atDrop := ts.atDrop[t := |ts.queue|])
      case SendOnClosed => ts.(fate := ts.fate[t := SendPanicked]))
  }

  predicate DispatcherCan(s: State, a: DispatcherAction) {
    match a
    case Check => s.crew.dispatcher.Spawning?
    case Launch(w) => s.crew.dispatcher.Added? && w !in s.crew.workers
    case StopTicking => s.crew.dispatcher == Selecting && s.cancelled
    case Close => s.crew.dispatcher == Waiting && s.crew.wg == 0
  }

  function DispatcherStep(c: Config, s: State, a: DispatcherAction): State
    requires DispatcherCan(s, a)
  {
    var g := s.crew;
    s.(crew :=
      match a
      case Check =>
        if g.dispatcher.i < g.dispatcher.need && g.numWorker < c.maxWorker
        then g.(dispatcher := Added(g.dispatcher.i, g.dispatcher.need), wg := g.wg + 1)
        else g.(dispatcher := Selecting)
      case Launch(w) =>
        g.(workers := g.workers[w := Launched], dispatcher := Spawning(g.dispatcher.i + 1, g.dispatcher.need))
      case StopTicking => g.(dispatcher := Waiting)
      case Close => g.(dispatcher := Closed))
  }

  predicate WorkerCan(s: State, w: nat, a: WorkerAction) {
    w in s.crew.workers &&
    match a
    case Count => s.crew.workers[w] == Launched
    case Take => s.crew.workers[w] == Idle && |s.tasks.queue| > 0
    case TakeFromClosed => s.crew.workers[w] == Idle && |s.tasks.queue| == 0 && s.crew.dispatcher == Closed
    case Begin => s.crew.workers[w].Got?
    case Finish => s.crew.workers[w].Running?
    case Leave => s.crew.workers[w] == Idle
    case WgDone => s.crew.workers[w] == Exiting
    case Uncount => s.crew.workers[w] == Uncounting
  }

  function WorkerStep(s: State, w: nat, a: WorkerAction): State
    requires WorkerCan(s, w, a)
  {
    s.(crew := WorkerCrew(s, w, a), tasks := WorkerTasks(s, w, a))
  }

  function WorkerCrew(s: State, w: nat, a: WorkerAction): Crew
    requires WorkerCan(s, w, a)
  {
    var g := s.crew;
    match a
    case Count => g.(workers := g.workers[w := Idle], numWorker := g.numWorker + 1)
    case Take => g.(workers := g.workers[w := Got(s.tasks.queue[0])])
    case TakeFromClosed => g.(nilCall := true)
    case Begin => g.(workers := g.workers[w := if s.cancelled then Idle else Running(g.workers[w].task)])
    case Finish => g.(workers := g.workers[w := Idle])
    case Leave => g.(workers := g.workers[w := Exiting])
    case WgDone => g.(workers := g.workers[w := Uncounting], wg := g.wg - 1)
    case Uncount => g.(workers := g.workers - {w}, numWorker := g.numWorker - 1)
  }

  function WorkerTasks(s: State, w: nat, a: WorkerAction): Tasks
    requires WorkerCan(s, w, a)
  {
    var ts, k := s.tasks, s.crew.workers[w];
    match a
    case Take =>
      ts.(queue := ts.queue[1..], taken := ts.taken + [ts.queue[0]], fate := ts.fate[ts.queue[0] := Held])
    case Begin =>
      if s.cancelled then ts.(fate := ts.fate[k.task := Skipped])
      else ts.(fate := ts.fate[k.task := Started], calls := ts.calls + [k.task])
    case Finish => ts.(fate := ts.fate[k.task := Ran])
    case _ => ts
  }

  predicate Enabled(c: Config, s: State, ev: Event) {
    match ev
    case Producer(t, a) => ProducerCan(c, s, t, a)
    case Tick(_) => s.crew.dispatcher == Selecting && |s.tasks.queue| > 0
    case Dispatch(a) => DispatcherCan(s, a)
    case Work(w, a) => WorkerCan(s, w, a)
    case Toggle => true
    case Cancel => true
  }

  function Step(c: Config, s: State, ev: Event): State
    requires Enabled(c, s, ev)
  {
    match ev
    case Producer(t, a) => ProducerStep(s, t, a)
    case Tick(avg) => s.(crew := s.crew.(dispatcher := Spawning(0, Need(|s.tasks.queue|, avg))))
    case Dispatch(a) => DispatcherStep(c, s, a)
    case Work(w, a) => WorkerStep(s, w, a)
    case Toggle => s.(processAll := !s.processAll)
    case Cancel => s.(cancelled := true)
  }

  ghost predicate Possible(c: Config, evs: seq<Event>)
    decreases |evs|, 0
  {
    evs == [] || (Possible(c, evs[..|evs| - 1]) && Enabled(c, After(c, evs[..|evs| - 1]), evs[|evs| - 1]))
  }

  ghost function After(c: Config, evs: seq<Event>): State
    requires Possible(c, evs)
    decreases |evs|, 1
  {
    if evs == [] then START else Step(c, After(c, evs[..|evs| - 1]), evs[|evs| - 1])
  }

  // ------------------------------------------------------------------------------------------
  // Counting workers.

  predicate IsLaunched(k: Worker) { k.Launched? }
  predicate IsUncounting(k: Worker) { k.Uncounting? }
  predicate Live(k: Worker) { k.Idle? || k.Got? || k.Running? || k.Exiting? }

  function Where<V>(ws: map<nat, V>, p: V -> bool): set<nat> { set w | w in ws && p(ws[w]) }

  function LaunchedSet(s: State): set<nat> { Where(s.crew.workers, IsLaunched) }
  function LiveSet(s: State): set<nat> { Where(s.crew.workers, Live) }
  function UncountingSet(s: State): set<nat> { Where(s.crew.workers, IsUncounting) }

  /** A worker the dispatcher has added to the group but not started yet. */
  function InAdd(s: State): int { if s.crew.dispatcher.Added? then 1 else 0 }

  ghost predicate CountsAgree(s: State) {
    && s.crew.wg == InAdd(s) + |LaunchedSet(s)| + |LiveSet(s)|
    && s.crew.numWorker == |LiveSet(s)| + |UncountingSet(s)|
  }

  function In<V>(ws: map<nat, V>, w: nat, p: V -> bool): int { if w in ws && p(ws[w]) then 1 else 0 }

  lemma SizeWithout(a: set<nat>, w: nat)
    ensures |a| == |a - {w}| + if w in a then 1 else 0
  {
    if w in a {
      assert a == (a - {w}) + {w};
    } else {
      assert a == a - {w};
    }
  }

  lemma SameElsewhere<V>(ws: map<nat, V>, vs: map<nat, V>, w: nat, v: nat)
    requires ws - {w} == vs - {w} && v != w
    ensures v in ws <==> v in vs
    ensures v in ws ==> ws[v] == vs[v]
  {
    assert v in ws <==> v in ws - {w};
    assert v in ws ==> ws[v] == (ws - {w})[v];
  }

  /** How such a set changes in size when only worker w moves. */
  lemma OneMoves<V>(ws: map<nat, V>, vs: map<nat, V>, w: nat, p: V -> bool)
    requires ws - {w} == vs - {w}
    ensures |Where(vs, p)| - In(vs, w, p) == |Where(ws, p)| - In(ws, w, p)
  {
    forall v | v != w ensures v in Where(vs, p) <==> v in Where(ws, p) {
      SameElsewhere(ws, vs, w, v);
    }
    assert Where(vs, p) - {w} == Where(ws, p) - {w};
    SizeWithout(Where(ws, p), w);
    SizeWithout(Where(vs, p), w);
  }

  lemma LaunchedAfter(s: State, w: nat, a: WorkerAction)
    requires WorkerCan(s, w, a)
    ensures |LaunchedSet(WorkerStep(s, w, a))| == |LaunchedSet(s)| - One(a.Count?)
  {
    assert s.crew.workers - {w} == WorkerStep(s, w, a).crew.workers - {w};
    OneMoves(s.crew.workers, WorkerStep(s, w, a).crew.workers, w, IsLaunched);
  }

  lemma LiveAfter(s: State, w: nat, a: WorkerAction)
    requires WorkerCan(s, w, a)
    ensures |LiveSet(WorkerStep(s, w, a))| == |LiveSet(s)| + One(a.Count?) - One(a.WgDone?)
  {
    assert s.crew.workers - {w} == WorkerStep(s, w, a).crew.workers - {w};
    OneMoves(s.crew.workers, WorkerStep(s, w, a).crew.workers, w, Live);
  }

  lemma UncountingAfter(s: State, w: nat, a: WorkerAction)
    requires WorkerCan(s, w, a)
    ensures |UncountingSet(WorkerStep(s, w, a))| == |UncountingSet(s)| + One(a.WgDone?) - One(a.Uncount?)
  {
    assert s.crew.workers - {w} == WorkerStep(s, w, a).crew.workers - {w};
    OneMoves(s.crew.workers, WorkerStep(s, w, a).crew.workers, w, IsUncounting);
  }

  lemma WorkerKeepsCounts(s: State, w: nat, a: WorkerAction)
    requires CountsAgree(s) && WorkerCan(s, w, a)
    ensures var s' := WorkerStep(s, w, a);
            CountsAgree(s') && s'.crew.numWorker + |LaunchedSet(s')| <= s.crew.numWorker + |LaunchedSet(s)|
  {
    LaunchedAfter(s, w, a);
    LiveAfter(s, w, a);
    UncountingAfter(s, w, a);
  }

  lemma LaunchAdds(ws: map<nat, Worker>, w: nat, p: Worker -> bool)
    requires w !in ws
    ensures |Where(ws[w := Launched], p)| == |Where(ws, p)| + One(p(Launched))
  {
    assert ws - {w} == ws[w := Launched] - {w};
    OneMoves(ws, ws[w := Launched], w, p);
  }

  lemma CheckKeepsCounts(c: Config, s: State)
    requires CountsAgree(s) && DispatcherCan(s, Check)
    ensures var s' := DispatcherStep(c, s, Check);
            && CountsAgree(s') && s'.crew.workers == s.crew.workers && s'.crew.numWorker == s.crew.numWorker
            && InAdd(s') == One(s'.crew.dispatcher.Added?) <= One(s.crew.numWorker < c.maxWorker)
  {
  }

  lemma LaunchKeepsCounts(c: Config, s: State, w: nat)
    requires CountsAgree(s) && DispatcherCan(s, Launch(w))
    ensures var s' := DispatcherStep(c, s, Launch(w));
            && CountsAgree(s') && s'.crew.numWorker == s.crew.numWorker
            && |LaunchedSet(s')| + InAdd(s') == |LaunchedSet(s)| + InAdd(s)
  {
    LaunchedIsNotLive(c, s, w);
  }

  lemma EndKeepsCounts(c: Config, s: State, a: DispatcherAction)
    requires CountsAgree(s) && DispatcherCan(s, a) && (a.StopTicking? || a.Close?)
    ensures var s' := DispatcherStep(c, s, a);
            && CountsAgree(s') && s'.crew.workers == s.crew.workers
            && s'.crew.numWorker == s.crew.numWorker && InAdd(s') == InAdd(s)
  {
  }

  lemma DispatcherKeepsCounts(c: Config, s: State, a: DispatcherAction)
    requires CountsAgree(s) && DispatcherCan(s, a)
    ensures var s' := DispatcherStep(c, s, a);
            && CountsAgree(s') && s'.crew.numWorker == s.crew.numWorker
            && |LaunchedSet(s')| + InAdd(s') <=
               |LaunchedSet(s)| + InAdd(s) + One(a.Check? && s.crew.numWorker < c.maxWorker)
  {
    match a {
      case Check => CheckKeepsCounts(c, s);
      case Launch(w) => LaunchKeepsCounts(c, s, w);
      case StopTicking => EndKeepsCounts(c, s, a);
      case Close => EndKeepsCounts(c, s, a);
    }
  }

  lemma LaunchedIsNotLive(c: Config, s: State, w: nat)
    requires DispatcherCan(s, Launch(w))
    ensures var s' := DispatcherStep(c, s, Launch(w));
            && |LaunchedSet(s')| == |LaunchedSet(s)| + 1 && |LiveSet(s')| == |LiveSet(s)|
            && |UncountingSet(s')| == |UncountingSet(s)|
  {
    LaunchAdds(s.crew.workers, w, IsLaunched);
    LaunchAdds(s.crew.workers, w, Live);
    LaunchAdds(s.crew.workers, w, IsUncounting);
  }

  lemma StepKeepsCounts(c: Config, s: State, ev: Event)
    requires CountsAgree(s) && Enabled(c, s, ev)
    ensures CountsAgree(Step(c, s, ev))
  {
    match ev {
      case Dispatch(a) => DispatcherKeepsCounts(c, s, a);
      case Work(w, a) => WorkerKeepsCounts(s, w, a);
      case _ => OthersKeepCounts(s, Step(c, s, ev));
    }
  }

  lemma OthersKeepCounts(s: State, s': State)
    requires CountsAgree(s) && s'.crew.workers == s.crew.workers
    requires s'.crew.wg == s.crew.wg && s'.crew.numWorker == s.crew.numWorker
    requires s'.crew.dispatcher.Added? <==> s.crew.dispatcher.Added?
    ensures CountsAgree(s')
  {
  }

  /** Once the channel is closed nobody is left to receive from it. */
  ghost predicate ClosedIsQuiet(s: State) {
    && (s.crew.dispatcher == Closed ==> s.crew.wg == 0)
    && !s.crew.nilCall
  }

  lemma {:induction false} RunKeepsCounts(c: Config, evs: seq<Event>)
    requires Possible(c, evs)
    ensures CountsAgree(After(c, evs)) && ClosedIsQuiet(After(c, evs))
    decreases |evs|
  {
    if evs == [] {
      assert LaunchedSet(START) == {} && LiveSet(START) == {} && UncountingSet(START) == {};
    } else {
      var init, ev := evs[..|evs| - 1], evs[|evs| - 1];
      RunKeepsCounts(c, init);
      var s := After(c, init);
      StepKeepsCounts(c, s, ev);
      ClosedStaysQuiet(c, s, ev);
    }
  }

  lemma ClosedStaysQuiet(c: Config, s: State, ev: Event)
    requires CountsAgree(s) && ClosedIsQuiet(s) && Enabled(c, s, ev)
    ensures ClosedIsQuiet(Step(c, s, ev))
  {
    if s.crew.dispatcher == Closed {
      NobodyLeft(s);
    }
  }

  lemma NobodyLeft(s: State)
    requires CountsAgree(s) && s.crew.wg == 0
    ensures forall w :: w in s.crew.workers ==> s.crew.workers[w].Uncounting?
    ensures !s.crew.dispatcher.Added?
  {
    assert LaunchedSet(s) == {} && LiveSet(s) == {};
    forall w | w in s.crew.workers ensures s.crew.workers[w].Uncounting? {
      assert w !in LaunchedSet(s) && w !in LiveSet(s);
    }
  }

  /** In every run, once the channel is closed no worker is starting or receiving, none is being
      added, and no worker ever got the zero function from it. */
  lemma CloseIsSafe(c: Config, evs: seq<Event>)
    requires Possible(c, evs)
    ensures var s := After(c, evs);
            && s.crew.wg == InAdd(s) + |LaunchedSet(s)| + |LiveSet(s)|
            && s.crew.numWorker == |LiveSet(s)| + |UncountingSet(s)|
            && !s.crew.nilCall
            && (s.crew.dispatcher == Closed ==>
                  !s.crew.dispatcher.Added? && forall w :: w in s.crew.workers ==> s.crew.workers[w].Uncounting?)
  {
    RunKeepsCounts(c, evs);
    if After(c, evs).crew.dispatcher == Closed {
      NobodyLeft(After(c, evs));
    }
  }

  lemma ClosedStepIsQuiet(c: Config, s: State, ev: Event)
    requires CountsAgree(s) && ClosedIsQuiet(s) && s.crew.dispatcher == Closed && Enabled(c, s, ev)
    ensures var s' := Step(c, s, ev);
            && s'.crew.dispatcher == Closed && s'.crew.workers.Keys <= s.crew.workers.Keys
            && s'.tasks.queue == s.tasks.queue && s'.tasks.taken == s.tasks.taken && s'.tasks.calls == s.tasks.calls
  {
    NobodyLeft(s);
  }

  /** The channel stays closed: whatever the run goes on to do, no worker is started again, and what
      is still in the channel stays there and never runs. */
  lemma {:induction false} ClosedForGood(c: Config, evs: seq<Event>, k: nat)
    requires Possible(c, evs) && k <= |evs| && Possible(c, evs[..k]) && After(c, evs[..k]).crew.dispatcher == Closed
    ensures var s, s' := After(c, evs[..k]), After(c, evs);
            && s'.crew.dispatcher == Closed && s'.crew.workers.Keys <= s.crew.workers.Keys
            && s'.tasks.queue == s.tasks.queue && s'.tasks.taken == s.tasks.taken && s'.tasks.calls == s.tasks.calls
    decreases |evs|
  {
    if k < |evs| {
      var init := evs[..|evs| - 1];
      assert init[..k] == evs[..k];
      ClosedForGood(c, init, k);
      RunKeepsCounts(c, init);
      ClosedStepIsQuiet(c, After(c, init), evs[|evs| - 1]);
    } else {
      assert evs[..k] == evs;
    }
  }

  /** At every spawn check of the run at most p launched workers are still uncounted. */
  ghost predicate LagAtMost(c: Config, evs: seq<Event>, p: nat)
    requires Possible(c, evs)
    decreases |evs|
  {
    evs == [] ||
    (&& LagAtMost(c, evs[..|evs| - 1], p)
     && (evs[|evs| - 1] == Dispatch(Check) ==> |LaunchedSet(After(c, evs[..|evs| - 1]))| <= p))
  }

  /** Counted and uncounted workers together stay within the limit plus that lag. */
  lemma {:induction false} WorkersBounded(c: Config, evs: seq<Event>, p: nat)
    requires Possible(c, evs) && LagAtMost(c, evs, p)
    ensures var s := After(c, evs); s.crew.numWorker + |LaunchedSet(s)| + InAdd(s) <= c.maxWorker + p
    decreases |evs|
  {
    if evs == [] {
      assert LaunchedSet(START) == {};
    } else {
      var init, ev := evs[..|evs| - 1], evs[|evs| - 1];
      WorkersBounded(c, init, p);
      RunKeepsCounts(c, init);
      var s := After(c, init);
      match ev {
        case Dispatch(a) => DispatcherKeepsCounts(c, s, a);
        case Work(w, a) => WorkerKeepsCounts(s, w, a);
        case _ =>
      }
    }
  }

  // ------------------------------------------------------------------------------------------
  // The bound is attained, so the limit alone is none.

  /** A run that keeps to lag p and in which no task has run, so that every tick reads latency zero. */
  ghost predicate Lagging(c: Config, evs: seq<Event>, p: nat) {
    Possible(c, evs) && LagAtMost(c, evs, p) && forall k :: 0 <= k < |evs| ==> Early(evs[k])
  }

  predicate Early(ev: Event) {
    match ev
    case Tick(avg) => avg == 0.0
    case Work(_, a) => a.Count?
    case _ => true
  }

  lemma ExtendLagging(c: Config, evs: seq<Event>, ev: Event, p: nat) returns (longer: seq<Event>)
    requires Lagging(c, evs, p) && Enabled(c, After(c, evs), ev) && Early(ev)
    requires ev == Dispatch(Check) ==> |LaunchedSet(After(c, evs))| <= p
    ensures Lagging(c, longer, p) && After(c, longer) == Step(c, After(c, evs), ev)
  {
    longer := evs + [ev];
    assert longer[..|longer| - 1] == evs;
  }

  /** i workers have been launched, of which `counted` have counted themselves; a task is waiting, and
      the dispatcher has launched its one worker of this tick, or is between ticks. */
  ghost predicate Launching(s: State, i: nat, counted: nat) {
    && (s.crew.dispatcher == Selecting || s.crew.dispatcher == Spawning(1, 1)) && s.tasks.queue != []
    && s.crew.numWorker == counted <= i && |LaunchedSet(s)| == i - counted
    && (forall w :: w in s.crew.workers ==> w < i)
  }

  lemma NextTick(c: Config, evs: seq<Event>, p: nat, i: nat, counted: nat) returns (longer: seq<Event>)
    requires Lagging(c, evs, p) && Launching(After(c, evs), i, counted) && i - counted <= p
    ensures Lagging(c, longer, p) && After(c, longer).tasks == After(c, evs).tasks
    ensures After(c, longer).crew == After(c, evs).crew.(dispatcher := Spawning(0, 1))
  {
    longer := evs;
    if After(c, evs).crew.dispatcher != Selecting {
      longer := ExtendLagging(c, longer, Dispatch(Check), p);
    }
    longer := ExtendLagging(c, longer, Tick(0.0), p);
  }

  /** One more worker is launched, by a tick of its own, and does not count itself yet. */
  lemma LaunchOne(c: Config, evs: seq<Event>, p: nat, i: nat, counted: nat) returns (longer: seq<Event>)
    requires Lagging(c, evs, p) && Launching(After(c, evs), i, counted) && counted < c.maxWorker && i - counted <= p
    ensures Lagging(c, longer, p) && Launching(After(c, longer), i + 1, counted)
    ensures After(c, longer).crew.workers == After(c, evs).crew.workers[i := Launched]
  {
    longer := NextTick(c, evs, p, i, counted);
    longer := ExtendLagging(c, longer, Dispatch(Check), p);
    LaunchAdds(After(c, longer).crew.workers, i, IsLaunched);
    longer := ExtendLagging(c, longer, Dispatch(Launch(i)), p);
  }

  lemma CountOne(c: Config, evs: seq<Event>, p: nat, i: nat, counted: nat, w: nat) returns (longer: seq<Event>)
    requires Lagging(c, evs, p) && Launching(After(c, evs), i, counted)
    requires w in After(c, evs).crew.workers && After(c, evs).crew.workers[w] == Launched
    ensures Lagging(c, longer, p) && Launching(After(c, longer), i, counted + 1)
  {
    assert w in LaunchedSet(After(c, evs));
    LaunchedAfter(After(c, evs), w, Count);
    longer := ExtendLagging(c, evs, Work(w, Count), p);
  }

  /** As long as every worker counts itself before the next is launched. */
  lemma {:induction false} LaunchCounted(c: Config, evs: seq<Event>, p: nat, i: nat, until: nat)
      returns (longer: seq<Event>)
    requires Lagging(c, evs, p) && Launching(After(c, evs), i, i) && i <= until < c.maxWorker
    ensures Lagging(c, longer, p) && Launching(After(c, longer), until, until)
    decreases until - i
  {
    longer := evs;
    if i < until {
      longer := LaunchOne(c, longer, p, i, i);
      longer := CountOne(c, longer, p, i + 1, i, i);
      longer := LaunchCounted(c, longer, p, i + 1, until);
    }
  }

  lemma {:induction false} LaunchUncounted(c: Config, evs: seq<Event>, p: nat, i: nat, until: nat, counted: nat)
      returns (longer: seq<Event>)
    requires Lagging(c, evs, p) && Launching(After(c, evs), i, counted)
    requires i <= until <= counted + p + 1 && counted < c.maxWorker
    ensures Lagging(c, longer, p) && Launching(After(c, longer), until, counted)
    decreases until - i
  {
    longer := evs;
    if i < until {
      longer := LaunchOne(c, longer, p, i, counted);
      longer := LaunchUncounted(c, longer, p, i + 1, until, counted);
    }
  }

  lemma {:induction false} CountAll(c: Config, evs: seq<Event>, p: nat, i: nat, counted: nat)
      returns (longer: seq<Event>)
    requires Lagging(c, evs, p) && Launching(After(c, evs), i, counted)
    ensures Lagging(c, longer, p) && Launching(After(c, longer), i, i)
    decreases i - counted
  {
    longer := evs;
    if counted < i {
      assert LaunchedSet(After(c, evs)) != {};
      var w :| w in LaunchedSet(After(c, evs));
      longer := CountOne(c, longer, p, i, counted, w);
      longer := CountAll(c, longer, p, i, counted + 1);
    }
  }

  lemma OneTaskWaiting(c: Config, p: nat) returns (evs: seq<Event>)
    requires c.maxChanSize > 0
    ensures Lagging(c, evs, p) && Launching(After(c, evs), 0, 0)
  {
    evs := ExtendLagging(c, [], Producer(0, Offer), p);
    evs := ExtendLagging(c, evs, Producer(0, Accept), p);
    assert LaunchedSet(After(c, evs)) == {};
  }

  /** For every limit and every lag there is a run that keeps to the lag and ends with the limit and
      the lag together counted: every tick reads latency zero and launches one worker; all but the last
      counted worker count themselves in time, and then p + 1 are launched before any of them does. */
  lemma BoundIsAttained(c: Config, p: nat) returns (evs: seq<Event>)
    requires c.maxWorker > 0 && c.maxChanSize > 0
    ensures Possible(c, evs) && LagAtMost(c, evs, p) && After(c, evs).crew.numWorker == c.maxWorker + p
    ensures forall k, w :: 0 <= k < |evs| ==> evs[k] != Work(w, Begin)
    ensures forall k :: 0 <= k < |evs| && evs[k].Tick? ==> evs[k].avgLatency == 0.0
  {
    var first := c.maxWorker - 1;
    evs := OneTaskWaiting(c, p);
    evs := LaunchCounted(c, evs, p, 0, first);
    evs := LaunchUncounted(c, evs, p, first, c.maxWorker + p, first);
    evs := CountAll(c, evs, p, c.maxWorker + p, first);
    forall k | 0 <= k < |evs| ensures Early(evs[k]) {}
  }

  /** No worker, and none to come. */
  ghost predicate Dormant(c: Config, s: State) {
    s.crew.workers == map[] && !s.crew.dispatcher.Added? && (c.maxChanSize == 0 ==> !s.crew.dispatcher.Spawning?)
  }

  lemma DormantStep(c: Config, s: State, ev: Event)
    requires Dormant(c, s) && s.crew.numWorker == 0 && Enabled(c, s, ev)
    requires (c.maxWorker == 0 || c.maxChanSize == 0) && (c.maxChanSize == 0 ==> s.tasks.queue == [])
    ensures Dormant(c, Step(c, s, ev)) && Step(c, s, ev).crew.numWorker == 0
  {
    match ev {
      case Producer(t, a) => assert Step(c, s, ev) == ProducerStep(s, t, a);
      case Dispatch(a) => assert !a.Launch?;
      case _ =>
    }
  }

  lemma {:induction false} StaysDormant(c: Config, evs: seq<Event>)
    requires Possible(c, evs) && (c.maxWorker == 0 || c.maxChanSize == 0)
    ensures Dormant(c, After(c, evs)) && After(c, evs).crew.numWorker == 0
    decreases |evs|
  {
    if evs != [] {
      var init, ev := evs[..|evs| - 1], evs[|evs| - 1];
      StaysDormant(c, init);
      RunKeepsTasks(c, init);
      DormantStep(c, After(c, init), ev);
    }
  }

  /** The number of counted workers stays within the limit in every run only for a scheduler that can
      have no worker, or no task. */
  lemma LimitHoldsIff(c: Config)
    ensures (forall evs :: Possible(c, evs) ==> After(c, evs).crew.numWorker <= c.maxWorker)
       <==> c.maxWorker == 0 || c.maxChanSize == 0
  {
    if c.maxWorker == 0 || c.maxChanSize == 0 {
      forall evs | Possible(c, evs) ensures After(c, evs).crew.numWorker <= c.maxWorker {
        StaysDormant(c, evs);
      }
    } else {
      var evs := BoundIsAttained(c, 1);
    }
  }

  /** The least number of workers that covers the backlog at this latency; one while nothing is known. */
  ghost predicate Covers(need: int, backlog: nat, avg: real) {
    var work := backlog as real * (avg / 1000000000.0);
    if avg > 0.0 then (need - 1) as real < work <= need as real else need == 1
  }

  lemma NeedIsCeiling(backlog: nat, avg: real)
    requires backlog > 0
    ensures Covers(Need(backlog, avg), backlog, avg) && Need(backlog, avg) >= 1
  {
    if avg > 0.0 {
      var work := backlog as real * (avg / 1000000000.0);
      assert work > 0.0;
    }
  }

  /** A tick finds something in the channel, and asks for the workers that what it finds there needs. */
  lemma TickAsks(c: Config, s: State, avg: real)
    requires Enabled(c, s, Tick(avg))
    ensures s.tasks.queue != []
    ensures var d := Step(c, s, Tick(avg)).crew.dispatcher;
            d.Spawning? && d.i == 0 && Covers(d.need, |s.tasks.queue|, avg)
  {
    NeedIsCeiling(|s.tasks.queue|, avg);
  }

  // ------------------------------------------------------------------------------------------
  // Tasks.

  predicate WasAccepted(f: Fate) { f.Queued? || f.Held? || f.Started? || f.Ran? || f.Skipped? }
  predicate WasCalled(f: Fate) { f.Started? || f.Ran? }
  predicate HasRun(f: Fate) { f.Ran? }
  predicate WasSkipped(f: Fate) { f.Skipped? }
  predicate IsWaiting(f: Fate) { f.Offered? }
  predicate WasDropped(f: Fate) { f.Dropped? }
  predicate HasPanicked(f: Fate) { f.SendPanicked? }
  predicate Busy(k: Worker) { k.Got? || k.Running? }

  /** First in, first out, each accepted task once, and never more than the channel holds. */
  ghost predicate OrderOk(c: Config, s: State) {
    s.tasks.accepted == s.tasks.taken + s.tasks.queue && NoRepeats(s.tasks.accepted) && |s.tasks.queue| <= c.maxChanSize
  }

  ghost predicate PlacedOk(s: State, t: nat) {
    && (t in s.tasks.queue <==> Has(s, t, Queued))
    && (t in s.tasks.accepted <==> t in s.tasks.fate && WasAccepted(s.tasks.fate[t]))
  }

  ghost predicate PlacesOk(s: State) {
    forall t :: PlacedOk(s, t)
  }

  /** A worker holds a task exactly in the state the task says it is in. */
  ghost predicate HandOk(s: State, w: nat)
    requires w in s.crew.workers
  {
    && (s.crew.workers[w].Got? ==> Has(s, s.crew.workers[w].task, Held))
    && (s.crew.workers[w].Running? ==> Has(s, s.crew.workers[w].task, Started))
  }

  /** Nobody else holds it. */
  ghost predicate Apart(s: State, v: nat, w: nat)
    requires v in s.crew.workers && w in s.crew.workers
  {
    v != w && Busy(s.crew.workers[v]) && Busy(s.crew.workers[w]) ==> s.crew.workers[v].task != s.crew.workers[w].task
  }

  ghost predicate HandsOk(s: State) {
    && (forall w :: w in s.crew.workers ==> HandOk(s, w))
    && (forall v, w :: v in s.crew.workers && w in s.crew.workers ==> Apart(s, v, w))
  }

  /** Each task is called at most once, and a task is dropped only at a full queue and when its
      producer did not block. */
  ghost predicate LogOk(c: Config, s: State, t: nat) {
    && (t in s.tasks.calls <==> t in s.tasks.fate && WasCalled(s.tasks.fate[t]))
    && (t in s.tasks.fate ==> t in s.tasks.blocking)
    && (Has(s, t, Dropped) ==> DroppedWhenFull(c, s, t))
  }

  ghost predicate DroppedWhenFull(c: Config, s: State, t: nat) {
    && t in s.tasks.blocking && !s.tasks.blocking[t]
    && t in s.tasks.atDrop && s.tasks.atDrop[t] == c.maxChanSize
  }

  ghost predicate LogsOk(c: Config, s: State) {
    NoRepeats(s.tasks.calls) && forall t :: LogOk(c, s, t)
  }

  ghost predicate TasksOk(c: Config, s: State) {
    OrderOk(c, s) && PlacesOk(s) && HandsOk(s) && LogsOk(c, s)
  }

  /** Every task that left the channel is in a worker's hands, has run, or was skipped. */
  ghost predicate TakenAddUp(s: State) {
    |s.tasks.taken| == |Where(s.crew.workers, Busy)| + |Where(s.tasks.fate, HasRun)| + |Where(s.tasks.fate, WasSkipped)|
  }

  ghost predicate OfferedAddUp(s: State) {
    |s.tasks.fate| == |s.tasks.accepted| + |Where(s.tasks.fate, WasDropped)|
                      + |Where(s.tasks.fate, IsWaiting)| + |Where(s.tasks.fate, HasPanicked)|
  }

  lemma AppendKeepsDistinct(q: seq<nat>, t: nat)
    requires NoRepeats(q) && t !in q
    ensures NoRepeats(q + [t])
  {
  }

  lemma HeadOfQueue(c: Config, s: State)
    requires OrderOk(c, s) && PlacesOk(s) && |s.tasks.queue| > 0
    ensures Has(s, s.tasks.queue[0], Queued)
    ensures forall t :: t in s.tasks.queue[1..] <==> t in s.tasks.queue && t != s.tasks.queue[0]
    ensures s.tasks.taken + [s.tasks.queue[0]] + s.tasks.queue[1..] == s.tasks.taken + s.tasks.queue
  {
    var head, tail := s.tasks.queue[0], s.tasks.queue[1..];
    assert PlacedOk(s, head);
    assert s.tasks.queue == [head] + tail;
    forall i | 0 <= i < |tail| ensures tail[i] != head {
      assert s.tasks.accepted[|s.tasks.taken|] == head && s.tasks.accepted[|s.tasks.taken| + 1 + i] == tail[i];
    }
  }

  lemma HandKnown(s: State, w: nat)
    requires HandsOk(s) && w in s.crew.workers
    ensures HandOk(s, w)
  {
  }

  lemma ProducerKeepsTasks(c: Config, s: State, t: nat, a: ProducerAction)
    requires TasksOk(c, s) && ProducerCan(c, s, t, a)
    ensures TasksOk(c, ProducerStep(s, t, a))
  {
    var s' := ProducerStep(s, t, a);
    assert PlacedOk(s, t) && LogOk(c, s, t);
    if a.Accept? {
      AppendKeepsDistinct(s.tasks.accepted, t);
      assert s.tasks.taken + (s.tasks.queue + [t]) == s.tasks.taken + s.tasks.queue + [t];
    }
    forall u ensures PlacedOk(s', u) && LogOk(c, s', u) {
      assert PlacedOk(s, u) && LogOk(c, s, u);
    }
    forall w | w in s'.crew.workers ensures HandOk(s', w) {
      HandKnown(s, w);
    }
    forall v, w | v in s'.crew.workers && w in s'.crew.workers ensures Apart(s', v, w) {
      assert Apart(s, v, w);
    }
  }

  /** The tasks do not depend on the dispatcher, the counters, or workers that hold nothing. */
  lemma OthersKeepTasks(c: Config, s: State, s': State)
    requires TasksOk(c, s) && s'.tasks == s.tasks
    requires forall w :: w in s'.crew.workers && Busy(s'.crew.workers[w]) ==>
               w in s.crew.workers && s.crew.workers[w] == s'.crew.workers[w]
    ensures TasksOk(c, s')
  {
    forall u ensures PlacedOk(s', u) && LogOk(c, s', u) {
      assert PlacedOk(s, u) && LogOk(c, s, u);
    }
    forall w | w in s'.crew.workers ensures HandOk(s', w) {
      if Busy(s'.crew.workers[w]) { HandKnown(s, w); }
    }
    forall v, w | v in s'.crew.workers && w in s'.crew.workers ensures Apart(s', v, w) {
      if Busy(s'.crew.workers[v]) && Busy(s'.crew.workers[w]) { assert Apart(s, v, w); }
    }
  }

  lemma WorkerKeepsOrder(c: Config, s: State, w: nat, a: WorkerAction)
    requires TasksOk(c, s) && WorkerCan(s, w, a)
    ensures OrderOk(c, WorkerStep(s, w, a)) && NoRepeats(WorkerStep(s, w, a).tasks.calls)
  {
    if a.Take? {
      HeadOfQueue(c, s);
    } else if a.Begin? {
      HandKnown(s, w);
      assert LogOk(c, s, s.crew.workers[w].task);
      if !s.cancelled { AppendKeepsDistinct(s.tasks.calls, s.crew.workers[w].task); }
    }
  }

  lemma WorkerKeepsPlace(c: Config, s: State, w: nat, a: WorkerAction, t: nat)
    requires TasksOk(c, s) && WorkerCan(s, w, a)
    ensures PlacedOk(WorkerStep(s, w, a), t) && LogOk(c, WorkerStep(s, w, a), t)
  {
    assert PlacedOk(s, t) && LogOk(c, s, t);
    HandKnown(s, w);
    if a.Take? { HeadOfQueue(c, s); }
  }

  lemma WorkerKeepsHand(c: Config, s: State, w: nat, a: WorkerAction, v: nat)
    requires TasksOk(c, s) && WorkerCan(s, w, a) && v in WorkerStep(s, w, a).crew.workers
    ensures HandOk(WorkerStep(s, w, a), v)
  {
    HandKnown(s, v);
    HandKnown(s, w);
    assert Apart(s, v, w);
    if a.Take? { HeadOfQueue(c, s); }
  }

  lemma WorkerKeepsApart(c: Config, s: State, w: nat, a: WorkerAction, u: nat, v: nat)
    requires TasksOk(c, s) && WorkerCan(s, w, a)
    requires u in WorkerStep(s, w, a).crew.workers && v in WorkerStep(s, w, a).crew.workers
    ensures Apart(WorkerStep(s, w, a), u, v)
  {
    HandKnown(s, u);
    HandKnown(s, v);
    assert Apart(s, u, v);
    if a.Take? { HeadOfQueue(c, s); }
  }

  lemma WorkerKeepsTasks(c: Config, s: State, w: nat, a: WorkerAction)
    requires TasksOk(c, s) && WorkerCan(s, w, a)
    ensures TasksOk(c, WorkerStep(s, w, a))
  {
    var s' := WorkerStep(s, w, a);
    WorkerKeepsOrder(c, s, w, a);
    forall t ensures PlacedOk(s', t) && LogOk(c, s', t) { WorkerKeepsPlace(c, s, w, a, t); }
    forall v | v in s'.crew.workers ensures HandOk(s', v) { WorkerKeepsHand(c, s, w, a, v); }
    forall u, v | u in s'.crew.workers && v in s'.crew.workers ensures Apart(s', u, v) {
      WorkerKeepsApart(c, s, w, a, u, v);
    }
  }

  /** How the number of tasks with a kind of fate changes when one task's fate does. */
  lemma FateMoves(fates: map<nat, Fate>, t: nat, f: Fate, p: Fate -> bool)
    ensures |Where(fates[t := f], p)| == |Where(fates, p)| + One(p(f)) - One(t in fates && p(fates[t]))
  {
    assert fates - {t} == fates[t := f] - {t};
    OneMoves(fates, fates[t := f], t, p);
  }

  lemma ProducerKeepsSums(c: Config, s: State, t: nat, a: ProducerAction)
    requires TakenAddUp(s) && OfferedAddUp(s) && ProducerCan(c, s, t, a)
    ensures TakenAddUp(ProducerStep(s, t, a)) && OfferedAddUp(ProducerStep(s, t, a))
  {
    var f := ProducerStep(s, t, a).tasks.fate[t];
    FateMoves(s.tasks.fate, t, f, HasRun);
    FateMoves(s.tasks.fate, t, f, WasSkipped);
    FateMoves(s.tasks.fate, t, f, WasDropped);
    FateMoves(s.tasks.fate, t, f, IsWaiting);
    FateMoves(s.tasks.fate, t, f, HasPanicked);
  }

  lemma BusyAfter(s: State, w: nat, a: WorkerAction)
    requires WorkerCan(s, w, a)
    ensures |Where(WorkerStep(s, w, a).crew.workers, Busy)|
         == |Where(s.crew.workers, Busy)| + One(a.Take?) - One(a.Finish?) - One(a.Begin? && s.cancelled)
  {
    assert s.crew.workers - {w} == WorkerStep(s, w, a).crew.workers - {w};
    OneMoves(s.crew.workers, WorkerStep(s, w, a).crew.workers, w, Busy);
  }

  lemma FatesAfter(c: Config, s: State, w: nat, a: WorkerAction)
    requires TasksOk(c, s) && WorkerCan(s, w, a)
    ensures var s' := WorkerStep(s, w, a);
            && |Where(s'.tasks.fate, HasRun)| == |Where(s.tasks.fate, HasRun)| + One(a.Finish?)
            && |Where(s'.tasks.fate, WasSkipped)| == |Where(s.tasks.fate, WasSkipped)| + One(a.Begin? && s.cancelled)
            && |Where(s'.tasks.fate, WasDropped)| == |Where(s.tasks.fate, WasDropped)|
            && |Where(s'.tasks.fate, IsWaiting)| == |Where(s.tasks.fate, IsWaiting)|
            && |Where(s'.tasks.fate, HasPanicked)| == |Where(s.tasks.fate, HasPanicked)|
            && |s'.tasks.fate| == |s.tasks.fate|
  {
    if a.Take? || a.Begin? || a.Finish? {
      HandKnown(s, w);
      if a.Take? { HeadOfQueue(c, s); }
      var t := if a.Take? then s.tasks.queue[0] else s.crew.workers[w].task;
      var f := WorkerStep(s, w, a).tasks.fate[t];
      FateMoves(s.tasks.fate, t, f, HasRun);
      FateMoves(s.tasks.fate, t, f, WasSkipped);
      FateMoves(s.tasks.fate, t, f, WasDropped);
      FateMoves(s.tasks.fate, t, f, IsWaiting);
      FateMoves(s.tasks.fate, t, f, HasPanicked);
    }
  }

  lemma WorkerKeepsSums(c: Config, s: State, w: nat, a: WorkerAction)
    requires TasksOk(c, s) && TakenAddUp(s) && OfferedAddUp(s) && WorkerCan(s, w, a)
    ensures TakenAddUp(WorkerStep(s, w, a)) && OfferedAddUp(WorkerStep(s, w, a))
  {
    BusyAfter(s, w, a);
    FatesAfter(c, s, w, a);
  }

  lemma DispatcherKeepsSums(c: Config, s: State, a: DispatcherAction)
    requires TakenAddUp(s) && OfferedAddUp(s) && DispatcherCan(s, a)
    ensures TakenAddUp(DispatcherStep(c, s, a)) && OfferedAddUp(DispatcherStep(c, s, a))
  {
    DispatcherKeepsBusy(c, s, a);
  }

  lemma DispatcherKeepsBusy(c: Config, s: State, a: DispatcherAction)
    requires DispatcherCan(s, a)
    ensures |Where(DispatcherStep(c, s, a).crew.workers, Busy)| == |Where(s.crew.workers, Busy)|
  {
    if a.Launch? { LaunchAdds(s.crew.workers, a.w, Busy); }
  }

  lemma DispatcherKeepsTasks(c: Config, s: State, a: DispatcherAction)
    requires TasksOk(c, s) && DispatcherCan(s, a)
    ensures TasksOk(c, DispatcherStep(c, s, a))
  {
    OthersKeepTasks(c, s, DispatcherStep(c, s, a));
  }

  lemma StepKeepsTasks(c: Config, s: State, ev: Event)
    requires TasksOk(c, s) && Enabled(c, s, ev)
    ensures TasksOk(c, Step(c, s, ev))
  {
    match ev {
      case Producer(t, a) => ProducerKeepsTasks(c, s, t, a);
      case Dispatch(a) => DispatcherKeepsTasks(c, s, a);
      case Work(w, a) => WorkerKeepsTasks(c, s, w, a);
      case _ => OthersKeepTasks(c, s, Step(c, s, ev));
    }
  }

  lemma StepKeepsSums(c: Config, s: State, ev: Event)
    requires TasksOk(c, s) && TakenAddUp(s) && OfferedAddUp(s) && Enabled(c, s, ev)
    ensures TakenAddUp(Step(c, s, ev)) && OfferedAddUp(Step(c, s, ev))
  {
    match ev {
      case Producer(t, a) => ProducerKeepsSums(c, s, t, a);
      case Dispatch(a) => DispatcherKeepsSums(c, s, a);
      case Work(w, a) => WorkerKeepsSums(c, s, w, a);
      case _ =>
    }
  }

  lemma {:induction false} RunKeepsTasks(c: Config, evs: seq<Event>)
    requires Possible(c, evs)
    ensures TasksOk(c, After(c, evs))
    ensures TakenAddUp(After(c, evs)) && OfferedAddUp(After(c, evs))
    decreases |evs|
  {
    if evs != [] {
      var init, ev := evs[..|evs| - 1], evs[|evs| - 1];
      RunKeepsTasks(c, init);
      var s := After(c, init);
      StepKeepsTasks(c, s, ev);
      StepKeepsSums(c, s, ev);
    }
  }

  /** The ledger of a run: what was offered, what became of it, and in which order it left. */
  lemma TasksAreConserved(c: Config, evs: seq<Event>)
    requires Possible(c, evs)
    ensures var s := After(c, evs);
            && |s.tasks.fate| == |s.tasks.accepted| + |Where(s.tasks.fate, WasDropped)|
                           + |Where(s.tasks.fate, IsWaiting)| + |Where(s.tasks.fate, HasPanicked)|
            && |s.tasks.accepted| == |s.tasks.queue| + |Where(s.crew.workers, Busy)|
                               + |Where(s.tasks.fate, HasRun)| + |Where(s.tasks.fate, WasSkipped)|
            && s.tasks.taken <= s.tasks.accepted && s.tasks.queue == s.tasks.accepted[|s.tasks.taken|..]
            && |s.tasks.queue| <= c.maxChanSize
            && NoRepeats(s.tasks.accepted) && NoRepeats(s.tasks.calls)
            && (forall t :: t in s.tasks.calls ==> t in s.tasks.taken)
            && (forall t :: Has(s, t, Dropped) ==> DroppedWhenFull(c, s, t))
  {
    RunKeepsTasks(c, evs);
    var s := After(c, evs);
    forall t | t in s.tasks.calls ensures t in s.tasks.taken {
      assert LogOk(c, s, t) && PlacedOk(s, t);
    }
    forall t | Has(s, t, Dropped) ensures DroppedWhenFull(c, s, t) {
      assert LogOk(c, s, t);
    }
  }

  /** No producer sends once the channel is closed. */
  ghost predicate NoLateSends(evs: seq<Event>) {
    forall k, t :: 0 <= k < |evs| ==> evs[k] != Producer(t, SendOnClosed)
  }

  ghost predicate NonePanicked(s: State) {
    forall t :: t in s.tasks.fate ==> !s.tasks.fate[t].SendPanicked?
  }

  lemma WorkWithoutPanic(s: State, w: nat, a: WorkerAction)
    requires NonePanicked(s) && WorkerCan(s, w, a)
    ensures NonePanicked(WorkerStep(s, w, a))
  {
  }

  lemma StepWithoutPanic(c: Config, s: State, ev: Event)
    requires NonePanicked(s) && Enabled(c, s, ev) && (ev.Producer? ==> !ev.pa.SendOnClosed?)
    ensures NonePanicked(Step(c, s, ev))
  {
    match ev {
      case Work(w, a) => WorkWithoutPanic(s, w, a);
      case Producer(t, a) => assert ProducerCan(c, s, t, a);
      case _ =>
    }
  }

  lemma {:induction false} NobodyPanics(c: Config, evs: seq<Event>)
    requires Possible(c, evs) && NoLateSends(evs)
    ensures NonePanicked(After(c, evs))
    decreases |evs|
  {
    if evs != [] {
      var init, ev := evs[..|evs| - 1], evs[|evs| - 1];
      NobodyPanics(c, init);
      assert ev.Producer? ==> ev != Producer(ev.task, SendOnClosed);
      StepWithoutPanic(c, After(c, init), ev);
    }
  }

  /** Without sends after the close, whatever was offered has been accepted or dropped, or its producer
      is still waiting. */
  lemma OfferedIsAcceptedOrDropped(c: Config, evs: seq<Event>)
    requires Possible(c, evs) && NoLateSends(evs)
    ensures var s := After(c, evs);
            |s.tasks.fate| == |s.tasks.accepted| + |Where(s.tasks.fate, WasDropped)| + |Where(s.tasks.fate, IsWaiting)|
  {
    RunKeepsTasks(c, evs);
    NobodyPanics(c, evs);
    assert Where(After(c, evs).tasks.fate, HasPanicked) == {};
  }

  // ------------------------------------------------------------------------------------------
  // What became of a task, against the events of the run.

  lemma {:induction false} PrefixIsPossible(c: Config, evs: seq<Event>, k: nat)
    requires Possible(c, evs) && k <= |evs|
    ensures Possible(c, evs[..k])
    decreases |evs|
  {
    if k < |evs| {
      var init := evs[..|evs| - 1];
      PrefixIsPossible(c, init, k);
      assert init[..k] == evs[..k];
    } else {
      assert evs[..k] == evs;
    }
  }

  /** Event k of the run is `ev`, and it comes in state s. */
  ghost predicate Happens(c: Config, evs: seq<Event>, k: nat, ev: Event, s: State) {
    k < |evs| && evs[k] == ev && Possible(c, evs[..k]) && After(c, evs[..k]) == s
  }

  lemma HappensInLonger(c: Config, evs: seq<Event>, n: nat, k: nat, ev: Event, s: State)
    requires n <= |evs| && Happens(c, evs[..n], k, ev, s)
    ensures Happens(c, evs, k, ev, s)
  {
    assert evs[..n][..k] == evs[..k];
  }

  lemma HappensLast(c: Config, evs: seq<Event>)
    requires Possible(c, evs) && evs != []
    ensures var k := |evs| - 1; Happens(c, evs, k, evs[k], After(c, evs[..k])) && Enabled(c, After(c, evs[..k]), evs[k])
  {
  }

  /** The flag is on after an odd number of reloads of it. */
  function Toggles(evs: seq<Event>): nat {
    if evs == [] then 0 else Toggles(evs[..|evs| - 1]) + One(evs[|evs| - 1].Toggle?)
  }

  lemma {:induction false} FlagIsParity(c: Config, evs: seq<Event>)
    requires Possible(c, evs)
    ensures After(c, evs).processAll <==> Toggles(evs) % 2 == 1
    decreases |evs|
  {
    if evs != [] {
      FlagIsParity(c, evs[..|evs| - 1]);
      FlagAfter(c, After(c, evs[..|evs| - 1]), evs[|evs| - 1]);
    }
  }

  lemma FlagAfter(c: Config, s: State, ev: Event)
    requires Enabled(c, s, ev)
    ensures Step(c, s, ev).processAll == if ev.Toggle? then !s.processAll else s.processAll
    ensures Step(c, s, ev).cancelled <==> s.cancelled || ev.Cancel?
  {
  }

  /** The context is done just when it was cancelled before. */
  lemma {:induction false} CancelledMeans(c: Config, evs: seq<Event>)
    requires Possible(c, evs)
    ensures After(c, evs).cancelled <==> exists k :: 0 <= k < |evs| && evs[k] == Cancel
    decreases |evs|
  {
    if evs != [] {
      var init := evs[..|evs| - 1];
      CancelledMeans(c, init);
      FlagAfter(c, After(c, init), evs[|evs| - 1]);
      if k :| 0 <= k < |init| && init[k] == Cancel {
        assert evs[k] == Cancel;
      }
    }
  }

  lemma OfferAfter(c: Config, s: State, ev: Event, t: nat)
    requires TasksOk(c, s) && Enabled(c, s, ev) && t in Step(c, s, ev).tasks.fate && t in Step(c, s, ev).tasks.blocking
    ensures ev == Producer(t, Offer) ==>
              t !in s.tasks.fate && Step(c, s, ev).tasks.blocking[t] == s.processAll
    ensures ev != Producer(t, Offer) ==>
              && t in s.tasks.fate && t in s.tasks.blocking
              && Step(c, s, ev).tasks.blocking[t] == s.tasks.blocking[t]
  {
    match ev {
      case Producer(u, a) => assert PlacedOk(s, u) && LogOk(c, s, u) && LogOk(c, s, t);
      case Work(w, a) =>
        HandKnown(s, w);
        if a.Take? { HeadOfQueue(c, s); }
        assert LogOk(c, s, t);
      case _ => assert LogOk(c, s, t);
    }
  }

  /** Every task in the ledger was offered by an event of the run, and whether its producer blocks is
      what the flag was then. */
  lemma {:induction false} OfferSeen(c: Config, evs: seq<Event>, t: nat) returns (k: nat, s: State)
    requires Possible(c, evs) && t in After(c, evs).tasks.fate
    ensures Happens(c, evs, k, Producer(t, Offer), s)
    ensures t in After(c, evs).tasks.blocking && After(c, evs).tasks.blocking[t] == s.processAll
    decreases |evs|
  {
    var n := |evs| - 1;
    var before, ev := After(c, evs[..n]), evs[n];
    RunKeepsTasks(c, evs);
    RunKeepsTasks(c, evs[..n]);
    assert LogOk(c, After(c, evs), t);
    OfferAfter(c, before, ev, t);
    if ev == Producer(t, Offer) {
      HappensLast(c, evs);
      k, s := n, before;
    } else {
      k, s := OfferSeen(c, evs[..n], t);
      HappensInLonger(c, evs, n, k, Producer(t, Offer), s);
    }
  }

  lemma DropAfter(c: Config, s: State, ev: Event, t: nat)
    requires TasksOk(c, s) && Enabled(c, s, ev) && Has(Step(c, s, ev), t, Dropped)
    ensures if ev == Producer(t, Drop) then Has(s, t, Offered) && |s.tasks.queue| == c.maxChanSize
            else Has(s, t, Dropped)
  {
    match ev {
      case Work(w, a) =>
        HandKnown(s, w);
        if a.Take? { HeadOfQueue(c, s); }
      case _ =>
    }
  }

  lemma {:induction false} DropSeen(c: Config, evs: seq<Event>, t: nat) returns (j: nat, s: State)
    requires Possible(c, evs) && Has(After(c, evs), t, Dropped)
    ensures Happens(c, evs, j, Producer(t, Drop), s) && |s.tasks.queue| == c.maxChanSize && Has(s, t, Offered)
    ensures t in s.tasks.blocking && !s.tasks.blocking[t]
    decreases |evs|
  {
    var n := |evs| - 1;
    var before, ev := After(c, evs[..n]), evs[n];
    RunKeepsTasks(c, evs[..n]);
    DropAfter(c, before, ev, t);
    if ev == Producer(t, Drop) {
      HappensLast(c, evs);
      j, s := n, before;
    } else {
      j, s := DropSeen(c, evs[..n], t);
      HappensInLonger(c, evs, n, j, Producer(t, Drop), s);
    }
  }

  /** A task that was dropped had been offered while the flag was off, and met a full channel. */
  lemma DroppedWasOfferedUnblocked(c: Config, evs: seq<Event>, t: nat)
      returns (k: nat, offered: State, j: nat, dropped: State)
    requires Possible(c, evs) && Has(After(c, evs), t, Dropped)
    ensures k < j && Happens(c, evs, k, Producer(t, Offer), offered) && !offered.processAll
    ensures Happens(c, evs, j, Producer(t, Drop), dropped) && |dropped.tasks.queue| == c.maxChanSize
  {
    j, dropped := DropSeen(c, evs, t);
    k, offered := OfferSeen(c, evs[..j], t);
    HappensInLonger(c, evs, j, k, Producer(t, Offer), offered);
  }

  lemma {:induction false} LedgerStays(c: Config, evs: seq<Event>, k: nat, t: nat)
    requires Possible(c, evs) && k <= |evs| && Possible(c, evs[..k]) && t in After(c, evs[..k]).tasks.fate
    ensures t in After(c, evs).tasks.fate
    decreases |evs|
  {
    if k < |evs| {
      var init := evs[..|evs| - 1];
      assert init[..k] == evs[..k];
      LedgerStays(c, init, k, t);
      StepKeepsLedger(c, After(c, init), evs[|evs| - 1], t);
    } else {
      assert evs[..k] == evs;
    }
  }

  lemma StepKeepsLedger(c: Config, s: State, ev: Event, t: nat)
    requires Enabled(c, s, ev) && t in s.tasks.fate
    ensures t in Step(c, s, ev).tasks.fate
  {
  }

  lemma OfferedOnce(c: Config, evs: seq<Event>, t: nat, k: nat, s: State, j: nat, s': State)
    requires Possible(c, evs) && k < j && Happens(c, evs, k, Producer(t, Offer), s)
    ensures !Happens(c, evs, j, Producer(t, Offer), s')
  {
    if Happens(c, evs, j, Producer(t, Offer), s') {
      PrefixIsPossible(c, evs, k + 1);
      PrefixIsPossible(c, evs, j + 1);
      assert evs[..k + 1][..k] == evs[..k] && evs[..j + 1][..j] == evs[..j];
      assert evs[..j][..k + 1] == evs[..k + 1];
      LedgerStays(c, evs[..j], k + 1, t);
    }
  }

  /** A task offered while the flag is on is never dropped, whatever becomes of the flag afterwards. */
  lemma BlockingOfferIsNeverDropped(c: Config, evs: seq<Event>, t: nat, k: nat, s: State)
    requires Possible(c, evs) && Happens(c, evs, k, Producer(t, Offer), s) && s.processAll
    ensures !Has(After(c, evs), t, Dropped)
  {
    if Has(After(c, evs), t, Dropped) {
      var i, offered, j, dropped := DroppedWasOfferedUnblocked(c, evs, t);
      if i < k {
        OfferedOnce(c, evs, t, i, offered, k, s);
      } else if k < i {
        OfferedOnce(c, evs, t, k, s, i, offered);
      }
    }
  }

  // ------------------------------------------------------------------------------------------
  // Which tasks are called, and which skipped.

  lemma BegunAfter(c: Config, s: State, ev: Event, t: nat)
    requires TasksOk(c, s) && Enabled(c, s, ev)
    ensures Has(Step(c, s, ev), t, Skipped) ==>
              Has(s, t, Skipped) || (ev.Work? && ev.wa.Begin? && s.crew.workers[ev.w] == Got(t) && s.cancelled)
    ensures t in Step(c, s, ev).tasks.calls ==>
              t in s.tasks.calls || (ev.Work? && ev.wa.Begin? && s.crew.workers[ev.w] == Got(t) && !s.cancelled)
  {
    match ev {
      case Work(w, a) =>
        HandKnown(s, w);
        if a.Take? { HeadOfQueue(c, s); }
      case _ =>
    }
  }

  /** A task is skipped only by a worker that comes to it after the context was cancelled. */
  lemma {:induction false} SkippedAfterCancel(c: Config, evs: seq<Event>, t: nat) returns (k: nat, w: nat, s: State)
    requires Possible(c, evs) && Has(After(c, evs), t, Skipped)
    ensures Happens(c, evs, k, Work(w, Begin), s) && s.cancelled && w in s.crew.workers && s.crew.workers[w] == Got(t)
    decreases |evs|
  {
    var n := |evs| - 1;
    var before, ev := After(c, evs[..n]), evs[n];
    RunKeepsTasks(c, evs[..n]);
    BegunAfter(c, before, ev, t);
    if Has(before, t, Skipped) {
      k, w, s := SkippedAfterCancel(c, evs[..n], t);
      HappensInLonger(c, evs, n, k, Work(w, Begin), s);
    } else {
      HappensLast(c, evs);
      k, w, s := n, ev.w, before;
    }
  }

  /** And called only by one that comes to it before. */
  lemma {:induction false} CalledBeforeCancel(c: Config, evs: seq<Event>, t: nat) returns (k: nat, w: nat, s: State)
    requires Possible(c, evs) && t in After(c, evs).tasks.calls
    ensures Happens(c, evs, k, Work(w, Begin), s) && !s.cancelled && w in s.crew.workers && s.crew.workers[w] == Got(t)
    decreases |evs|
  {
    var n := |evs| - 1;
    var before, ev := After(c, evs[..n]), evs[n];
    RunKeepsTasks(c, evs[..n]);
    BegunAfter(c, before, ev, t);
    if t in before.tasks.calls {
      k, w, s := CalledBeforeCancel(c, evs[..n], t);
      HappensInLonger(c, evs, n, k, Work(w, Begin), s);
    } else {
      HappensLast(c, evs);
      k, w, s := n, ev.w, before;
    }
  }

  /** The dispatcher waits for its workers and closes the channel only once the context is cancelled. */
  lemma {:induction false} ClosesAfterCancel(c: Config, evs: seq<Event>)
    requires Possible(c, evs)
    ensures After(c, evs).crew.dispatcher in {Waiting, Closed} ==> After(c, evs).cancelled
    decreases |evs|
  {
    if evs != [] {
      ClosesAfterCancel(c, evs[..|evs| - 1]);
      EndsOnlyCancelled(c, After(c, evs[..|evs| - 1]), evs[|evs| - 1]);
    }
  }

  lemma EndsOnlyCancelled(c: Config, s: State, ev: Event)
    requires Enabled(c, s, ev) && (s.crew.dispatcher in {Waiting, Closed} ==> s.cancelled)
    ensures Step(c, s, ev).crew.dispatcher in {Waiting, Closed} ==> Step(c, s, ev).cancelled
  {
  }
}

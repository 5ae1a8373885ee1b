/** How runs of the scheduler go on: what a tick launches, that a queued task can be run, and that the
    scheduler can always be brought to an end. */
module SchedulerRuns {
  import opened Common
  import opened Scheduler

  // ------------------------------------------------------------------------------------------
  // What a tick launches.

  /** How many workers were launched since the last tick. */
  function SinceTick(evs: seq<Event>): nat {
    if evs == [] || evs[|evs| - 1].Tick? then 0
    else
      var ev := evs[|evs| - 1];
      SinceTick(evs[..|evs| - 1]) + One(ev.Dispatch? && ev.da.Launch?)
  }

  /** The last tick came at event k, in state s, and read this latency. */
  ghost predicate LastTick(c: Config, evs: seq<Event>, k: nat, avg: real, s: State) {
    Happens(c, evs, k, Tick(avg), s) && forall j :: k < j < |evs| ==> !evs[j].Tick?
  }

  /** So many workers launched for a tick that asked for `need`. */
  ghost predicate Launches(d: Dispatcher, launched: nat, need: int) {
    match d
    case Spawning(i, n) => i == launched <= need && n == need
    case Added(i, n) => i == launched < need && n == need
    case _ => true
  }

  lemma LaunchesAfter(c: Config, s: State, ev: Event, launched: nat, need: int)
    requires Enabled(c, s, ev) && !ev.Tick? && Launches(s.crew.dispatcher, launched, need)
    ensures Launches(Step(c, s, ev).crew.dispatcher, launched + One(ev.Dispatch? && ev.da.Launch?), need)
    ensures Spawns(Step(c, s, ev)) ==> Spawns(s)
  {
  }

  predicate Spawns(s: State) { s.crew.dispatcher.Spawning? || s.crew.dispatcher.Added? }

  /** A dispatcher that launches is at work on the last tick. */
  lemma {:induction false} SpawningFollowsTick(c: Config, evs: seq<Event>) returns (k: nat, avg: real, s: State)
    requires Possible(c, evs) && Spawns(After(c, evs))
    ensures LastTick(c, evs, k, avg, s) && s.tasks.queue != []
    ensures Launches(After(c, evs).crew.dispatcher, SinceTick(evs), Need(|s.tasks.queue|, avg))
    decreases |evs|
  {
    var n := |evs| - 1;
    var before, ev := After(c, evs[..n]), evs[n];
    if ev.Tick? {
      HappensLast(c, evs);
      TickAsks(c, before, ev.avgLatency);
      k, avg, s := n, ev.avgLatency, before;
    } else {
      assert Spawns(before);
      k, avg, s := SpawningFollowsTick(c, evs[..n]);
      HappensInLonger(c, evs, n, k, Tick(avg), s);
      LaunchesAfter(c, before, ev, SinceTick(evs[..n]), Need(|s.tasks.queue|, avg));
    }
  }

  /** A tick goes on launching, whatever happens meanwhile, exactly while fewer workers were launched
      than what it found in the channel needs, and fewer are counted than the limit. */
  lemma TickLaunches(c: Config, evs: seq<Event>) returns (k: nat, avg: real, s: State, need: int)
    requires Possible(c, evs) && evs != [] && evs[|evs| - 1] == Dispatch(Check)
    ensures LastTick(c, evs, k, avg, s) && s.tasks.queue != []
    ensures Covers(need, |s.tasks.queue|, avg) && SinceTick(evs) <= need
    ensures var g := After(c, evs).crew;
            if SinceTick(evs) < need && g.numWorker < c.maxWorker
            then g.dispatcher.Added? else g.dispatcher == Selecting
  {
    var n := |evs| - 1;
    assert Spawns(After(c, evs[..n]));
    k, avg, s := SpawningFollowsTick(c, evs[..n]);
    HappensInLonger(c, evs, n, k, Tick(avg), s);
    need := Need(|s.tasks.queue|, avg);
    NeedIsCeiling(|s.tasks.queue|, avg);
  }

  // ------------------------------------------------------------------------------------------
  // How a worker ends.

  predicate Gone(s: State, w: nat) {
    w in s.crew.workers && (s.crew.workers[w].Exiting? || s.crew.workers[w].Uncounting?)
  }

  /** A worker ends only from its select, never with a function in hand. */
  lemma {:induction false} LeftFromSelect(c: Config, evs: seq<Event>, w: nat) returns (k: nat, s: State)
    requires Possible(c, evs) && Gone(After(c, evs), w)
    ensures Happens(c, evs, k, Work(w, Leave), s) && w in s.crew.workers && s.crew.workers[w] == Idle
    decreases |evs|
  {
    var n := |evs| - 1;
    var before, ev := After(c, evs[..n]), evs[n];
    if ev == Work(w, Leave) {
      HappensLast(c, evs);
      k, s := n, before;
    } else {
      k, s := LeftFromSelect(c, evs[..n], w);
      HappensInLonger(c, evs, n, k, Work(w, Leave), s);
    }
  }

  // ------------------------------------------------------------------------------------------
  // Every run can be brought to the close.

  lemma Extend(c: Config, evs: seq<Event>, ev: Event) returns (longer: seq<Event>)
    requires Possible(c, evs) && Enabled(c, After(c, evs), ev)
    ensures evs <= longer && Possible(c, longer) && After(c, longer) == Step(c, After(c, evs), ev)
  {
    longer := evs + [ev];
    assert longer[..|longer| - 1] == evs;
  }

  lemma {:induction false} Bound(xs: set<nat>) returns (b: nat)
    ensures forall x :: x in xs ==> x < b
  {
    b := 0;
    if xs != {} {
      var x :| x in xs;
      b := Bound(xs - {x});
      assert forall y :: y in xs && y != x ==> y in xs - {x};
      b := if x < b then b else x + 1;
    }
  }

  function Rounds(d: Dispatcher): nat {
    match d
    case Spawning(i, need) => if i < need then 2 * (need - i) + 1 else 1
    case Added(i, need) => if i < need then 2 * (need - i) else 0
    case _ => 0
  }

  /** The dispatcher gets through its tick without help. */
  lemma {:induction false} FinishTick(c: Config, evs: seq<Event>) returns (longer: seq<Event>)
    requires Possible(c, evs)
    ensures evs <= longer && Possible(c, longer) && !Spawns(After(c, longer))
    ensures After(c, longer).tasks == After(c, evs).tasks && After(c, longer).cancelled == After(c, evs).cancelled
    decreases Rounds(After(c, evs).crew.dispatcher)
  {
    longer := evs;
    if Spawns(After(c, evs)) {
      var k, avg, s := SpawningFollowsTick(c, evs);
      if After(c, evs).crew.dispatcher.Added? {
        var w := Bound(After(c, evs).crew.workers.Keys);
        longer := Extend(c, evs, Dispatch(Launch(w)));
      } else {
        longer := Extend(c, evs, Dispatch(Check));
      }
      longer := FinishTick(c, longer);
    }
  }

  /** How far a worker is from having gone. */
  function ToGo(k: Worker): nat {
    match k
    case Launched => 6
    case Got(_) => 5
    case Running(_) => 4
    case Idle => 3
    case Exiting => 2
    case Uncounting => 1
  }

  /** The next thing the worker does on its way out. */
  function WayOut(k: Worker): WorkerAction {
    match k
    case Launched => Count
    case Got(_) => Begin
    case Running(_) => Finish
    case Idle => Leave
    case Exiting => WgDone
    case Uncounting => Uncount
  }

  /** While the dispatcher waits, any worker it waits for can get out, with no help from others. */
  lemma {:induction false} WorkerGetsOut(c: Config, evs: seq<Event>, w: nat) returns (longer: seq<Event>)
    requires Possible(c, evs) && After(c, evs).crew.dispatcher == Waiting
    requires w in After(c, evs).crew.workers && !After(c, evs).crew.workers[w].Uncounting?
    ensures evs <= longer && Possible(c, longer) && After(c, longer).crew.dispatcher == Waiting
    ensures After(c, longer).crew.wg == After(c, evs).crew.wg - 1
    decreases ToGo(After(c, evs).crew.workers[w])
  {
    var k := After(c, evs).crew.workers[w];
    longer := Extend(c, evs, Work(w, WayOut(k)));
    if !k.Exiting? {
      longer := WorkerGetsOut(c, longer, w);
    }
  }

  lemma {:induction false} AllGetOut(c: Config, evs: seq<Event>) returns (longer: seq<Event>)
    requires Possible(c, evs) && After(c, evs).crew.dispatcher == Waiting
    ensures evs <= longer && Possible(c, longer)
    ensures After(c, longer).crew.dispatcher == Waiting && After(c, longer).crew.wg == 0
    decreases After(c, evs).crew.wg
  {
    var s := After(c, evs);
    RunKeepsCounts(c, evs);
    longer := evs;
    if s.crew.wg != 0 {
      assert LaunchedSet(s) + LiveSet(s) != {};
      var w :| w in LaunchedSet(s) + LiveSet(s);
      longer := WorkerGetsOut(c, evs, w);
      RunKeepsCounts(c, longer);
      longer := AllGetOut(c, longer);
    }
  }

  /** Whatever has happened, the scheduler can be brought to close its channel: no worker, task or
      blocked producer can keep it from that. */
  lemma CanClose(c: Config, evs: seq<Event>) returns (longer: seq<Event>)
    requires Possible(c, evs)
    ensures evs <= longer && Possible(c, longer) && After(c, longer).crew.dispatcher == Closed
  {
    longer := Extend(c, evs, Cancel);
    longer := FinishTick(c, longer);
    if After(c, longer).crew.dispatcher == Selecting {
      longer := Extend(c, longer, Dispatch(StopTicking));
    }
    if After(c, longer).crew.dispatcher == Waiting {
      longer := AllGetOut(c, longer);
      longer := Extend(c, longer, Dispatch(Close));
    }
  }

  // ------------------------------------------------------------------------------------------
  // Every queued task can be run.

  /** Before the end a task waits in the channel, and at least one worker is allowed. */
  ghost predicate Working(c: Config, evs: seq<Event>, queue: seq<nat>) {
    && c.maxWorker > 0 && queue != []
    && Possible(c, evs) && !After(c, evs).cancelled && After(c, evs).tasks.queue == queue
  }

  ghost predicate HasIdle(c: Config, evs: seq<Event>, w: nat)
    requires Possible(c, evs)
  {
    w in After(c, evs).crew.workers && After(c, evs).crew.workers[w] == Idle
  }

  /** A worker that is not on its way out can be had idle. */
  lemma {:induction false} BecomesIdle(c: Config, evs: seq<Event>, queue: seq<nat>, w: nat)
      returns (longer: seq<Event>)
    requires Working(c, evs, queue) && w in After(c, evs).crew.workers && !Gone(After(c, evs), w)
    ensures evs <= longer && Working(c, longer, queue) && HasIdle(c, longer, w)
    decreases ToGo(After(c, evs).crew.workers[w])
  {
    longer := evs;
    if !HasIdle(c, evs, w) {
      longer := Extend(c, evs, Work(w, WayOut(After(c, evs).crew.workers[w])));
      longer := BecomesIdle(c, longer, queue, w);
    }
  }

  /** One on its way out can be gone, and its number with it. */
  lemma {:induction false} BecomesGone(c: Config, evs: seq<Event>, queue: seq<nat>, w: nat)
      returns (longer: seq<Event>)
    requires Working(c, evs, queue) && Gone(After(c, evs), w)
    ensures evs <= longer && Working(c, longer, queue)
    ensures After(c, longer).crew.workers == After(c, evs).crew.workers - {w}
    decreases ToGo(After(c, evs).crew.workers[w])
  {
    var k := After(c, evs).crew.workers[w];
    longer := Extend(c, evs, Work(w, WayOut(k)));
    if k.Exiting? {
      longer := BecomesGone(c, longer, queue, w);
    }
  }

  /** With nobody there, the next tick launches one. */
  lemma FirstWorker(c: Config, evs: seq<Event>, queue: seq<nat>) returns (longer: seq<Event>)
    requires Working(c, evs, queue) && After(c, evs).crew.workers == map[]
    ensures evs <= longer && Working(c, longer, queue)
    ensures After(c, longer).crew.workers != map[] && forall w :: !Gone(After(c, longer), w)
  {
    RunKeepsCounts(c, evs);
    ClosesAfterCancel(c, evs);
    var s := After(c, evs);
    assert LaunchedSet(s) == {} && LiveSet(s) == {} && UncountingSet(s) == {};
    longer := evs;
    if s.crew.dispatcher.Spawning? {
      longer := Extend(c, longer, Dispatch(Check));
    }
    if After(c, longer).crew.dispatcher == Selecting {
      longer := Extend(c, longer, Tick(0.0));
      longer := Extend(c, longer, Dispatch(Check));
    }
    longer := Extend(c, longer, Dispatch(Launch(0)));
  }

  lemma {:induction false} IdleWorker(c: Config, evs: seq<Event>, queue: seq<nat>)
      returns (longer: seq<Event>, w: nat)
    requires Working(c, evs, queue)
    ensures evs <= longer && Working(c, longer, queue) && HasIdle(c, longer, w)
    decreases |After(c, evs).crew.workers|
  {
    longer := evs;
    if After(c, evs).crew.workers == map[] {
      longer := FirstWorker(c, evs, queue);
    }
    var s := After(c, longer);
    w :| w in s.crew.workers;
    if Gone(s, w) {
      longer := BecomesGone(c, longer, queue, w);
      longer, w := IdleWorker(c, longer, queue);
    } else {
      longer := BecomesIdle(c, longer, queue, w);
    }
  }

  /** An idle worker runs the first task of the channel, or skips it once the context is cancelled: the
      channel is served as long as there is a worker. */
  lemma ServesFirst(c: Config, evs: seq<Event>, w: nat) returns (longer: seq<Event>)
    requires Possible(c, evs) && After(c, evs).tasks.queue != [] && HasIdle(c, evs, w)
    ensures evs <= longer && Possible(c, longer)
    ensures var before, after := After(c, evs), After(c, longer);
            && Has(after, before.tasks.queue[0], if before.cancelled then Skipped else Ran)
            && after.tasks.queue == before.tasks.queue[1..] && after.cancelled == before.cancelled
            && HasIdle(c, longer, w)
  {
    longer := Extend(c, evs, Work(w, Take));
    longer := Extend(c, longer, Work(w, Begin));
    if !After(c, evs).cancelled {
      longer := Extend(c, longer, Work(w, Finish));
    }
  }

  /** Until the context is cancelled no task is stranded in the channel: the run can go on so that it,
      and all tasks before it, are run. */
  lemma {:induction false} QueuedCanRun(c: Config, evs: seq<Event>, queue: seq<nat>, k: nat)
      returns (longer: seq<Event>)
    requires Working(c, evs, queue) && k < |queue|
    ensures evs <= longer && Possible(c, longer)
    ensures Has(After(c, longer), queue[k], Ran) && After(c, longer).tasks.queue == queue[k + 1..]
    decreases k
  {
    var w;
    longer, w := IdleWorker(c, evs, queue);
    longer := ServesFirst(c, longer, w);
    if k > 0 {
      longer := QueuedCanRun(c, longer, queue[1..], k - 1);
    }
  }
}

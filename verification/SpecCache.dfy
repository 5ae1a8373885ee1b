/** structSpecForType: a cache shared by goroutines behind double-checked locking. Every step below
    is one goroutine's next action; any interleaving of them is a run. */
module SpecCache {
  import opened Common
  import opened GoTypes
  import opened StructSpec

  /** Where a caller asking for the spec of `t` stands. */
  datatype Caller =
    | Entered(t: Type)
    | HoldsRead(t: Type)
    | HasRead(t: Type, hit: Option<Tables>)      // looked up, still holding the read lock
    | ReadReleased(t: Type, hit: Option<Tables>)
    | HoldsWrite(t: Type)
    | Compiling(t: Type)                         // second lookup missed
    | Built(t: Type, ss: Tables)             // compiled, not yet stored
    | Leaving(t: Type, out: Option<Tables>)      // deferred unlock pending; None while panicking
    | Returned(t: Type, ss: Tables)
    | Panicked(t: Type)

  datatype State = State(
    callers: map<nat, Caller>,
    readers: set<nat>,
    writer: Option<nat>,
    cache: map<Type, Tables>,
    compiles: multiset<Type>)   // one entry for every compile that succeeded

  /** A compile that starts from empty tables; None when it panics. */
  ghost function FreshCompile(t: Type): Option<Tables>
    requires t.Struct?
  {
    if HasBadTag(t) then None else Some(Compiled(t))
  }

  ghost predicate Init(s: State) {
    s == State(map[], {}, None, map[], multiset{})
  }

  function Lookup(cache: map<Type, Tables>, t: Type): Option<Tables> {
    if t in cache then Some(cache[t]) else None
  }

  ghost predicate Enter(s: State, s': State, i: nat, t: Type) {
    i !in s.callers && t.Struct? && s' == s.(callers := s.callers[i := Entered(t)])
  }

  /** Caller i's next action. */
  ghost predicate Step(s: State, s': State, i: nat) {
    && i in s.callers
    && match s.callers[i] {
         case Entered(t) =>   // RLock
           s.writer == None &&
           s' == s.(callers := s.callers[i := HoldsRead(t)], readers := s.readers + {i})
         case HoldsRead(t) =>
           s' == s.(callers := s.callers[i := HasRead(t, Lookup(s.cache, t))])
         case HasRead(t, hit) =>   // RUnlock
           s' == s.(callers := s.callers[i := ReadReleased(t, hit)], readers := s.readers - {i})
         case ReadReleased(t, hit) =>   // return the hit, or Lock
           if hit.Some? then s' == s.(callers := s.callers[i := Returned(t, hit.value)])
           else
             s.writer == None && s.readers == {} &&
             s' == s.(callers := s.callers[i := HoldsWrite(t)], writer := Some(i))
         case HoldsWrite(t) =>
           s' == s.(callers := s.callers[i :=
             if t in s.cache then Leaving(t, Some(s.cache[t])) else Compiling(t)])
         case Compiling(t) =>
           if t.Struct? && FreshCompile(t).Some?
           then s' == s.(callers := s.callers[i := Built(t, FreshCompile(t).value)],
                         compiles := s.compiles + multiset{t})
           else s' == s.(callers := s.callers[i := Leaving(t, None)])
         case Built(t, ss) =>
           s' == s.(callers := s.callers[i := Leaving(t, Some(ss))], cache := s.cache[t := ss])
         case Leaving(t, out) =>   // deferred Unlock
           s' == s.(writer := None,
                    callers := s.callers[i := if out.Some? then Returned(t, out.value) else Panicked(t)])
         case _ => false
       }
  }

  ghost predicate Next(s: State, s': State) {
    || (exists i, t :: Enter(s, s', i, t))
    || (exists i :: Step(s, s', i))
  }

  ghost predicate IsFresh(t: Type, ss: Tables) {
    t.Struct? && FreshCompile(t) == Some(ss)
  }

  ghost predicate InWrite(c: Caller) {
    c.HoldsWrite? || c.Compiling? || c.Built? || c.Leaving?
  }

  /** What is known of one caller from where it stands. */
  ghost predicate CallerOk(s: State, i: nat, c: Caller) {
    && c.t.Struct?
    && (i in s.readers <==> c.HoldsRead? || c.HasRead?)
    && (s.writer == Some(i) <==> InWrite(c))
    && ((c.HasRead? || c.ReadReleased?) && c.hit.Some? ==> IsFresh(c.t, c.hit.value))
    && (c.Compiling? || c.Built? ==> c.t !in s.cache)
    && (c.Built? || c.Returned? ==> IsFresh(c.t, c.ss))
    && (c.Leaving? ==> if c.out.Some? then IsFresh(c.t, c.out.value) else HasBadTag(c.t))
    && (c.Panicked? ==> HasBadTag(c.t))
  }

  ghost predicate HasCompiled(s: State, t: Type) {
    t in s.cache || (s.writer.Some? && s.writer.value in s.callers
                     && s.callers[s.writer.value].Built? && s.callers[s.writer.value].t == t)
  }

  ghost predicate LocksOk(s: State) {
    && (s.writer.Some? ==> s.readers == {} && s.writer.value in s.callers)
    && (forall i :: i in s.readers ==> i in s.callers)
  }

  ghost predicate CallersOk(s: State) {
    forall i :: i in s.callers ==> CallerOk(s, i, s.callers[i])
  }

  ghost predicate CacheOk(s: State) {
    forall t :: t in s.cache ==> IsFresh(t, s.cache[t])
  }

  ghost predicate CountsOk(s: State) {
    forall t :: s.compiles[t] == if HasCompiled(s, t) then 1 else 0
  }

  ghost predicate Inv(s: State) {
    LocksOk(s) && CallersOk(s) && CacheOk(s) && CountsOk(s)
  }

  lemma StepKeepsLocks(s: State, s': State, i: nat)
    requires LocksOk(s) && CallersOk(s) && Step(s, s', i)
    ensures LocksOk(s')
    ensures forall j :: j != i ==>
              (j in s'.readers <==> j in s.readers) && (s'.writer == Some(j) <==> s.writer == Some(j))
  {
    assert CallerOk(s, i, s.callers[i]);
  }

  lemma StepKeepsOwnCaller(s: State, s': State, i: nat)
    requires LocksOk(s) && CallersOk(s) && CacheOk(s) && Step(s, s', i)
    ensures CallerOk(s', i, s'.callers[i]) && CacheOk(s')
  {
    assert CallerOk(s, i, s.callers[i]);
  }

  lemma StepKeepsOtherCaller(s: State, s': State, i: nat, j: nat)
    requires LocksOk(s) && CallersOk(s) && Step(s, s', i) && j in s.callers && j != i
    ensures j in s'.callers && s'.callers[j] == s.callers[j] && CallerOk(s', j, s'.callers[j])
  {
    assert CallerOk(s, i, s.callers[i]) && CallerOk(s, j, s.callers[j]);
    StepKeepsLocks(s, s', i);
  }

  lemma StepKeepsCounts(s: State, s': State, i: nat)
    requires LocksOk(s) && CallersOk(s) && CountsOk(s) && Step(s, s', i)
    ensures CountsOk(s')
  {
    assert CallerOk(s, i, s.callers[i]);
    assert s.writer.Some? ==> CallerOk(s, s.writer.value, s.callers[s.writer.value]);
    forall t ensures s'.compiles[t] == if HasCompiled(s', t) then 1 else 0 {
      assert s.compiles[t] == if HasCompiled(s, t) then 1 else 0;
    }
  }

  lemma StepKeepsEntries(s: State, s': State, i: nat, t: Type)
    requires LocksOk(s) && CallersOk(s) && Step(s, s', i) && t in s.cache
    ensures t in s'.cache && s'.cache[t] == s.cache[t]
  {
    assert CallerOk(s, i, s.callers[i]);
  }

  lemma NextKeepsEntries(s: State, s': State, t: Type)
    requires Inv(s) && Next(s, s') && t in s.cache
    ensures t in s'.cache && s'.cache[t] == s.cache[t]
  {
    if i :| Step(s, s', i) {
      StepKeepsEntries(s, s', i, t);
    }
  }

  lemma EnterKeepsInv(s: State, s': State, i: nat, t: Type)
    requires Inv(s) && Enter(s, s', i, t)
    ensures Inv(s')
  {
    forall j | j in s'.callers ensures CallerOk(s', j, s'.callers[j]) {
      if j != i { assert CallerOk(s, j, s.callers[j]); }
    }
    forall u ensures HasCompiled(s', u) == HasCompiled(s, u) {
    }
  }

  lemma InvKept(s: State, s': State)
    requires Inv(s) && Next(s, s')
    ensures Inv(s')
  {
    if i, t :| Enter(s, s', i, t) {
      EnterKeepsInv(s, s', i, t);
    } else {
      var i :| Step(s, s', i);
      StepKeepsLocks(s, s', i);
      StepKeepsOwnCaller(s, s', i);
      StepKeepsCounts(s, s', i);
      forall j | j in s'.callers && j != i ensures CallerOk(s', j, s'.callers[j]) {
        StepKeepsOtherCaller(s, s', i, j);
      }
    }
  }

  ghost predicate IsRun(run: seq<State>) {
    && |run| > 0 && Init(run[0])
    && forall k :: 0 <= k < |run| - 1 ==> Next(run[k], run[k + 1])
  }

  lemma {:induction false} RunKeepsInv(run: seq<State>, k: nat)
    requires IsRun(run) && k < |run|
    ensures Inv(run[k])
  {
    if k > 0 {
      RunKeepsInv(run, k - 1);
      assert Next(run[k - 1], run[k - 1 + 1]);
      InvKept(run[k - 1], run[k]);
    }
  }

  /** In every run: whoever returns, returns a fresh compile; a type is compiled successfully at
      most once; only a type with a bad tag panics, and nothing is ever published for it. */
  lemma CacheIsTransparent(run: seq<State>, k: nat)
    requires IsRun(run) && k < |run|
    ensures forall i :: i in run[k].callers && run[k].callers[i].Returned? ==>
              IsFresh(run[k].callers[i].t, run[k].callers[i].ss)
    ensures forall i :: i in run[k].callers && run[k].callers[i].Panicked? ==>
              HasBadTag(run[k].callers[i].t) && run[k].callers[i].t !in run[k].cache
    ensures forall t :: run[k].compiles[t] <= 1
    ensures forall t :: t in run[k].cache ==> IsFresh(t, run[k].cache[t])
  {
    RunKeepsInv(run, k);
    forall i | i in run[k].callers ensures CallerOk(run[k], i, run[k].callers[i]) {
    }
  }

  /** Nobody looks the cache up while somebody else is between the second lookup and the unlock. */
  lemma NoLookupDuringWrite(run: seq<State>, k: nat, i: nat, j: nat)
    requires IsRun(run) && k < |run| && i in run[k].callers && j in run[k].callers && i != j
    requires InWrite(run[k].callers[j])
    ensures !run[k].callers[i].HoldsRead? && !run[k].callers[i].HasRead? && !InWrite(run[k].callers[i])
  {
    RunKeepsInv(run, k);
    assert CallerOk(run[k], i, run[k].callers[i]) && CallerOk(run[k], j, run[k].callers[j]);
  }

  lemma EntryStaysOneStep(run: seq<State>, k: nat, t: Type)
    requires IsRun(run) && k + 1 < |run| && t in run[k].cache
    ensures t in run[k + 1].cache && run[k + 1].cache[t] == run[k].cache[t]
  {
    RunKeepsInv(run, k);
    NextKeepsEntries(run[k], run[k + 1], t);
  }

  lemma {:induction false} PublishedEntryStays(run: seq<State>, a: nat, b: nat, t: Type)
    requires IsRun(run) && a <= b < |run| && t in run[a].cache
    ensures t in run[b].cache && run[b].cache[t] == run[a].cache[t]
    decreases b - a
  {
    if a < b {
      EntryStaysOneStep(run, a, t);
      PublishedEntryStays(run, a + 1, b, t);
    }
  }

  // ------------------------------------------------------------------------------------------
  // What the cache saves, and that nobody waits forever.

  predicate Finished(c: Caller) { c.Returned? || c.Panicked? }

  lemma CanStep(s: State, i: nat) returns (s': State)
    requires i in s.callers && !Finished(s.callers[i])
    requires s.callers[i].Entered? ==> s.writer == None
    requires s.callers[i].ReadReleased? ==> s.writer == None && s.readers == {}
    ensures Step(s, s', i)
  {
    var c := s.callers[i];
    var t := c.t;
    s' := match c
      case Entered(_) => s.(callers := s.callers[i := HoldsRead(t)], readers := s.readers + {i})
      case HoldsRead(_) => s.(callers := s.callers[i := HasRead(t, Lookup(s.cache, t))])
      case HasRead(_, hit) => s.(callers := s.callers[i := ReadReleased(t, hit)], readers := s.readers - {i})
      case ReadReleased(_, hit) =>
        if hit.Some? then s.(callers := s.callers[i := Returned(t, hit.value)])
        else s.(callers := s.callers[i := HoldsWrite(t)], writer := Some(i))
      case HoldsWrite(_) =>
        s.(callers := s.callers[i := if t in s.cache then Leaving(t, Some(s.cache[t])) else Compiling(t)])
      case Compiling(_) =>
        if t.Struct? && FreshCompile(t).Some?
        then s.(callers := s.callers[i := Built(t, FreshCompile(t).value)], compiles := s.compiles + multiset{t})
        else s.(callers := s.callers[i := Leaving(t, None)])
      case Built(_, ss) => s.(callers := s.callers[i := Leaving(t, Some(ss))], cache := s.cache[t := ss])
      case Leaving(_, out) =>
        s.(writer := None, callers := s.callers[i := if out.Some? then Returned(t, out.value) else Panicked(t)])
      case _ => s;
  }

  /** Who can go on: the writer, or else a reader, or else anybody. */
  lemma NoDeadlock(run: seq<State>, k: nat, i: nat) returns (j: nat, s': State)
    requires IsRun(run) && k < |run| && i in run[k].callers && !Finished(run[k].callers[i])
    ensures Step(run[k], s', j)
  {
    RunKeepsInv(run, k);
    var s := run[k];
    j := if s.writer.Some? then s.writer.value else i;
    if s.writer == None && s.readers != {} {
      j :| j in s.readers;
    }
    assert CallerOk(s, j, s.callers[j]);
    s' := CanStep(s, j);
  }

  /** A caller for a cached type that has not passed its first lookup by a miss. */
  ghost predicate OnTheFastPath(s: State, i: nat, t: Type) {
    i in s.callers && s.callers[i].t == t ==>
      match s.callers[i]
      case Entered(_) => true
      case HoldsRead(_) => true
      case HasRead(_, hit) => hit.Some?
      case ReadReleased(_, hit) => hit.Some?
      case Returned(_, _) => true
      case _ => false
  }

  lemma FastPathStep(run: seq<State>, k: nat, i: nat, t: Type)
    requires IsRun(run) && k + 1 < |run| && t in run[k].cache && OnTheFastPath(run[k], i, t)
    ensures OnTheFastPath(run[k + 1], i, t)
  {
    var s, s' := run[k], run[k + 1];
    if j :| Step(s, s', j) {
    }
  }

  /** Once a type is published, whoever asks for it finds it at the first lookup: it never takes the
      write lock, compiles or panics. */
  lemma {:induction false} PublishedMeansNoWriting(run: seq<State>, a: nat, b: nat, i: nat, t: Type)
    requires IsRun(run) && a <= b < |run| && t in run[a].cache && i !in run[a].callers
    ensures OnTheFastPath(run[b], i, t)
    decreases b
  {
    if a < b {
      PublishedMeansNoWriting(run, a, b - 1, i, t);
      PublishedEntryStays(run, a, b - 1, t);
      FastPathStep(run, b - 1, i, t);
    }
  }
}

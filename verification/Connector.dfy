/** connectorImpl.reload: matching load-test clients to the new configurations, and who gets shut
    down. Clients are known by the number of their creation. */
module Connector {
  import opened Common
  import opened Addresses
  import opened Config
  import HotReload

  datatype ConnectorConfig = ConnectorConfig(
    main: Settings, loadTests: seq<Settings>, hotReload: bool, processAllLoadTestPackets: bool,
    workerNumber: int, channelSize: int, workerIdleTimeoutInMs: int)

  const DEFAULT_MAX_WORKER := 10
  const DEFAULT_MAX_CHAN_SIZE := 10000
  const DEFAULT_IDLE_TIMEOUT := 1000   // milliseconds in a configuration, but nanoseconds in the scheduler

  function Positive(x: int, otherwise: int): int { if x <= 0 then otherwise else x }
  function NonZero(x: int, otherwise: int): int { if x == 0 then otherwise else x }

  /** What initAndValidate makes of a configuration before a connector or a reload sees it. */
  function Initialised(c: ConnectorConfig): ConnectorConfig {
    c.(main := Normalised(c.main),
       loadTests := seq(|c.loadTests|, i requires 0 <= i < |c.loadTests| => Normalised(c.loadTests[i])),
       workerNumber := NonZero(c.workerNumber, DEFAULT_MAX_WORKER),
       channelSize := NonZero(c.channelSize, DEFAULT_MAX_CHAN_SIZE),
       workerIdleTimeoutInMs := NonZero(c.workerIdleTimeoutInMs, DEFAULT_IDLE_TIMEOUT))
  }

  /** A configuration that has passed it. */
  ghost predicate Admitted(c: ConnectorConfig) {
    c == Initialised(c) && Validates(c.main) && forall i :: 0 <= i < |c.loadTests| ==> Validates(c.loadTests[i])
  }

  /** Whether settings pass, as they are given. */
  predicate Passes(z: Settings) {
    && z.clientMode in {ModeCluster, ModeMasterSlaveGroup, ModeSingleHost}
    && z.readMode in {ReadFromMaster, ReadFromSlaves, ReadRandomly, ReadByLatency, Unset}
  }

  /** What passes, whatever is unset, and what the unset scheduler settings become. */
  lemma AdmittedMeans(c: ConnectorConfig)
    ensures var d := Initialised(c);
            && (Admitted(d) <==> Passes(c.main) && forall i :: 0 <= i < |c.loadTests| ==> Passes(c.loadTests[i]))
            && d.workerNumber == (if c.workerNumber == 0 then 10 else c.workerNumber)
            && d.channelSize == (if c.channelSize == 0 then 10_000 else c.channelSize)
            && d.workerIdleTimeoutInMs == (if c.workerIdleTimeoutInMs == 0 then 1000 else c.workerIdleTimeoutInMs)
  {
    var d := Initialised(c);
    InitialisedSettings(c.main);
    forall i | 0 <= i < |c.loadTests| ensures Validates(d.loadTests[i]) <==> Passes(c.loadTests[i]) {
      InitialisedSettings(c.loadTests[i]);
    }
    forall i | 0 <= i < |c.loadTests| ensures Normalised(d.loadTests[i]) == d.loadTests[i] {
      InitialisedSettings(c.loadTests[i]);
    }
    assert Initialised(d).loadTests == d.loadTests;
    assert Initialised(d) == d;
    if Admitted(d) {
      forall i | 0 <= i < |c.loadTests| ensures Passes(c.loadTests[i]) {
        assert Validates(d.loadTests[i]);
      }
    }
  }

  /** The scheduler keeps the sizes and the idle time that the configuration asks for. */
  predicate Schedules(c: ConnectorConfig) {
    c.workerNumber > 0 && c.channelSize > 0 && Duration(c.workerIdleTimeoutInMs) > 0
  }

  datatype Outcome =
    | Done
    | NotHot
    | SchedulerChanged
    | MainRejected
    | SharesMainAddress(at: nat)
    | ClientRejected(at: nat)
    | CreateFailed(at: nat)

  /** The settings of a client after a reload, by its kind. */
  function ClientReloaded(s: Settings, z: Settings): Settings {
    if s.clientMode.ModeSingleHost? then HotReload.SingleReloaded(s, z) else HotReload.ReloadedSettings(s, z)
  }

  /** What reading the name leaves of the settings. */
  function Named(s: Settings): Settings {
    s.(addrs := if s.clientMode.ModeSingleHost? then s.addrs else Sort(s.addrs))
  }

  // ------------------------------------------------------------------------------------------
  // The matching itself, apart from the clients.

  /** The names, among the new ones, for which an old client was taken; old clients have numbers
      below `fresh0`. */
  ghost function ReusedNames(names: seq<string>, news: seq<nat>, fresh0: nat): multiset<string>
    requires |news| <= |names|
  {
    if news == [] then multiset{}
    else
      var k := |news| - 1;
      ReusedNames(names, news[..k], fresh0) + if news[k] < fresh0 then multiset{names[k]} else multiset{}
  }

  ghost function CreatedNames(names: seq<string>, news: seq<nat>, fresh0: nat): multiset<string>
    requires |news| <= |names|
  {
    if news == [] then multiset{}
    else
      var k := |news| - 1;
      CreatedNames(names, news[..k], fresh0) + if news[k] < fresh0 then multiset{} else multiset{names[k]}
  }

  /** What a reload promises of its new client list. */
  ghost predicate Matched(
      olds: seq<nat>, oldNames: seq<string>, names: seq<string>, news: seq<nat>, fresh0: nat, next: nat)
  {
    && |oldNames| == |olds| && |news| == |names| && NoRepeats(olds) && NoRepeats(news)
    && (forall a :: 0 <= a < |olds| ==> olds[a] < fresh0)
    && (forall j :: 0 <= j < |news| ==> TakenFrom(olds, oldNames, names[j], news[j], fresh0, next))
    && AllInTurn(oldNames, names, news, fresh0)
    && ReusedNames(names, news, fresh0) == multiset(oldNames) * multiset(names)
  }

  /** Entry j is an old client just when fewer earlier entries ask for its name than old clients have it. */
  ghost predicate InTurn(oldNames: seq<string>, names: seq<string>, x: nat, j: nat, fresh0: nat)
    requires j < |names|
  {
    x < fresh0 <==> multiset(names[..j])[names[j]] < multiset(oldNames)[names[j]]
  }

  /** A listed client is an old one of the same name, or new. */
  ghost predicate TakenFrom(olds: seq<nat>, oldNames: seq<string>, name: string, x: nat, fresh0: nat, next: nat)
    requires |oldNames| == |olds|
  {
    if x < fresh0 then exists a :: 0 <= a < |olds| && olds[a] == x && oldNames[a] == name
    else x < next
  }

  lemma {:induction false} ReusedAndCreated(names: seq<string>, news: seq<nat>, fresh0: nat)
    requires |news| <= |names|
    ensures ReusedNames(names, news, fresh0) + CreatedNames(names, news, fresh0) == multiset(names[..|news|])
    decreases |news|
  {
    if news != [] {
      var k := |news| - 1;
      ReusedAndCreated(names, news[..k], fresh0);
      assert names[..k + 1] == names[..k] + [names[k]];
    } else {
      assert names[..0] == [];
    }
  }

  /** The names of the old clients that are not in the new list. */
  ghost function LeftNames(olds: seq<nat>, oldNames: seq<string>, news: seq<nat>): multiset<string>
    requires |oldNames| == |olds|
  {
    if olds == [] then multiset{}
    else
      var k := |olds| - 1;
      LeftNames(olds[..k], oldNames[..k], news) + if olds[k] in news then multiset{} else multiset{oldNames[k]}
  }

  ghost function KeptNames(olds: seq<nat>, oldNames: seq<string>, news: seq<nat>): multiset<string>
    requires |oldNames| == |olds|
  {
    if olds == [] then multiset{}
    else
      var k := |olds| - 1;
      KeptNames(olds[..k], oldNames[..k], news) + if olds[k] in news then multiset{oldNames[k]} else multiset{}
  }

  lemma {:induction false} LeftAndKept(olds: seq<nat>, oldNames: seq<string>, news: seq<nat>)
    requires |oldNames| == |olds|
    ensures LeftNames(olds, oldNames, news) + KeptNames(olds, oldNames, news) == multiset(oldNames)
    decreases |olds|
  {
    if olds != [] {
      var k := |olds| - 1;
      LeftAndKept(olds[..k], oldNames[..k], news);
      assert oldNames == oldNames[..k] + [oldNames[k]];
    }
  }

  lemma {:induction false} KeptAfterNew(olds: seq<nat>, oldNames: seq<string>, news: seq<nat>, x: nat)
    requires |oldNames| == |olds| && x !in olds
    ensures KeptNames(olds, oldNames, news + [x]) == KeptNames(olds, oldNames, news)
    decreases |olds|
  {
    if olds != [] {
      KeptAfterNew(olds[..|olds| - 1], oldNames[..|olds| - 1], news, x);
    }
  }

  lemma {:induction false} KeptAfterOld(olds: seq<nat>, oldNames: seq<string>, news: seq<nat>, a: nat)
    requires |oldNames| == |olds| && NoRepeats(olds) && a < |olds| && olds[a] !in news
    ensures KeptNames(olds, oldNames, news + [olds[a]]) == KeptNames(olds, oldNames, news) + multiset{oldNames[a]}
    decreases |olds|
  {
    var k := |olds| - 1;
    if a < k {
      KeptAfterOld(olds[..k], oldNames[..k], news, a);
    } else {
      KeptAfterNew(olds[..k], oldNames[..k], news, olds[k]);
    }
  }

  /** Counted by the new list or by the old one, the reused clients have the same names. */
  lemma {:induction false} ReusedAreKept(
      olds: seq<nat>, oldNames: seq<string>, names: seq<string>, news: seq<nat>, fresh0: nat, next: nat)
    requires |oldNames| == |olds| && |news| <= |names| && NoRepeats(olds) && NoRepeats(news)
    requires forall a :: 0 <= a < |olds| ==> olds[a] < fresh0
    requires forall j :: 0 <= j < |news| ==> TakenFrom(olds, oldNames, names[j], news[j], fresh0, next)
    ensures KeptNames(olds, oldNames, news) == ReusedNames(names, news, fresh0)
    decreases |news|
  {
    if news == [] {
      NothingKept(olds, oldNames);
    } else {
      var k := |news| - 1;
      var init, x := news[..k], news[k];
      assert news == init + [x];
      forall j | 0 <= j < k ensures TakenFrom(olds, oldNames, names[j], init[j], fresh0, next) {
        assert TakenFrom(olds, oldNames, names[j], news[j], fresh0, next);
      }
      ReusedAreKept(olds, oldNames, names, init, fresh0, next);
      assert TakenFrom(olds, oldNames, names[k], x, fresh0, next);
      if x < fresh0 {
        var a :| 0 <= a < |olds| && olds[a] == x && oldNames[a] == names[k];
        KeptAfterOld(olds, oldNames, init, a);
      } else {
        KeptAfterNew(olds, oldNames, init, x);
      }
    }
  }

  lemma {:induction false} NothingKept(olds: seq<nat>, oldNames: seq<string>)
    requires |oldNames| == |olds|
    ensures KeptNames(olds, oldNames, []) == multiset{}
    decreases |olds|
  {
    if olds != [] {
      NothingKept(olds[..|olds| - 1], oldNames[..|olds| - 1]);
    }
  }

  /** Per name, a matched list takes as many old clients as there are on both sides, creates what is
      missing, and leaves over what is too many. */
  lemma MatchedCounts(
      olds: seq<nat>, oldNames: seq<string>, names: seq<string>, news: seq<nat>, fresh0: nat, next: nat, n: string)
    requires Matched(olds, oldNames, names, news, fresh0, next)
    ensures var was, wanted := multiset(oldNames)[n], multiset(names)[n];
            && KeptNames(olds, oldNames, news)[n] == (if was < wanted then was else wanted)
            && CreatedNames(names, news, fresh0)[n] == (if wanted > was then wanted - was else 0)
            && LeftNames(olds, oldNames, news)[n] == (if was > wanted then was - wanted else 0)
  {
    ReusedAndCreated(names, news, fresh0);
    assert names[..|news|] == names;
    ReusedAreKept(olds, oldNames, names, news, fresh0, next);
    LeftAndKept(olds, oldNames, news);
    assert (ReusedNames(names, news, fresh0) + CreatedNames(names, news, fresh0))[n] == multiset(names)[n];
    assert (LeftNames(olds, oldNames, news) + KeptNames(olds, oldNames, news))[n] == multiset(oldNames)[n];
  }

  lemma {:induction false} LeftMeansNamed(olds: seq<nat>, oldNames: seq<string>, news: seq<nat>, a: nat)
    requires |oldNames| == |olds| && a < |olds| && olds[a] !in news
    ensures oldNames[a] in LeftNames(olds, oldNames, news)
    decreases |olds|
  {
    var k := |olds| - 1;
    if a < k {
      LeftMeansNamed(olds[..k], oldNames[..k], news, a);
    }
  }

  lemma {:induction false} CreatedMeansNamed(names: seq<string>, news: seq<nat>, fresh0: nat, j: nat)
    requires |news| <= |names| && j < |news| && news[j] >= fresh0
    ensures names[j] in CreatedNames(names, news, fresh0)
    decreases |news|
  {
    var k := |news| - 1;
    if j < k {
      CreatedMeansNamed(names, news[..k], fresh0, j);
    }
  }

  lemma NoneLeftOver(olds: seq<nat>, oldNames: seq<string>, news: seq<nat>)
    requires |oldNames| == |olds| && forall a :: 0 <= a < |olds| ==> olds[a] in news
    ensures LeftNames(olds, oldNames, news) == multiset{}
    decreases |olds|
  {
    if olds != [] {
      NoneLeftOver(olds[..|olds| - 1], oldNames[..|olds| - 1], news);
    }
  }

  lemma {:induction false} NoneCreated(names: seq<string>, news: seq<nat>, fresh0: nat)
    requires |news| <= |names| && forall j :: 0 <= j < |news| ==> news[j] < fresh0
    ensures CreatedNames(names, news, fresh0) == multiset{}
    decreases |news|
  {
    if news != [] {
      NoneCreated(names, news[..|news| - 1], fresh0);
    }
  }

  ghost predicate SameClients(olds: seq<nat>, news: seq<nat>) { forall x :: x in olds <==> x in news }

  /** A reload keeps exactly the clients there were when, and only when, the names wanted are the names
      they have, in any order. */
  lemma KeptIffSameNames(
      olds: seq<nat>, oldNames: seq<string>, names: seq<string>, news: seq<nat>, fresh0: nat, next: nat)
    requires Matched(olds, oldNames, names, news, fresh0, next)
    ensures SameClients(olds, news) <==> multiset(oldNames) == multiset(names)
  {
    if multiset(oldNames) == multiset(names) {
      SameNamesKeepClients(olds, oldNames, names, news, fresh0, next);
    }
    if SameClients(olds, news) {
      NoneLeftOver(olds, oldNames, news);
      forall j | 0 <= j < |news| ensures news[j] < fresh0 {
        assert news[j] in olds;
      }
      NoneCreated(names, news, fresh0);
      forall n ensures multiset(oldNames)[n] == multiset(names)[n] {
        MatchedCounts(olds, oldNames, names, news, fresh0, next, n);
      }
    }
  }

  lemma SameNamesKeepClients(
      olds: seq<nat>, oldNames: seq<string>, names: seq<string>, news: seq<nat>, fresh0: nat, next: nat)
    requires Matched(olds, oldNames, names, news, fresh0, next) && multiset(oldNames) == multiset(names)
    ensures SameClients(olds, news)
  {
    forall x | x in olds ensures x in news {
      var a :| 0 <= a < |olds| && olds[a] == x;
      if x !in news {
        LeftMeansNamed(olds, oldNames, news, a);
        MatchedCounts(olds, oldNames, names, news, fresh0, next, oldNames[a]);
        assert false;
      }
    }
    forall x | x in news ensures x in olds {
      var j :| 0 <= j < |news| && news[j] == x;
      assert TakenFrom(olds, oldNames, names[j], x, fresh0, next);
      if x >= fresh0 {
        CreatedMeansNamed(names, news, fresh0, j);
        MatchedCounts(olds, oldNames, names, news, fresh0, next, names[j]);
        assert false;
      }
    }
  }

  // ------------------------------------------------------------------------------------------
  // The pool of old clients by name, while the new list is being filled.

  function Slot(pool: map<string, seq<nat>>, n: string): seq<nat> { if n in pool then pool[n] else [] }

  ghost predicate IsNamed(olds: seq<nat>, oldNames: seq<string>, x: nat, n: string)
    requires |oldNames| == |olds|
  {
    exists a :: 0 <= a < |olds| && olds[a] == x && oldNames[a] == n
  }

  /** A slot holds the old clients of its name that are not used yet; `reused` counts the others. */
  ghost predicate Holds(
      q: seq<nat>, olds: seq<nat>, oldNames: seq<string>, used: seq<nat>, reused: multiset<string>, n: string)
    requires |oldNames| == |olds|
  {
    && NoRepeats(q) && |q| + reused[n] == multiset(oldNames)[n]
    && (forall x :: x in q <==> IsNamed(olds, oldNames, x, n) && x !in used)
  }

  ghost predicate Pooled(
      pool: map<string, seq<nat>>, olds: seq<nat>, oldNames: seq<string>, used: seq<nat>, reused: multiset<string>)
    requires |oldNames| == |olds|
  {
    forall n :: Holds(Slot(pool, n), olds, oldNames, used, reused, n)
  }

  lemma NamedInLonger(olds: seq<nat>, oldNames: seq<string>, x: nat, n: string, y: nat, m: string)
    requires |oldNames| == |olds| && x !in olds
    ensures IsNamed(olds + [x], oldNames + [n], y, m) <==> IsNamed(olds, oldNames, y, m) || (y == x && m == n)
    ensures !IsNamed(olds, oldNames, x, m)
  {
    if IsNamed(olds, oldNames, y, m) {
      var a :| 0 <= a < |olds| && olds[a] == y && oldNames[a] == m;
      assert (olds + [x])[a] == y && (oldNames + [n])[a] == m;
    }
    assert (olds + [x])[|olds|] == x && (oldNames + [n])[|olds|] == n;
  }

  lemma PoolGrows(pool: map<string, seq<nat>>, olds: seq<nat>, oldNames: seq<string>, x: nat, n: string)
    requires |oldNames| == |olds| && Pooled(pool, olds, oldNames, [], multiset{}) && x !in olds
    ensures Pooled(pool[n := Slot(pool, n) + [x]], olds + [x], oldNames + [n], [], multiset{})
  {
    var pool' := pool[n := Slot(pool, n) + [x]];
    forall m ensures Holds(Slot(pool', m), olds + [x], oldNames + [n], [], multiset{}, m) {
      assert Holds(Slot(pool, m), olds, oldNames, [], multiset{}, m);
      forall y
        ensures y in Slot(pool', m) <==> IsNamed(olds + [x], oldNames + [n], y, m) && y !in []
        ensures x !in Slot(pool, m)
      {
        NamedInLonger(olds, oldNames, x, n, y, m);
      }
    }
  }

  lemma PoolGrowsAt(pool: map<string, seq<nat>>, olds: seq<nat>, oldNames: seq<string>, i: nat)
    requires |oldNames| == |olds| && NoRepeats(olds) && i < |olds|
    requires Pooled(pool, olds[..i], oldNames[..i], [], multiset{})
    ensures Pooled(
              pool[oldNames[i] := Slot(pool, oldNames[i]) + [olds[i]]], olds[..i + 1], oldNames[..i + 1],
              [], multiset{})
  {
    assert olds[..i + 1] == olds[..i] + [olds[i]] && oldNames[..i + 1] == oldNames[..i] + [oldNames[i]];
    PoolGrows(pool, olds[..i], oldNames[..i], olds[i], oldNames[i]);
  }

  /** The old clients of one name, as they are listed. */
  ghost function NamedIn(olds: seq<nat>, oldNames: seq<string>, n: string): (xs: seq<nat>)
    requires |oldNames| == |olds|
    ensures |xs| == multiset(oldNames)[n]
  {
    if olds == [] then []
    else
      var k := |olds| - 1;
      assert oldNames == oldNames[..k] + [oldNames[k]];
      NamedIn(olds[..k], oldNames[..k], n) + if oldNames[k] == n then [olds[k]] else []
  }

  lemma NamedInGrows(olds: seq<nat>, oldNames: seq<string>, i: nat, n: string)
    requires |oldNames| == |olds| && i < |olds|
    ensures NamedIn(olds[..i + 1], oldNames[..i + 1], n)
            == NamedIn(olds[..i], oldNames[..i], n) + if oldNames[i] == n then [olds[i]] else []
  {
    assert olds[..i + 1][..i] == olds[..i] && oldNames[..i + 1][..i] == oldNames[..i];
  }

  ghost predicate Grouped(pool: map<string, seq<nat>>, olds: seq<nat>, oldNames: seq<string>)
    requires |oldNames| == |olds|
  {
    forall n :: Slot(pool, n) == NamedIn(olds, oldNames, n)
  }

  lemma SlotGrows(pool: map<string, seq<nat>>, name: string, x: nat, n: string, q: seq<nat>)
    requires Slot(pool, n) == q
    ensures Slot(pool[name := Slot(pool, name) + [x]], n) == q + if name == n then [x] else []
  {
  }

  lemma GroupGrows(pool: map<string, seq<nat>>, olds: seq<nat>, oldNames: seq<string>, i: nat)
    requires |oldNames| == |olds| && i < |olds| && Grouped(pool, olds[..i], oldNames[..i])
    ensures Grouped(
              pool[oldNames[i] := Slot(pool, oldNames[i]) + [olds[i]]], olds[..i + 1], oldNames[..i + 1])
  {
    var pool' := pool[oldNames[i] := Slot(pool, oldNames[i]) + [olds[i]]];
    forall n ensures Slot(pool', n) == NamedIn(olds[..i + 1], oldNames[..i + 1], n) {
      NamedInGrows(olds, oldNames, i, n);
      SlotGrows(pool, oldNames[i], olds[i], n, NamedIn(olds[..i], oldNames[..i], n));
    }
  }

  /** Clients have only been taken off the ends of their slots. */
  ghost predicate TakenOffEnds(pool: map<string, seq<nat>>, olds: seq<nat>, oldNames: seq<string>) {
    |oldNames| == |olds| && forall n :: Slot(pool, n) <= NamedIn(olds, oldNames, n)
  }

  /** Entry j is the last listed client of its name that the entries before it have not taken. */
  ghost predicate IsLastLeft(olds: seq<nat>, oldNames: seq<string>, names: seq<string>, j: nat, x: nat) {
    j < |names| && |oldNames| == |olds|
    && FromEnd(NamedIn(olds, oldNames, names[j]), multiset(names[..j])[names[j]], x)
  }

  ghost predicate FromEnd(q: seq<nat>, k: nat, x: nat) { k < |q| && x == q[|q| - 1 - k] }

  ghost predicate LastFirst(olds: seq<nat>, oldNames: seq<string>, names: seq<string>, news: seq<nat>, fresh0: nat) {
    forall j :: 0 <= j < |news| && news[j] < fresh0 ==> IsLastLeft(olds, oldNames, names, j, news[j])
  }

  lemma NamedLast(olds: seq<nat>, oldNames: seq<string>, x: nat, n: string)
    requires |oldNames| == |olds| && olds != []
    ensures var k := |olds| - 1;
            IsNamed(olds, oldNames, x, n) <==>
            IsNamed(olds[..k], oldNames[..k], x, n) || (x == olds[k] && oldNames[k] == n)
  {
    var k := |olds| - 1;
    if IsNamed(olds[..k], oldNames[..k], x, n) {
      var a :| 0 <= a < k && olds[..k][a] == x && oldNames[..k][a] == n;
      assert olds[a] == x && oldNames[a] == n;
    }
  }

  lemma {:induction false} NamedInHas(olds: seq<nat>, oldNames: seq<string>, n: string, x: nat)
    requires |oldNames| == |olds|
    ensures x in NamedIn(olds, oldNames, n) <==> IsNamed(olds, oldNames, x, n)
    decreases |olds|
  {
    if olds != [] {
      var k := |olds| - 1;
      NamedInHas(olds[..k], oldNames[..k], n, x);
      NamedLast(olds, oldNames, x, n);
    }
  }

  lemma {:induction false} NamedInNoRepeats(olds: seq<nat>, oldNames: seq<string>, n: string)
    requires |oldNames| == |olds| && NoRepeats(olds)
    ensures NoRepeats(NamedIn(olds, oldNames, n))
    decreases |olds|
  {
    if olds != [] {
      var k := |olds| - 1;
      NamedInNoRepeats(olds[..k], oldNames[..k], n);
      NamedInHas(olds[..k], oldNames[..k], n, olds[k]);
      assert !IsNamed(olds[..k], oldNames[..k], olds[k], n);
    }
  }

  /** The entry that asks for a name when k entries before it do. */
  lemma {:induction false} Asking(names: seq<string>, n: string, k: nat) returns (j: nat)
    requires k < multiset(names)[n]
    ensures j < |names| && names[j] == n && multiset(names[..j])[n] == k
    decreases |names|
  {
    j := |names| - 1;
    var init := names[..j];
    assert names == init + [names[j]];
    if names[j] != n || multiset(init)[n] > k {
      j := Asking(init, n, k);
      assert init[..j] == names[..j];
    }
  }

  lemma AskedBefore(names: seq<string>, j: nat)
    requires j < |names|
    ensures multiset(names[..j])[names[j]] < multiset(names)[names[j]]
  {
    assert names == names[..j] + [names[j]] + names[j + 1..];
  }

  lemma TurnTakesLast(olds: seq<nat>, oldNames: seq<string>, names: seq<string>, j: nat, x: nat, fresh0: nat)
    requires |oldNames| == |olds| && j < |names| && InTurn(oldNames, names, x, j, fresh0)
    requires x < fresh0 ==> IsLastLeft(olds, oldNames, names, j, x)
    ensures AskerTakes(NamedIn(olds, oldNames, names[j]), multiset(names[..j])[names[j]], x, fresh0)
  {
  }

  /** What an entry takes when k entries before it asked for the same clients q. */
  ghost predicate AskerTakes(q: seq<nat>, k: nat, x: nat, fresh0: nat) {
    if k < |q| then x == q[|q| - 1 - k] else x >= fresh0
  }

  lemma EntryTakesLast(
      olds: seq<nat>, oldNames: seq<string>, names: seq<string>, news: seq<nat>, fresh0: nat, next: nat, j: nat)
    requires Matched(olds, oldNames, names, news, fresh0, next) && LastFirst(olds, oldNames, names, news, fresh0)
    requires j < |names|
    ensures AskerTakes(NamedIn(olds, oldNames, names[j]), multiset(names[..j])[names[j]], news[j], fresh0)
  {
    TurnTakesLast(olds, oldNames, names, j, news[j], fresh0);
  }

  lemma AskerTakesAt(q: seq<nat>, k: nat, news: seq<nat>, j: nat, fresh0: nat, p: nat)
    requires j < |news| && AskerTakes(q, k, news[j], fresh0) && p < |q| && k == |q| - 1 - p
    ensures q[p] in news
  {
  }

  /** The entry that asks for a name after as many others as there are later clients of it. */
  lemma LastAreReused(
      olds: seq<nat>, oldNames: seq<string>, names: seq<string>, news: seq<nat>, fresh0: nat, next: nat, n: string,
      p: nat)
    requires Matched(olds, oldNames, names, news, fresh0, next) && LastFirst(olds, oldNames, names, news, fresh0)
    requires p < |NamedIn(olds, oldNames, n)| <= p + multiset(names)[n]
    ensures NamedIn(olds, oldNames, n)[p] in news
  {
    var q := NamedIn(olds, oldNames, n);
    var j := Asking(names, n, |q| - 1 - p);
    EntryTakesLast(olds, oldNames, names, news, fresh0, next, j);
    AskerTakesAt(q, multiset(names[..j])[n], news, j, fresh0, p);
  }

  lemma FirstAreLeft(
      olds: seq<nat>, oldNames: seq<string>, names: seq<string>, news: seq<nat>, fresh0: nat, next: nat, n: string,
      p: nat)
    requires Matched(olds, oldNames, names, news, fresh0, next) && LastFirst(olds, oldNames, names, news, fresh0)
    requires p < |NamedIn(olds, oldNames, n)| && NamedIn(olds, oldNames, n)[p] in news
    ensures p + multiset(names)[n] >= |NamedIn(olds, oldNames, n)|
  {
    var q := NamedIn(olds, oldNames, n);
    var j :| 0 <= j < |news| && news[j] == q[p];
    NamedInHas(olds, oldNames, n, q[p]);
    ReusedIsNamed(olds, oldNames, names, news, fresh0, next, n, j);
    EntryTakesLast(olds, oldNames, names, news, fresh0, next, j);
    NamedInNoRepeats(olds, oldNames, n);
    AskedBefore(names, j);
  }

  /** Of the clients of one name the last listed are reused, and the first listed are left over. */
  lemma LastListedAreReused(
      olds: seq<nat>, oldNames: seq<string>, names: seq<string>, news: seq<nat>, fresh0: nat, next: nat, n: string,
      p: nat)
    requires Matched(olds, oldNames, names, news, fresh0, next) && LastFirst(olds, oldNames, names, news, fresh0)
    requires p < |NamedIn(olds, oldNames, n)|
    ensures var q := NamedIn(olds, oldNames, n); q[p] in news <==> p + multiset(names)[n] >= |q|
  {
    if p + multiset(names)[n] >= |NamedIn(olds, oldNames, n)| {
      LastAreReused(olds, oldNames, names, news, fresh0, next, n, p);
    } else if NamedIn(olds, oldNames, n)[p] in news {
      FirstAreLeft(olds, oldNames, names, news, fresh0, next, n, p);
    }
  }

  lemma ReusedIsNamed(
      olds: seq<nat>, oldNames: seq<string>, names: seq<string>, news: seq<nat>, fresh0: nat, next: nat, n: string,
      j: nat)
    requires Matched(olds, oldNames, names, news, fresh0, next) && j < |news|
    requires IsNamed(olds, oldNames, news[j], n)
    ensures news[j] < fresh0 && names[j] == n
  {
    var a :| 0 <= a < |olds| && olds[a] == news[j] && oldNames[a] == n;
    assert TakenFrom(olds, oldNames, names[j], news[j], fresh0, next);
  }

  lemma SlotIsWhatIsLeft(
      pool: map<string, seq<nat>>, olds: seq<nat>, oldNames: seq<string>, wanted: seq<string>, news: seq<nat>,
      fresh0: nat, n: string)
    requires PoolState(pool, olds, oldNames, wanted, news, fresh0) && Slot(pool, n) != []
    ensures |Slot(pool, n)| + multiset(wanted[..|news|])[n] == multiset(oldNames)[n]
  {
    assert Holds(Slot(pool, n), olds, oldNames, news, ReusedNames(wanted, news, fresh0), n);
  }

  lemma PopKeepsEnds(
      pool: map<string, seq<nat>>, olds: seq<nat>, oldNames: seq<string>, n: string, x: nat,
      pool': map<string, seq<nat>>)
    requires TakenOffEnds(pool, olds, oldNames) && Popped(pool, n, x, pool')
    ensures TakenOffEnds(pool', olds, oldNames)
  {
    forall m ensures Slot(pool', m) <= NamedIn(olds, oldNames, m) {
      assert Slot(pool, m) <= NamedIn(olds, oldNames, m);
    }
  }

  lemma PoppedIsLastLeft(
      pool: map<string, seq<nat>>, olds: seq<nat>, oldNames: seq<string>, wanted: seq<string>, news: seq<nat>,
      fresh0: nat, x: nat, pool': map<string, seq<nat>>)
    requires PoolState(pool, olds, oldNames, wanted, news, fresh0) && |news| < |wanted|
    requires TakenOffEnds(pool, olds, oldNames) && Popped(pool, wanted[|news|], x, pool')
    ensures TakenOffEnds(pool', olds, oldNames) && IsLastLeft(olds, oldNames, wanted, |news|, x)
  {
    var n := wanted[|news|];
    SlotIsWhatIsLeft(pool, olds, oldNames, wanted, news, fresh0, n);
    PopKeepsEnds(pool, olds, oldNames, n, x, pool');
    assert Slot(pool, n) <= NamedIn(olds, oldNames, n);
  }

  lemma EmptyPool()
    ensures Pooled(map[], [], [], [], multiset{})
  {
  }

  lemma LastTaken(q: seq<nat>, y: nat)
    requires q != [] && NoRepeats(q)
    ensures var init, x := q[..|q| - 1], q[|q| - 1];
            NoRepeats(init) && (y in init <==> y in q && y != x)
  {
    assert q == q[..|q| - 1] + [q[|q| - 1]];
  }

  lemma PoolPops(
      pool: map<string, seq<nat>>, olds: seq<nat>, oldNames: seq<string>, used: seq<nat>, reused: multiset<string>,
      n: string)
    requires |oldNames| == |olds| && NoRepeats(olds)
    requires Pooled(pool, olds, oldNames, used, reused) && Slot(pool, n) != []
    ensures var q := Slot(pool, n);
            var x := q[|q| - 1];
            && IsNamed(olds, oldNames, x, n) && x !in used
            && Pooled(pool[n := q[..|q| - 1]], olds, oldNames, used + [x], reused + multiset{n})
  {
    var q := Slot(pool, n);
    var x := q[|q| - 1];
    assert Holds(q, olds, oldNames, used, reused, n) && x in q;
    var pool' := pool[n := q[..|q| - 1]];
    forall m ensures Holds(Slot(pool', m), olds, oldNames, used + [x], reused + multiset{n}, m) {
      assert Holds(Slot(pool, m), olds, oldNames, used, reused, m);
      forall y ensures y in Slot(pool', m) <==> IsNamed(olds, oldNames, y, m) && y !in used + [x] {
        LastTaken(q, y);
        if m != n && y == x { NamedOnce(olds, oldNames, x, m, n); }
      }
      LastTaken(q, x);
    }
  }

  lemma NamedOnce(olds: seq<nat>, oldNames: seq<string>, x: nat, m: string, n: string)
    requires |oldNames| == |olds| && NoRepeats(olds) && IsNamed(olds, oldNames, x, n) && m != n
    ensures !IsNamed(olds, oldNames, x, m)
  {
  }

  // ------------------------------------------------------------------------------------------
  // What becomes of each client ever created.

  datatype Fleet = Fleet(next: nat, listed: seq<nat>, shutdowns: multiset<nat>, orphans: set<nat>)

  ghost predicate AccountedOnce(f: Fleet, x: nat) {
    f.shutdowns[x] + One(x in f.listed) + One(x in f.orphans) == One(x < f.next)
  }

  ghost predicate ShutDownIfLeft(f: Fleet, g: Fleet, x: nat) {
    g.shutdowns[x] == f.shutdowns[x] + One(x in f.listed && x !in g.listed)
  }

  /** Every client created so far is listed once, or was shut down once, or is an orphan. */
  ghost predicate Accounted(f: Fleet) {
    && NoRepeats(f.listed)
    && (forall x :: AccountedOnce(f, x))
  }

  /** A reload that went through: the new list has old clients and all the new ones; the old clients
      it does not have are shut down. */
  ghost predicate Replaced(f: Fleet, g: Fleet) {
    && f.next <= g.next && NoRepeats(g.listed) && g.orphans == f.orphans
    && (forall x :: x in g.listed ==> x in f.listed || f.next <= x < g.next)
    && (forall x :: f.next <= x < g.next ==> x in g.listed)
    && (forall x :: ShutDownIfLeft(f, g, x))
  }

  /** A reload that failed: what it created belongs to nobody. */
  ghost predicate GaveUp(f: Fleet, g: Fleet) {
    && f.next <= g.next && g.listed == f.listed && g.shutdowns == f.shutdowns
    && (forall x :: x in g.orphans <==> x in f.orphans || f.next <= x < g.next)
  }

  ghost predicate FleetNext(f: Fleet, g: Fleet) { Replaced(f, g) || GaveUp(f, g) }

  ghost predicate FleetRun(fs: seq<Fleet>) {
    forall k :: 0 < k < |fs| ==> FleetNext(fs[k - 1], fs[k])
  }

  lemma FleetNextKeepsAccounts(f: Fleet, g: Fleet)
    requires Accounted(f) && FleetNext(f, g)
    ensures Accounted(g)
  {
    forall x ensures AccountedOnce(g, x) {
      assert AccountedOnce(f, x) && (Replaced(f, g) ==> ShutDownIfLeft(f, g, x));
    }
  }

  lemma {:induction false} FleetRunKeepsAccounts(fs: seq<Fleet>)
    requires fs != [] && FleetRun(fs) && Accounted(fs[0])
    ensures Accounted(fs[|fs| - 1])
    decreases |fs|
  {
    var k := |fs| - 1;
    if k > 0 {
      FleetRunKeepsAccounts(fs[..k]);
      FleetNextKeepsAccounts(fs[k - 1], fs[k]);
    }
  }

  /** A client shut down stays so, and no reload lists it again or shuts it down again. */
  lemma {:induction false} ShutDownIsFinal(fs: seq<Fleet>, x: nat)
    requires fs != [] && FleetRun(fs) && Accounted(fs[0]) && x in fs[0].shutdowns
    ensures fs[|fs| - 1].shutdowns[x] == 1 && x !in fs[|fs| - 1].listed
    decreases |fs|
  {
    var k := |fs| - 1;
    if k > 0 {
      ShutDownIsFinal(fs[..k], x);
      FleetRunKeepsAccounts(fs[..k]);
      FleetRunKeepsAccounts(fs);
      assert Replaced(fs[k - 1], fs[k]) ==> ShutDownIfLeft(fs[k - 1], fs[k], x);
      assert AccountedOnce(fs[k], x);
    } else {
      assert AccountedOnce(fs[0], x);
    }
  }

  lemma {:induction false} CountInDistinct(q: seq<nat>, x: nat)
    requires NoRepeats(q)
    ensures multiset(q)[x] == One(x in q)
    decreases |q|
  {
    if q != [] {
      var k := |q| - 1;
      CountInDistinct(q[..k], x);
      assert q == q[..k] + [q[k]];
    }
  }

  /** After any run of reloads and one shutdown of the connector, every client ever created has been
      shut down exactly once, but for those a failed reload created, which never are. */
  lemma ShutDownOnceOrOrphan(fs: seq<Fleet>, x: nat)
    requires fs != [] && FleetRun(fs) && Accounted(fs[0]) && x < fs[|fs| - 1].next
    ensures var f := fs[|fs| - 1];
            (f.shutdowns + multiset(f.listed))[x] == One(x !in f.orphans)
  {
    FleetRunKeepsAccounts(fs);
    var f := fs[|fs| - 1];
    CountInDistinct(f.listed, x);
    assert AccountedOnce(f, x);
  }

  ghost predicate OrphanedBy(f: Fleet, g: Fleet, x: nat) { GaveUp(f, g) && f.next <= x < g.next }

  /** Over any run, a client is an orphan in the end just when it was one before or some failed reload
      created it. */
  lemma {:induction false} OrphansAreOfFailures(fs: seq<Fleet>, x: nat)
    requires fs != [] && FleetRun(fs)
    ensures x in fs[|fs| - 1].orphans <==>
            x in fs[0].orphans || exists k :: 0 < k < |fs| && OrphanedBy(fs[k - 1], fs[k], x)
    decreases |fs|
  {
    var k := |fs| - 1;
    if k > 0 {
      OrphansAreOfFailures(fs[..k], x);
      if j :| 0 < j < |fs| && OrphanedBy(fs[j - 1], fs[j], x) {
        assert j < k ==> OrphanedBy(fs[..k][j - 1], fs[..k][j], x);
      }
      if j :| 0 < j < k && OrphanedBy(fs[..k][j - 1], fs[..k][j], x) {
        assert OrphanedBy(fs[j - 1], fs[j], x);
      }
    }
  }

  // ------------------------------------------------------------------------------------------
  // Settings before and after.

  predicate SameUpToOrder(s: Settings, t: Settings) {
    t == s.(addrs := t.addrs) && multiset(t.addrs) == multiset(s.addrs)
  }

  lemma OrderTransitive(s: Settings, t: Settings, u: Settings)
    requires SameUpToOrder(s, t) && SameUpToOrder(t, u)
    ensures SameUpToOrder(s, u)
  {
  }

  lemma NormalisedKeepsOrder(z: Settings, z': Settings)
    requires SameUpToOrder(z, z')
    ensures SameUpToOrder(Normalised(z), Normalised(z'))
  {
    assert |z'.addrs| == |multiset(z'.addrs)| == |z.addrs|;
  }

  lemma MergedIgnoresOrder(s: Settings, zn: Settings, s': Settings, zn': Settings)
    requires SameUpToOrder(s, s') && SameUpToOrder(zn, zn')
    ensures CanReload(s', zn') <==> CanReload(s, zn)
    ensures HotReload.Merged(s', zn') == HotReload.Merged(s, zn)
  {
    assert |zn'.addrs| == |multiset(zn'.addrs)| == |zn.addrs|;
    SortsAlike(s.addrs, s'.addrs);
  }

  /** The order of the addresses decides nothing about a reload. */
  lemma ReloadIgnoresOrder(s: Settings, z: Settings, s': Settings, z': Settings)
    requires SameUpToOrder(s, s') && SameUpToOrder(z, z')
    ensures CanReload(s', Normalised(z')) <==> CanReload(s, Normalised(z))
    ensures CanReload(s, Normalised(z)) ==> ClientReloaded(s', z') == ClientReloaded(s, z)
  {
    NormalisedKeepsOrder(z, z');
    MergedIgnoresOrder(s, Normalised(z), s', Normalised(z'));
  }

  /** The new configuration object as an accepted reload leaves it. */
  function ConfigAfter(z: Settings): Settings {
    var zn := Normalised(z);
    zn.(addrs := Sort(zn.addrs))
  }

  /** After a reload the client has the name of the configuration, even when sorting the addresses
      has changed that name. */
  lemma NamesMatchAfterReload(s: Settings, z: Settings)
    requires CanReload(s, Normalised(z))
    ensures NameOf(ClientReloaded(s, z)) == NameOf(ConfigAfter(z))
  {
    SortsAlike(s.addrs, Normalised(z).addrs);
    SortKeepsLength(s.addrs);
  }

  lemma NamedKeepsName(s: Settings)
    ensures NameOf(Named(s)) == NameOf(s) && SameUpToOrder(s, Named(s))
  {
    SortIsIdempotent(s.addrs);
    SortKeepsLength(s.addrs);
  }

  lemma ReloadKeepsIdentity(s: Settings, z: Settings)
    requires !CanReload(s, Normalised(z))
    ensures SameUpToOrder(s, ClientReloaded(s, z))
  {
  }

  /** What the entry for configuration `z` of the new list is: an old client, reloaded, whose
      addresses are not the main client's; or a new client, whose addresses nobody has looked at. */
  ghost predicate Settled(
      before: map<nat, Settings>, after: map<nat, Settings>, mainAddrs: multiset<string>, z: Settings, x: nat,
      fresh0: nat)
  {
    && x in after
    && if x < fresh0 then
         && x in before && multiset(z.addrs) != mainAddrs && CanReload(before[x], Normalised(z))
         && after[x] == ClientReloaded(before[x], z)
       else ValidMode(z.clientMode) && after[x] == Named(z)
  }

  ghost function NamesOf(settings: map<nat, Settings>, xs: seq<nat>): (ns: seq<string>)
    requires forall x :: x in xs ==> x in settings
    ensures |ns| == |xs| && forall i :: 0 <= i < |xs| ==> ns[i] == NameOf(settings[xs[i]])
  {
    seq(|xs|, i requires 0 <= i < |xs| => NameOf(settings[xs[i]]))
  }

  ghost function WantedNames(zs: seq<Settings>): (ns: seq<string>)
    ensures |ns| == |zs| && forall i :: 0 <= i < |zs| ==> ns[i] == NameOf(zs[i])
  {
    seq(|zs|, i requires 0 <= i < |zs| => NameOf(zs[i]))
  }

  // ------------------------------------------------------------------------------------------
  // The new list while it is being filled.

  /** The pool is what the entries so far leave over, and they reuse as many as they can. */
  ghost predicate PoolState(
      pool: map<string, seq<nat>>, olds: seq<nat>, oldNames: seq<string>, wanted: seq<string>, news: seq<nat>,
      fresh0: nat)
  {
    && |oldNames| == |olds| && |news| <= |wanted| && NoRepeats(olds)
    && (forall a :: 0 <= a < |olds| ==> olds[a] < fresh0)
    && Pooled(pool, olds, oldNames, news, ReusedNames(wanted, news, fresh0))
    && ReusedNames(wanted, news, fresh0) == multiset(oldNames) * multiset(wanted[..|news|])
    && AllInTurn(oldNames, wanted, news, fresh0)
  }

  ghost predicate AllInTurn(oldNames: seq<string>, names: seq<string>, news: seq<nat>, fresh0: nat)
    requires |news| <= |names|
  {
    forall j :: 0 <= j < |news| ==> InTurn(oldNames, names, news[j], j, fresh0)
  }

  lemma OneMoreInTurn(oldNames: seq<string>, names: seq<string>, news: seq<nat>, x: nat, fresh0: nat)
    requires |news| < |names| && AllInTurn(oldNames, names, news, fresh0)
    requires InTurn(oldNames, names, x, |news|, fresh0)
    ensures AllInTurn(oldNames, names, news + [x], fresh0)
  {
  }

  lemma OneMoreWanted(wanted: seq<string>, news: seq<nat>, x: nat, fresh0: nat)
    requires |news| < |wanted|
    ensures ReusedNames(wanted, news + [x], fresh0)
         == ReusedNames(wanted, news, fresh0) + if x < fresh0 then multiset{wanted[|news|]} else multiset{}
    ensures multiset(wanted[..|news| + 1]) == multiset(wanted[..|news|]) + multiset{wanted[|news|]}
  {
    assert (news + [x])[..|news|] == news;
    assert wanted[..|news| + 1] == wanted[..|news|] + [wanted[|news|]];
  }

  lemma PoolAfterReuse(
      pool: map<string, seq<nat>>, olds: seq<nat>, oldNames: seq<string>, wanted: seq<string>, news: seq<nat>,
      fresh0: nat)
    requires PoolState(pool, olds, oldNames, wanted, news, fresh0) && |news| < |wanted|
    requires Slot(pool, wanted[|news|]) != []
    ensures var n := wanted[|news|];
            var q := Slot(pool, n);
            var x := q[|q| - 1];
            && IsNamed(olds, oldNames, x, n) && x < fresh0 && x !in news
            && PoolState(pool[n := q[..|q| - 1]], olds, oldNames, wanted, news + [x], fresh0)
  {
    var n := wanted[|news|];
    var q := Slot(pool, n);
    var reused := ReusedNames(wanted, news, fresh0);
    PoolPops(pool, olds, oldNames, news, reused, n);
    OneMoreWanted(wanted, news, q[|q| - 1], fresh0);
    assert Holds(q, olds, oldNames, news, reused, n);
    OneTaken(reused, multiset(oldNames), multiset(wanted[..|news|]), n);
    OneMoreInTurn(oldNames, wanted, news, q[|q| - 1], fresh0);
  }

  lemma OneTaken(taken: multiset<string>, old0: multiset<string>, wanted: multiset<string>, n: string)
    requires taken == old0 * wanted && taken[n] < old0[n]
    ensures taken + multiset{n} == old0 * (wanted + multiset{n}) && wanted[n] < old0[n]
  {
  }

  /** When all old ones of a name are taken, wanting one more takes no more. */
  lemma AllTaken(taken: multiset<string>, old0: multiset<string>, wanted: multiset<string>, n: string)
    requires taken == old0 * wanted && taken[n] == old0[n]
    ensures taken == old0 * (wanted + multiset{n}) && wanted[n] >= old0[n]
  {
  }

  lemma PoolAfterCreate(
      pool: map<string, seq<nat>>, olds: seq<nat>, oldNames: seq<string>, wanted: seq<string>, news: seq<nat>,
      fresh0: nat, x: nat)
    requires PoolState(pool, olds, oldNames, wanted, news, fresh0) && |news| < |wanted|
    requires Slot(pool, wanted[|news|]) == [] && x >= fresh0
    ensures PoolState(pool, olds, oldNames, wanted, news + [x], fresh0)
  {
    var n := wanted[|news|];
    var reused := ReusedNames(wanted, news, fresh0);
    OneMoreWanted(wanted, news, x, fresh0);
    assert Holds(Slot(pool, n), olds, oldNames, news, reused, n);
    AllTaken(reused, multiset(oldNames), multiset(wanted[..|news|]), n);
    OneMoreInTurn(oldNames, wanted, news, x, fresh0);
    PoolWithNew(pool, olds, oldNames, news, reused, x);
  }

  lemma PoolWithNew(
      pool: map<string, seq<nat>>, olds: seq<nat>, oldNames: seq<string>, used: seq<nat>, reused: multiset<string>,
      x: nat)
    requires |oldNames| == |olds| && Pooled(pool, olds, oldNames, used, reused) && x !in olds
    ensures Pooled(pool, olds, oldNames, used + [x], reused)
  {
    forall m ensures Holds(Slot(pool, m), olds, oldNames, used + [x], reused, m) {
      assert Holds(Slot(pool, m), olds, oldNames, used, reused, m);
      NewIsNotHeld(Slot(pool, m), olds, oldNames, used, reused, m, x);
    }
  }

  lemma NewIsNotHeld(
      q: seq<nat>, olds: seq<nat>, oldNames: seq<string>, used: seq<nat>, reused: multiset<string>, n: string, x: nat)
    requires |oldNames| == |olds| && Holds(q, olds, oldNames, used, reused, n) && x !in olds
    ensures Holds(q, olds, oldNames, used + [x], reused, n)
  {
  }

  /** Entries so far are distinct, come from where they should, and none of the created is lost. */
  ghost predicate ListState(
      olds: seq<nat>, oldNames: seq<string>, wanted: seq<string>, news: seq<nat>, fresh0: nat, next: nat)
  {
    && |oldNames| == |olds| && |news| <= |wanted| && NoRepeats(news) && fresh0 <= next
    && (forall j :: 0 <= j < |news| ==> TakenFrom(olds, oldNames, wanted[j], news[j], fresh0, next))
    && (forall x :: fresh0 <= x < next ==> x in news)
  }

  lemma EntriesExist(
      olds: seq<nat>, oldNames: seq<string>, wanted: seq<string>, news: seq<nat>, fresh0: nat, next: nat)
    requires ListState(olds, oldNames, wanted, news, fresh0, next)
    ensures next !in news
  {
    forall j | 0 <= j < |news| ensures news[j] < next {
      assert TakenFrom(olds, oldNames, wanted[j], news[j], fresh0, next);
    }
  }

  lemma ListGrows(
      olds: seq<nat>, oldNames: seq<string>, wanted: seq<string>, news: seq<nat>, fresh0: nat, next: nat, x: nat,
      next': nat)
    requires ListState(olds, oldNames, wanted, news, fresh0, next) && |news| < |wanted| && x !in news
    requires if x == next then next' == next + 1
             else x < fresh0 && next' == next && IsNamed(olds, oldNames, x, wanted[|news|])
    ensures ListState(olds, oldNames, wanted, news + [x], fresh0, next')
  {
    forall j | 0 <= j <= |news| ensures TakenFrom(olds, oldNames, wanted[j], (news + [x])[j], fresh0, next') {
      if j < |news| {
        assert TakenFrom(olds, oldNames, wanted[j], news[j], fresh0, next);
      }
    }
  }

  /** Each entry so far is settled, and no other old client has changed but for address order. */
  ghost predicate SettingsState(
      before: map<nat, Settings>, after: map<nat, Settings>, mainAddrs: multiset<string>, zs: seq<Settings>,
      news: seq<nat>, fresh0: nat, next: nat)
  {
    && |news| <= |zs| && fresh0 <= next
    && (forall x: nat :: x in before <==> x < fresh0) && (forall x: nat :: x in after <==> x < next)
    && (forall j :: 0 <= j < |news| ==> Settled(before, after, mainAddrs, zs[j], news[j], fresh0))
    && (forall x: nat :: x in before && x !in news ==> SameUpToOrder(before[x], after[x]))
  }

  lemma SettledStays(
      before: map<nat, Settings>, after: map<nat, Settings>, mainAddrs: multiset<string>, z: Settings, x: nat,
      fresh0: nat, after': map<nat, Settings>)
    requires Settled(before, after, mainAddrs, z, x, fresh0) && x in after' && after'[x] == after[x]
    ensures Settled(before, after', mainAddrs, z, x, fresh0)
  {
  }

  lemma EntriesStaySettled(
      before: map<nat, Settings>, after: map<nat, Settings>, mainAddrs: multiset<string>, zs: seq<Settings>,
      news: seq<nat>, fresh0: nat, x: nat, after': map<nat, Settings>)
    requires |news| < |zs| && x !in news && x in after' && after' == after[x := after'[x]]
    requires forall j :: 0 <= j < |news| ==> Settled(before, after, mainAddrs, zs[j], news[j], fresh0)
    requires Settled(before, after', mainAddrs, zs[|news|], x, fresh0)
    ensures forall j :: 0 <= j <= |news| ==> Settled(before, after', mainAddrs, zs[j], (news + [x])[j], fresh0)
  {
    forall j | 0 <= j < |news| ensures Settled(before, after', mainAddrs, zs[j], news[j], fresh0) {
      SettledStays(before, after, mainAddrs, zs[j], news[j], fresh0, after');
    }
  }

  lemma SettingsGrow(
      before: map<nat, Settings>, after: map<nat, Settings>, mainAddrs: multiset<string>, zs: seq<Settings>,
      news: seq<nat>, fresh0: nat, next: nat, x: nat, after': map<nat, Settings>, next': nat)
    requires SettingsState(before, after, mainAddrs, zs, news, fresh0, next) && |news| < |zs| && x !in news
    requires x in after' && after' == after[x := after'[x]]
    requires if x == next then next' == next + 1 else x < fresh0 && next' == next
    requires Settled(before, after', mainAddrs, zs[|news|], x, fresh0)
    ensures SettingsState(before, after', mainAddrs, zs, news + [x], fresh0, next')
  {
    EntriesStaySettled(before, after, mainAddrs, zs, news, fresh0, x, after');
  }

  lemma {:induction false} ReusedOfPrefix(names: seq<string>, m: nat, news: seq<nat>, fresh0: nat)
    requires |news| <= m <= |names|
    ensures ReusedNames(names[..m], news, fresh0) == ReusedNames(names, news, fresh0)
    decreases |news|
  {
    if news != [] {
      ReusedOfPrefix(names, m, news[..|news| - 1], fresh0);
    }
  }

  /** The list is matched with the names asked for so far, and so, in the end, with all. */
  lemma FilledIsMatched(
      pool: map<string, seq<nat>>, olds: seq<nat>, oldNames: seq<string>, wanted: seq<string>, news: seq<nat>,
      fresh0: nat, next: nat)
    requires PoolState(pool, olds, oldNames, wanted, news, fresh0)
    requires ListState(olds, oldNames, wanted, news, fresh0, next)
    ensures Matched(olds, oldNames, wanted[..|news|], news, fresh0, next)
  {
    var names := wanted[..|news|];
    ReusedOfPrefix(wanted, |news|, news, fresh0);
    forall j | 0 <= j < |news|
      ensures TakenFrom(olds, oldNames, names[j], news[j], fresh0, next)
      ensures InTurn(oldNames, names, news[j], j, fresh0)
    {
      assert names[..j] == wanted[..j];
      assert TakenFrom(olds, oldNames, wanted[j], news[j], fresh0, next);
      assert InTurn(oldNames, wanted, news[j], j, fresh0);
    }
  }

  /** Whether an old client can be reused, and why not. */
  function ReuseOutcome(mainAddrs: multiset<string>, s: Settings, z: Settings, i: nat): Outcome {
    if multiset(z.addrs) == mainAddrs then SharesMainAddress(i)
    else if CanReload(s, Normalised(z)) then Done
    else ClientRejected(i)
  }

  /** How things were when a reload came to the load-test clients. */
  datatype Start = Start(olds: seq<nat>, oldNames: seq<string>, settings: map<nat, Settings>, main: Settings, next: nat)

  /** Why the list could not be completed after the entries `news`: the old client that was up next
      shares the main client's addresses or refuses the configuration; or there was no old client
      left and creating one failed. */
  ghost predicate Stuck(st: Start, zs: seq<Settings>, news: seq<nat>, cancelled: nat -> bool, o: Outcome) {
    |news| < |zs| && |st.oldNames| == |st.olds| &&
    match o
    case Done => false
    case CreateFailed(i) =>
      && i == |news| && (cancelled(i) || !ValidMode(zs[i].clientMode))
      && (forall x :: IsNamed(st.olds, st.oldNames, x, NameOf(zs[i])) ==> x in news)
    case _ => exists x :: RefusedBy(st, zs[|news|], news, o, x)
  }

  ghost predicate RefusedBy(st: Start, z: Settings, news: seq<nat>, o: Outcome, x: nat)
    requires |st.oldNames| == |st.olds|
  {
    && IsNamed(st.olds, st.oldNames, x, NameOf(z)) && x !in news && x in st.settings
    && o == ReuseOutcome(multiset(st.main.addrs), st.settings[x], z, |news|)
  }

  ghost predicate Refused(st: Start, z: Settings, news: seq<nat>, o: Outcome) {
    match st
    case Start(olds, oldNames, _, _, _) => |oldNames| == |olds| && exists x :: RefusedBy(st, z, news, o, x)
  }

  ghost predicate NamesRead(before: map<nat, Settings>, after: map<nat, Settings>) {
    before.Keys == after.Keys && forall x :: x in after ==> SameUpToOrder(before[x], after[x])
  }

  /** What the settings state becomes when an old client is tried: with `x` settled, or still as before. */
  lemma SettingsAfterReuse(
      before: map<nat, Settings>, was: map<nat, Settings>, mainAddrs: multiset<string>, zs: seq<Settings>,
      news: seq<nat>, fresh0: nat, next: nat, x: nat, after: map<nat, Settings>, o: Outcome)
    requires SettingsState(before, was, mainAddrs, zs, news, fresh0, next) && |news| < |zs| && x !in news && x < fresh0
    requires x in after && after == was[x := after[x]]
    requires o == ReuseOutcome(mainAddrs, was[x], zs[|news|], |news|)
    requires if o == Done then after[x] == ClientReloaded(was[x], zs[|news|]) else SameUpToOrder(was[x], after[x])
    ensures o == ReuseOutcome(mainAddrs, before[x], zs[|news|], |news|)
    ensures if o == Done then SettingsState(before, after, mainAddrs, zs, news + [x], fresh0, next)
            else SettingsState(before, after, mainAddrs, zs, news, fresh0, next)
  {
    var z := zs[|news|];
    ReloadIgnoresOrder(before[x], z, was[x], z);
    if o == Done {
      SettingsGrow(before, was, mainAddrs, zs, news, fresh0, next, x, after, next);
    } else {
      OrderTransitive(before[x], was[x], after[x]);
      SettingsUntouched(before, was, mainAddrs, zs, news, fresh0, next, x, after);
    }
  }

  lemma SettingsUntouched(
      before: map<nat, Settings>, was: map<nat, Settings>, mainAddrs: multiset<string>, zs: seq<Settings>,
      news: seq<nat>, fresh0: nat, next: nat, x: nat, after: map<nat, Settings>)
    requires SettingsState(before, was, mainAddrs, zs, news, fresh0, next) && x !in news && x < fresh0
    requires x in after && after == was[x := after[x]] && SameUpToOrder(before[x], after[x])
    ensures SettingsState(before, after, mainAddrs, zs, news, fresh0, next)
  {
    forall j | 0 <= j < |news| ensures Settled(before, after, mainAddrs, zs[j], news[j], fresh0) {
      assert Settled(before, was, mainAddrs, zs[j], news[j], fresh0);
    }
  }

  /** Taking the last client of a slot, before anything is asked of it. */
  lemma TakingLast(pool: map<string, seq<nat>>, st: Start, wanted: seq<string>, news: seq<nat>, next: nat)
    requires PoolState(pool, st.olds, st.oldNames, wanted, news, st.next) && |news| < |wanted|
    requires ListState(st.olds, st.oldNames, wanted, news, st.next, next)
    requires Slot(pool, wanted[|news|]) != []
    ensures var n := wanted[|news|];
            var q := Slot(pool, n);
            var x := q[|q| - 1];
            && IsNamed(st.olds, st.oldNames, x, n) && x < st.next && x !in news
            && PoolState(pool[n := q[..|q| - 1]], st.olds, st.oldNames, wanted, news + [x], st.next)
            && ListState(st.olds, st.oldNames, wanted, news + [x], st.next, next)
  {
    PoolAfterReuse(pool, st.olds, st.oldNames, wanted, news, st.next);
    var q := Slot(pool, wanted[|news|]);
    ListGrows(st.olds, st.oldNames, wanted, news, st.next, next, q[|q| - 1], next);
  }

  /** Everything known while the new list has the entries `news`. */
  ghost predicate FillState(
      pool: map<string, seq<nat>>, zs: seq<Settings>, news: seq<nat>, st: Start, main: Settings,
      settings: map<nat, Settings>, next: nat)
  {
    match st
    case Start(olds, oldNames, _, _, fresh0) =>
      && PoolState(pool, olds, oldNames, WantedNames(zs), news, fresh0)
      && ListState(olds, oldNames, WantedNames(zs), news, fresh0, next)
      && SettingsSoFar(zs, news, st, main, settings, next)
  }

  /** Against the start: what the settings of each client are by now, and the main client's. */
  ghost predicate SettingsSoFar(
      zs: seq<Settings>, news: seq<nat>, st: Start, main: Settings, settings: map<nat, Settings>, next: nat)
  {
    match st
    case Start(_, _, before, main0, fresh0) =>
      SettingsState(before, settings, multiset(main0.addrs), zs, news, fresh0, next) && SameUpToOrder(main0, main)
  }

  /** The entries match what was asked for up to them, and have all the clients created. */
  ghost predicate MatchedSoFar(zs: seq<Settings>, news: seq<nat>, st: Start, next: nat) {
    match st
    case Start(olds, oldNames, _, _, fresh0) =>
      && NoneElse(news, fresh0, next) && |news| <= |zs|
      && Matched(olds, oldNames, WantedNames(zs)[..|news|], news, fresh0, next)
  }

  lemma FillIsMatched(
      pool: map<string, seq<nat>>, zs: seq<Settings>, news: seq<nat>, st: Start, main: Settings,
      settings: map<nat, Settings>, next: nat)
    requires FillState(pool, zs, news, st, main, settings, next)
    ensures MatchedSoFar(zs, news, st, next) && SettingsSoFar(zs, news, st, main, settings, next)
  {
    FilledIsMatched(pool, st.olds, st.oldNames, WantedNames(zs), news, st.next, next);
  }

  /** No client was created after the context was done. */
  ghost predicate NotCancelled(news: seq<nat>, fresh0: nat, cancelled: nat -> bool) {
    forall j :: 0 <= j < |news| && news[j] >= fresh0 ==> !cancelled(j)
  }

  lemma OneMoreNotCancelled(news: seq<nat>, x: nat, fresh0: nat, cancelled: nat -> bool)
    requires NotCancelled(news, fresh0, cancelled) && (x < fresh0 || !cancelled(|news|))
    ensures NotCancelled(news + [x], fresh0, cancelled)
  {
  }

  lemma OneMoreLastFirst(
      olds: seq<nat>, oldNames: seq<string>, names: seq<string>, news: seq<nat>, fresh0: nat, x: nat)
    requires LastFirst(olds, oldNames, names, news, fresh0)
    requires x < fresh0 ==> IsLastLeft(olds, oldNames, names, |news|, x)
    ensures LastFirst(olds, oldNames, names, news + [x], fresh0)
  {
  }

  /** An old client x has been tried for entry i, which only it and the order of the main client's
      addresses may have felt. */
  ghost predicate Tried(
      main: Settings, settings: map<nat, Settings>, main': Settings, settings': map<nat, Settings>, x: nat,
      z: Settings, i: nat, o: Outcome)
  {
    match o
    case Done =>
      TriedWith(main, settings, main', settings', x, z, i, o) && settings'[x] == ClientReloaded(settings[x], z)
    case _ =>
      TriedWith(main, settings, main', settings', x, z, i, o) && SameUpToOrder(settings[x], settings'[x])
  }

  ghost predicate TriedWith(
      main: Settings, settings: map<nat, Settings>, main': Settings, settings': map<nat, Settings>, x: nat,
      z: Settings, i: nat, o: Outcome)
  {
    && SameUpToOrder(main, main') && x in settings && x in settings' && settings' == settings[x := settings'[x]]
    && o == ReuseOutcome(multiset(main.addrs), settings[x], z, i)
  }

  ghost predicate Popped(pool: map<string, seq<nat>>, n: string, x: nat, pool': map<string, seq<nat>>) {
    var q := Slot(pool, n);
    q != [] && x == q[|q| - 1] && pool' == pool[n := q[..|q| - 1]]
  }

  /** What trying the last client of a slot comes to. */
  lemma AfterTryingLast(
      pool: map<string, seq<nat>>, zs: seq<Settings>, news: seq<nat>, st: Start, main: Settings,
      settings: map<nat, Settings>, next: nat, main': Settings, settings': map<nat, Settings>,
      pool': map<string, seq<nat>>, x: nat, o: Outcome)
    requires FillState(pool, zs, news, st, main, settings, next) && |news| < |zs|
    requires Popped(pool, NameOf(zs[|news|]), x, pool')
    requires Tried(main, settings, main', settings', x, zs[|news|], |news|, o)
    ensures x < st.next
    ensures o == Done ==> FillState(pool', zs, news + [x], st, main', settings', next)
    ensures o != Done ==>
              Refused(st, zs[|news|], news, o) && SettingsSoFar(zs, news, st, main', settings', next)
  {
    TakingLast(pool, st, WantedNames(zs), news, next);
    OrderTransitive(st.main, main, main');
    SettingsAfterReuse(st.settings, settings, multiset(st.main.addrs), zs, news, st.next, next, x, settings', o);
    if o != Done { assert RefusedBy(st, zs[|news|], news, o, x); }
  }

  lemma AfterCreating(
      pool: map<string, seq<nat>>, zs: seq<Settings>, news: seq<nat>, st: Start, main: Settings,
      settings: map<nat, Settings>, next: nat, settings': map<nat, Settings>, z: Settings)
    requires FillState(pool, zs, news, st, main, settings, next) && |news| < |zs| && z == zs[|news|]
    requires Slot(pool, NameOf(z)) == [] && ValidMode(z.clientMode) && settings' == settings[next := Named(z)]
    ensures FillState(pool, zs, news + [next], st, main, settings', next + 1)
  {
    EntriesExist(st.olds, st.oldNames, WantedNames(zs), news, st.next, next);
    PoolAfterCreate(pool, st.olds, st.oldNames, WantedNames(zs), news, st.next, next);
    ListGrows(st.olds, st.oldNames, WantedNames(zs), news, st.next, next, next, next + 1);
    SettingsGrow(
      st.settings, settings, multiset(st.main.addrs), zs, news, st.next, next, next, settings', next + 1);
  }

  lemma RefusedIsStuck(
      st: Start, zs: seq<Settings>, news: seq<nat>, cancelled: nat -> bool, o: Outcome)
    requires |news| < |zs| && o != Done && Refused(st, zs[|news|], news, o)
    ensures Stuck(st, zs, news, cancelled, o)
  {
  }

  lemma LastExists(
      pool: map<string, seq<nat>>, zs: seq<Settings>, news: seq<nat>, st: Start, main: Settings,
      settings: map<nat, Settings>, next: nat, n: string)
    requires FillState(pool, zs, news, st, main, settings, next) && Slot(pool, n) != []
    ensures Slot(pool, n)[|Slot(pool, n)| - 1] in settings
  {
    var q := Slot(pool, n);
    assert Holds(q, st.olds, st.oldNames, news, ReusedNames(WantedNames(zs), news, st.next), n);
    assert q[|q| - 1] in q;
  }

  /** In the list a reload leaves, every client has the name its configuration has by then. */
  lemma ListedNamesMatch(
      before: map<nat, Settings>, after: map<nat, Settings>, mainAddrs: multiset<string>, zs: seq<Settings>,
      news: seq<nat>, fresh0: nat, next: nat, j: nat)
    requires SettingsState(before, after, mainAddrs, zs, news, fresh0, next) && j < |news|
    ensures news[j] in after
    ensures NameOf(after[news[j]]) == NameOf(if news[j] < fresh0 then ConfigAfter(zs[j]) else Named(zs[j]))
  {
    assert Settled(before, after, mainAddrs, zs[j], news[j], fresh0);
    if news[j] < fresh0 {
      NamesMatchAfterReload(before[news[j]], zs[j]);
    }
  }

  lemma EntrySharesMain(
      before: map<nat, Settings>, after: map<nat, Settings>, mainAddrs: multiset<string>, z: Settings, x: nat,
      fresh0: nat)
    requires Settled(before, after, mainAddrs, z, x, fresh0) && z.addrs != []
    ensures multiset(after[x].addrs) == mainAddrs <==> x >= fresh0 && multiset(z.addrs) == mainAddrs
  {
    NamedKeepsName(z);
  }

  /** With configurations that name their addresses, a load-test client shares the main client's
      addresses exactly when the reload created it for a configuration that does. */
  lemma OnlyCreatedShareMain(
      before: map<nat, Settings>, after: map<nat, Settings>, mainAddrs: multiset<string>, zs: seq<Settings>,
      news: seq<nat>, fresh0: nat, next: nat, j: nat)
    requires SettingsState(before, after, mainAddrs, zs, news, fresh0, next) && j < |news| && zs[j].addrs != []
    ensures news[j] in after
    ensures multiset(after[news[j]].addrs) == mainAddrs <==> news[j] >= fresh0 && multiset(zs[j].addrs) == mainAddrs
  {
    EntrySharesMain(before, after, mainAddrs, zs[j], news[j], fresh0);
  }

  // ------------------------------------------------------------------------------------------
  // Reloading the same configurations again.

  /** An accepted reload sorts the addresses of every client; this configuration keeps its name then. */
  predicate KeepsItsName(z: Settings) { NameOf(ConfigAfter(z)) == NameOf(z) }

  /** That is so unless a single-host configuration names another address than its least one first. */
  lemma KeepsItsNameIff(z: Settings)
    ensures KeepsItsName(z) <==>
            !z.clientMode.ModeSingleHost? || forall i :: 0 <= i < |z.addrs| ==> Leq(z.addrs[0], z.addrs[i])
  {
    SortKeepsLength(z.addrs);
    SortIsIdempotent(z.addrs);
    SortIsIdempotent([DEFAULT_ADDR]);
    if z.addrs != [] { LeastIsFirstIff(z.addrs); }
  }

  lemma LeastIsFirstIff(s: seq<string>)
    requires s != []
    ensures Sort(s) != [] && (Sort(s)[0] == s[0] <==> forall i :: 0 <= i < |s| ==> Leq(s[0], s[i]))
  {
    SortKeepsLength(s);
    forall i | 0 <= i < |s| ensures Leq(Sort(s)[0], s[i]) {
      assert s[i] in multiset(s);
      LeastComesFirst(Sort(s), s[i]);
    }
    if forall i :: 0 <= i < |s| ==> Leq(s[0], s[i]) {
      assert Sort(s)[0] in multiset(s);
      LeqAntisymmetric(s[0], Sort(s)[0]);
    }
  }

  lemma NameAfter(z: Settings)
    ensures NameOf(ConfigAfter(z)) ==
            if z.clientMode.ModeSingleHost? && z.addrs != [] then Sort(z.addrs)[0] else NameOf(z)
    ensures z.addrs != [] ==> Sort(z.addrs) != []
  {
    SortKeepsLength(z.addrs);
    SortIsIdempotent(z.addrs);
    assert Sort([DEFAULT_ADDR]) == [DEFAULT_ADDR];
  }

  /** Sorting never moves a name up. */
  lemma NameAfterIsLess(z: Settings)
    ensures Leq(NameOf(ConfigAfter(z)), NameOf(z))
  {
    NameAfter(z);
    LeqTotal(NameOf(z), NameOf(z));
    if z.addrs != [] {
      assert z.addrs[0] in multiset(z.addrs);
      LeastComesFirst(Sort(z.addrs), z.addrs[0]);
    }
  }

  function Except<T>(s: seq<T>, i: nat): seq<T>
    requires i < |s|
  {
    s[..i] + s[i + 1..]
  }

  lemma MultisetExcept<T>(s: seq<T>, i: nat)
    requires i < |s|
    ensures multiset(Except(s, i)) == multiset(s) - multiset{s[i]} && s[i] in multiset(s)
  {
    assert s == s[..i] + [s[i]] + s[i + 1..];
  }

  lemma EqualBeyond<T>(a: seq<T>, b: seq<T>, i: nat)
    requires i < |a| == |b| && a[i] == b[i] && Except(a, i) == Except(b, i)
    ensures a == b
  {
    assert a == Except(a, i)[..i] + [a[i]] + Except(a, i)[i..];
    assert b == Except(b, i)[..i] + [b[i]] + Except(b, i)[i..];
  }

  lemma LeastHasNotMoved(a: seq<string>, b: seq<string>) returns (i: nat)
    requires |a| == |b| > 0 && multiset(a) == multiset(b) && forall i :: 0 <= i < |a| ==> Leq(a[i], b[i])
    ensures i < |a| && a[i] == b[i]
  {
    SortKeepsLength(b);
    var least := Sort(b)[0];
    assert least in multiset(b);
    i :| 0 <= i < |b| && b[i] == least;
    assert a[i] in multiset(a);
    LeastComesFirst(Sort(b), a[i]);
    LeqAntisymmetric(a[i], least);
  }

  lemma StaysBelow(a: seq<string>, b: seq<string>, i: nat)
    requires |a| == |b| && i < |a| && forall k :: 0 <= k < |a| ==> Leq(a[k], b[k])
    ensures forall k :: 0 <= k < |Except(a, i)| ==> Leq(Except(a, i)[k], Except(b, i)[k])
  {
    forall k | 0 <= k < |Except(a, i)| ensures Leq(Except(a, i)[k], Except(b, i)[k]) {
      assert Leq(a[if k < i then k else k + 1], b[if k < i then k else k + 1]);
    }
  }

  /** Names that are moved down, if at all, and are the same names in the end, have not moved. */
  lemma {:induction false} NoneMovedDown(a: seq<string>, b: seq<string>)
    requires |a| == |b| && multiset(a) == multiset(b) && forall i :: 0 <= i < |a| ==> Leq(a[i], b[i])
    ensures a == b
    decreases |a|
  {
    if a != [] {
      var i := LeastHasNotMoved(a, b);
      MultisetExcept(a, i);
      MultisetExcept(b, i);
      StaysBelow(a, b, i);
      NoneMovedDown(Except(a, i), Except(b, i));
      EqualBeyond(a, b, i);
    }
  }

  lemma NamesExcept(zs: seq<Settings>, i: nat)
    requires i < |zs|
    ensures WantedNames(Except(zs, i)) == Except(WantedNames(zs), i)
  {
  }

  lemma {:induction false} NamesOfPermutation(zs: seq<Settings>, zs': seq<Settings>)
    requires multiset(zs) == multiset(zs')
    ensures multiset(WantedNames(zs)) == multiset(WantedNames(zs'))
    decreases |zs|
  {
    assert |zs| == |multiset(zs)| == |zs'|;
    if zs != [] {
      assert zs[0] in multiset(zs');
      var i :| 0 <= i < |zs'| && zs'[i] == zs[0];
      MultisetExcept(zs, 0);
      MultisetExcept(zs', i);
      NamesOfPermutation(Except(zs, 0), Except(zs', i));
      NamesExcept(zs, 0);
      NamesExcept(zs', i);
      MultisetExcept(WantedNames(zs), 0);
      MultisetExcept(WantedNames(zs'), i);
      AddedBack(multiset(WantedNames(zs)), multiset(WantedNames(zs')), NameOf(zs[0]));
    }
  }

  lemma AddedBack<T>(a: multiset<T>, b: multiset<T>, x: T)
    requires x in a && x in b && a - multiset{x} == b - multiset{x}
    ensures a == b
  {
    assert a == (a - multiset{x}) + multiset{x};
    assert b == (b - multiset{x}) + multiset{x};
  }

  /** The names the listed clients have after a completed reload: sorting has moved those of the
      reused ones down, where their configurations do not keep their name. */
  lemma NamesAfterReload(
      before: map<nat, Settings>, after: map<nat, Settings>, mainAddrs: multiset<string>, zs: seq<Settings>,
      news: seq<nat>, fresh0: nat, next: nat)
    requires SettingsState(before, after, mainAddrs, zs, news, fresh0, next) && |news| == |zs|
    ensures AllThere(after, news)
    ensures forall j :: 0 <= j < |zs| ==> Leq(NamesOf(after, news)[j], WantedNames(zs)[j])
    ensures NamesOf(after, news) == WantedNames(zs) <==>
            forall j :: 0 <= j < |zs| && news[j] < fresh0 ==> KeepsItsName(zs[j])
  {
    forall j | 0 <= j < |zs|
      ensures news[j] in after && Leq(NameOf(after[news[j]]), NameOf(zs[j]))
      ensures NameOf(after[news[j]]) == NameOf(zs[j]) <==> news[j] >= fresh0 || KeepsItsName(zs[j])
    {
      ListedNamesMatch(before, after, mainAddrs, zs, news, fresh0, next, j);
      NamedKeepsName(zs[j]);
      NameAfterIsLess(zs[j]);
      LeqTotal(NameOf(zs[j]), NameOf(zs[j]));
    }
  }

  /** Two completed reloads, the second with the same configurations in any order: it keeps exactly the
      clients of the first just when every configuration for which the first reused a client keeps
      its name. */
  lemma KeptIffReusedKeepNames(
      before: map<nat, Settings>, after: map<nat, Settings>, mainAddrs: multiset<string>, zs: seq<Settings>,
      news: seq<nat>, fresh0: nat, next: nat, zs': seq<Settings>, news': seq<nat>, next': nat)
    requires SettingsState(before, after, mainAddrs, zs, news, fresh0, next) && |news| == |zs|
    requires multiset(zs) == multiset(zs') && AllThere(after, news)
    requires Matched(news, NamesOf(after, news), WantedNames(zs'), news', next, next')
    ensures SameClients(news, news') <==> forall j :: 0 <= j < |zs| && news[j] < fresh0 ==> KeepsItsName(zs[j])
  {
    NamesAfterReload(before, after, mainAddrs, zs, news, fresh0, next);
    NamesOfPermutation(zs, zs');
    KeptIffSameNames(news, NamesOf(after, news), WantedNames(zs'), news', next, next');
    if multiset(NamesOf(after, news)) == multiset(WantedNames(zs)) {
      NoneMovedDown(NamesOf(after, news), WantedNames(zs));
    }
  }

  /** So once the clients of the first were all reused, it depends on the configurations alone. */
  lemma ReusedPermutationKeepsClients(
      before: map<nat, Settings>, after: map<nat, Settings>, mainAddrs: multiset<string>, zs: seq<Settings>,
      news: seq<nat>, fresh0: nat, next: nat, zs': seq<Settings>, news': seq<nat>, next': nat)
    requires SettingsState(before, after, mainAddrs, zs, news, fresh0, next) && |news| == |zs|
    requires multiset(zs) == multiset(zs') && AllThere(after, news)
    requires Matched(news, NamesOf(after, news), WantedNames(zs'), news', next, next')
    requires forall j :: 0 <= j < |news| ==> news[j] < fresh0
    ensures SameClients(news, news') <==> forall j :: 0 <= j < |zs| ==> KeepsItsName(zs[j])
  {
    KeptIffReusedKeepNames(before, after, mainAddrs, zs, news, fresh0, next, zs', news', next');
  }

  /** Fewer configurations before the j-th ask for its name than listed clients have it. */
  ghost predicate FindsClient(oldNames: seq<string>, zs: seq<Settings>, j: nat)
    requires j < |zs|
  {
    multiset(WantedNames(zs)[..j])[NameOf(zs[j])] < multiset(oldNames)[NameOf(zs[j])]
  }

  /** The same, told from the configurations and the names of the clients listed before both reloads. */
  lemma PermutationKeepsClients(
      olds: seq<nat>, oldNames: seq<string>, before: map<nat, Settings>, after: map<nat, Settings>,
      mainAddrs: multiset<string>, zs: seq<Settings>, news: seq<nat>, fresh0: nat, next: nat,
      zs': seq<Settings>, news': seq<nat>, next': nat)
    requires Matched(olds, oldNames, WantedNames(zs), news, fresh0, next)
    requires SettingsState(before, after, mainAddrs, zs, news, fresh0, next)
    requires multiset(zs) == multiset(zs') && AllThere(after, news)
    requires Matched(news, NamesOf(after, news), WantedNames(zs'), news', next, next')
    ensures SameClients(news, news') <==>
            forall j :: 0 <= j < |zs| && FindsClient(oldNames, zs, j) ==> KeepsItsName(zs[j])
  {
    KeptIffReusedKeepNames(before, after, mainAddrs, zs, news, fresh0, next, zs', news', next');
    forall j | 0 <= j < |zs| ensures FindsClient(oldNames, zs, j) <==> news[j] < fresh0 {
      assert InTurn(oldNames, WantedNames(zs), news[j], j, fresh0);
    }
  }

  /** Reading the name sorts first, so a master/slave client that a reload creates has the least
      address for its master, whichever the configuration names first. */
  lemma CreatedMasterIsLeast(z: Settings)
    requires z.clientMode.ModeMasterSlaveGroup? && z.addrs != []
    ensures var master := HotReload.MasterOf(Named(z));
            && master.Some? && master.value in z.addrs
            && (forall i :: 0 <= i < |z.addrs| ==> Leq(master.value, z.addrs[i]))
            && (master == HotReload.MasterOf(z) <==> forall i :: 0 <= i < |z.addrs| ==> Leq(z.addrs[0], z.addrs[i]))
  {
    LeastIsFirstIff(z.addrs);
    assert Sort(z.addrs)[0] in multiset(z.addrs);
    forall i | 0 <= i < |z.addrs| ensures Leq(Sort(z.addrs)[0], z.addrs[i]) {
      assert z.addrs[i] in multiset(z.addrs);
      LeastComesFirst(Sort(z.addrs), z.addrs[i]);
    }
  }

  /** Left in one of these slots. */
  ghost predicate LeftIn(pool: map<string, seq<nat>>, slots: set<string>, x: nat) {
    exists n :: n in slots && x in Slot(pool, n)
  }

  lemma OneMoreSlot(
      pool: map<string, seq<nat>>, olds: seq<nat>, oldNames: seq<string>, used: seq<nat>, reused: multiset<string>,
      slots: set<string>, n: string, x: nat)
    requires |oldNames| == |olds| && NoRepeats(olds) && Pooled(pool, olds, oldNames, used, reused) && n !in slots
    ensures One(LeftIn(pool, slots + {n}, x)) == One(LeftIn(pool, slots, x)) + multiset(Slot(pool, n))[x]
  {
    var q := Slot(pool, n);
    assert Holds(q, olds, oldNames, used, reused, n);
    CountInDistinct(q, x);
    assert x in q ==> n in slots + {n} && x in Slot(pool, n);
    if LeftIn(pool, slots, x) {
      var m :| m in slots && x in Slot(pool, m);
      assert m in slots + {n} && Holds(Slot(pool, m), olds, oldNames, used, reused, m);
      if x in q { NamedOnce(olds, oldNames, x, m, n); }
    }
  }

  /** What is left in the pool is just the old clients that the new list does not have. */
  lemma LeftIsUnused(
      pool: map<string, seq<nat>>, olds: seq<nat>, oldNames: seq<string>, used: seq<nat>, reused: multiset<string>,
      x: nat)
    requires |oldNames| == |olds| && Pooled(pool, olds, oldNames, used, reused)
    ensures LeftIn(pool, pool.Keys, x) <==> x in olds && x !in used
  {
    if x in olds && x !in used {
      var a :| 0 <= a < |olds| && olds[a] == x;
      assert IsNamed(olds, oldNames, x, oldNames[a]);
      assert Holds(Slot(pool, oldNames[a]), olds, oldNames, used, reused, oldNames[a]);
      assert oldNames[a] in pool.Keys;
    }
    if LeftIn(pool, pool.Keys, x) {
      var n :| n in pool.Keys && x in Slot(pool, n);
      assert Holds(Slot(pool, n), olds, oldNames, used, reused, n);
    }
  }

  lemma CompletedIsReplaced(f: Fleet, g: Fleet, oldNames: seq<string>, wanted: seq<string>)
    requires Accounted(f) && |wanted| == |g.listed| && g.orphans == f.orphans
    requires ListState(f.listed, oldNames, wanted, g.listed, f.next, g.next)
    requires forall x :: ShutDownIfLeft(f, g, x)
    ensures Replaced(f, g)
  {
    forall x | x in g.listed ensures x in f.listed || f.next <= x < g.next {
      var j :| 0 <= j < |g.listed| && g.listed[j] == x;
      assert TakenFrom(f.listed, oldNames, wanted[j], x, f.next, g.next);
    }
  }

  lemma Beginning(
      pool: map<string, seq<nat>>, zs: seq<Settings>, st: Start, main: Settings, settings: map<nat, Settings>)
    requires |st.oldNames| == |st.olds| && NoRepeats(st.olds) && forall a :: 0 <= a < |st.olds| ==> st.olds[a] < st.next
    requires Pooled(pool, st.olds, st.oldNames, [], multiset{})
    requires (forall x: nat :: x in st.settings <==> x < st.next) && NamesRead(st.settings, settings)
    requires SameUpToOrder(st.main, main)
    ensures FillState(pool, zs, [], st, main, settings, st.next)
  {
    assert multiset(st.oldNames) * multiset(WantedNames(zs)[..0]) == multiset{};
  }

  ghost predicate AllThere(settings: map<nat, Settings>, xs: seq<nat>) { forall x :: x in xs ==> x in settings }

  ghost function StartOf(f: Fleet, settings: map<nat, Settings>, main: Settings): Start
    requires AllThere(settings, f.listed)
  {
    Start(f.listed, NamesOf(settings, f.listed), settings, main, f.next)
  }

  /** A reload has gone through: the clients match the configurations `zs`, the rest is shut down. */
  ghost predicate Completed(f: Fleet, g: Fleet, settings: map<nat, Settings>, zs: seq<Settings>) {
    match f
    case Fleet(next0, listed0, _, _) =>
      && Replaced(f, g) && AllThere(settings, listed0)
      && Matched(listed0, NamesOf(settings, listed0), WantedNames(zs), g.listed, next0, g.next)
  }

  ghost predicate NoneElse(news: seq<nat>, fresh0: nat, next: nat) {
    fresh0 <= next && forall x :: fresh0 <= x < next ==> x in news
  }

  /** A reload has failed after the entries `news`, which have all that it created. */
  ghost predicate Failed(
      f: Fleet, g: Fleet, settings: map<nat, Settings>, main: Settings, zs: seq<Settings>, news: seq<nat>,
      cancelled: nat -> bool, o: Outcome)
  {
    match f
    case Fleet(_, listed0, _, _) =>
      && GaveUp(f, g) && AllThere(settings, listed0)
      && MatchedSoFar(zs, news, StartOf(f, settings, main), g.next)
      && Stuck(StartOf(f, settings, main), zs, news, cancelled, o)
  }

  /** What a reload that gets to the load-test clients makes of them and of all settings. */
  ghost predicate Reloaded(
      f: Fleet, g: Fleet, before: map<nat, Settings>, after: map<nat, Settings>, main: Settings, main': Settings,
      zs: seq<Settings>, news: seq<nat>, cancelled: nat -> bool, o: Outcome)
  {
    match g
    case Fleet(next, listed, _, _) =>
      && AllThere(before, f.listed)
      && SettingsSoFar(zs, news, StartOf(f, before, main), main', after, next)
      && NotCancelled(news, f.next, cancelled)
      && if o == Done then news == listed && Completed(f, g, before, zs)
         else Failed(f, g, before, main, zs, news, cancelled, o)
  }

  /** Of the clients of one name, the entries have taken the last listed first. */
  ghost predicate ReusesLast(f: Fleet, before: map<nat, Settings>, zs: seq<Settings>, news: seq<nat>) {
    match f
    case Fleet(next, listed, _, _) =>
      AllThere(before, listed) && LastFirst(listed, NamesOf(before, listed), WantedNames(zs), news, next)
  }

  lemma NothingReused(f: Fleet, before: map<nat, Settings>, zs: seq<Settings>)
    requires AllThere(before, f.listed)
    ensures ReusesLast(f, before, zs, [])
  {
  }

  /** With its slot empty, an entry can only be created, or the reload is stuck. */
  lemma NoneLeft(
      pool: map<string, seq<nat>>, zs: seq<Settings>, news: seq<nat>, st: Start, main: Settings,
      settings: map<nat, Settings>, next: nat, cancelled: nat -> bool)
    requires FillState(pool, zs, news, st, main, settings, next) && |news| < |zs|
    requires Slot(pool, NameOf(zs[|news|])) == []
    ensures next !in settings
    ensures cancelled(|news|) || !ValidMode(zs[|news|].clientMode) ==>
              Stuck(st, zs, news, cancelled, CreateFailed(|news|))
  {
    var n := NameOf(zs[|news|]);
    assert Holds(Slot(pool, n), st.olds, st.oldNames, news, ReusedNames(WantedNames(zs), news, st.next), n);
  }

  /** The clients and configurations of this reload are all for several nodes. */
  ghost predicate AllMultiNode(f: Fleet, before: map<nat, Settings>, zs: seq<Settings>)
    requires AllThere(before, f.listed)
  {
    && (forall x :: x in f.listed ==> MultiNode(before[x]))
    && (forall j :: 0 <= j < |zs| ==> MultiNode(zs[j]))
  }

  lemma NamedMeansSameAddresses(f: Fleet, before: map<nat, Settings>, z: Settings, x: nat)
    requires AllThere(before, f.listed) && (forall y :: y in f.listed ==> MultiNode(before[y])) && MultiNode(z)
    ensures IsNamed(f.listed, NamesOf(before, f.listed), x, NameOf(z)) <==>
            x in f.listed && multiset(before[x].addrs) == multiset(z.addrs)
  {
    var names := NamesOf(before, f.listed);
    if IsNamed(f.listed, names, x, NameOf(z)) {
      var a :| 0 <= a < |f.listed| && f.listed[a] == x && names[a] == NameOf(z);
      NamesTellAddresses(before[x], z);
    }
    if x in f.listed && multiset(before[x].addrs) == multiset(z.addrs) {
      var a :| 0 <= a < |f.listed| && f.listed[a] == x;
      NamesTellAddresses(before[x], z);
      assert names[a] == NameOf(z);
    }
  }

  lemma EntryTakenFrom(
      f: Fleet, g: Fleet, before: map<nat, Settings>, after: map<nat, Settings>, main: Settings, main': Settings,
      zs: seq<Settings>, news: seq<nat>, cancelled: nat -> bool, o: Outcome, j: nat)
    requires Reloaded(f, g, before, after, main, main', zs, news, cancelled, o) && j < |news|
    ensures AllThere(before, f.listed) && |news| <= |zs|
    ensures news[j] < f.next ==> IsNamed(f.listed, NamesOf(before, f.listed), news[j], NameOf(zs[j]))
  {
    var names := NamesOf(before, f.listed);
    if o == Done {
      assert TakenFrom(f.listed, names, WantedNames(zs)[j], news[j], f.next, g.next);
    } else {
      FailedIsMatched(f, g, before, main, zs, news, cancelled, o);
      assert TakenFrom(f.listed, names, WantedNames(zs)[..|news|][j], news[j], f.next, g.next);
    }
  }

  /** No listed client has just the addresses of this configuration. */
  ghost predicate HasNewAddresses(f: Fleet, before: map<nat, Settings>, z: Settings)
    requires AllThere(before, f.listed)
  {
    forall x :: x in f.listed ==> multiset(before[x].addrs) != multiset(z.addrs)
  }

  /** The addresses are the same, but something else is not allowed to change, or is not valid. */
  predicate RejectedBeyondAddresses(s: Settings, z: Settings) {
    && multiset(s.addrs) == multiset(z.addrs)
    && (s.clientMode != z.clientMode || s.db != z.db || z.clientMode.OtherMode? || z.readMode.OtherRead?)
  }

  /** Why an old client is not reused: the main client's addresses first, whatever else is wrong. */
  lemma RefusalReasons(mainAddrs: multiset<string>, s: Settings, z: Settings, i: nat)
    ensures ReuseOutcome(mainAddrs, s, z, i) == SharesMainAddress(i) <==> multiset(z.addrs) == mainAddrs
    ensures ReuseOutcome(mainAddrs, s, z, i) == Done <==>
            multiset(z.addrs) != mainAddrs && CanReload(s, Normalised(z))
    ensures ReuseOutcome(mainAddrs, s, z, i) == ClientRejected(i) <==>
            multiset(z.addrs) != mainAddrs && !CanReload(s, Normalised(z))
  {
  }

  /** Among clients for several nodes a configuration takes over a client of exactly its addresses or gets
      a new one, which is what new addresses get; and no client refuses a configuration for the
      addresses in it. */
  lemma ReloadMatchesAddresses(
      f: Fleet, g: Fleet, before: map<nat, Settings>, after: map<nat, Settings>, main: Settings, main': Settings,
      zs: seq<Settings>, news: seq<nat>, cancelled: nat -> bool, o: Outcome)
    requires Reloaded(f, g, before, after, main, main', zs, news, cancelled, o) && AllMultiNode(f, before, zs)
    ensures |news| <= |zs|
    ensures forall j :: 0 <= j < |news| && news[j] < f.next ==>
              news[j] in f.listed && multiset(before[news[j]].addrs) == multiset(zs[j].addrs)
    ensures forall j :: 0 <= j < |news| && HasNewAddresses(f, before, zs[j]) ==> news[j] >= f.next
    ensures o.ClientRejected? ==>
              |news| < |zs| && exists x :: x in f.listed && RejectedBeyondAddresses(before[x], zs[|news|])
  {
    forall j | 0 <= j < |news| ensures |news| <= |zs| && (news[j] < f.next ==>
                news[j] in f.listed && multiset(before[news[j]].addrs) == multiset(zs[j].addrs)) {
      EntryTakenFrom(f, g, before, after, main, main', zs, news, cancelled, o, j);
      NamedMeansSameAddresses(f, before, zs[j], news[j]);
    }
    if o.ClientRejected? {
      RejectedForOtherReasons(f, g, before, main, zs, news, cancelled, o);
    }
  }

  lemma RejectedForOtherReasons(
      f: Fleet, g: Fleet, before: map<nat, Settings>, main: Settings, zs: seq<Settings>, news: seq<nat>,
      cancelled: nat -> bool, o: Outcome)
    requires Failed(f, g, before, main, zs, news, cancelled, o) && o.ClientRejected?
    requires AllThere(before, f.listed) && AllMultiNode(f, before, zs)
    ensures |news| < |zs|
    ensures exists x :: x in f.listed && RejectedBeyondAddresses(before[x], zs[|news|])
  {
    var st, z := StartOf(f, before, main), zs[|news|];
    var x :| RefusedBy(st, z, news, o, x);
    NamedMeansSameAddresses(f, before, z, x);
    CanReloadMeans(before[x], z);
    assert RejectedBeyondAddresses(before[x], z);
  }

  /** How a reload fares before it comes to the load-test clients. */
  function Gate(config: ConnectorConfig, workers: int, size: int, idle: int, main: Settings): Outcome {
    if !config.hotReload then NotHot
    else if workers != config.workerNumber || size != config.channelSize
            || idle != Duration(config.workerIdleTimeoutInMs) then SchedulerChanged
    else if CanReload(main, Normalised(config.main)) then Done
    else MainRejected
  }

  /** How the first three refusals are told apart: hot reload is off, the scheduler would change, the main
      client does not accept its configuration; each only when the ones before it do not apply. */
  lemma GateReasons(config: ConnectorConfig, workers: int, size: int, idle: int, main: Settings)
    ensures var gate := Gate(config, workers, size, idle, main);
            var same := workers == config.workerNumber && size == config.channelSize
                        && idle == Duration(config.workerIdleTimeoutInMs);
            && (gate == NotHot <==> !config.hotReload)
            && (gate == SchedulerChanged <==> config.hotReload && !same)
            && (gate == MainRejected <==> config.hotReload && same && !CanReload(main, Normalised(config.main)))
            && (gate == Done <==> config.hotReload && same && CanReload(main, Normalised(config.main)))
  {
  }

  /** A connector can be reloaded with its own configuration only if the scheduler did not have to
      replace any of the three values, that is, if none of them is negative. */
  lemma OwnConfigPassesIff(config: ConnectorConfig, main: Settings)
    requires config.hotReload
    ensures Gate(config, Positive(config.workerNumber, DEFAULT_MAX_WORKER),
                 Positive(config.channelSize, DEFAULT_MAX_CHAN_SIZE),
                 Positive(Duration(config.workerIdleTimeoutInMs), DEFAULT_IDLE_TIMEOUT), main) != SchedulerChanged
       <==> Schedules(config)
  {
  }

  ghost function Since(fresh0: nat, next: nat): (xs: set<nat>)
    ensures forall x :: x in xs <==> fresh0 <= x < next
    decreases next
  {
    if next <= fresh0 then {} else Since(fresh0, next - 1) + {next - 1}
  }

  /** How many clients a reload creates: one for each name it could not reuse a client for. */
  lemma CreatedCount(
      olds: seq<nat>, oldNames: seq<string>, names: seq<string>, news: seq<nat>, fresh0: nat, next: nat)
    requires Matched(olds, oldNames, names, news, fresh0, next) && NoneElse(news, fresh0, next)
    ensures |CreatedNames(names, news, fresh0)| == next - fresh0
  {
    var made := CreatedSet(news, fresh0);
    CreatedSetSize(names, news, fresh0);
    forall x ensures x in made <==> x in Since(fresh0, next) {
      if x in news {
        var j :| 0 <= j < |news| && news[j] == x;
        assert TakenFrom(olds, oldNames, names[j], news[j], fresh0, next);
      }
    }
    assert made == Since(fresh0, next);
    SinceSize(fresh0, next);
  }

  ghost function CreatedSet(news: seq<nat>, fresh0: nat): (xs: set<nat>)
    ensures forall x :: x in xs <==> x in news && x >= fresh0
  {
    if news == [] then {}
    else
      var k := |news| - 1;
      assert news == news[..k] + [news[k]];
      CreatedSet(news[..k], fresh0) + if news[k] >= fresh0 then {news[k]} else {}
  }

  lemma {:induction false} CreatedSetSize(names: seq<string>, news: seq<nat>, fresh0: nat)
    requires |news| <= |names| && NoRepeats(news)
    ensures |CreatedSet(news, fresh0)| == |CreatedNames(names, news, fresh0)|
    decreases |news|
  {
    if news != [] {
      CreatedSetSize(names, news[..|news| - 1], fresh0);
    }
  }

  lemma {:induction false} SinceSize(fresh0: nat, next: nat)
    requires fresh0 <= next
    ensures |Since(fresh0, next)| == next - fresh0
    decreases next
  {
    if fresh0 < next {
      SinceSize(fresh0, next - 1);
    }
  }

  /** Some name is asked for more often than there are listed clients of it. */
  ghost predicate AsksForMore(wanted: seq<string>, oldNames: seq<string>) {
    exists n :: multiset(wanted)[n] > multiset(oldNames)[n]
  }

  lemma CreatesIffAsksForMore(
      olds: seq<nat>, oldNames: seq<string>, wanted: seq<string>, news: seq<nat>, fresh0: nat, next: nat)
    requires Matched(olds, oldNames, wanted, news, fresh0, next) && NoneElse(news, fresh0, next)
    ensures next > fresh0 <==> AsksForMore(wanted, oldNames)
  {
    var created := CreatedNames(wanted, news, fresh0);
    CreatedCount(olds, oldNames, wanted, news, fresh0, next);
    if next > fresh0 {
      assert created != multiset{};
      var n :| n in created;
      MatchedCounts(olds, oldNames, wanted, news, fresh0, next, n);
      assert multiset(wanted)[n] > multiset(oldNames)[n];
    }
    if AsksForMore(wanted, oldNames) {
      var n :| multiset(wanted)[n] > multiset(oldNames)[n];
      MatchedCounts(olds, oldNames, wanted, news, fresh0, next, n);
      assert n in created;
    }
  }

  lemma OrphansAdded(f: Fleet, g: Fleet)
    requires Accounted(f) && GaveUp(f, g)
    ensures g.orphans == f.orphans + Since(f.next, g.next) && f.orphans !! Since(f.next, g.next)
    ensures g.orphans != f.orphans <==> g.next > f.next
  {
    forall x | x in f.orphans ensures x < f.next {
      assert AccountedOnce(f, x);
    }
    assert g.next > f.next ==> f.next in g.orphans;
  }

  lemma FailedIsMatched(
      f: Fleet, g: Fleet, settings: map<nat, Settings>, main: Settings, zs: seq<Settings>, news: seq<nat>,
      cancelled: nat -> bool, o: Outcome)
    requires Failed(f, g, settings, main, zs, news, cancelled, o)
    ensures GaveUp(f, g) && AllThere(settings, f.listed) && |news| < |zs| && NoneElse(news, f.next, g.next)
    ensures Matched(
              f.listed, NamesOf(settings, f.listed), WantedNames(zs)[..|news|], news, f.next, g.next)
  {
  }

  /** A reload that failed at entry i leaves orphans exactly when some name occurs more often among the
      entries before i than among the listed clients, and as many as there are such occurrences. */
  lemma OrphansOfFailure(
      f: Fleet, g: Fleet, settings: map<nat, Settings>, main: Settings, zs: seq<Settings>, news: seq<nat>,
      cancelled: nat -> bool, o: Outcome)
    requires Accounted(f) && Failed(f, g, settings, main, zs, news, cancelled, o)
    ensures AllThere(settings, f.listed) && |news| < |zs|
    ensures g.orphans == f.orphans + Since(f.next, g.next) && f.orphans !! Since(f.next, g.next)
    ensures |Since(f.next, g.next)| == |CreatedNames(WantedNames(zs)[..|news|], news, f.next)|
    ensures g.orphans != f.orphans <==> AsksForMore(WantedNames(zs)[..|news|], NamesOf(settings, f.listed))
  {
    var wanted, oldNames := WantedNames(zs)[..|news|], NamesOf(settings, f.listed);
    FailedIsMatched(f, g, settings, main, zs, news, cancelled, o);
    OrphansAdded(f, g);
    SinceSize(f.next, g.next);
    CreatedCount(f.listed, oldNames, wanted, news, f.next, g.next);
    CreatesIffAsksForMore(f.listed, oldNames, wanted, news, f.next, g.next);
  }

  lemma GivingUp(f: Fleet, g: Fleet)
    requires Accounted(f) && f.next <= g.next
    requires g == f.(next := g.next, orphans := f.orphans + Since(f.next, g.next))
    ensures GaveUp(f, g) && Accounted(g)
  {
    FleetNextKeepsAccounts(f, g);
  }

  class Connector {
    const workerNumber: int
    const channelSize: int
    const workerIdleTimeout: int
    var processAll: bool
    var main: Settings
    var settings: map<nat, Settings>
    var next: nat
    var loadTests: seq<nat>
    var shutdowns: multiset<nat>
    ghost var orphans: set<nat>

    ghost function View(): Fleet
      reads this
    {
      Fleet(next, loadTests, shutdowns, orphans)
    }

    ghost predicate Valid()
      reads this
    {
      && Accounted(View())
      && (forall x: nat :: x in settings <==> x < next)
    }

    lemma ListedExist()
      requires Valid()
      ensures forall x :: x in loadTests ==> x in settings && x < next
    {
      forall x | x in loadTests ensures x < next {
        assert AccountedOnce(View(), x);
      }
    }

    constructor (config: ConnectorConfig)
      ensures Valid() && shutdowns == multiset{} && orphans == {}
      ensures workerNumber == if config.workerNumber > 0 then config.workerNumber else 10
      ensures channelSize == if config.channelSize > 0 then config.channelSize else 10_000
      ensures var idle := Duration(config.workerIdleTimeoutInMs);
              workerIdleTimeout == if idle > 0 then idle else 1000
      ensures main == config.main && processAll == config.processAllLoadTestPackets
      ensures |loadTests| == |config.loadTests| == next
      ensures forall i :: 0 <= i < next ==> loadTests[i] == i && settings[i] == config.loadTests[i]
    {
      workerNumber := Positive(config.workerNumber, DEFAULT_MAX_WORKER);
      channelSize := Positive(config.channelSize, DEFAULT_MAX_CHAN_SIZE);
      workerIdleTimeout := Positive(Duration(config.workerIdleTimeoutInMs), DEFAULT_IDLE_TIMEOUT);
      processAll, main := config.processAllLoadTestPackets, config.main;
      settings := map i: nat | i < |config.loadTests| :: config.loadTests[i];
      next := |config.loadTests|;
      loadTests := seq(|config.loadTests|, i => i);
      shutdowns, orphans := multiset{}, {};
      new;
      forall x: nat ensures AccountedOnce(View(), x) {
        assert x < next ==> loadTests[x] == x;
      }
    }

    /** Reading the name of a client. */
    method ReadName(x: nat) returns (n: string)
      requires x in settings
      modifies `settings
      ensures n == NameOf(old(settings[x]))
      ensures x in settings && settings == old(settings)[x := settings[x]]
      ensures SameUpToOrder(old(settings[x]), settings[x])
    {
      n := NameOf(settings[x]);
      NamedKeepsName(settings[x]);
      settings := settings[x := Named(settings[x])];
    }

    /** Grouping the listed clients by name. */
    method PoolClients() returns (pool: map<string, seq<nat>>)
      requires NoRepeats(loadTests) && forall x :: x in loadTests ==> x in settings
      modifies `settings
      ensures Pooled(pool, loadTests, NamesOf(old(settings), loadTests), [], multiset{})
      ensures Grouped(pool, loadTests, NamesOf(old(settings), loadTests))
      ensures NamesRead(old(settings), settings)
    {
      pool := map[];
      EmptyPool();
      ghost var names := NamesOf(settings, loadTests);
      for i := 0 to |loadTests|
        invariant NamesRead(old(settings), settings)
        invariant Pooled(pool, loadTests[..i], names[..i], [], multiset{})
        invariant Grouped(pool, loadTests[..i], names[..i])
        invariant forall j :: i <= j < |loadTests| ==> settings[loadTests[j]] == old(settings)[loadTests[j]]
      {
        var x := loadTests[i];
        var n := ReadName(x);
        PoolGrowsAt(pool, loadTests, names, i);
        GroupGrows(pool, loadTests, names, i);
        pool := pool[n := Slot(pool, n) + [x]];
      }
      assert loadTests[..|loadTests|] == loadTests && names[..|loadTests|] == names;
    }

    /** Whether a configuration has the main client's addresses; comparing may sort both lists. */
    method HasMainAddress(z: Settings) returns (same: bool, z': Settings)
      modifies `main
      ensures same <==> multiset(z.addrs) == multiset(old(main.addrs))
      ensures SameUpToOrder(old(main), main) && SameUpToOrder(z, z')
    {
      var mine, theirs;
      same, mine, theirs := IsAddrsEquals(main.addrs, z.addrs);
      main := main.(addrs := mine);
      z' := z.(addrs := theirs);
    }

    /** Reloading a client; comparing has at most sorted the addresses of the configuration `z`. */
    method ReloadClient(x: nat, z': Settings, ghost z: Settings) returns (ok: bool)
      requires x in settings && SameUpToOrder(z, z')
      modifies `settings
      ensures ok <==> CanReload(old(settings[x]), Normalised(z))
      ensures x in settings && settings == old(settings)[x := settings[x]]
      ensures if ok then settings[x] == ClientReloaded(old(settings[x]), z)
              else SameUpToOrder(old(settings[x]), settings[x])
    {
      ReloadIgnoresOrder(settings[x], z, settings[x], z');
      ok := CanReload(settings[x], Normalised(z'));
      if !ok { ReloadKeepsIdentity(settings[x], z'); }
      settings := settings[x := ClientReloaded(settings[x], z')];
    }

    /** A reused client; the configuration's name has been read. It is first compared with the main
        client, then reloaded. */
    method Reuse(x: nat, z: Settings, i: nat) returns (outcome: Outcome)
      requires x in settings
      modifies `main, `settings
      ensures Tried(old(main), old(settings), main, settings, x, z, i, outcome)
    {
      NamedKeepsName(z);
      var same, z' := HasMainAddress(Named(z));
      if same { return SharesMainAddress(i); }
      OrderTransitive(z, Named(z), z');
      var ok := ReloadClient(x, z', z);
      outcome := if ok then Done else ClientRejected(i);
    }

    method Create(z: Settings, cancelled: bool) returns (ok: bool)
      requires next !in settings
      modifies `settings, `next
      ensures ok <==> ValidMode(z.clientMode) && !cancelled
      ensures ok ==> next == old(next) + 1 && settings == old(settings)[old(next) := z]
      ensures !ok ==> next == old(next) && settings == old(settings)
    {
      ok := ValidMode(z.clientMode) && !cancelled;
      if ok {
        settings := settings[next := z];
        next := next + 1;
      }
    }

    ghost predicate Filling(pool: map<string, seq<nat>>, zs: seq<Settings>, news: seq<nat>, st: Start)
      reads `main, `settings, `next
    {
      FillState(pool, zs, news, st, main, settings, next)
    }

    /** One entry of the new list, from an old client. */
    method FillByReuse(zs: seq<Settings>, pool: map<string, seq<nat>>, news: seq<nat>, ghost st: Start)
        returns (outcome: Outcome, pool': map<string, seq<nat>>, x: nat)
      requires Filling(pool, zs, news, st) && |news| < |zs| && Slot(pool, NameOf(zs[|news|])) != []
      requires TakenOffEnds(pool, st.olds, st.oldNames)
      modifies `main, `settings
      ensures outcome == Done ==> x < st.next && Filling(pool', zs, news + [x], st)
      ensures TakenOffEnds(pool', st.olds, st.oldNames) && IsLastLeft(st.olds, st.oldNames, WantedNames(zs), |news|, x)
      ensures outcome != Done ==>
                Refused(st, zs[|news|], news, outcome) && SettingsSoFar(zs, news, st, main, settings, next)
    {
      ghost var was, wasMain := settings, main;
      LastExists(pool, zs, news, st, main, settings, next, NameOf(zs[|news|]));
      x, pool' := TakeLast(pool, NameOf(zs[|news|]));
      PoppedIsLastLeft(pool, st.olds, st.oldNames, WantedNames(zs), news, st.next, x, pool');
      outcome := Reuse(x, zs[|news|], |news|);
      AfterTryingLast(pool, zs, news, st, wasMain, was, next, main, settings, pool', x, outcome);
    }

    /** Popping a client off its slot. */
    method TakeLast(pool: map<string, seq<nat>>, n: string) returns (x: nat, pool': map<string, seq<nat>>)
      requires Slot(pool, n) != []
      ensures Popped(pool, n, x, pool')
    {
      var q := Slot(pool, n);
      x, pool' := q[|q| - 1], pool[n := q[..|q| - 1]];
    }

    /** One entry of the new list, from a new client. */
    method FillByCreating(
        zs: seq<Settings>, ghost pool: map<string, seq<nat>>, news: seq<nat>, cancelled: bool, ghost st: Start)
        returns (ok: bool, x: nat)
      requires Filling(pool, zs, news, st) && |news| < |zs| && Slot(pool, NameOf(zs[|news|])) == []
      requires next !in settings
      modifies `settings, `next
      ensures ok <==> !cancelled && ValidMode(zs[|news|].clientMode)
      ensures if ok then Filling(pool, zs, news + [x], st)
              else next == old(next) && settings == old(settings)
    {
      x := next;
      ghost var was := settings;
      var z := zs[|news|];
      ok := Create(Named(z), cancelled);
      if ok { AfterCreating(pool, zs, news, st, main, was, x, settings, z); }
    }

    method ShutDownAll(clients: seq<nat>)
      modifies `shutdowns
      ensures shutdowns == old(shutdowns) + multiset(clients)
    {
      for i := 0 to |clients|
        invariant shutdowns == old(shutdowns) + multiset(clients[..i])
      {
        shutdowns := shutdowns + multiset{clients[i]};
        assert clients[..i + 1] == clients[..i] + [clients[i]];
      }
      assert clients[..|clients|] == clients;
    }

    /** One entry of the new list. */
    method FillNext(
        zs: seq<Settings>, pool: map<string, seq<nat>>, news: seq<nat>, cancelled: nat -> bool, ghost st: Start)
        returns (outcome: Outcome, pool': map<string, seq<nat>>, x: nat)
      requires Filling(pool, zs, news, st) && |news| < |zs| && TakenOffEnds(pool, st.olds, st.oldNames)
      modifies `main, `settings, `next
      ensures outcome == Done ==> (x < st.next || !cancelled(|news|)) && Filling(pool', zs, news + [x], st)
      ensures outcome == Done ==>
                && TakenOffEnds(pool', st.olds, st.oldNames)
                && (x < st.next ==> IsLastLeft(st.olds, st.oldNames, WantedNames(zs), |news|, x))
      ensures outcome != Done ==>
                && Stuck(st, zs, news, cancelled, outcome)
                && SettingsSoFar(zs, news, st, main, settings, next) && MatchedSoFar(zs, news, st, next)
    {
      var i := |news|;
      FillIsMatched(pool, zs, news, st, main, settings, next);
      if Slot(pool, NameOf(zs[i])) != [] {
        outcome, pool', x := FillByReuse(zs, pool, news, st);
        if outcome != Done { RefusedIsStuck(st, zs, news, cancelled, outcome); }
      } else {
        NoneLeft(pool, zs, news, st, main, settings, next, cancelled);
        var ok;
        ok, x := FillByCreating(zs, pool, news, cancelled(i), st);
        outcome, pool' := if ok then Done else CreateFailed(i), pool;
      }
    }

    /** Filling the new list. */
    method Fill(zs: seq<Settings>, pool0: map<string, seq<nat>>, cancelled: nat -> bool, ghost st: Start)
        returns (outcome: Outcome, pool: map<string, seq<nat>>, news: seq<nat>)
      requires Filling(pool0, zs, [], st) && TakenOffEnds(pool0, st.olds, st.oldNames)
      modifies `main, `settings, `next
      ensures NotCancelled(news, st.next, cancelled) && LastFirst(st.olds, st.oldNames, WantedNames(zs), news, st.next)
      ensures outcome == Done ==> |news| == |zs| && Filling(pool, zs, news, st)
      ensures outcome != Done ==>
                && Stuck(st, zs, news, cancelled, outcome)
                && SettingsSoFar(zs, news, st, main, settings, next) && MatchedSoFar(zs, news, st, next)
    {
      pool, news := pool0, [];
      for i := 0 to |zs|
        invariant |news| == i && Filling(pool, zs, news, st) && NotCancelled(news, st.next, cancelled)
        invariant TakenOffEnds(pool, st.olds, st.oldNames)
        invariant LastFirst(st.olds, st.oldNames, WantedNames(zs), news, st.next)
      {
        var x;
        outcome, pool, x := FillNext(zs, pool, news, cancelled, st);
        if outcome != Done { return; }
        OneMoreNotCancelled(news, x, st.next, cancelled);
        OneMoreLastFirst(st.olds, st.oldNames, WantedNames(zs), news, st.next, x);
        news := news + [x];
      }
      outcome := Done;
    }

    /** Shutting down whatever is left in the pool. */
    method ShutDownLeft(pool: map<string, seq<nat>>, ghost oldNames: seq<string>, ghost news: seq<nat>,
                        ghost reused: multiset<string>)
      requires |oldNames| == |loadTests| && NoRepeats(loadTests) && Pooled(pool, loadTests, oldNames, news, reused)
      modifies `shutdowns
      ensures forall x :: shutdowns[x] == old(shutdowns)[x] + One(LeftIn(pool, pool.Keys, x))
    {
      var todo := pool.Keys;
      ghost var done: set<string> := {};
      while todo != {}
        invariant done !! todo && done + todo == pool.Keys
        invariant forall x :: shutdowns[x] == old(shutdowns)[x] + One(LeftIn(pool, done, x))
        decreases todo
      {
        var n :| n in todo;
        ghost var was := shutdowns;
        ShutDownAll(pool[n]);
        forall x ensures shutdowns[x] == old(shutdowns)[x] + One(LeftIn(pool, done + {n}, x)) {
          OneMoreSlot(pool, loadTests, oldNames, news, reused, done, n, x);
        }
        done, todo := done + {n}, todo - {n};
      }
      assert done == pool.Keys;
    }

    /** Shutting down what is left and putting the new list in place. */
    method Install(pool: map<string, seq<nat>>, list: seq<nat>, ghost zs: seq<Settings>, ghost st: Start)
      requires Filling(pool, zs, list, st) && |list| == |zs|
      requires var f := View().(next := st.next);
               Accounted(f) && AllThere(st.settings, loadTests) && st == StartOf(f, st.settings, st.main)
      modifies `loadTests, `shutdowns
      ensures loadTests == list && Accounted(View())
      ensures Completed(old(View()).(next := st.next), View(), st.settings, zs)
    {
      ghost var f := View().(next := st.next);
      ghost var reused := ReusedNames(WantedNames(zs), list, st.next);
      FilledIsMatched(pool, st.olds, st.oldNames, WantedNames(zs), list, st.next, next);
      assert WantedNames(zs)[..|list|] == WantedNames(zs);
      ShutDownLeft(pool, st.oldNames, list, reused);
      loadTests := list;
      forall x ensures ShutDownIfLeft(f, View(), x) {
        LeftIsUnused(pool, st.olds, st.oldNames, list, reused, x);
      }
      CompletedIsReplaced(f, View(), st.oldNames, WantedNames(zs));
      FleetNextKeepsAccounts(f, View());
    }

    /** Starting with an empty list. */
    method Begin(ghost zs: seq<Settings>) returns (pool: map<string, seq<nat>>, ghost st: Start)
      requires Valid()
      modifies `settings
      ensures AllThere(old(settings), loadTests) && st == StartOf(View(), old(settings), main)
      ensures Filling(pool, zs, [], st) && TakenOffEnds(pool, st.olds, st.oldNames)
    {
      ListedExist();
      st := StartOf(View(), settings, main);
      pool := PoolClients();
      Beginning(pool, zs, st, main, settings);
    }

    /** The load-test clients' part of a reload. */
    method ReloadLoadTests(zs: seq<Settings>, cancelled: nat -> bool) returns (outcome: Outcome, ghost news: seq<nat>)
      requires Valid()
      modifies `main, `settings, `next, `loadTests, `shutdowns, `orphans
      ensures Valid() && FleetNext(old(View()), View())
      ensures Reloaded(
                old(View()), View(), old(settings), settings, old(main), main, zs, news, cancelled, outcome)
      ensures ReusesLast(old(View()), old(settings), zs, news)
    {
      ghost var f := View();
      var pool, st := Begin(zs);
      var list;
      outcome, pool, list := Fill(zs, pool, cancelled, st);
      news := list;
      if outcome == Done {
        Install(pool, list, zs, st);
      } else {
        orphans := orphans + Since(f.next, next);
        GivingUp(f, View());
      }
    }

    /** What a reload does before it comes to the load-test clients. */
    method ReloadMain(config: ConnectorConfig) returns (gate: Outcome)
      modifies `processAll, `main
      ensures gate == Gate(config, workerNumber, channelSize, workerIdleTimeout, old(main))
      ensures processAll == if config.hotReload then config.processAllLoadTestPackets else old(processAll)
      ensures match gate {
                case Done => main == ClientReloaded(old(main), config.main)
                case MainRejected => SameUpToOrder(old(main), main)
                case _ => main == old(main)
              }
    {
      if !config.hotReload { return NotHot; }
      processAll := config.processAllLoadTestPackets;
      if workerNumber != config.workerNumber || channelSize != config.channelSize
         || workerIdleTimeout != Duration(config.workerIdleTimeoutInMs)
      {
        return SchedulerChanged;
      }
      var ok := CanReload(main, Normalised(config.main));
      if !ok { ReloadKeepsIdentity(main, config.main); }
      main := ClientReloaded(main, config.main);
      gate := if ok then Done else MainRejected;
    }

    /** Hot reload. When it fails, what happened before stays; `news` are the entries it had by then. */
    method Reload(config: ConnectorConfig, cancelled: nat -> bool) returns (outcome: Outcome, ghost news: seq<nat>)
      requires Valid()
      modifies this
      ensures FleetNext(old(View()), View())
      ensures Valid() && processAll == if config.hotReload then config.processAllLoadTestPackets else old(processAll)
      ensures var gate := Gate(config, workerNumber, channelSize, workerIdleTimeout, old(main));
              && (gate != Done ==> outcome == gate && View() == old(View()) && settings == old(settings))
              && (gate in {NotHot, SchedulerChanged} ==> main == old(main))
              && (gate == MainRejected ==> SameUpToOrder(old(main), main))
              && (gate == Done ==>
                    Reloaded(
                      old(View()), View(), old(settings), settings, ClientReloaded(old(main), config.main), main,
                      config.loadTests, news, cancelled, outcome))
      ensures ReusesLast(old(View()), old(settings), config.loadTests, news)
    {
      news := [];
      ListedExist();
      NothingReused(View(), settings, config.loadTests);
      outcome := ReloadMain(config);
      if outcome == Done {
        outcome, news := ReloadLoadTests(config.loadTests, cancelled);
      }
    }

    /** Shutting down the connector: the listed clients, each once. */
    method ShutDown()
      requires Valid()
      modifies `shutdowns
      ensures shutdowns == old(shutdowns) + multiset(loadTests)
      ensures forall x: nat :: x < next ==> if x in orphans then x !in shutdowns else shutdowns[x] == 1
    {
      ShutDownAll(loadTests);
      ghost var was := old(View());
      forall x: nat | x < next ensures if x in orphans then x !in shutdowns else shutdowns[x] == 1 {
        ShutDownOnceOrOrphan([was], x);
      }
    }
  }
}

/** Short runs of a connector that show what its reload does not promise. */
module ConnectorRuns {
  import opened Common
  import opened Addresses
  import opened Config
  import opened Connector

  function Never(i: nat): bool { false }
  function FromSecond(i: nat): bool { i >= 1 }

  /** A configuration that a connector can be built with and reloaded with again. */
  ghost predicate Hot(config: ConnectorConfig) {
    config.hotReload && Admitted(config) && Schedules(config)
  }

  /** The connector was built with this configuration, or one that differs in its load-test clients. */
  ghost predicate BuiltWith(c: Connector, config: ConnectorConfig)
    reads c
  {
    && c.workerNumber == config.workerNumber && c.channelSize == config.channelSize
    && c.workerIdleTimeout == Duration(config.workerIdleTimeoutInMs)
    && c.main.clientMode == config.main.clientMode && c.main.db == config.main.db
    && multiset(c.main.addrs) == multiset(config.main.addrs)
  }

  lemma MainIsAccepted(c: Connector, config: ConnectorConfig)
    requires Hot(config) && BuiltWith(c, config)
    ensures Gate(config, c.workerNumber, c.channelSize, c.workerIdleTimeout, c.main) == Done
  {
  }

  const NOBODY := Fleet(0, [], multiset{}, {})

  /** Without clients, every entry is a new client for its configuration. */
  lemma EntriesAreNew(
      after: map<nat, Settings>, main: Settings, main': Settings, zs: seq<Settings>, news: seq<nat>, next: nat, j: nat)
    requires SettingsSoFar(zs, news, Start([], [], map[], main, 0), main', after, next) && j < |news|
    ensures |news| <= |zs| && news[j] < next && news[j] in after
    ensures ValidMode(zs[j].clientMode) && after[news[j]] == Named(zs[j])
  {
    assert Settled(map[], after, multiset(main.addrs), zs[j], news[j], 0);
  }

  /** Then a reload stops only where a client cannot be created. */
  lemma StuckCreating(main: Settings, zs: seq<Settings>, news: seq<nat>, cancelled: nat -> bool, o: Outcome)
    requires Stuck(Start([], [], map[], main, 0), zs, news, cancelled, o)
    ensures |news| < |zs| && o == CreateFailed(|news|)
    ensures cancelled(|news|) || !ValidMode(zs[|news|].clientMode)
  {
  }

  lemma NothingToReuse(
      g: Fleet, after: map<nat, Settings>, main: Settings, main': Settings, zs: seq<Settings>, news: seq<nat>,
      cancelled: nat -> bool, o: Outcome)
    requires Reloaded(NOBODY, g, map[], after, main, main', zs, news, cancelled, o)
    ensures SettingsSoFar(zs, news, Start([], [], map[], main, 0), main', after, g.next)
    ensures forall j :: 0 <= j < |news| ==> !cancelled(j)
    ensures o == Done ==> |news| == |zs| && news == g.listed
    ensures o != Done ==>
              && |news| < |zs| && o == CreateFailed(|news|)
              && (cancelled(|news|) || !ValidMode(zs[|news|].clientMode))
              && GaveUp(NOBODY, g) && NoneElse(news, 0, g.next)
  {
    assert StartOf(NOBODY, map[], main) == Start([], [], map[], main, 0);
    if o != Done {
      StuckCreating(main, zs, news, cancelled, o);
      FailedIsMatched(NOBODY, g, map[], main, zs, news, cancelled, o);
    }
  }

  lemma OneCreated(news: seq<nat>, next: nat)
    requires |news| == 1 && news[0] < next && NoneElse(news, 0, next)
    ensures next == 1 && news == [0]
  {
    assert 0 in news;
    assert next > 1 ==> 1 in news;
  }

  /** A context that is done before the second client is created. */
  lemma StopsAtSecond(
      g: Fleet, after: map<nat, Settings>, main: Settings, main': Settings, zs: seq<Settings>, news: seq<nat>,
      o: Outcome)
    requires Reloaded(NOBODY, g, map[], after, main, main', zs, news, FromSecond, o)
    requires |zs| > 1 && ValidMode(zs[0].clientMode)
    ensures o == CreateFailed(1) && |news| == 1 && GaveUp(NOBODY, g) && NoneElse(news, 0, g.next)
  {
    NothingToReuse(g, after, main, main', zs, news, FromSecond, o);
    assert |news| > 1 ==> !FromSecond(1);
  }

  lemma FirstIsCreated(
      g: Fleet, after: map<nat, Settings>, main: Settings, main': Settings, zs: seq<Settings>, news: seq<nat>,
      o: Outcome)
    requires Reloaded(NOBODY, g, map[], after, main, main', zs, news, FromSecond, o) && |news| == 1
    ensures news[0] < g.next
  {
    NothingToReuse(g, after, main, main', zs, news, FromSecond, o);
    EntriesAreNew(after, main, main', zs, news, g.next, 0);
  }

  lemma OnlyOrphan(g: Fleet, news: seq<nat>)
    requires GaveUp(NOBODY, g) && |news| == 1 && news[0] < g.next && NoneElse(news, 0, g.next)
    ensures g.listed == [] && g.orphans == {0} && g.shutdowns == multiset{}
  {
    OneCreated(news, g.next);
  }

  lemma FirstIsOrphan(
      g: Fleet, after: map<nat, Settings>, main: Settings, main': Settings, zs: seq<Settings>, news: seq<nat>,
      o: Outcome)
    requires Reloaded(NOBODY, g, map[], after, main, main', zs, news, FromSecond, o)
    requires |zs| > 1 && ValidMode(zs[0].clientMode)
    ensures o == CreateFailed(1) && g.listed == [] && g.orphans == {0} && g.shutdowns == multiset{}
  {
    StopsAtSecond(g, after, main, main', zs, news, o);
    FirstIsCreated(g, after, main, main', zs, news, o);
    OnlyOrphan(g, news);
  }

  lemma OnlyOneIsCreated(
      g: Fleet, after: map<nat, Settings>, main: Settings, main': Settings, z: Settings, news: seq<nat>, o: Outcome)
    requires Reloaded(NOBODY, g, map[], after, main, main', [z], news, Never, o) && ValidMode(z.clientMode)
    ensures o == Done && |g.listed| == 1 && g.listed[0] in after && after[g.listed[0]] == Named(z)
  {
    NothingToReuse(g, after, main, main', [z], news, Never, o);
    EntriesAreNew(after, main, main', [z], news, g.next, 0);
  }

  lemma OneIsNamed(name: string, wanted: string)
    ensures forall x :: IsNamed([0], [name], x, wanted) ==> x == 0 && name == wanted
    ensures name == wanted ==> IsNamed([0], [name], 0, wanted)
  {
    assert [0][0] == 0 && [name][0] == name;
  }

  /** A single client and a single configuration cannot fail, unless the client is the one asked for
      and is refused. */
  lemma OneIsNotStuck(before: map<nat, Settings>, main: Settings, z: Settings, news: seq<nat>, o: Outcome)
    requires 0 in before && ValidMode(z.clientMode)
    requires NameOf(before[0]) == NameOf(z) ==>
               multiset(z.addrs) != multiset(main.addrs) && CanReload(before[0], Normalised(z))
    ensures !Stuck(Start([0], [NameOf(before[0])], before, main, 1), [z], news, Never, o)
  {
    OneIsNamed(NameOf(before[0]), NameOf(z));
  }

  lemma StartOfOne(f: Fleet, before: map<nat, Settings>, main: Settings)
    requires f.listed == [0] && f.next == 1 && 0 in before
    ensures StartOf(f, before, main) == Start([0], [NameOf(before[0])], before, main, 1)
  {
  }

  lemma OneIsMatched(
      f: Fleet, g: Fleet, before: map<nat, Settings>, after: map<nat, Settings>, main: Settings, main': Settings,
      z: Settings, news: seq<nat>, o: Outcome)
    requires Reloaded(f, g, before, after, main, main', [z], news, Never, o)
    requires f.listed == [0] && f.next == 1 && ValidMode(z.clientMode) && 0 in before
    requires NameOf(before[0]) == NameOf(z) ==>
               multiset(z.addrs) != multiset(main.addrs) && CanReload(before[0], Normalised(z))
    ensures o == Done && news == g.listed && Replaced(f, g)
    ensures SettingsSoFar([z], news, Start([0], [NameOf(before[0])], before, main, 1), main', after, g.next)
    ensures Matched([0], [NameOf(before[0])], [NameOf(z)], news, 1, g.next)
  {
    StartOfOne(f, before, main);
    OneIsNotStuck(before, main, z, news, o);
    assert WantedNames([z]) == [NameOf(z)] && NamesOf(before, [0]) == [NameOf(before[0])];
  }

  /** A single client, and a configuration that asks for its name and can have it. */
  lemma OneIsReused(
      f: Fleet, g: Fleet, before: map<nat, Settings>, after: map<nat, Settings>, main: Settings, main': Settings,
      z: Settings, news: seq<nat>, o: Outcome)
    requires Reloaded(f, g, before, after, main, main', [z], news, Never, o)
    requires f.listed == [0] && f.next == 1 && ValidMode(z.clientMode) && 0 in before
    requires NameOf(before[0]) == NameOf(z)
    requires multiset(z.addrs) != multiset(main.addrs) && CanReload(before[0], Normalised(z))
    ensures o == Done && g.listed == [0] && g.next == 1 && 0 in after && after[0] == ClientReloaded(before[0], z)
  {
    OneIsMatched(f, g, before, after, main, main', z, news, o);
    KeptIffSameNames([0], [NameOf(z)], [NameOf(z)], news, 1, g.next);
    assert news[0] in [0];
    assert Settled(before, after, multiset(main.addrs), z, news[0], 1);
    assert 1 < g.next ==> 1 in news;
  }

  /** A single client, and a configuration that asks for another name. */
  lemma OneIsReplaced(
      f: Fleet, g: Fleet, before: map<nat, Settings>, after: map<nat, Settings>, main: Settings, main': Settings,
      z: Settings, news: seq<nat>, o: Outcome)
    requires Reloaded(f, g, before, after, main, main', [z], news, Never, o)
    requires f.listed == [0] && f.next == 1 && ValidMode(z.clientMode) && 0 in before
    requires NameOf(before[0]) != NameOf(z)
    ensures o == Done && 0 !in g.listed && g.shutdowns[0] == f.shutdowns[0] + 1
  {
    OneIsMatched(f, g, before, after, main, main', z, news, o);
    assert TakenFrom([0], [NameOf(before[0])], NameOf(z), news[0], 1, g.next);
    assert 0 in f.listed && ShutDownIfLeft(f, g, 0);
  }

  /** The context is done before the second new client is created: the first, already there, belongs to
      nobody, and shutting the connector down does not reach it. */
  method FailureOrphans(config: ConnectorConfig, a: Settings, b: Settings) returns (c: Connector, outcome: Outcome)
    requires config.loadTests == [] && Hot(config.(loadTests := [a, b]))
    ensures outcome == CreateFailed(1) && c.loadTests == [] && c.orphans == {0} && 0 !in c.shutdowns
  {
    var later := config.(loadTests := [a, b]);
    c := new Connector(config);
    MainIsAccepted(c, later);
    assert Validates(later.loadTests[0]);
    assert c.View() == NOBODY && c.settings == map[];
    ghost var main := c.main;
    ghost var news;
    outcome, news := c.Reload(later, FromSecond);
    FirstIsOrphan(c.View(), c.settings, ClientReloaded(main, config.main), c.main, [a, b], news, outcome);
    c.ShutDown();
  }

  /** A load-test client is created for the main client's own addresses. */
  method CreatedSharesMain(config: ConnectorConfig, z: Settings) returns (c: Connector, outcome: Outcome)
    requires config.loadTests == [] && Hot(config.(loadTests := [z]))
    requires multiset(z.addrs) == multiset(config.main.addrs)
    ensures outcome == Done && |c.loadTests| == 1 && c.loadTests[0] in c.settings
    ensures multiset(c.settings[c.loadTests[0]].addrs) == multiset(config.main.addrs)
  {
    var later := config.(loadTests := [z]);
    c := new Connector(config);
    MainIsAccepted(c, later);
    assert Validates(later.loadTests[0]);
    assert c.View() == NOBODY && c.settings == map[];
    ghost var main := c.main;
    ghost var news;
    outcome, news := c.Reload(later, Never);
    OnlyOneIsCreated(c.View(), c.settings, ClientReloaded(main, config.main), c.main, z, news, outcome);
    NamedKeepsName(z);
  }

  lemma RenamedByReload(z: Settings)
    requires z.clientMode.ModeSingleHost? && z.addrs == ["b", "a"] && ValidRead(z.readMode)
    ensures CanReload(z, Normalised(z)) && NameOf(z) == "b" && NameOf(ClientReloaded(z, z)) == "a"
    ensures !KeepsItsName(z)
  {
    assert Leq("a", "b") && !Leq("b", "a");
    SortKeepsLength(z.addrs);
    LeastIsFirstIff(z.addrs);
    assert Sort(z.addrs)[0] in multiset(z.addrs);
    NamesMatchAfterReload(z, z);
    NameAfter(z);
  }

  /** The same configuration twice: the first reload keeps the client and sorts its addresses, and the
      second no longer knows it by its name, creates another and shuts it down. */
  method SameConfigTwice(config: ConnectorConfig, z: Settings)
      returns (c: Connector, first: Outcome, second: Outcome)
    requires Hot(config) && config.loadTests == [z]
    requires z.clientMode.ModeSingleHost? && z.addrs == ["b", "a"]
    requires multiset(config.main.addrs) != multiset(z.addrs)
    ensures first == second == Done && 0 !in c.loadTests && c.shutdowns[0] == 1
  {
    assert Validates(config.loadTests[0]);
    RenamedByReload(z);
    c, first := KeptOnce(config, z);
    second := ReplacedNext(c, config, z);
  }

  method KeptOnce(config: ConnectorConfig, z: Settings) returns (c: Connector, outcome: Outcome)
    requires Hot(config) && config.loadTests == [z]
    requires CanReload(z, Normalised(z)) && multiset(config.main.addrs) != multiset(z.addrs)
    ensures fresh(c) && c.Valid() && outcome == Done && c.loadTests == [0] && c.next == 1
    ensures 0 in c.settings && c.settings[0] == ClientReloaded(z, z)
    ensures BuiltWith(c, config)
  {
    c := new Connector(config);
    MainIsAccepted(c, config);
    assert c.loadTests == [0];
    ghost var f, before, main := c.View(), c.settings, ClientReloaded(config.main, config.main);
    ghost var news;
    outcome, news := c.Reload(config, Never);
    OneIsReused(f, c.View(), before, c.settings, main, c.main, z, news, outcome);
    MainKeepsIdentity(config.main, c.main);
  }

  lemma MainKeepsIdentity(s: Settings, s': Settings)
    requires SameUpToOrder(ClientReloaded(s, s), s') && Normalised(s) == s
    ensures s'.clientMode == s.clientMode && s'.db == s.db && multiset(s'.addrs) == multiset(s.addrs)
  {
  }

  method ReplacedNext(c: Connector, config: ConnectorConfig, z: Settings) returns (outcome: Outcome)
    requires Hot(config) && config.loadTests == [z] && c.Valid() && c.loadTests == [0] && c.next == 1
    requires 0 in c.settings && NameOf(c.settings[0]) != NameOf(z) && ValidMode(z.clientMode)
    requires BuiltWith(c, config)
    modifies c
    ensures outcome == Done && 0 !in c.loadTests && c.shutdowns[0] == old(c.shutdowns[0]) + 1 == 1
  {
    MainIsAccepted(c, config);
    assert AccountedOnce(c.View(), 0);
    ghost var f, before, main := c.View(), c.settings, ClientReloaded(c.main, config.main);
    ghost var news;
    outcome, news := c.Reload(config, Never);
    OneIsReplaced(f, c.View(), before, c.settings, main, c.main, z, news, outcome);
  }

  /** A negative size is replaced in the scheduler only, so the connector refuses even the configuration
      it was built with. */
  method NegativeSizeRefusesReload(config: ConnectorConfig) returns (c: Connector, outcome: Outcome)
    requires config.hotReload && Admitted(config) && !Schedules(config)
    ensures outcome == SchedulerChanged
  {
    c := new Connector(config);
    ghost var news;
    outcome, news := c.Reload(config, Never);
  }
}

/** Hot reload of a live go-redis client, field by field, against building a fresh one. */
module HotReload {
  import opened Common
  import opened Addresses
  import opened Config

  /** The options of a live client, changed through go-redis's setters. */
  class LiveOptions {
    var username: string
    var password: string
    var maxRetries: int
    var minRetryBackoff: int
    var maxRetryBackoff: int
    var dialTimeout: int
    var readTimeout: int
    var writeTimeout: int
    var poolSize: int
    var minIdleConns: int
    var maxIdleConns: int
    var maxConnAge: int
    var poolTimeout: int
    var idleTimeout: int
    var idleCheckFrequency: int
    const tls: bool

    ghost function View(): CommonOptions
      reads this
    {
      CommonOptions(
        username, password, maxRetries, minRetryBackoff, maxRetryBackoff, dialTimeout, readTimeout,
        writeTimeout, poolSize, minIdleConns, maxIdleConns, maxConnAge, poolTimeout, idleTimeout,
        idleCheckFrequency, tls)
    }

    constructor (o: CommonOptions)
      ensures View() == o
    {
      username := o.username;
      password := o.password;
      maxRetries := o.maxRetries;
      minRetryBackoff := o.minRetryBackoff;
      maxRetryBackoff := o.maxRetryBackoff;
      dialTimeout := o.dialTimeout;
      readTimeout := o.readTimeout;
      writeTimeout := o.writeTimeout;
      poolSize := o.poolSize;
      minIdleConns := o.minIdleConns;
      maxIdleConns := o.maxIdleConns;
      maxConnAge := o.maxConnAge;
      poolTimeout := o.poolTimeout;
      idleTimeout := o.idleTimeout;
      idleCheckFrequency := o.idleCheckFrequency;
      tls := o.tls;
    }
  }

  /** What the breaker library was last told; a circuit is named after the address of its node. */
  class Breakers {
    var settings: map<string, Hystrix>
  }

  /** Each setting that differs is stored and handed to the live client: login and retries. */
  method ReloadLogin(config: ClientConfig, z: ClientConfig, live: LiveOptions)
    requires config != z
    requires live.username == config.username
    requires live.password == config.password
    requires live.maxRetries == config.maxRetries
    requires live.minRetryBackoff == Duration(config.minRetryBackoffInMs)
    requires live.maxRetryBackoff == Duration(config.maxRetryBackoffInMs)
    modifies config`username, config`password, config`maxRetries,
             config`minRetryBackoffInMs, config`maxRetryBackoffInMs,
             live`username, live`password, live`maxRetries, live`minRetryBackoff, live`maxRetryBackoff
    ensures config.username == z.username && live.username == z.username
    ensures config.password == z.password && live.password == z.password
    ensures config.maxRetries == z.maxRetries && live.maxRetries == z.maxRetries
    ensures config.minRetryBackoffInMs == z.minRetryBackoffInMs
    ensures live.minRetryBackoff == Duration(z.minRetryBackoffInMs)
    ensures config.maxRetryBackoffInMs == z.maxRetryBackoffInMs
    ensures live.maxRetryBackoff == Duration(z.maxRetryBackoffInMs)
  {
    if config.username != z.username {
      config.username := z.username;
      live.username := z.username;
    }
    if config.password != z.password {
      config.password := z.password;
      live.password := z.password;
    }
    if config.maxRetries != z.maxRetries {
      config.maxRetries := z.maxRetries;
      live.maxRetries := z.maxRetries;
    }
    if config.minRetryBackoffInMs != z.minRetryBackoffInMs {
      config.minRetryBackoffInMs := z.minRetryBackoffInMs;
      live.minRetryBackoff := Duration(z.minRetryBackoffInMs);
    }
    if config.maxRetryBackoffInMs != z.maxRetryBackoffInMs {
      config.maxRetryBackoffInMs := z.maxRetryBackoffInMs;
      live.maxRetryBackoff := Duration(z.maxRetryBackoffInMs);
    }
  }

  /** The same for the socket timeouts and the pool's sizes. */
  method ReloadTimeouts(config: ClientConfig, z: ClientConfig, live: LiveOptions)
    requires config != z
    requires live.dialTimeout == Duration(config.dialTimeoutInMs)
    requires live.readTimeout == Duration(config.readTimeoutInMs)
    requires live.writeTimeout == Duration(config.writeTimeoutInMs)
    requires live.poolSize == config.poolSize
    requires live.minIdleConns == config.minIdleConns
    modifies config`dialTimeoutInMs, config`readTimeoutInMs, config`writeTimeoutInMs,
             config`poolSize, config`minIdleConns,
             live`dialTimeout, live`readTimeout, live`writeTimeout, live`poolSize, live`minIdleConns
    ensures config.dialTimeoutInMs == z.dialTimeoutInMs && live.dialTimeout == Duration(z.dialTimeoutInMs)
    ensures config.readTimeoutInMs == z.readTimeoutInMs && live.readTimeout == Duration(z.readTimeoutInMs)
    ensures config.writeTimeoutInMs == z.writeTimeoutInMs && live.writeTimeout == Duration(z.writeTimeoutInMs)
    ensures config.poolSize == z.poolSize && live.poolSize == z.poolSize
    ensures config.minIdleConns == z.minIdleConns && live.minIdleConns == z.minIdleConns
  {
    if config.dialTimeoutInMs != z.dialTimeoutInMs {
      config.dialTimeoutInMs := z.dialTimeoutInMs;
      live.dialTimeout := Duration(z.dialTimeoutInMs);
    }
    if config.readTimeoutInMs != z.readTimeoutInMs {
      config.readTimeoutInMs := z.readTimeoutInMs;
      live.readTimeout := Duration(z.readTimeoutInMs);
    }
    if config.writeTimeoutInMs != z.writeTimeoutInMs {
      config.writeTimeoutInMs := z.writeTimeoutInMs;
      live.writeTimeout := Duration(z.writeTimeoutInMs);
    }
    if config.poolSize != z.poolSize {
      config.poolSize := z.poolSize;
      live.poolSize := z.poolSize;
    }
    if config.minIdleConns != z.minIdleConns {
      config.minIdleConns := z.minIdleConns;
      live.minIdleConns := z.minIdleConns;
    }
  }

  /** The same for the rest of the pool. */
  method ReloadPool(config: ClientConfig, z: ClientConfig, live: LiveOptions)
    requires config != z
    requires live.maxIdleConns == config.maxIdleConns
    requires live.maxConnAge == Duration(config.maxConnAgeInMs)
    requires live.poolTimeout == Duration(config.poolTimeoutInMs)
    requires live.idleTimeout == Duration(config.idleTimeoutInMs)
    requires live.idleCheckFrequency == Duration(config.idleCheckFrequencyInMs)
    modifies config`maxIdleConns, config`maxConnAgeInMs, config`poolTimeoutInMs,
             config`idleTimeoutInMs, config`idleCheckFrequencyInMs,
             live`maxIdleConns, live`maxConnAge, live`poolTimeout, live`idleTimeout, live`idleCheckFrequency
    ensures config.maxIdleConns == z.maxIdleConns && live.maxIdleConns == z.maxIdleConns
    ensures config.maxConnAgeInMs == z.maxConnAgeInMs && live.maxConnAge == Duration(z.maxConnAgeInMs)
    ensures config.poolTimeoutInMs == z.poolTimeoutInMs && live.poolTimeout == Duration(z.poolTimeoutInMs)
    ensures config.idleTimeoutInMs == z.idleTimeoutInMs && live.idleTimeout == Duration(z.idleTimeoutInMs)
    ensures config.idleCheckFrequencyInMs == z.idleCheckFrequencyInMs
    ensures live.idleCheckFrequency == Duration(z.idleCheckFrequencyInMs)
  {
    if config.maxIdleConns != z.maxIdleConns {
      config.maxIdleConns := z.maxIdleConns;
      live.maxIdleConns := z.maxIdleConns;
    }
    if config.maxConnAgeInMs != z.maxConnAgeInMs {
      config.maxConnAgeInMs := z.maxConnAgeInMs;
      live.maxConnAge := Duration(z.maxConnAgeInMs);
    }
    if config.poolTimeoutInMs != z.poolTimeoutInMs {
      config.poolTimeoutInMs := z.poolTimeoutInMs;
      live.poolTimeout := Duration(z.poolTimeoutInMs);
    }
    if config.idleTimeoutInMs != z.idleTimeoutInMs {
      config.idleTimeoutInMs := z.idleTimeoutInMs;
      live.idleTimeout := Duration(z.idleTimeoutInMs);
    }
    if config.idleCheckFrequencyInMs != z.idleCheckFrequencyInMs {
      config.idleCheckFrequencyInMs := z.idleCheckFrequencyInMs;
      live.idleCheckFrequency := Duration(z.idleCheckFrequencyInMs);
    }
  }

  /** The settings that both wrappers reload alike. */
  method ReloadCommon(config: ClientConfig, z: ClientConfig, live: LiveOptions)
    requires config != z && live.View() == CommonOf(config.KnobsView(), live.tls)
    modifies config`username, config`password, config`maxRetries,
             config`minRetryBackoffInMs, config`maxRetryBackoffInMs,
             config`dialTimeoutInMs, config`readTimeoutInMs, config`writeTimeoutInMs,
             config`poolSize, config`minIdleConns, config`maxIdleConns, config`maxConnAgeInMs,
             config`poolTimeoutInMs, config`idleTimeoutInMs, config`idleCheckFrequencyInMs, live
    ensures config.KnobsView() == z.KnobsView()
    ensures live.View() == CommonOf(config.KnobsView(), live.tls)
  {
    ReloadLogin(config, z, live);
    ReloadTimeouts(config, z, live);
    ReloadPool(config, z, live);
  }

  /** All that go-redis and the breaker library see of a cluster or master/slave client. The order of
      the addresses matters in one mode only, where the first is the master. */
  datatype ClusterSight = ClusterSight(
    addrs: multiset<string>, master: Option<string>, common: CommonOptions, maxRedirects: int, routing: Routing,
    limited: bool, breaker: Option<Hystrix>, ignoreReadOnly: bool)

  function FirstAddr(s: Settings): string { if |s.addrs| > 0 then s.addrs[0] else DEFAULT_ADDR }

  /** The first of the nodes that masterSlaveGroupOptions lists for all slots. */
  function MasterOf(s: Settings): Option<string> {
    if s.clientMode.ModeMasterSlaveGroup? && |s.addrs| > 0 then Some(s.addrs[0]) else None
  }

  /** What createClient hands over for these settings. */
  function ClusterSightOf(s: Settings): ClusterSight {
    ClusterSight(
      multiset(s.addrs), MasterOf(s), CommonOf(s.knobs, s.tlsEnabled), s.maxRedirects, RoutingOf(s.readMode),
      s.hystrixEnabled, if s.hystrixEnabled then Some(s.hystrix) else None, s.ignoreReadOnly)
  }

  /** The settings after a reload: the new ones, but for what a reload does not take over. */
  function Merged(s: Settings, z: Settings): Settings {
    z.(addrs := Sort(s.addrs), tlsEnabled := s.tlsEnabled,
       hystrix := if z.hystrixEnabled then z.hystrix else s.hystrix)
  }

  function ReloadedSettings(s: Settings, z: Settings): Settings {
    var zn := Normalised(z);
    if CanReload(s, zn) then Merged(s, zn) else AfterValidate(s, zn)
  }

  /** A cluster or master/slave client with a fixed set of nodes, whose connections all exist. */
  class ClusterWrapper {
    const config: ClientConfig
    const live: LiveOptions
    const breakers: Breakers
    const nodes: set<string>
    const master: Option<string>   // fixed with the slots' nodes at construction
    var maxRedirects: int
    var routing: Routing
    var limited: set<string>

    /** go-redis and the breakers have been told exactly this. */
    ghost predicate Shows(o: ClusterSight)
      reads this, config, live, breakers
    {
      && multiset(config.addrs) == o.addrs && master == o.master && config.ignoreReadOnly == o.ignoreReadOnly
      && live.View() == o.common && maxRedirects == o.maxRedirects && routing == o.routing
      && BreakersShow(o.limited, o.breaker)
    }

    ghost predicate BreakersShow(on: bool, h: Option<Hystrix>)
      reads `limited, breakers
    {
      && limited == (if on then nodes else {})
      && (h.Some? ==>
            forall n :: n in nodes ==>
              n in breakers.settings && breakers.settings[n] == h.value)
    }

    /** The same, setting by setting. */
    ghost predicate Coupled()
      reads this, config, live, breakers
    {
      && live.View() == CommonOf(config.KnobsView(), config.tlsEnabled)
      && maxRedirects == config.maxRedirects && routing == RoutingOf(config.readMode)
      && BreakersShow(config.hystrixEnabled, if config.hystrixEnabled then Some(config.hystrix) else None)
    }

    /** What the live client does with each setting, option by option and flag by flag. */
    lemma LiveOptionsAre()
      requires Coupled()
      ensures routing.readOnly <==> config.readMode == ReadFromSlaves
      ensures routing.routeByLatency <==> config.readMode == ReadByLatency
      ensures routing.routeRandomly <==> config.readMode == ReadRandomly
      ensures maxRedirects == config.maxRedirects
      ensures limited == if config.hystrixEnabled then nodes else {}
      ensures config.hystrixEnabled ==>
                forall n :: n in nodes ==> n in breakers.settings && breakers.settings[n] == config.hystrix
      ensures live.username == config.username && live.password == config.password
      ensures live.maxRetries == config.maxRetries && live.poolSize == config.poolSize
      ensures live.minIdleConns == config.minIdleConns && live.maxIdleConns == config.maxIdleConns
      ensures live.tls == config.tlsEnabled
      ensures FitsNanoseconds(config.minRetryBackoffInMs) ==>
                live.minRetryBackoff == config.minRetryBackoffInMs * 1_000_000
      ensures FitsNanoseconds(config.maxRetryBackoffInMs) ==>
                live.maxRetryBackoff == config.maxRetryBackoffInMs * 1_000_000
      ensures FitsNanoseconds(config.dialTimeoutInMs) ==> live.dialTimeout == config.dialTimeoutInMs * 1_000_000
      ensures FitsNanoseconds(config.readTimeoutInMs) ==> live.readTimeout == config.readTimeoutInMs * 1_000_000
      ensures FitsNanoseconds(config.writeTimeoutInMs) ==> live.writeTimeout == config.writeTimeoutInMs * 1_000_000
      ensures FitsNanoseconds(config.maxConnAgeInMs) ==> live.maxConnAge == config.maxConnAgeInMs * 1_000_000
      ensures FitsNanoseconds(config.poolTimeoutInMs) ==> live.poolTimeout == config.poolTimeoutInMs * 1_000_000
      ensures FitsNanoseconds(config.idleTimeoutInMs) ==> live.idleTimeout == config.idleTimeoutInMs * 1_000_000
      ensures FitsNanoseconds(config.idleCheckFrequencyInMs) ==>
                live.idleCheckFrequency == config.idleCheckFrequencyInMs * 1_000_000
    {
      RoutingFlags(config.readMode);
      DurationIsExact(config.minRetryBackoffInMs);
      DurationIsExact(config.maxRetryBackoffInMs);
      DurationIsExact(config.dialTimeoutInMs);
      DurationIsExact(config.readTimeoutInMs);
      DurationIsExact(config.writeTimeoutInMs);
      DurationIsExact(config.maxConnAgeInMs);
      DurationIsExact(config.poolTimeoutInMs);
      DurationIsExact(config.idleTimeoutInMs);
      DurationIsExact(config.idleCheckFrequencyInMs);
    }

    lemma CoupledShowsSettings()
      requires Coupled()
      ensures Shows(ClusterSightOf(config.View()).(master := master))
    {
    }

    constructor (config: ClientConfig, breakers: Breakers, nodes: set<string>)
      modifies breakers
      ensures Coupled() && this.config == config && this.breakers == breakers && this.nodes == nodes
      ensures fresh(live) && master == MasterOf(config.View())
      ensures Shows(ClusterSightOf(config.View()))
      ensures routing.readOnly <==> config.readMode == ReadFromSlaves
      ensures routing.routeByLatency <==> config.readMode == ReadByLatency
      ensures routing.routeRandomly <==> config.readMode == ReadRandomly
      ensures master.Some? <==> config.clientMode == ModeMasterSlaveGroup && config.addrs != []
      ensures master.Some? ==> master.value == config.addrs[0]
    {
      this.config, this.breakers, this.nodes := config, breakers, nodes;
      master := if config.clientMode.ModeMasterSlaveGroup? && |config.addrs| > 0 then Some(config.addrs[0]) else None;
      live := new LiveOptions(CommonOf(config.KnobsView(), config.tlsEnabled));
      maxRedirects := config.maxRedirects;
      routing := RoutingOf(config.readMode);
      limited := {};
      new;
      if config.hystrixEnabled { LimitAll(config.hystrix); }
      RoutingFlags(config.readMode);
    }

    /** ForEachShard with the limiter turned on. */
    method LimitAll(h: Hystrix)
      requires limited <= nodes
      modifies `limited, breakers
      ensures BreakersShow(true, Some(h))
      ensures forall c :: c in old(breakers.settings) && c !in nodes ==>
                c in breakers.settings && breakers.settings[c] == old(breakers.settings)[c]
    {
      var todo := nodes;
      while todo != {}
        invariant todo <= nodes && nodes - todo <= limited <= nodes
        invariant forall n :: n in nodes - todo ==>
                    n in breakers.settings && breakers.settings[n] == h
        invariant forall c :: c in old(breakers.settings) && c !in nodes ==>
                    c in breakers.settings && breakers.settings[c] == old(breakers.settings)[c]
        decreases todo
      {
        var addr :| addr in todo;
        breakers.settings := breakers.settings[addr := h];
        limited := limited + {addr};
        todo := todo - {addr};
      }
    }

    /** The breaker part of a reload. */
    method ReloadBreaker(z: ClientConfig)
      requires z != config
      requires BreakersShow(config.hystrixEnabled, if config.hystrixEnabled then Some(config.hystrix) else None)
      modifies `limited, breakers, config`hystrix, config`hystrixEnabled
      ensures config.hystrixEnabled == z.hystrixEnabled
      ensures config.hystrix == if z.hystrixEnabled then z.hystrix else old(config.hystrix)
      ensures BreakersShow(z.hystrixEnabled, if z.hystrixEnabled then Some(z.hystrix) else None)
      ensures config.KnobsView() == old(config.KnobsView())
    {
      if z.hystrixEnabled {
        if config.hystrix != z.hystrix || !config.hystrixEnabled {
          config.hystrix := z.hystrix;
          LimitAll(z.hystrix);
        }
      } else {
        limited := {};
      }
      config.hystrixEnabled := z.hystrixEnabled;
    }

    /** Redirects, routing and the connector's own flag. */
    method ReloadRouting(z: ClientConfig)
      requires z != config && maxRedirects == config.maxRedirects && routing == RoutingOf(config.readMode)
      requires ValidRead(z.readMode)
      modifies `maxRedirects, `routing, config`maxRedirects, config`ignoreReadOnly, config`readMode
      ensures maxRedirects == config.maxRedirects == z.maxRedirects
      ensures config.readMode == z.readMode && routing == RoutingOf(z.readMode)
      ensures routing.readOnly <==> z.readMode == ReadFromSlaves
      ensures routing.routeByLatency <==> z.readMode == ReadByLatency
      ensures routing.routeRandomly <==> z.readMode == ReadRandomly
      ensures config.ignoreReadOnly == z.ignoreReadOnly
      ensures config.KnobsView() == old(config.KnobsView())
    {
      RoutingFlags(z.readMode);
      if config.maxRedirects != z.maxRedirects {
        config.maxRedirects := z.maxRedirects;
        maxRedirects := z.maxRedirects;
      }
      config.ignoreReadOnly := z.ignoreReadOnly;
      if config.readMode != z.readMode {
        config.readMode := z.readMode;
        match z.readMode {
          case ReadFromMaster => routing := Routing(false, false, false);
          case ReadFromSlaves => routing := Routing(true, false, false);
          case ReadByLatency => routing := Routing(false, true, false);
          case ReadRandomly => routing := Routing(false, false, true);
          case _ =>
        }
      }
    }

    /** The second half of an accepted reload: breaker, redirects and routing. */
    method ReloadRest(z: ClientConfig)
      requires z != config && ValidRead(z.readMode)
      requires maxRedirects == config.maxRedirects && routing == RoutingOf(config.readMode)
      requires BreakersShow(config.hystrixEnabled, if config.hystrixEnabled then Some(config.hystrix) else None)
      modifies `limited, `maxRedirects, `routing, breakers, config`hystrix, config`hystrixEnabled,
               config`maxRedirects, config`ignoreReadOnly, config`readMode
      ensures maxRedirects == config.maxRedirects == z.maxRedirects
      ensures config.readMode == z.readMode && routing == RoutingOf(z.readMode)
      ensures config.hystrixEnabled == z.hystrixEnabled
      ensures config.hystrix == if z.hystrixEnabled then z.hystrix else old(config.hystrix)
      ensures BreakersShow(z.hystrixEnabled, if z.hystrixEnabled then Some(z.hystrix) else None)
      ensures config.ignoreReadOnly == z.ignoreReadOnly && config.KnobsView() == old(config.KnobsView())
    {
      ReloadBreaker(z);
      ReloadRouting(z);
    }

    /** What a reload does once it is accepted. */
    method ReloadSettings(z: ClientConfig)
      requires Coupled() && z != config && ValidRead(z.readMode)
      modifies this, live, breakers, config`hystrix, config`hystrixEnabled, config`maxRedirects,
               config`ignoreReadOnly, config`readMode,
               config`username, config`password, config`maxRetries,
               config`minRetryBackoffInMs, config`maxRetryBackoffInMs,
               config`dialTimeoutInMs, config`readTimeoutInMs, config`writeTimeoutInMs, config`poolSize,
               config`minIdleConns, config`maxIdleConns, config`maxConnAgeInMs, config`poolTimeoutInMs,
               config`idleTimeoutInMs, config`idleCheckFrequencyInMs
      ensures Coupled()
      ensures config.KnobsView() == z.KnobsView()
      ensures config.hystrixEnabled == z.hystrixEnabled
      ensures config.hystrix == if z.hystrixEnabled then z.hystrix else old(config.hystrix)
      ensures config.maxRedirects == z.maxRedirects && config.readMode == z.readMode
      ensures config.ignoreReadOnly == z.ignoreReadOnly
    {
      ReloadCommon(config, z, live);
      ReloadRest(z);
    }

    /** The same, with all that it leaves alone. */
    method Apply(z: ClientConfig)
      requires Coupled() && z != config && ValidRead(z.readMode)
      modifies this, config, live, breakers
      ensures Coupled()
      ensures config.KnobsView() == z.KnobsView() && z.View() == old(z.View())
      ensures config.clientMode == old(config.clientMode) && config.db == old(config.db)
      ensures config.addrs == old(config.addrs) && config.tlsEnabled == old(config.tlsEnabled)
      ensures config.hystrixEnabled == z.hystrixEnabled
      ensures config.hystrix == if z.hystrixEnabled then z.hystrix else old(config.hystrix)
      ensures config.maxRedirects == z.maxRedirects && config.readMode == z.readMode
      ensures config.ignoreReadOnly == z.ignoreReadOnly
    {
      ReloadSettings(z);
    }

    method Reload(z: ClientConfig) returns (ok: bool)
      requires Coupled() && z != config
      modifies this, config, z, live, breakers
      ensures Coupled()
      ensures ok <==> CanReload(old(config.View()), Normalised(old(z.View())))
      ensures config.View() == ReloadedSettings(old(config.View()), old(z.View()))
      ensures z.View() == Normalised(old(z.View())).(addrs := z.addrs)
      ensures ok ==> z.addrs == config.addrs == Sort(old(config.addrs))
      ensures ok ==> z.readMode == config.readMode
      ensures ok ==> z.readMode == if old(z.readMode) == Unset then ReadFromSlaves else old(z.readMode)
      ensures routing.readOnly <==> config.readMode == ReadFromSlaves
      ensures routing.routeByLatency <==> config.readMode == ReadByLatency
      ensures routing.routeRandomly <==> config.readMode == ReadRandomly
      ensures !ok ==>
                && live.View() == old(live.View()) && maxRedirects == old(maxRedirects) && routing == old(routing)
                && limited == old(limited) && breakers.settings == old(breakers.settings)
    {
      z.Init();
      ok := config.ValidateReload(z);
      if ok { Apply(z); }
      RoutingFlags(config.readMode);
    }
  }

  /** Settings after any sequence of reloads, accepted or rejected. */
  function ClusterRun(s: Settings, zs: seq<Settings>): Settings {
    if zs == [] then s else ReloadedSettings(ClusterRun(s, zs[..|zs| - 1]), zs[|zs| - 1])
  }

  lemma {:induction false} ClusterRunKeepsIdentity(s: Settings, zs: seq<Settings>)
    ensures var r := ClusterRun(s, zs);
            r.tlsEnabled == s.tlsEnabled && r.clientMode == s.clientMode && multiset(r.addrs) == multiset(s.addrs)
    decreases |zs|
  {
    if zs != [] {
      ClusterRunKeepsIdentity(s, zs[..|zs| - 1]);
    }
  }

  /** What the client that was built with settings `s` shows after a run of reloads: it keeps its master. */
  function LiveSight(s: Settings, zs: seq<Settings>): ClusterSight {
    ClusterSightOf(ClusterRun(s, zs)).(master := MasterOf(s))
  }

  lemma RoutingSeesValidModes(s: Settings, z: Settings)
    requires CanReload(s, z)
    ensures ClusterSightOf(Merged(s, z)).(master := MasterOf(z))
         == ClusterSightOf(z).(common := CommonOf(z.knobs, s.tlsEnabled))
  {
    assert multiset(Sort(s.addrs)) == multiset(z.addrs);
  }

  lemma MasterIsFirst(s: Settings, z: Settings)
    requires s.clientMode == z.clientMode && multiset(s.addrs) == multiset(z.addrs)
    ensures MasterOf(s) == MasterOf(z) <==> (z.clientMode.ModeMasterSlaveGroup? ==> FirstAddr(s) == FirstAddr(z))
  {
    assert |s.addrs| == |multiset(s.addrs)| == |z.addrs|;
  }

  /** Equal in what only construction decides. */
  predicate BuiltAlike(s: Settings, z: Settings) {
    && s.tlsEnabled == z.tlsEnabled
    && (z.clientMode.ModeMasterSlaveGroup? ==> FirstAddr(s) == FirstAddr(z))
  }

  /** After any run of reloads that ends with an accepted one, go-redis and the breakers see just
      what a fresh client for the last settings would show them, provided, and only provided, the
      TLS flag is the one the client was built with and, for a master/slave group, so is the address
      that comes first. */
  lemma ClusterRunRefinesConstruction(s: Settings, zs: seq<Settings>)
    requires zs != [] && CanReload(ClusterRun(s, zs[..|zs| - 1]), Normalised(zs[|zs| - 1]))
    ensures LiveSight(s, zs) == ClusterSightOf(Normalised(zs[|zs| - 1])) <==> BuiltAlike(s, Normalised(zs[|zs| - 1]))
  {
    var before, z := ClusterRun(s, zs[..|zs| - 1]), Normalised(zs[|zs| - 1]);
    ClusterRunKeepsIdentity(s, zs[..|zs| - 1]);
    RoutingSeesValidModes(before, z);
    MasterIsFirst(s, z);
    assert CommonOf(z.knobs, before.tlsEnabled).tls == before.tlsEnabled;
  }

  /** A group whose last settings name the other address first: the reload is accepted, a fresh client
      would have that address for its master, the live one keeps the old. */
  lemma MasterStays(s: Settings)
    requires s.clientMode == ModeMasterSlaveGroup && s.addrs == ["b", "a"] && ValidRead(s.readMode)
    ensures var z := s.(addrs := ["a", "b"]);
            && CanReload(s, Normalised(z))
            && LiveSight(s, [z]).master == Some("b") && ClusterSightOf(Normalised(z)).master == Some("a")
            && LiveSight(s, [z]) != ClusterSightOf(Normalised(z))
  {
  }

  /** The settings before the first reload of a run and after each. */
  ghost predicate IsHistory(rs: seq<Settings>, zs: seq<Settings>) {
    |rs| == |zs| + 1 && forall k :: 0 <= k < |zs| ==> rs[k + 1] == ReloadedSettings(rs[k], zs[k])
  }

  lemma {:induction false} HistoryOfRun(rs: seq<Settings>, zs: seq<Settings>, k: nat)
    requires IsHistory(rs, zs) && k <= |zs|
    ensures rs[k] == ClusterRun(rs[0], zs[..k])
    decreases k
  {
    if k > 0 {
      HistoryOfRun(rs, zs, k - 1);
      assert zs[..k][..k - 1] == zs[..k - 1];
      assert rs[k - 1 + 1] == ReloadedSettings(rs[k - 1], zs[k - 1]);
    }
  }

  ghost predicate Accepts(s: Settings, z: Settings) { CanReload(s, Normalised(z)) }

  /** Reload k is the last accepted one. */
  ghost predicate LastAccepted(rs: seq<Settings>, zs: seq<Settings>, k: nat) {
    && IsHistory(rs, zs) && k < |zs| && Accepts(rs[k], zs[k])
    && forall j :: k < j < |zs| ==> !Accepts(rs[j], zs[j])
  }

  /** Settings r are z but for what a reload does not take over. */
  predicate TakesOver(r: Settings, z: Settings, tls: bool) {
    && r == z.(addrs := r.addrs, tlsEnabled := tls, hystrix := r.hystrix)
    && (z.hystrixEnabled ==> r.hystrix == z.hystrix)
  }

  lemma AcceptedTakesOver(before: Settings, z: Settings)
    requires Accepts(before, z)
    ensures TakesOver(ReloadedSettings(before, z), Normalised(z), before.tlsEnabled)
  {
  }

  lemma RejectedKeeps(before: Settings, z: Settings, kept: Settings, tls: bool)
    requires !Accepts(before, z) && TakesOver(before, kept, tls)
    ensures TakesOver(ReloadedSettings(before, z), kept, tls)
  {
  }

  lemma {:induction false} TlsStays(rs: seq<Settings>, zs: seq<Settings>, k: nat)
    requires IsHistory(rs, zs) && k <= |zs|
    ensures rs[k].tlsEnabled == rs[0].tlsEnabled
    decreases k
  {
    if k > 0 {
      TlsStays(rs, zs, k - 1);
      assert rs[k - 1 + 1] == ReloadedSettings(rs[k - 1], zs[k - 1]);
    }
  }

  lemma {:induction false} KeptSince(rs: seq<Settings>, zs: seq<Settings>, k: nat, m: nat)
    requires LastAccepted(rs, zs, k) && k < m <= |zs|
    ensures TakesOver(rs[m], Normalised(zs[k]), rs[0].tlsEnabled)
    decreases m
  {
    assert rs[m - 1 + 1] == ReloadedSettings(rs[m - 1], zs[m - 1]);
    if k < m - 1 {
      KeptSince(rs, zs, k, m - 1);
      RejectedKeeps(rs[m - 1], zs[m - 1], Normalised(zs[k]), rs[0].tlsEnabled);
    } else {
      TlsStays(rs, zs, k);
      AcceptedTakesOver(rs[k], zs[k]);
    }
  }

  /** Over a run, the settings of a client are those of the last accepted reload, but for what reloads
      never take over; and the live client routes as they say. */
  lemma RunFollowsLastAccepted(rs: seq<Settings>, zs: seq<Settings>, k: nat)
    requires LastAccepted(rs, zs, k)
    ensures ClusterRun(rs[0], zs) == rs[|zs|] && TakesOver(rs[|zs|], Normalised(zs[k]), rs[0].tlsEnabled)
    ensures var routing, mode := LiveSight(rs[0], zs).routing, Normalised(zs[k]).readMode;
            && (routing.readOnly <==> mode == ReadFromSlaves)
            && (routing.routeByLatency <==> mode == ReadByLatency)
            && (routing.routeRandomly <==> mode == ReadRandomly)
  {
    KeptSince(rs, zs, k, |zs|);
    HistoryOfRun(rs, zs, |zs|);
    assert zs[..|zs|] == zs;
    RoutingFlags(rs[|zs|].readMode);
  }

  /** A rejected reload shows go-redis and the breakers nothing new. */
  lemma RejectedReloadIsInvisible(s: Settings, z: Settings)
    requires !CanReload(s, Normalised(z))
    ensures ClusterSightOf(ReloadedSettings(s, z)).(master := MasterOf(s)) == ClusterSightOf(s)
    ensures ReloadedSettings(s, z) == s.(addrs := ReloadedSettings(s, z).addrs)
  {
  }

  // ------------------------------------------------------------------------------------------
  // The single-host client.

  datatype SingleSight = SingleSight(
    addr: string, db: int, common: CommonOptions, limited: bool, breaker: Option<Hystrix>, ignoreReadOnly: bool)

  function SingleSightOf(s: Settings): SingleSight {
    SingleSight(
      FirstAddr(s), s.db, CommonOf(s.knobs, s.tlsEnabled), s.hystrixEnabled,
      if s.hystrixEnabled then Some(s.hystrix) else None, s.ignoreReadOnly)
  }

  function SingleReloaded(s: Settings, z: Settings): Settings {
    var zn := Normalised(z);
    if CanReload(s, zn) then Merged(s, zn).(maxRedirects := s.maxRedirects, readMode := s.readMode)
    else AfterValidate(s, zn)
  }

  class SingleWrapper {
    const config: ClientConfig
    const live: LiveOptions
    const breakers: Breakers
    const addr: string
    const db: int
    var limited: bool

    ghost predicate Shows(o: SingleSight)
      reads this, config, live, breakers
    {
      && addr == o.addr && db == o.db && live.View() == o.common && config.ignoreReadOnly == o.ignoreReadOnly
      && BreakerShows(o.limited, o.breaker)
    }

    ghost predicate BreakerShows(on: bool, h: Option<Hystrix>)
      reads `limited, breakers
    {
      limited == on && (h.Some? ==> addr in breakers.settings && breakers.settings[addr] == h.value)
    }

    ghost predicate Coupled()
      reads this, config, live, breakers
    {
      && live.View() == CommonOf(config.KnobsView(), config.tlsEnabled) && db == config.db
      && BreakerShows(config.hystrixEnabled, if config.hystrixEnabled then Some(config.hystrix) else None)
    }

    /** What the live client does with each setting, option by option. */
    lemma LiveOptionsAre()
      requires Coupled()
      ensures db == config.db && limited == config.hystrixEnabled
      ensures config.hystrixEnabled ==> addr in breakers.settings && breakers.settings[addr] == config.hystrix
      ensures live.username == config.username && live.password == config.password
      ensures live.maxRetries == config.maxRetries && live.poolSize == config.poolSize
      ensures live.minIdleConns == config.minIdleConns && live.maxIdleConns == config.maxIdleConns
      ensures live.tls == config.tlsEnabled
      ensures FitsNanoseconds(config.minRetryBackoffInMs) ==>
                live.minRetryBackoff == config.minRetryBackoffInMs * 1_000_000
      ensures FitsNanoseconds(config.maxRetryBackoffInMs) ==>
                live.maxRetryBackoff == config.maxRetryBackoffInMs * 1_000_000
      ensures FitsNanoseconds(config.dialTimeoutInMs) ==> live.dialTimeout == config.dialTimeoutInMs * 1_000_000
      ensures FitsNanoseconds(config.readTimeoutInMs) ==> live.readTimeout == config.readTimeoutInMs * 1_000_000
      ensures FitsNanoseconds(config.writeTimeoutInMs) ==> live.writeTimeout == config.writeTimeoutInMs * 1_000_000
      ensures FitsNanoseconds(config.maxConnAgeInMs) ==> live.maxConnAge == config.maxConnAgeInMs * 1_000_000
      ensures FitsNanoseconds(config.poolTimeoutInMs) ==> live.poolTimeout == config.poolTimeoutInMs * 1_000_000
      ensures FitsNanoseconds(config.idleTimeoutInMs) ==> live.idleTimeout == config.idleTimeoutInMs * 1_000_000
      ensures FitsNanoseconds(config.idleCheckFrequencyInMs) ==>
                live.idleCheckFrequency == config.idleCheckFrequencyInMs * 1_000_000
    {
      DurationIsExact(config.minRetryBackoffInMs);
      DurationIsExact(config.maxRetryBackoffInMs);
      DurationIsExact(config.dialTimeoutInMs);
      DurationIsExact(config.readTimeoutInMs);
      DurationIsExact(config.writeTimeoutInMs);
      DurationIsExact(config.maxConnAgeInMs);
      DurationIsExact(config.poolTimeoutInMs);
      DurationIsExact(config.idleTimeoutInMs);
      DurationIsExact(config.idleCheckFrequencyInMs);
    }

    lemma CoupledShowsSettings()
      requires Coupled()
      ensures Shows(SingleSightOf(config.View()).(addr := addr))
    {
    }

    constructor (config: ClientConfig, breakers: Breakers)
      modifies breakers
      ensures Coupled() && this.config == config && this.breakers == breakers && fresh(live)
      ensures addr == FirstAddr(config.View())
    {
      this.config, this.breakers := config, breakers;
      live := new LiveOptions(CommonOf(config.KnobsView(), config.tlsEnabled));
      addr := if |config.addrs| > 0 then config.addrs[0] else DEFAULT_ADDR;
      db := config.db;
      limited := config.hystrixEnabled;
      new;
      if config.hystrixEnabled { breakers.settings := breakers.settings[addr := config.hystrix]; }
    }

    method ReloadBreaker(z: ClientConfig)
      requires z != config
      requires BreakerShows(config.hystrixEnabled, if config.hystrixEnabled then Some(config.hystrix) else None)
      modifies `limited, breakers, config`hystrix, config`hystrixEnabled, config`ignoreReadOnly
      ensures config.hystrixEnabled == z.hystrixEnabled
      ensures config.hystrix == if z.hystrixEnabled then z.hystrix else old(config.hystrix)
      ensures BreakerShows(z.hystrixEnabled, if z.hystrixEnabled then Some(z.hystrix) else None)
      ensures config.ignoreReadOnly == z.ignoreReadOnly && config.KnobsView() == old(config.KnobsView())
    {
      if z.hystrixEnabled {
        if config.hystrix != z.hystrix || !config.hystrixEnabled {
          config.hystrix := z.hystrix;
          breakers.settings := breakers.settings[addr := z.hystrix];
          limited := true;
        }
      } else {
        limited := false;
      }
      config.hystrixEnabled := z.hystrixEnabled;
      config.ignoreReadOnly := z.ignoreReadOnly;
    }

    method ReloadSettings(z: ClientConfig)
      requires Coupled() && z != config
      modifies this, live, breakers, config`hystrix, config`hystrixEnabled, config`ignoreReadOnly,
               config`username, config`password, config`maxRetries,
               config`minRetryBackoffInMs, config`maxRetryBackoffInMs,
               config`dialTimeoutInMs, config`readTimeoutInMs, config`writeTimeoutInMs, config`poolSize,
               config`minIdleConns, config`maxIdleConns, config`maxConnAgeInMs, config`poolTimeoutInMs,
               config`idleTimeoutInMs, config`idleCheckFrequencyInMs
      ensures Coupled()
      ensures config.KnobsView() == z.KnobsView()
      ensures config.hystrixEnabled == z.hystrixEnabled
      ensures config.hystrix == if z.hystrixEnabled then z.hystrix else old(config.hystrix)
      ensures config.ignoreReadOnly == z.ignoreReadOnly
    {
      ReloadCommon(config, z, live);
      ReloadBreaker(z);
    }

    method Apply(z: ClientConfig)
      requires Coupled() && z != config
      modifies this, config, live, breakers
      ensures Coupled()
      ensures config.KnobsView() == z.KnobsView() && z.View() == old(z.View())
      ensures config.clientMode == old(config.clientMode) && config.db == old(config.db)
      ensures config.addrs == old(config.addrs) && config.tlsEnabled == old(config.tlsEnabled)
      ensures config.maxRedirects == old(config.maxRedirects) && config.readMode == old(config.readMode)
      ensures config.hystrixEnabled == z.hystrixEnabled
      ensures config.hystrix == if z.hystrixEnabled then z.hystrix else old(config.hystrix)
      ensures config.ignoreReadOnly == z.ignoreReadOnly
    {
      ReloadSettings(z);
    }

    method Reload(z: ClientConfig) returns (ok: bool)
      requires Coupled() && z != config
      modifies this, config, z, live, breakers
      ensures Coupled()
      ensures ok <==> CanReload(old(config.View()), Normalised(old(z.View())))
      ensures config.View() == SingleReloaded(old(config.View()), old(z.View()))
      ensures z.View() == Normalised(old(z.View())).(addrs := z.addrs)
      ensures ok ==> z.addrs == config.addrs == Sort(old(config.addrs))
      ensures !ok ==>
                && live.View() == old(live.View()) && limited == old(limited)
                && breakers.settings == old(breakers.settings)
    {
      z.Init();
      ok := config.ValidateReload(z);
      if !ok { return; }
      Apply(z);
    }
  }

  function SingleRun(s: Settings, zs: seq<Settings>): Settings {
    if zs == [] then s else SingleReloaded(SingleRun(s, zs[..|zs| - 1]), zs[|zs| - 1])
  }

  lemma {:induction false} SingleRunKeepsTls(s: Settings, zs: seq<Settings>)
    ensures SingleRun(s, zs).tlsEnabled == s.tlsEnabled
    decreases |zs|
  {
    if zs != [] {
      SingleRunKeepsTls(s, zs[..|zs| - 1]);
    }
  }

  /** A single-host client stays connected to the address it was built with, while its configuration's
      address list gets sorted; so it matches a fresh client exactly when the TLS flag is the same
      and the last settings put that address first. */
  lemma SingleRunRefinesConstruction(s: Settings, zs: seq<Settings>)
    requires zs != [] && CanReload(SingleRun(s, zs[..|zs| - 1]), Normalised(zs[|zs| - 1]))
    ensures SingleSightOf(SingleRun(s, zs)).(addr := FirstAddr(s)) == SingleSightOf(Normalised(zs[|zs| - 1]))
       <==> s.tlsEnabled == zs[|zs| - 1].tlsEnabled && FirstAddr(s) == FirstAddr(Normalised(zs[|zs| - 1]))
  {
    var before, z := SingleRun(s, zs[..|zs| - 1]), Normalised(zs[|zs| - 1]);
    SingleRunKeepsTls(s, zs[..|zs| - 1]);
    assert CommonOf(z.knobs, before.tlsEnabled).tls == before.tlsEnabled;
  }

  /** The same settings with the addresses the other way round: the reload is accepted, and a fresh
      client would connect elsewhere. */
  lemma SingleHostStays(s: Settings)
    requires s.clientMode == ModeSingleHost && s.addrs == ["b", "a"] && ValidRead(s.readMode)
    ensures var z := s.(addrs := ["a", "b"]);
            && CanReload(s, Normalised(z))
            && FirstAddr(s) == "b" && SingleSightOf(Normalised(z)).addr == "a"
            && SingleSightOf(SingleRun(s, [z])).(addr := FirstAddr(s)) != SingleSightOf(Normalised(z))
  {
  }
}

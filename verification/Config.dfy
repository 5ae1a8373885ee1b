/** Client settings: defaults, validation, and the option values go-redis is built with. */
module Config {
  import opened GoInt
  import opened Addresses
  import opened Texts

  const DEFAULT_ADDR := "localhost:6379"
  const UCM_EMPTY := "<nil>"
  const DEFAULT_DIAL_TIMEOUT := 5000
  const DEFAULT_CB_TIMEOUT := 31000
  const DEFAULT_CB_MAX_CONCURRENT := 5000
  const DEFAULT_CB_ERR_PERCENT := 50

  datatype ClientMode = ModeCluster | ModeMasterSlaveGroup | ModeSingleHost | OtherMode(text: string)

  /** Unset stands for the empty string and the configuration system's "<nil>". */
  datatype ReadMode = ReadFromMaster | ReadFromSlaves | ReadRandomly | ReadByLatency | Unset | OtherRead(text: string)

  datatype Hystrix = Hystrix(
    timeoutInMs: int, maxConcurrentRequests: int, requestVolumeThreshold: int,
    errorPercentThreshold: int, sleepWindowInMs: int, queueSizeRejectionThreshold: int)

  /** The settings that every kind of client has and a reload takes over one by one. */
  datatype Knobs = Knobs(
    username: string, password: string,
    maxRetries: int, minRetryBackoffInMs: int, maxRetryBackoffInMs: int,
    dialTimeoutInMs: int, readTimeoutInMs: int, writeTimeoutInMs: int,
    poolSize: int, minIdleConns: int, maxIdleConns: int, maxConnAgeInMs: int,
    poolTimeoutInMs: int, idleTimeoutInMs: int, idleCheckFrequencyInMs: int)

  datatype Settings = Settings(
    clientMode: ClientMode, addrs: seq<string>, db: int, knobs: Knobs,
    tlsEnabled: bool, hystrixEnabled: bool, hystrix: Hystrix,
    maxRedirects: int, readMode: ReadMode, ignoreReadOnly: bool)

  /** The option values that both kinds of go-redis client share; durations in nanoseconds. */
  datatype CommonOptions = CommonOptions(
    username: string, password: string, maxRetries: int, minRetryBackoff: int, maxRetryBackoff: int,
    dialTimeout: int, readTimeout: int, writeTimeout: int, poolSize: int, minIdleConns: int,
    maxIdleConns: int, maxConnAge: int, poolTimeout: int, idleTimeout: int, idleCheckFrequency: int,
    tls: bool)

  datatype Routing = Routing(readOnly: bool, routeByLatency: bool, routeRandomly: bool)

  /** parseDurationInMs: int64 nanoseconds. */
  function Duration(ms: int): int { Wrap64(ms * 1_000_000) }

  function CommonOf(k: Knobs, tls: bool): CommonOptions {
    CommonOptions(
      k.username, k.password, k.maxRetries, Duration(k.minRetryBackoffInMs), Duration(k.maxRetryBackoffInMs),
      Duration(k.dialTimeoutInMs), Duration(k.readTimeoutInMs), Duration(k.writeTimeoutInMs),
      k.poolSize, k.minIdleConns, k.maxIdleConns, Duration(k.maxConnAgeInMs), Duration(k.poolTimeoutInMs),
      Duration(k.idleTimeoutInMs), Duration(k.idleCheckFrequencyInMs), tls)
  }

  /** The routing flags clusterOptions sets on options whose flags are all off. */
  function RoutingOf(m: ReadMode): Routing {
    match m
    case ReadFromSlaves => Routing(true, false, false)
    case ReadByLatency => Routing(false, true, false)
    case ReadRandomly => Routing(false, false, true)
    case _ => Routing(false, false, false)
  }

  predicate ValidMode(m: ClientMode) { !m.OtherMode? }
  predicate ValidRead(m: ReadMode) { !m.Unset? && !m.OtherRead? }

  predicate Validates(s: Settings) {
    |s.addrs| > 0 && ValidMode(s.clientMode) && ValidRead(s.readMode)
  }

  function Normalised(s: Settings): Settings {
    s.(addrs := if s.addrs == [] then [DEFAULT_ADDR] else s.addrs,
       readMode := if s.readMode.Unset? then ReadFromSlaves else s.readMode,
       knobs := NormalKnobs(s.knobs),
       hystrix := NormalHystrix(s.hystrix))
  }

  function NormalKnobs(k: Knobs): Knobs {
    k.(username := if k.username == UCM_EMPTY then "" else k.username,
       password := if k.password == UCM_EMPTY then "" else k.password,
       dialTimeoutInMs := if k.dialTimeoutInMs == 0 then DEFAULT_DIAL_TIMEOUT else k.dialTimeoutInMs)
  }

  function NormalHystrix(h: Hystrix): Hystrix {
    h.(timeoutInMs := if h.timeoutInMs == 0 then DEFAULT_CB_TIMEOUT else h.timeoutInMs,
       maxConcurrentRequests :=
         if h.maxConcurrentRequests == 0 then DEFAULT_CB_MAX_CONCURRENT else h.maxConcurrentRequests,
       errorPercentThreshold :=
         if h.errorPercentThreshold == 0 then DEFAULT_CB_ERR_PERCENT else h.errorPercentThreshold)
  }

  /** isAddrsEquals sorts both slices in place when their lengths agree; the results are what is
      left in the two slices. */
  method IsAddrsEquals(addrs1: seq<string>, addrs2: seq<string>)
      returns (eq: bool, after1: seq<string>, after2: seq<string>)
    ensures eq <==> multiset(addrs1) == multiset(addrs2)
    ensures if |addrs1| == |addrs2| then after1 == Sort(addrs1) && after2 == Sort(addrs2)
            else after1 == addrs1 && after2 == addrs2
    ensures eq ==> after1 == after2
  {
    SortsAlike(addrs1, addrs2);
    SortKeepsLength(addrs1);
    SortKeepsLength(addrs2);
    if |addrs1| != |addrs2| {
      return false, addrs1, addrs2;
    }
    after1, after2 := Sort(addrs1), Sort(addrs2);
    eq := SameElements(after1, after2);
  }

  /** The comparison loop. */
  method SameElements(a: seq<string>, b: seq<string>) returns (eq: bool)
    requires |a| == |b|
    ensures eq <==> a == b
  {
    for i := 0 to |a|
      invariant forall j :: 0 <= j < i ==> a[j] == b[j]
    {
      if a[i] != b[i] { return false; }
    }
    return true;
  }

  /** The name a client is known by. */
  function NameOf(s: Settings): string {
    if s.addrs == [] then DEFAULT_ADDR
    else if s.clientMode.ModeSingleHost? then s.addrs[0]
    else Join(Sort(s.addrs))
  }

  /** Settings for several nodes, none of whose addresses has a comma in it. */
  predicate MultiNode(s: Settings) {
    !s.clientMode.ModeSingleHost? && s.addrs != [] && forall i :: 0 <= i < |s.addrs| ==> NoComma(s.addrs[i])
  }

  lemma SortedHasNoComma(a: seq<string>)
    requires forall i :: 0 <= i < |a| ==> NoComma(a[i])
    ensures forall i :: 0 <= i < |Sort(a)| ==> NoComma(Sort(a)[i])
  {
    forall i | 0 <= i < |Sort(a)| ensures NoComma(Sort(a)[i]) {
      assert Sort(a)[i] in multiset(Sort(a));
      assert Sort(a)[i] in multiset(a);
    }
  }

  /** Names tell such clients apart exactly by their addresses, in any order. */
  lemma NamesTellAddresses(s: Settings, z: Settings)
    requires MultiNode(s) && MultiNode(z)
    ensures NameOf(s) == NameOf(z) <==> multiset(s.addrs) == multiset(z.addrs)
  {
    SortKeepsLength(s.addrs);
    SortKeepsLength(z.addrs);
    SortedHasNoComma(s.addrs);
    SortedHasNoComma(z.addrs);
    JoinTellsApart(Sort(s.addrs), Sort(z.addrs));
    SortsAlike(s.addrs, z.addrs);
  }

  /** A single host is known by its first address, and whoever has no address by the default one. */
  lemma OtherNames(s: Settings)
    ensures s.addrs == [] ==> NameOf(s) == "localhost:6379"
    ensures s.addrs != [] && s.clientMode.ModeSingleHost? ==> NameOf(s) == s.addrs[0]
  {
  }

  /** A configuration object, as the configuration system fills it in. */
  class ClientConfig {
    var clientMode: ClientMode
    var addrs: seq<string>
    var username: string
    var password: string
    var db: int
    var maxRetries: int
    var minRetryBackoffInMs: int
    var maxRetryBackoffInMs: int
    var dialTimeoutInMs: int
    var readTimeoutInMs: int
    var writeTimeoutInMs: int
    var poolSize: int
    var minIdleConns: int
    var maxIdleConns: int
    var maxConnAgeInMs: int
    var poolTimeoutInMs: int
    var idleTimeoutInMs: int
    var idleCheckFrequencyInMs: int
    var tlsEnabled: bool
    var hystrixEnabled: bool
    var hystrix: Hystrix
    var maxRedirects: int
    var readMode: ReadMode
    var ignoreReadOnly: bool

    function View(): Settings
      reads this
    {
      Settings(
        clientMode, addrs, db, KnobsView(), tlsEnabled, hystrixEnabled, hystrix, maxRedirects, readMode,
        ignoreReadOnly)
    }

    function KnobsView(): Knobs
      reads this
    {
      Knobs(
        username, password, maxRetries, minRetryBackoffInMs, maxRetryBackoffInMs, dialTimeoutInMs,
        readTimeoutInMs, writeTimeoutInMs, poolSize, minIdleConns, maxIdleConns, maxConnAgeInMs,
        poolTimeoutInMs, idleTimeoutInMs, idleCheckFrequencyInMs)
    }

    constructor (s: Settings)
      ensures View() == s
    {
      clientMode := s.clientMode;
      addrs := s.addrs;
      db := s.db;
      tlsEnabled := s.tlsEnabled;
      hystrixEnabled := s.hystrixEnabled;
      hystrix := s.hystrix;
      maxRedirects := s.maxRedirects;
      readMode := s.readMode;
      ignoreReadOnly := s.ignoreReadOnly;
      username := s.knobs.username;
      password := s.knobs.password;
      maxRetries := s.knobs.maxRetries;
      minRetryBackoffInMs := s.knobs.minRetryBackoffInMs;
      maxRetryBackoffInMs := s.knobs.maxRetryBackoffInMs;
      dialTimeoutInMs := s.knobs.dialTimeoutInMs;
      readTimeoutInMs := s.knobs.readTimeoutInMs;
      writeTimeoutInMs := s.knobs.writeTimeoutInMs;
      poolSize := s.knobs.poolSize;
      minIdleConns := s.knobs.minIdleConns;
      maxIdleConns := s.knobs.maxIdleConns;
      maxConnAgeInMs := s.knobs.maxConnAgeInMs;
      poolTimeoutInMs := s.knobs.poolTimeoutInMs;
      idleTimeoutInMs := s.knobs.idleTimeoutInMs;
      idleCheckFrequencyInMs := s.knobs.idleCheckFrequencyInMs;
    }

    method Init()
      modifies `addrs, `readMode, `username, `password, `dialTimeoutInMs, `hystrix
      ensures View() == Normalised(old(View()))
    {
      SetDefaults();
    }

    method SetDefaults()
      modifies `addrs, `readMode, `username, `password, `dialTimeoutInMs, `hystrix
      ensures addrs == if old(addrs) == [] then [DEFAULT_ADDR] else old(addrs)
      ensures readMode == if old(readMode).Unset? then ReadFromSlaves else old(readMode)
      ensures username == if old(username) == UCM_EMPTY then "" else old(username)
      ensures password == if old(password) == UCM_EMPTY then "" else old(password)
      ensures dialTimeoutInMs == if old(dialTimeoutInMs) == 0 then DEFAULT_DIAL_TIMEOUT else old(dialTimeoutInMs)
      ensures hystrix == NormalHystrix(old(hystrix))
    {
      if |addrs| == 0 { addrs := [DEFAULT_ADDR]; }
      if readMode.Unset? { readMode := ReadFromSlaves; }
      if username == UCM_EMPTY { username := ""; }
      if password == UCM_EMPTY { password := ""; }
      if dialTimeoutInMs == 0 { dialTimeoutInMs := DEFAULT_DIAL_TIMEOUT; }
      InitHystrix();
    }

    method InitHystrix()
      modifies `hystrix
      ensures hystrix == NormalHystrix(old(hystrix))
    {
      if hystrix.timeoutInMs == 0 { hystrix := hystrix.(timeoutInMs := DEFAULT_CB_TIMEOUT); }
      if hystrix.maxConcurrentRequests == 0 {
        hystrix := hystrix.(maxConcurrentRequests := DEFAULT_CB_MAX_CONCURRENT);
      }
      if hystrix.errorPercentThreshold == 0 {
        hystrix := hystrix.(errorPercentThreshold := DEFAULT_CB_ERR_PERCENT);
      }
    }

    /** Reading the name sorts the addresses, except for a single host. */
    method Name() returns (n: string)
      modifies `addrs
      ensures n == NameOf(old(View())) == NameOf(View())
      ensures addrs == if clientMode.ModeSingleHost? then old(addrs) else Sort(old(addrs))
    {
      SortIsIdempotent(addrs);
      SortKeepsLength(addrs);
      if |addrs| == 0 { return DEFAULT_ADDR; }
      if clientMode.ModeSingleHost? { return addrs[0]; }
      addrs := Sort(addrs);
      return Join(addrs);
    }

    /** Whether a reload to `config` is allowed; on the way both address lists may get sorted. */
    method ValidateReload(config: ClientConfig) returns (ok: bool)
      requires config != this
      modifies `addrs, config`addrs
      ensures ok <==> CanReload(old(View()), old(config.View()))
      ensures View() == AfterValidate(old(View()), old(config.View()))
      ensures config.View() == old(config.View()).(addrs := config.addrs)
      ensures multiset(config.addrs) == multiset(old(config.addrs))
      ensures ok ==> addrs == config.addrs == Sort(old(addrs))
    {
      if !(|config.addrs| > 0 && ValidMode(config.clientMode) && ValidRead(config.readMode)) { return false; }
      if clientMode != config.clientMode { return false; }
      if db != config.db { return false; }
      var eq, mine, theirs := IsAddrsEquals(addrs, config.addrs);
      assert eq ==> |addrs| == |multiset(addrs)| == |config.addrs|;
      addrs := mine;
      config.addrs := theirs;
      return eq;
    }
  }

  /** The two address lists get as far as being compared, and so sorted. */
  predicate ComparesAddrs(s: Settings, z: Settings) {
    Validates(z) && s.clientMode == z.clientMode && s.db == z.db && |s.addrs| == |z.addrs|
  }

  function AfterValidate(s: Settings, z: Settings): Settings {
    if ComparesAddrs(s, z) then s.(addrs := Sort(s.addrs)) else s
  }

  predicate CanReload(s: Settings, z: Settings) {
    && Validates(z) && s.clientMode == z.clientMode && s.db == z.db
    && multiset(s.addrs) == multiset(z.addrs)
  }

  /** Initialising twice is initialising once, and an initialised configuration is refused only for
      a mode that does not exist. */
  lemma InitialisedSettings(s: Settings)
    ensures Normalised(Normalised(s)) == Normalised(s)
    ensures Validates(Normalised(s)) <==> ValidMode(s.clientMode) && !s.readMode.OtherRead?
  {
  }

  /** What a reload asks of the new settings, once they are initialised: a mode and a read mode that
      exist, the same mode and database, and the same addresses in any order. */
  lemma CanReloadMeans(s: Settings, z: Settings)
    ensures CanReload(s, Normalised(z)) <==>
            && z.clientMode in {ModeCluster, ModeMasterSlaveGroup, ModeSingleHost}
            && z.readMode in {ReadFromMaster, ReadFromSlaves, ReadRandomly, ReadByLatency, Unset}
            && s.clientMode == z.clientMode && s.db == z.db
            && multiset(s.addrs) == multiset(if z.addrs == [] then ["localhost:6379"] else z.addrs)
  {
  }

  /** The defaults, setting by setting; a setting that is set stays. */
  lemma Defaults(s: Settings)
    ensures var z := Normalised(s);
            && z.addrs == (if s.addrs == [] then ["localhost:6379"] else s.addrs)
            && z.readMode == (if s.readMode == Unset then ReadFromSlaves else s.readMode)
            && z.knobs.username == (if s.knobs.username == "<nil>" then "" else s.knobs.username)
            && z.knobs.password == (if s.knobs.password == "<nil>" then "" else s.knobs.password)
            && z.knobs.dialTimeoutInMs == (if s.knobs.dialTimeoutInMs == 0 then 5000 else s.knobs.dialTimeoutInMs)
            && z.hystrix.timeoutInMs == (if s.hystrix.timeoutInMs == 0 then 31000 else s.hystrix.timeoutInMs)
            && z.hystrix.maxConcurrentRequests ==
                 (if s.hystrix.maxConcurrentRequests == 0 then 5000 else s.hystrix.maxConcurrentRequests)
            && z.hystrix.errorPercentThreshold ==
                 (if s.hystrix.errorPercentThreshold == 0 then 50 else s.hystrix.errorPercentThreshold)
  {
  }

  /** Nothing else changes. */
  lemma DefaultsLeaveTheRest(s: Settings)
    ensures var z := Normalised(s);
            && z == s.(addrs := z.addrs, readMode := z.readMode, knobs := z.knobs, hystrix := z.hystrix)
            && z.knobs == s.knobs.(username := z.knobs.username, password := z.knobs.password,
                                   dialTimeoutInMs := z.knobs.dialTimeoutInMs)
            && z.hystrix == s.hystrix.(timeoutInMs := z.hystrix.timeoutInMs,
                                       maxConcurrentRequests := z.hystrix.maxConcurrentRequests,
                                       errorPercentThreshold := z.hystrix.errorPercentThreshold)
  {
  }

  predicate FitsNanoseconds(ms: int) {
    -0x8000_0000_0000_0000 <= ms * 1_000_000 < 0x8000_0000_0000_0000
  }

  /** Each read mode sets the one flag of its own, and reading from the master none. */
  lemma RoutingFlags(m: ReadMode)
    ensures RoutingOf(m).readOnly <==> m == ReadFromSlaves
    ensures RoutingOf(m).routeByLatency <==> m == ReadByLatency
    ensures RoutingOf(m).routeRandomly <==> m == ReadRandomly
  {
  }

  lemma DurationIsExact(ms: int)
    ensures Duration(ms) == ms * 1_000_000 <==> FitsNanoseconds(ms)
  {
    TotalExact(ms * 1_000_000);
  }
}

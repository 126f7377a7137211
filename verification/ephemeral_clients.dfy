/**
 Clients of ephemeral requests: the cache is keyed by the part of a request that `SessionConfig` holds,
 and `build_ephemeral_client` reads nothing else. So a cached client is the one the request asks for.
 */
module EphemeralClients {
  import opened Wrappers
  import opened LookupCaches

  datatype TrustStore = Combined | Mozilla | DefaultPaths

  /** The options of a request; times are in milliseconds. */
  datatype RequestOptions = RequestOptions(
    url: string,
    methodName: string,
    headers: seq<(string, string)>,
    sessionId: string,
    timeout: nat,
    browser: Option<string>,
    browserOs: Option<string>,
    emulationJson: Option<string>,
    proxy: Option<string>,
    proxyHeaders: seq<(string, string)>,
    insecure: bool,
    trustStore: TrustStore,
    connectTimeout: Option<nat>,
    readTimeout: Option<nat>,
    captureDiagnostics: bool)

  /** The key of the cache; times are in nanoseconds. */
  datatype SessionConfig = SessionConfig(
    browser: Option<string>,
    browserOs: Option<string>,
    emulationJson: Option<string>,
    proxy: Option<string>,
    proxyHeaders: seq<(string, string)>,
    insecure: bool,
    trustStore: TrustStore,
    connectTimeout: Option<nat>,
    readTimeout: Option<nat>,
    captureDiagnostics: bool)

  function FromMillis(ms: Option<nat>): Option<nat> {
    match ms case Some(n) => Some(1_000_000 * n) case None => None
  }

  function FromRequest(o: RequestOptions): SessionConfig {
    SessionConfig(o.browser, o.browserOs, o.emulationJson, o.proxy, o.proxyHeaders, o.insecure, o.trustStore,
                  FromMillis(o.connectTimeout), FromMillis(o.readTimeout), o.captureDiagnostics)
  }

  /** What the client library makes of a configuration; `E` stands for an emulation, `P` for a proxy. */
  datatype Library<!E, !P> = Library(
    emulation: (Option<string>, Option<string>, Option<string>) -> Option<E>,
    proxy: (string, seq<(string, string)>) -> Option<P>,
    hasStore: TrustStore -> bool,
    builds: Client<E, P> -> bool)

  datatype Client<E, P> = Client(
    emulation: E,
    idlePerHost: nat,
    proxy: Option<P>,
    verifiesWith: Option<TrustStore>,
    connectTimeout: Option<nat>,
    readTimeout: Option<nat>,
    tlsInfo: bool)

  function BuildEphemeralClient<E, P>(lib: Library<E, P>, config: SessionConfig): Option<Client<E, P>> {
    match lib.emulation(config.browser, config.browserOs, config.emulationJson)
    case None => None
    case Some(emulation) =>
      var client := Client(emulation, 0, None, None, None, None, false);
      match WithProxy(lib, config, client)
      case None => None
      case Some(client) =>
        if !config.insecure && !lib.hasStore(config.trustStore) then None
        else
          var client := if config.insecure then client else client.(verifiesWith := Some(config.trustStore));
          var client := client.(connectTimeout := config.connectTimeout, readTimeout := config.readTimeout);
          var client := if config.captureDiagnostics then client.(tlsInfo := true) else client;
          if lib.builds(client) then Some(client) else None
  }

  function WithProxy<E, P>(lib: Library<E, P>, config: SessionConfig, client: Client<E, P>): Option<Client<E, P>> {
    match config.proxy
    case None => Some(client)
    case Some(url) =>
      match lib.proxy(url, config.proxyHeaders)
      case None => None
      case Some(proxy) => Some(client.(proxy := Some(proxy)))
  }

  /** The same time-out, or none, a million nanoseconds for each millisecond. */
  predicate InNanos(millis: Option<nat>, nanos: Option<nat>) {
    if millis.Some? then nanos.Some? && nanos.value == millis.value * 1000000 else nanos.None?
  }

  /** The client has the settings that the request asks for, read off its options one by one. */
  predicate Meets<E(==), P(==)>(lib: Library<E, P>, o: RequestOptions, client: Client<E, P>) {
    && lib.emulation(o.browser, o.browserOs, o.emulationJson) == Some(client.emulation)
    && client.idlePerHost == 0
    && (o.proxy.None? ==> client.proxy.None?)
    && (o.proxy.Some? ==> client.proxy.Some? && lib.proxy(o.proxy.value, o.proxyHeaders) == client.proxy)
    && client.verifiesWith == (if o.insecure then None else Some(o.trustStore))
    && (!o.insecure ==> lib.hasStore(o.trustStore))
    && InNanos(o.connectTimeout, client.connectTimeout)
    && InNanos(o.readTimeout, client.readTimeout)
    && client.tlsInfo == o.captureDiagnostics
    && lib.builds(client)
  }

  /** The key holds all that the builder needs: building from it meets the request, if anything does. */
  lemma BuildMeetsRequest<E, P>(lib: Library<E, P>, o: RequestOptions, client: Client<E, P>)
    ensures BuildEphemeralClient(lib, FromRequest(o)) == Some(client) <==> Meets(lib, o, client)
  {
  }

  predicate Builds<E, P>(lib: Library<E, P>, config: SessionConfig) {
    BuildEphemeralClient(lib, config).Some?
  }

  /**
   The schedules of this cache: a call that missed inserts exactly what it built and fails exactly if it
   could not build; entries are evicted, but never replaced.
   */
  predicate Follows<E, P>(lib: Library<E, P>, s: State<SessionConfig>, schedule: seq<Action<SessionConfig>>)
    requires Exec(s, schedule).Some?
    decreases |schedule|
  {
    schedule == [] ||
    (&& !schedule[0].Replace?
     && (schedule[0].Insert? ==> Builds(lib, s.lookups[schedule[0].lookup].key))
     && (schedule[0].Fail? ==> !Builds(lib, s.lookups[schedule[0].lookup].key))
     && Follows(lib, Step(s, schedule[0]).value, schedule[1..]))
  }

  /** Cached and returned configurations build a client, failed ones do not. */
  predicate BuildsTrack<E, P>(lib: Library<E, P>, s: State<SessionConfig>) {
    && (forall key :: key in s.cache ==> Builds(lib, key))
    && (forall i :: 0 <= i < |s.lookups| && s.lookups[i].Returned? ==> Builds(lib, s.lookups[i].key))
    && (forall i :: 0 <= i < |s.lookups| && s.lookups[i].BuildFailed? ==> !Builds(lib, s.lookups[i].key))
  }

  lemma {:induction false} ExecTracksBuilds<E, P>(lib: Library<E, P>, s: State<SessionConfig>,
                                                  schedule: seq<Action<SessionConfig>>)
    requires BuildsTrack(lib, s) && Exec(s, schedule).Some? && Follows(lib, s, schedule)
    ensures BuildsTrack(lib, Exec(s, schedule).value)
    decreases |schedule|
  {
    if schedule != [] {
      StepTracksBuilds(lib, s, schedule[0]);
      ExecTracksBuilds(lib, Step(s, schedule[0]).value, schedule[1..]);
    }
  }

  lemma StepTracksBuilds<E, P>(lib: Library<E, P>, s: State<SessionConfig>, a: Action<SessionConfig>)
    requires BuildsTrack(lib, s) && Step(s, a).Some? && !a.Replace?
    requires a.Insert? ==> Builds(lib, s.lookups[a.lookup].key)
    requires a.Fail? ==> !Builds(lib, s.lookups[a.lookup].key)
    ensures BuildsTrack(lib, Step(s, a).value)
  {
  }

  /**
   Over every interleaving of requests, insertions, failures and evictions, the object that a request gets
   from the cache is a client, and it meets that request, whichever request it was built for.
   */
  lemma CachedClientMeetsRequest<E, P>(lib: Library<E, P>, schedule: seq<Action<SessionConfig>>, i: nat,
                                       o: RequestOptions)
    requires Exec(Init(), schedule).Some? && Follows(lib, Init(), schedule)
    requires ReturnedFor(Exec(Init(), schedule).value, i, FromRequest(o))
    ensures var s := Exec(Init(), schedule).value; var item := s.lookups[i].item;
      && item < |s.madeFor| && Builds(lib, s.madeFor[item])
      && Meets(lib, o, BuildEphemeralClient(lib, s.madeFor[item]).value)
  {
    ResultsBelongToTheirKey<SessionConfig>(schedule, i, i);
    ExecTracksBuilds(lib, Init(), schedule);
    BuildMeetsRequest(lib, o, BuildEphemeralClient(lib, FromRequest(o)).value);
  }

  /** A request fails on the cache only if no client meets it. */
  lemma FailedRequestHasNoClient<E, P>(lib: Library<E, P>, schedule: seq<Action<SessionConfig>>, i: nat,
                                       o: RequestOptions, client: Client<E, P>)
    requires Exec(Init(), schedule).Some? && Follows(lib, Init(), schedule)
    requires i < |Exec(Init(), schedule).value.lookups|
    requires Exec(Init(), schedule).value.lookups[i] == BuildFailed(FromRequest(o))
    ensures !Meets(lib, o, client)
  {
    ExecTracksBuilds(lib, Init(), schedule);
    BuildMeetsRequest(lib, o, client);
  }

  /** Requests whose clients must differ never share a key. */
  lemma DifferentClientsDifferentKeys<E, P>(lib: Library<E, P>, o: RequestOptions, p: RequestOptions,
                                            client: Client<E, P>)
    requires Meets(lib, o, client) && !Meets(lib, p, client)
    ensures FromRequest(o) != FromRequest(p)
  {
    BuildMeetsRequest(lib, o, client);
    BuildMeetsRequest(lib, p, client);
  }
}

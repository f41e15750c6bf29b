/** The configuration records of `config.proto` that the overlay layer works on. */
module ConfigModel {
  import opened Wrappers

  datatype Backend = Backend(
    address: string,
    weight: Option<nat>,
    name: Option<string>,
    probeQname: Option<string>,
    probeQtype: Option<string>,
    probeSource: Option<string>,
    transport: Option<string>,
    remove: Option<bool>)

  const DEFAULT_BACKEND := Backend("", None, None, None, None, None, None, None)

  // The health-check message is carried whole by merge and synthesis.
  datatype Pool = Pool(
    name: string,
    backends: seq<Backend>,
    sourcesV4: seq<string>,
    sourcesV6: seq<string>,
    maxInflight: Option<nat>,
    health: Option<string>,
    remove: Option<bool>)

  const DEFAULT_POOL := Pool("", [], [], [], None, None, None)

  datatype CollectEmit = CollectEmit(collect: Option<bool>, emit: Option<bool>)

  datatype Prometheus = Prometheus(listenAddress: string, path: string)

  datatype Otel = Otel(
    endpoint: string,
    pushIntervalMs: nat,
    resourceAttributes: map<string, string>,
    allowInvalidCerts: Option<bool>,
    headers: map<string, string>)

  datatype Categories = Categories(
    included: seq<string>,
    excluded: seq<string>,
    includeSet: bool,
    excludeSet: bool)

  datatype DimensionList = DimensionList(dimensions: seq<string>, rcode: string, dimensionsSet: bool)

  datatype Granularity = Granularity(default: string, overrides: map<string, DimensionList>)

  datatype UserMetric = UserMetric(
    name: string,
    export_: string,
    collect: Option<bool>,
    emit: Option<bool>,
    help: string)

  datatype Metrics = Metrics(
    enabled: Option<bool>,
    profile: string,
    base: string,
    prometheus: Option<Prometheus>,
    otel: Option<Otel>,
    eventExport: Option<CollectEmit>,
    categories: Option<Categories>,
    granularity: Option<Granularity>,
    collection: map<string, CollectEmit>,
    userMetrics: seq<UserMetric>)

  const DEFAULT_METRICS :=
    Metrics(None, "", "", None, None, None, None, None, map[], [])

  // Sections that an overlay replaces as a whole. A section message is carried
  // verbatim, so its contents are represented by one opaque text.
  datatype Section =
    | Listeners | Forward | Orchestrator | Events | Rhai | Control | Logging
    | Dataplane | Shutdown | DataSourceLimits | Lookup | Acls

  // A data source or a cache instance: its name and the rest of the message.
  datatype Named = Named(name: string, body: string)

  datatype Config = Config(
    schemaVersion: nat,
    sections: map<Section, string>,   // a key is present exactly when the section is set
    rules: Option<string>,            // file layer only
    tracing: Option<string>,          // file layer only
    dataSources: seq<Named>,
    caches: seq<Named>,
    metrics: Option<Metrics>,
    pools: seq<Pool>)

  function EmptyConfig(schemaVersion: nat): Config {
    Config(schemaVersion, map[], None, None, [], [], None, [])
  }

  datatype ConfigError =
    | PoolRemoveNeedsName
    | RemoveUnknownPool(pool: string)
    | UnknownBackendName(pool: string, name: string)
    | BackendNeedsIdentity(pool: string)
    | RemoveUnknownBackendName(pool: string, name: string)
    | RemoveUnknownBackendAddress(pool: string, address: string)
    | BackendRemoveNeedsIdentity(pool: string)
    | CannotClearDataSources
    | CannotClearCaches
}

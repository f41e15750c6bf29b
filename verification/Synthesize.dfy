/** Synthesis of an API overlay from a file baseline and a desired effective config. */
module Synthesize {
  import opened Wrappers
  import opened ConfigModel
  import opened Merge
  import MetricsSynthesis

  // ----- Backends -----

  // Position of the entry that stands for `needle`: by name first, then by address.
  function FindBackend(haystack: seq<Backend>, needle: Backend): (i: nat)
    ensures i <= |haystack|
  {
    if HasName(needle) && IndexOfName(haystack, needle.name.value) < |haystack|
    then IndexOfName(haystack, needle.name.value)
    else if needle.address != "" then IndexOfAddress(haystack, needle.address)
    else |haystack|
  }

  function RemoveMarkerFor(b: Backend): Backend {
    if HasName(b) then DEFAULT_BACKEND.(name := b.name, remove := Some(true))
    else DEFAULT_BACKEND.(address := b.address, remove := Some(true))
  }

  function BackendDelta(file: Backend, desired: Backend): Option<Backend> {
    var moved := desired.address != file.address && desired.address != "";
    var keyName :=
      if HasName(desired) then desired.name
      else if desired.address == "" && HasName(file) then file.name
      else None;
    var keyAddress :=
      if HasName(desired) then ""
      else if desired.address != "" then desired.address
      else if HasName(file) then ""
      else file.address;
    var delta := DEFAULT_BACKEND.(
      name := if desired.name != file.name then desired.name else keyName,
      address := if moved then desired.address else keyAddress,
      weight := if desired.weight != file.weight then desired.weight else None,
      probeQname := if desired.probeQname != file.probeQname then desired.probeQname else None,
      probeQtype := if desired.probeQtype != file.probeQtype then desired.probeQtype else None,
      probeSource := if desired.probeSource != file.probeSource then desired.probeSource else None,
      transport := if desired.transport != file.transport then desired.transport else None);
    if moved || desired.(address := file.address, remove := file.remove) != file then Some(delta) else None
  }

  // The entries that one file backend contributes to the overlay.
  function FileEntry(file: Backend, desired: seq<Backend>): seq<Backend> {
    var i := FindBackend(desired, file);
    if i == |desired| then [RemoveMarkerFor(file)]
    else if BackendDelta(file, desired[i]).Some? then [BackendDelta(file, desired[i]).value]
    else []
  }

  function FileEntries(file: seq<Backend>, desired: seq<Backend>): seq<Backend> {
    if file == [] then [] else FileEntry(file[0], desired) + FileEntries(file[1..], desired)
  }

  function Additions(file: seq<Backend>, desired: seq<Backend>): seq<Backend> {
    if desired == [] then []
    else if FindBackend(file, desired[0]) == |file| then
      [desired[0].(remove := None)] + Additions(file, desired[1..])
    else Additions(file, desired[1..])
  }

  function SynthesizeBackends(file: seq<Backend>, desired: seq<Backend>): seq<Backend> {
    FileEntries(file, desired) + Additions(file, desired)
  }

  // ----- Pools -----

  function FilePool(file: Pool, desired: seq<Pool>): seq<Pool> {
    var i := IndexOfPool(desired, file.name);
    if i == |desired| then [DEFAULT_POOL.(name := file.name, remove := Some(true))]
    else
      var backends := SynthesizeBackends(file.backends, desired[i].backends);
      if backends != [] then [DEFAULT_POOL.(name := file.name, backends := backends)] else []
  }

  function FilePools(file: seq<Pool>, desired: seq<Pool>): seq<Pool> {
    if file == [] then [] else FilePool(file[0], desired) + FilePools(file[1..], desired)
  }

  function NewPools(file: seq<Pool>, desired: seq<Pool>): seq<Pool> {
    if desired == [] then []
    else if IndexOfPool(file, desired[0].name) == |file| then
      [desired[0].(remove := None, backends := ClearMarkers(desired[0].backends))] + NewPools(file, desired[1..])
    else NewPools(file, desired[1..])
  }

  function SynthesizePools(file: seq<Pool>, desired: seq<Pool>): seq<Pool> {
    FilePools(file, desired) + NewPools(file, desired)
  }

  // ----- Whole configurations -----

  function ChangedSections(file: map<Section, string>, desired: map<Section, string>): map<Section, string> {
    map s | s in desired && !(s in file && file[s] == desired[s]) :: desired[s]
  }

  function SynthesizeList(file: seq<Named>, desired: seq<Named>, error: ConfigError): Result<seq<Named>, ConfigError> {
    if file == desired then Ok([])
    else if desired == [] && file != [] then Err(error)
    else Ok(desired)
  }

  function SynthesizeOverlay(file: Config, desired: Config): Result<Config, ConfigError> {
    var dataSources := SynthesizeList(file.dataSources, desired.dataSources, CannotClearDataSources);
    var caches := SynthesizeList(file.caches, desired.caches, CannotClearCaches);
    if dataSources.Err? then Err(dataSources.error)
    else if caches.Err? then Err(caches.error)
    else
      Ok(EmptyConfig(desired.schemaVersion).(
         sections := ChangedSections(file.sections, desired.sections),
         pools := SynthesizePools(file.pools, desired.pools),
         metrics := MetricsSynthesis.SynthesizeMetrics(file.metrics, desired.metrics),
         dataSources := dataSources.value,
         caches := caches.value))
  }

  // ----- The loops of the code -----

  lemma Regroup<T>(a: seq<T>, b: seq<T>, c: seq<T>)
    ensures (a + b) + c == a + (b + c)
  {
  }

  // The fields beside the identity.
  method SettingsDeltaOf(file: Backend, desired: Backend, key: Backend, moved: bool)
    returns (delta: Backend, changed: bool)
    ensures delta == key.(
              weight := if desired.weight != file.weight then desired.weight else key.weight,
              probeQname := if desired.probeQname != file.probeQname then desired.probeQname else key.probeQname,
              probeQtype := if desired.probeQtype != file.probeQtype then desired.probeQtype else key.probeQtype,
              probeSource := if desired.probeSource != file.probeSource then desired.probeSource else key.probeSource,
              transport := if desired.transport != file.transport then desired.transport else key.transport)
    ensures changed <==> moved || desired.(address := file.address, name := file.name, remove := file.remove) != file
  {
    delta, changed := key, moved;
    if desired.weight != file.weight {
      delta, changed := delta.(weight := desired.weight), true;
    }
    if desired.probeQname != file.probeQname {
      delta, changed := delta.(probeQname := desired.probeQname), true;
    }
    if desired.probeQtype != file.probeQtype {
      delta, changed := delta.(probeQtype := desired.probeQtype), true;
    }
    if desired.probeSource != file.probeSource {
      delta, changed := delta.(probeSource := desired.probeSource), true;
    }
    if desired.transport != file.transport {
      delta, changed := delta.(transport := desired.transport), true;
    }
  }

  method BackendDeltaOf(file: Backend, desired: Backend) returns (r: Option<Backend>)
    ensures r == BackendDelta(file, desired)
  {
    var delta, changed := DEFAULT_BACKEND, false;
    if HasName(desired) {
      delta := delta.(name := desired.name);
    } else if desired.address != "" {
      delta := delta.(address := desired.address);
    } else if HasName(file) {
      delta := delta.(name := file.name);
    } else {
      delta := delta.(address := file.address);
    }
    if desired.address != file.address && desired.address != "" {
      delta, changed := delta.(address := desired.address), true;
    }
    if desired.name != file.name {
      delta, changed := delta.(name := desired.name), true;
    }
    delta, changed := SettingsDeltaOf(file, desired, delta, changed);
    return if changed then Some(delta) else None;
  }

  method FileEntryOf(file: Backend, desired: seq<Backend>) returns (entry: seq<Backend>)
    ensures entry == FileEntry(file, desired)
  {
    var i := FindBackend(desired, file);
    if i == |desired| { return [RemoveMarkerFor(file)]; }
    var delta := BackendDeltaOf(file, desired[i]);
    return if delta.Some? then [delta.value] else [];
  }

  method SynthesizeBackendsOf(file: seq<Backend>, desired: seq<Backend>) returns (out: seq<Backend>)
    ensures out == SynthesizeBackends(file, desired)
  {
    out := [];
    for n := 0 to |file|
      invariant FileEntries(file, desired) == out + FileEntries(file[n..], desired)
    {
      assert file[n..][0] == file[n] && file[n..][1..] == file[n + 1..];
      var entry := FileEntryOf(file[n], desired);
      Regroup(out, entry, FileEntries(file[n + 1..], desired));
      out := out + entry;
    }
    for n := 0 to |desired|
      invariant SynthesizeBackends(file, desired) == out + Additions(file, desired[n..])
    {
      assert desired[n..][0] == desired[n] && desired[n..][1..] == desired[n + 1..];
      if FindBackend(file, desired[n]) == |file| {
        var added := desired[n].(remove := None);
        Regroup(out, [added], Additions(file, desired[n + 1..]));
        out := out + [added];
      }
    }
  }

  method FilePoolOf(file: Pool, desired: seq<Pool>) returns (entry: seq<Pool>)
    ensures entry == FilePool(file, desired)
  {
    var i := IndexOfPool(desired, file.name);
    if i == |desired| { return [DEFAULT_POOL.(name := file.name, remove := Some(true))]; }
    var backends := SynthesizeBackendsOf(file.backends, desired[i].backends);
    return if backends != [] then [DEFAULT_POOL.(name := file.name, backends := backends)] else [];
  }

  method SynthesizePoolsOf(file: seq<Pool>, desired: seq<Pool>) returns (out: seq<Pool>)
    ensures out == SynthesizePools(file, desired)
  {
    out := [];
    for n := 0 to |file|
      invariant FilePools(file, desired) == out + FilePools(file[n..], desired)
    {
      assert file[n..][0] == file[n] && file[n..][1..] == file[n + 1..];
      var entry := FilePoolOf(file[n], desired);
      Regroup(out, entry, FilePools(file[n + 1..], desired));
      out := out + entry;
    }
    for n := 0 to |desired|
      invariant SynthesizePools(file, desired) == out + NewPools(file, desired[n..])
    {
      assert desired[n..][0] == desired[n] && desired[n..][1..] == desired[n + 1..];
      if IndexOfPool(file, desired[n].name) == |file| {
        var added := desired[n].(remove := None, backends := ClearMarkers(desired[n].backends));
        Regroup(out, [added], NewPools(file, desired[n + 1..]));
        out := out + [added];
      }
    }
  }

  method SynthesizeOverlayOf(file: Config, desired: Config) returns (r: Result<Config, ConfigError>)
    ensures r == SynthesizeOverlay(file, desired)
  {
    var overlay := EmptyConfig(desired.schemaVersion);
    overlay := overlay.(sections := ChangedSections(file.sections, desired.sections));
    var pools := SynthesizePoolsOf(file.pools, desired.pools);
    overlay := overlay.(pools := pools);
    if file.metrics.Some? && desired.metrics.Some? && file.metrics != desired.metrics {
      var delta := MetricsSynthesis.MetricsDelta(file.metrics.value, desired.metrics.value);
      overlay := overlay.(metrics := Some(delta));
    } else if file.metrics.None? {
      overlay := overlay.(metrics := desired.metrics);
    }
    var dataSources := SynthesizeList(file.dataSources, desired.dataSources, CannotClearDataSources);
    if dataSources.Err? { return Err(dataSources.error); }
    var caches := SynthesizeList(file.caches, desired.caches, CannotClearCaches);
    if caches.Err? { return Err(caches.error); }
    return Ok(overlay.(dataSources := dataSources.value, caches := caches.value));
  }
}

/**
 File baseline + API overlay merge.

 Functions named after the code's helpers give one overlay entry's effect;
 `MergeBackends` and `MergePools` fold them, and the methods below run the
 loops of the code and are proved to compute those folds.
 */
module Merge {
  import opened Wrappers
  import opened ConfigModel
  import MetricsMerge
  import opened MetricsSynthesis

  datatype Mode =
    | ApplyToBaseline     // consume remove markers; unknown targets fail
    | AccumulateOverlay   // keep remove markers for a later baseline apply

  type Backends = Result<seq<Backend>, ConfigError>
  type Pools = Result<seq<Pool>, ConfigError>

  // ----- Identity and lookup -----

  predicate HasName(b: Backend) {
    b.name.Some? && b.name.value != ""
  }

  predicate IsRemoval(b: Backend) {
    b.remove.UnwrapOr(false)
  }

  function IndexOfName(l: seq<Backend>, name: string): (i: nat)
    ensures i <= |l|
    ensures i < |l| ==> l[i].name == Some(name)
    ensures forall k :: 0 <= k < i ==> l[k].name != Some(name)
  {
    if l == [] || l[0].name == Some(name) then 0 else 1 + IndexOfName(l[1..], name)
  }

  function IndexOfAddress(l: seq<Backend>, address: string): (i: nat)
    ensures i <= |l|
    ensures i < |l| ==> l[i].address == address
    ensures forall k :: 0 <= k < i ==> l[k].address != address
  {
    if l == [] || l[0].address == address then 0 else 1 + IndexOfAddress(l[1..], address)
  }

  function IndexOfPool(l: seq<Pool>, name: string): (i: nat)
    ensures i <= |l|
    ensures i < |l| ==> l[i].name == name
    ensures forall k :: 0 <= k < i ==> l[k].name != name
  {
    if l == [] || l[0].name == name then 0 else 1 + IndexOfPool(l[1..], name)
  }

  function WithoutName(l: seq<Backend>, name: string): (r: seq<Backend>)
    ensures |r| <= |l|
    ensures IndexOfName(l, name) == |l| ==> r == l
  {
    if l == [] then []
    else if l[0].name != Some(name) then [l[0]] + WithoutName(l[1..], name)
    else WithoutName(l[1..], name)
  }

  function WithoutAddress(l: seq<Backend>, address: string): (r: seq<Backend>)
    ensures |r| <= |l|
    ensures IndexOfAddress(l, address) == |l| ==> r == l
  {
    if l == [] then []
    else if l[0].address != address then [l[0]] + WithoutAddress(l[1..], address)
    else WithoutAddress(l[1..], address)
  }

  function WithoutPool(l: seq<Pool>, name: string): (r: seq<Pool>)
    ensures |r| <= |l|
    ensures IndexOfPool(l, name) == |l| ==> r == l
  {
    if l == [] then []
    else if l[0].name != name then [l[0]] + WithoutPool(l[1..], name)
    else WithoutPool(l[1..], name)
  }

  // ----- Backends -----

  function UpdateBackend(base: Backend, overlay: Backend): Backend {
    base.(
      address := if overlay.address != "" then overlay.address else base.address,
      name := if overlay.name.Some? then overlay.name else base.name,
      weight := if overlay.weight.Some? then overlay.weight else base.weight,
      remove := None)
  }

  function RemoveBackend(pool: string, base: seq<Backend>, o: Backend): Backends {
    if HasName(o) then
      var kept := WithoutName(base, o.name.value);
      if |kept| == |base| then Err(RemoveUnknownBackendName(pool, o.name.value)) else Ok(kept)
    else if o.address != "" then
      var kept := WithoutAddress(base, o.address);
      if |kept| == |base| then Err(RemoveUnknownBackendAddress(pool, o.address)) else Ok(kept)
    else Err(BackendRemoveNeedsIdentity(pool))
  }

  function AccumulateRemove(pool: string, base: seq<Backend>, o: Backend): Backends {
    if HasName(o) then
      Ok(WithoutName(base, o.name.value) + [DEFAULT_BACKEND.(name := o.name, remove := Some(true))])
    else if o.address != "" then
      Ok(WithoutAddress(base, o.address) + [DEFAULT_BACKEND.(address := o.address, remove := Some(true))])
    else Err(BackendRemoveNeedsIdentity(pool))
  }

  function MergeBackend(pool: string, base: seq<Backend>, o: Backend, mode: Mode): Backends {
    if IsRemoval(o) then
      if mode.ApplyToBaseline? then RemoveBackend(pool, base, o) else AccumulateRemove(pool, base, o)
    else if HasName(o) then
      var i := IndexOfName(base, o.name.value);
      if i < |base| then Ok(base[i := UpdateBackend(base[i], o)])
      else if o.address != "" then Ok(base + [o.(remove := None)])
      else Err(UnknownBackendName(pool, o.name.value))
    else if o.address != "" then
      var i := IndexOfAddress(base, o.address);
      if i < |base| then Ok(base[i := UpdateBackend(base[i], o)])
      else Ok(base + [o.(remove := None)])
    else Err(BackendNeedsIdentity(pool))
  }

  function MergeBackends(pool: string, base: seq<Backend>, overlay: seq<Backend>, mode: Mode): Backends
    decreases |overlay|
  {
    if overlay == [] then Ok(base)
    else
      match MergeBackend(pool, base, overlay[0], mode)
      case Ok(next) => MergeBackends(pool, next, overlay[1..], mode)
      case Err(e) => Err(e)
  }

  // ----- Pools -----

  function ClearMarkers(l: seq<Backend>): (r: seq<Backend>)
    ensures |r| == |l| && forall i :: 0 <= i < |l| ==> r[i] == l[i].(remove := None)
  {
    seq(|l|, i requires 0 <= i < |l| => l[i].(remove := None))
  }

  function MergePool(base: seq<Pool>, o: Pool, mode: Mode): Pools {
    if o.remove.UnwrapOr(false) then
      if o.name == "" then Err(PoolRemoveNeedsName)
      else
        var kept := WithoutPool(base, o.name);
        if mode.AccumulateOverlay? then Ok(kept + [DEFAULT_POOL.(name := o.name, remove := Some(true))])
        else if |kept| == |base| then Err(RemoveUnknownPool(o.name))
        else Ok(kept)
    else
      var i := IndexOfPool(base, o.name);
      if i < |base| then
        match MergeBackends(base[i].name, base[i].backends, o.backends, mode)
        case Ok(bs) => Ok(base[i := base[i].(backends := bs, remove := None)])
        case Err(e) => Err(e)
      else if mode.ApplyToBaseline? then
        Ok(base + [o.(remove := None, backends := ClearMarkers(o.backends))])
      else
        Ok(base + [o.(remove := None)])
  }

  function MergePools(base: seq<Pool>, overlay: seq<Pool>, mode: Mode): Pools
    decreases |overlay|
  {
    if overlay == [] then Ok(base)
    else
      match MergePool(base, overlay[0], mode)
      case Ok(next) => MergePools(next, overlay[1..], mode)
      case Err(e) => Err(e)
  }

  // ----- Whole configurations -----

  function MergeConfigs(base: Config, overlay: Config, mode: Mode): Result<Config, ConfigError> {
    match MergePools(base.pools, overlay.pools, mode)
    case Err(e) => Err(e)
    case Ok(pools) =>
      Ok(base.(
         schemaVersion := overlay.schemaVersion,
         sections := base.sections + overlay.sections,
         dataSources := if overlay.dataSources != [] then overlay.dataSources else base.dataSources,
         caches := if overlay.caches != [] then overlay.caches else base.caches,
         metrics := MergeMetricsSection(base.metrics, overlay.metrics),
         pools := pools))
  }

  predicate PatchIsEmpty(c: Config) {
    c.sections == map[] && c.pools == [] && c.dataSources == [] && c.caches == [] && c.metrics.None?
  }

  // ----- The loops of the code -----

  method MergeBackendsInto(pool: string, base: seq<Backend>, overlay: seq<Backend>, mode: Mode)
    returns (r: Backends)
    ensures r == MergeBackends(pool, base, overlay, mode)
  {
    var merged := base;
    for n := 0 to |overlay|
      invariant MergeBackends(pool, base, overlay, mode) == MergeBackends(pool, merged, overlay[n..], mode)
    {
      var o := overlay[n];
      assert overlay[n..][0] == o && overlay[n..][1..] == overlay[n + 1..];
      if IsRemoval(o) {
        var removed := if mode.ApplyToBaseline? then RemoveBackend(pool, merged, o)
                       else AccumulateRemove(pool, merged, o);
        if removed.Err? { return removed; }
        merged := removed.value;
        continue;
      }
      if HasName(o) {
        var i := IndexOfName(merged, o.name.value);
        if i < |merged| {
          merged := merged[i := UpdateBackend(merged[i], o)];
        } else if o.address != "" {
          merged := merged + [o.(remove := None)];
        } else {
          return Err(UnknownBackendName(pool, o.name.value));
        }
      } else if o.address != "" {
        var i := IndexOfAddress(merged, o.address);
        if i < |merged| {
          merged := merged[i := UpdateBackend(merged[i], o)];
        } else {
          merged := merged + [o.(remove := None)];
        }
      } else {
        return Err(BackendNeedsIdentity(pool));
      }
    }
    return Ok(merged);
  }

  method MergePoolsInto(base: seq<Pool>, overlay: seq<Pool>, mode: Mode) returns (r: Pools)
    ensures r == MergePools(base, overlay, mode)
  {
    var merged := base;
    for n := 0 to |overlay|
      invariant MergePools(base, overlay, mode) == MergePools(merged, overlay[n..], mode)
    {
      var o := overlay[n];
      assert overlay[n..][0] == o && overlay[n..][1..] == overlay[n + 1..];
      if o.remove.UnwrapOr(false) {
        if o.name == "" { return Err(PoolRemoveNeedsName); }
        var before := |merged|;
        var kept := WithoutPool(merged, o.name);
        if mode.AccumulateOverlay? {
          kept := kept + [DEFAULT_POOL.(name := o.name, remove := Some(true))];
        } else if |kept| == before {
          return Err(RemoveUnknownPool(o.name));
        }
        merged := kept;
        continue;
      }
      var i := IndexOfPool(merged, o.name);
      if i < |merged| {
        var bs := MergeBackendsInto(merged[i].name, merged[i].backends, o.backends, mode);
        if bs.Err? { return Err(bs.error); }
        merged := merged[i := merged[i].(backends := bs.value, remove := None)];
      } else {
        var added := o.(remove := None);
        if mode.ApplyToBaseline? {
          added := added.(backends := ClearMarkers(added.backends));
        }
        merged := merged + [added];
      }
    }
    return Ok(merged);
  }

  method MergeConfigsInto(base: Config, overlay: Config, mode: Mode) returns (r: Result<Config, ConfigError>)
    ensures r == MergeConfigs(base, overlay, mode)
  {
    var merged := base.(schemaVersion := overlay.schemaVersion, sections := base.sections + overlay.sections);
    if overlay.dataSources != [] { merged := merged.(dataSources := overlay.dataSources); }
    if overlay.caches != [] { merged := merged.(caches := overlay.caches); }
    if overlay.metrics.Some? {
      var m := MetricsMerge.MergeMetrics(merged.metrics, overlay.metrics.value);
      merged := merged.(metrics := Some(m));
    }
    if overlay.pools != [] {
      var pools := MergePoolsInto(merged.pools, overlay.pools, mode);
      if pools.Err? { return Err(pools.error); }
      merged := merged.(pools := pools.value);
    }
    return Ok(merged);
  }

  // ----- Merging in two parts -----

  lemma {:induction false} MergeBackendsSplit(pool: string, base: seq<Backend>, x: seq<Backend>, y: seq<Backend>,
                                              mode: Mode)
    ensures MergeBackends(pool, base, x + y, mode) ==
            var r := MergeBackends(pool, base, x, mode);
            if r.Ok? then MergeBackends(pool, r.value, y, mode) else r
    decreases |x|
  {
    if x == [] {
      assert x + y == y;
    } else {
      assert (x + y)[0] == x[0] && (x + y)[1..] == x[1..] + y;
      var next := MergeBackend(pool, base, x[0], mode);
      if next.Ok? { MergeBackendsSplit(pool, next.value, x[1..], y, mode); }
    }
  }

  lemma MergeBackendsChain(pool: string, base: seq<Backend>, x: seq<Backend>, next: seq<Backend>, y: seq<Backend>,
                           r: Backends, mode: Mode)
    requires MergeBackends(pool, base, x, mode) == Ok(next)
    requires MergeBackends(pool, next, y, mode) == r
    ensures MergeBackends(pool, base, x + y, mode) == r
  {
    MergeBackendsSplit(pool, base, x, y, mode);
  }

  lemma {:induction false} MergePoolsSplit(base: seq<Pool>, x: seq<Pool>, y: seq<Pool>, mode: Mode)
    ensures MergePools(base, x + y, mode) ==
            var r := MergePools(base, x, mode);
            if r.Ok? then MergePools(r.value, y, mode) else r
    decreases |x|
  {
    if x == [] {
      assert x + y == y;
    } else {
      assert (x + y)[0] == x[0] && (x + y)[1..] == x[1..] + y;
      var next := MergePool(base, x[0], mode);
      if next.Ok? { MergePoolsSplit(next.value, x[1..], y, mode); }
    }
  }

  // ----- Dropping one entry -----

  ghost predicate NoName(l: seq<Backend>, name: string) {
    forall i :: 0 <= i < |l| ==> l[i].name != Some(name)
  }

  ghost predicate NoAddress(l: seq<Backend>, address: string) {
    forall i :: 0 <= i < |l| ==> l[i].address != address
  }

  lemma {:induction false} DropByName(p: seq<Backend>, x: Backend, t: seq<Backend>, name: string)
    requires x.name == Some(name) && NoName(p, name) && NoName(t, name)
    ensures WithoutName(p + [x] + t, name) == p + t
  {
    var l := p + [x] + t;
    if p == [] {
      assert l[0] == x && l[1..] == t && IndexOfName(t, name) == |t|;
    } else {
      assert l[0] == p[0] && l[1..] == p[1..] + [x] + t;
      DropByName(p[1..], x, t, name);
      assert [p[0]] + (p[1..] + t) == p + t;
    }
  }

  lemma {:induction false} DropByAddress(p: seq<Backend>, x: Backend, t: seq<Backend>)
    requires NoAddress(p, x.address) && NoAddress(t, x.address)
    ensures WithoutAddress(p + [x] + t, x.address) == p + t
  {
    var l := p + [x] + t;
    if p == [] {
      assert l[0] == x && l[1..] == t && IndexOfAddress(t, x.address) == |t|;
    } else {
      assert l[0] == p[0] && l[1..] == p[1..] + [x] + t;
      DropByAddress(p[1..], x, t);
      assert [p[0]] + (p[1..] + t) == p + t;
    }
  }

  lemma MergeOne(pool: string, base: seq<Backend>, o: Backend, mode: Mode)
    ensures MergeBackends(pool, base, [o], mode) == MergeBackend(pool, base, o, mode)
  {
  }

  ghost predicate NoPool(l: seq<Pool>, name: string) {
    forall i :: 0 <= i < |l| ==> l[i].name != name
  }

  lemma {:induction false} DropPool(p: seq<Pool>, x: Pool, t: seq<Pool>)
    requires NoPool(p, x.name) && NoPool(t, x.name)
    ensures WithoutPool(p + [x] + t, x.name) == p + t
  {
    var l := p + [x] + t;
    if p == [] {
      assert l[0] == x && l[1..] == t && IndexOfPool(t, x.name) == |t|;
    } else {
      assert l[0] == p[0] && l[1..] == p[1..] + [x] + t;
      DropPool(p[1..], x, t);
      assert [p[0]] + (p[1..] + t) == p + t;
    }
  }
}

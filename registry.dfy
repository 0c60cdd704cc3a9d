/**
 * The Dropwizard `MetricRegistry` the monitor writes to, seen as a map from
 * metric name to the native metric object registered under it. Only the
 * operations the monitor calls are modelled; statistics, listeners and
 * locking are not.
 */
module Registry {
  import opened Wrappers

  /** The get-or-create builders: `counter`, `histogram`, `meter`, `timer`. */
  datatype Builder = Counters | Histograms | Meters | Timers

  /** What a gauge samples each time the registry reads it. */
  type Supplier = () -> int

  /** What a native metric is: one the registry builds, or a caller's gauge. */
  datatype Kind = Built(builder: Builder) | Gauge(supplier: Supplier)

  /** A native metric object; two of them are the same metric iff they are the same object. */
  class NativeMetric {
    const kind: Kind

    constructor (kind: Kind)
      ensures this.kind == kind
    {
      this.kind := kind;
    }

    /** The builder's `isInstance` test. */
    predicate IsA(b: Builder) {
      kind.Built? && kind.builder == b
    }
  }

  /** The registry's `IllegalArgumentException`s. */
  datatype RegistryError =
    | KindConflict(name: string)   // the name holds a metric of another type
    | AlreadyExists(name: string)  // `register` under a name already taken

  /**
   * Get-or-create of `name` with builder `b` took the registry from `before`
   * to `after` and answered `r`: an existing metric of the right type is
   * returned as it is, one of another type is refused, and an absent name
   * gets a new metric of that type. Only an absent name changes the map.
   */
  ghost predicate GotOrCreated(before: map<string, NativeMetric>, after: map<string, NativeMetric>,
                               name: string, b: Builder, r: Result<NativeMetric, RegistryError>)
  {
    if name in before then
      after == before &&
      r == if before[name].IsA(b) then Ok(before[name]) else Err(KindConflict(name))
    else
      r.Ok? && r.value.IsA(b) && after == before[name := r.value]
  }

  /**
   * `register(name, metric)` took the registry from `before` to `after` and
   * answered `r`: an absent name now holds `metric`; a taken name is refused.
   */
  ghost predicate Registered(before: map<string, NativeMetric>, after: map<string, NativeMetric>,
                             name: string, metric: NativeMetric, r: Result<NativeMetric, RegistryError>)
  {
    match r
    case Ok(m) => m == metric && name !in before && after == before[name := metric]
    case Err(e) => Refused(before, after, name, e)
  }

  /** `register` under `name` was refused with `e` because the name is taken; nothing changed. */
  ghost predicate Refused(before: map<string, NativeMetric>, after: map<string, NativeMetric>,
                          name: string, e: RegistryError)
  {
    name in before && after == before && e == AlreadyExists(name)
  }

  class MetricRegistry {
    /** The registered metrics by name. */
    var metrics: map<string, NativeMetric>

    /** A new registry holds no metric. */
    constructor ()
      ensures metrics == map[]
    {
      metrics := map[];
    }

    /** `counter(name)`, `histogram(name)`, `meter(name)` and `timer(name)`: get-or-create with builder `b`. */
    method GetOrAdd(name: string, b: Builder) returns (r: Result<NativeMetric, RegistryError>)
      modifies this
      ensures GotOrCreated(old(metrics), metrics, name, b, r)
      ensures name !in old(metrics) ==> r.Ok? && fresh(r.value)
    {
      if name in metrics {
        var existing := metrics[name];
        r := if existing.IsA(b) then Ok(existing) else Err(KindConflict(name));
      } else {
        var created := new NativeMetric(Built(b));
        metrics := metrics[name := created];
        r := Ok(created);
      }
    }

    /** `register(name, metric)`. */
    method Register(name: string, metric: NativeMetric) returns (r: Result<NativeMetric, RegistryError>)
      modifies this
      ensures Registered(old(metrics), metrics, name, metric, r)
    {
      if name in metrics {
        r := Err(AlreadyExists(name));
      } else {
        metrics := metrics[name := metric];
        r := Ok(metric);
      }
    }

    /** `remove(name)`: drops that one name, if present, and says whether it was. */
    method Remove(name: string) returns (removed: bool)
      modifies this
      ensures metrics == old(metrics) - {name}
      ensures removed == (name in old(metrics))
    {
      removed := name in metrics;
      metrics := metrics - {name};
    }

    /** `removeMatching(MetricFilter.ALL)`: drops every metric. */
    method RemoveAll()
      modifies this
      ensures metrics == map[]
    {
      metrics := map[];
    }
  }
}

/**
 * `MetricsMonitor`: an immutable scope holding an ordered path of name
 * segments and a shared registry. Deriving a child appends segments; every
 * metric it creates is registered under the path plus a leaf name, joined
 * into one flat identifier.
 */
module Monitors {
  import opened Wrappers
  import opened Joining
  import opened Registry

  /** `NAME_SEPARATOR`. */
  const NameSeparator: string := "/"

  /**
   * The naming strategy: how a timer pair's two names derive from a base
   * name. Nothing is known of the two functions; they need not differ.
   */
  datatype Naming = Naming(successTimerName: string -> string, failureTimerName: string -> string)

  /** A metric handle: the flat identifier and the native metric it wraps. */
  datatype Handle = Handle(name: string, metric: NativeMetric)

  /** Two timers, for successful and for failed runs of one operation. */
  datatype TimerPair = TimerPair(success: Handle, failure: Handle)

  /**
   * Get-or-create under identifier `id` with builder `b` took the registry
   * from `before` to `after`, and `r` is what the monitor handed back: the
   * registry's answer, wrapped in a handle named `id`.
   */
  ghost predicate HandedOut(before: map<string, NativeMetric>, after: map<string, NativeMetric>,
                            id: string, b: Builder, r: Result<Handle, RegistryError>)
  {
    match r
    case Ok(h) => h.name == id && GotOrCreated(before, after, id, b, Ok(h.metric))
    case Err(e) => GotOrCreated(before, after, id, b, Err(e))
  }

  /**
   * A gauge of `supplier` was registered under `id`, taking the registry from
   * `before` to `after`: when `replaceExisting`, whatever `id` held is removed
   * first; then the registry's own `register` decides, and its answer is
   * passed on as it is.
   */
  ghost predicate GaugeRegistered(before: map<string, NativeMetric>, after: map<string, NativeMetric>,
                                  id: string, replaceExisting: bool, supplier: Supplier,
                                  r: Result<Handle, RegistryError>)
  {
    var cleared := if replaceExisting then before - {id} else before;
    match r
    case Ok(h) => h.name == id && h.metric.kind == Gauge(supplier) && Registered(cleared, after, id, h.metric, Ok(h.metric))
    case Err(e) => Refused(cleared, after, id, e)
  }

  /**
   * A monitor. `sep` is what the overridable `separator()` hook answers;
   * every monitor this class builds, derived ones included, answers
   * `NameSeparator`.
   */
  datatype Monitor = Monitor(registry: MetricRegistry, names: seq<string>, naming: Naming, sep: string)
  {
    /** A root monitor over an existing registry and naming strategy. */
    static function Root(registry: MetricRegistry, naming: Naming): (m: Monitor)
      ensures m.names == [] && m.registry == registry && m.naming == naming
      ensures m.sep == NameSeparator
    {
      Monitor(registry, [], naming, NameSeparator)
    }

    /**
     * A root monitor over a new, empty registry. The default naming strategy
     * is the caller's `defaultNaming`.
     */
    static method CreateDefault(defaultNaming: Naming) returns (m: Monitor)
      ensures fresh(m.registry) && m.registry.metrics == map[]
      ensures m.names == [] && m.naming == defaultNaming && m.sep == NameSeparator
    {
      var registry := new MetricRegistry();
      m := Root(registry, defaultNaming);
    }

    /**
     * The copying constructor: a new monitor over the same registry and
     * naming whose path is this path followed by `extra`, in order.
     */
    function Derived(extra: seq<string>): (m: Monitor)
      ensures m.names == names + extra
      ensures m.registry == registry && m.naming == naming && m.sep == NameSeparator
    {
      Monitor(registry, names + extra, naming, NameSeparator)
    }

    /** `named(name)`: a child with one more segment. */
    function Named(name: string): (m: Monitor)
      ensures m.names == names + [name]
      ensures m.registry == registry && m.naming == naming && m.sep == NameSeparator
    {
      Derived([name])
    }

    /** `named(name1, name2, restOfNames...)`. */
    function NamedMany(name1: string, name2: string, restOfNames: seq<string>): (m: Monitor)
      ensures m.names == names + [name1, name2] + restOfNames
      ensures m.registry == registry && m.naming == naming && m.sep == NameSeparator
    {
      Named(name1).Named(name2).Derived(restOfNames)
    }

    /** `separator()`: the answer of the overridable hook. */
    function Separator(): (r: string)
      ensures r == sep
    {
      sep
    }

    /**
     * The path and an optional leaf joined by `separator`: with no leaf, the
     * path alone; a leaf on the root is the leaf alone; otherwise the leaf
     * follows the joined path behind one separator.
     */
    function ConstructMetricNameWith(finalName: Option<string>, separator: string): (r: string)
      ensures finalName.None? ==> r == Join(names, separator)
      ensures finalName.Some? && names == [] ==> r == finalName.value
      ensures finalName.Some? && names != [] ==> r == Join(names, separator) + separator + finalName.value
    {
      var copy := names + if finalName.Some? then [finalName.value] else [];
      assert finalName.None? ==> copy == names;
      assert finalName.Some? && names != [] ==> Join(copy, separator) == Join(names, separator) + separator + finalName.value by {
        if finalName.Some? && names != [] { JoinSnoc(names, finalName.value, separator); }
      }
      Join(copy, separator)
    }

    /** `constructMetricName(finalName)`: a null leaf is left out; the separator is `separator()`. */
    function ConstructMetricName(finalName: Option<string>): (r: string)
      ensures finalName.None? ==> r == Join(names, sep)
      ensures finalName.Some? ==> r == Join(names + [finalName.value], sep)
    {
      ConstructMetricNameWith(finalName, Separator())
    }

    /**
     * `getName()`: the path joined by a literal "/", whatever `separator()`
     * answers; the root's name is empty.
     */
    function GetName(): (r: string)
      ensures r == Join(names, NameSeparator)
      ensures names == [] ==> r == ""
    {
      ConstructMetricNameWith(None, "/")
    }

    /** The identifier `withMetricName` hands to the metric creator. */
    function WithMetricName(name: string): (r: string)
      ensures r == Join(names + [name], sep)
      ensures names == [] ==> r == name
    {
      ConstructMetricName(Some(name))
    }

    /** Get-or-create under this monitor's identifier for `name`, wrapped in a handle. */
    method GetOrCreate(name: string, b: Builder) returns (r: Result<Handle, RegistryError>)
      modifies registry
      ensures HandedOut(old(registry.metrics), registry.metrics, WithMetricName(name), b, r)
      ensures WithMetricName(name) !in old(registry.metrics) ==> r.Ok? && fresh(r.value.metric)
    {
      var n := WithMetricName(name);
      var native := registry.GetOrAdd(n, b);
      r := match native
        case Ok(metric) => Ok(Handle(n, metric))
        case Err(e) => Err(e);
    }

    /** `newMeter(name)`. */
    method NewMeter(name: string) returns (r: Result<Handle, RegistryError>)
      modifies registry
      ensures HandedOut(old(registry.metrics), registry.metrics, WithMetricName(name), Meters, r)
      ensures WithMetricName(name) !in old(registry.metrics) ==> r.Ok? && fresh(r.value.metric)
    {
      r := GetOrCreate(name, Meters);
    }

    /** `newCounter(name)`. */
    method NewCounter(name: string) returns (r: Result<Handle, RegistryError>)
      modifies registry
      ensures HandedOut(old(registry.metrics), registry.metrics, WithMetricName(name), Counters, r)
      ensures WithMetricName(name) !in old(registry.metrics) ==> r.Ok? && fresh(r.value.metric)
    {
      r := GetOrCreate(name, Counters);
    }

    /** `newTimer(name)`. */
    method NewTimer(name: string) returns (r: Result<Handle, RegistryError>)
      modifies registry
      ensures HandedOut(old(registry.metrics), registry.metrics, WithMetricName(name), Timers, r)
      ensures WithMetricName(name) !in old(registry.metrics) ==> r.Ok? && fresh(r.value.metric)
    {
      r := GetOrCreate(name, Timers);
    }

    /** `newHistogram(name)`. */
    method NewHistogram(name: string) returns (r: Result<Handle, RegistryError>)
      modifies registry
      ensures HandedOut(old(registry.metrics), registry.metrics, WithMetricName(name), Histograms, r)
      ensures WithMetricName(name) !in old(registry.metrics) ==> r.Ok? && fresh(r.value.metric)
    {
      r := GetOrCreate(name, Histograms);
    }

    /**
     * `newTimerPair(name)`: a timer under the success name, then one under
     * the failure name. If the first is refused the second is never asked
     * for; if the second is refused, the first stays registered.
     */
    method NewTimerPair(name: string) returns (r: Result<TimerPair, RegistryError>)
      modifies registry
      ensures var s, f := WithMetricName(naming.successTimerName(name)), WithMetricName(naming.failureTimerName(name));
        match r
        case Ok(pair) =>
          var mid := old(registry.metrics)[s := pair.success.metric];
          HandedOut(old(registry.metrics), mid, s, Timers, Ok(pair.success)) &&
          HandedOut(mid, registry.metrics, f, Timers, Ok(pair.failure))
        case Err(e) =>
          HandedOut(old(registry.metrics), registry.metrics, s, Timers, Err(e)) ||
          exists t: Handle :: HandedOut(old(registry.metrics), old(registry.metrics)[s := t.metric], s, Timers, Ok(t)) &&
                              HandedOut(old(registry.metrics)[s := t.metric], registry.metrics, f, Timers, Err(e))
      ensures var s, f := WithMetricName(naming.successTimerName(name)), WithMetricName(naming.failureTimerName(name));
        && (s !in old(registry.metrics) ==> r.Ok? || f in old(registry.metrics))
        && (r.Ok? && s !in old(registry.metrics) ==> fresh(r.value.success.metric))
        && (r.Ok? && f !in old(registry.metrics) && f != s ==>
              fresh(r.value.failure.metric) && r.value.failure.metric != r.value.success.metric)
    {
      ghost var before := registry.metrics;
      var success := NewTimer(naming.successTimerName(name));
      match success
      case Err(e) =>
        r := Err(e);
      case Ok(t) =>
        assert registry.metrics == before[t.name := t.metric];
        var failure := NewTimer(naming.failureTimerName(name));
        match failure
        case Err(e) =>
          r := Err(e);
          assert HandedOut(before, before[t.name := t.metric], t.name, Timers, Ok(t));
        case Ok(u) =>
          r := Ok(TimerPair(t, u));
    }

    /** `newGauge(name, gauge)`: the same as `newGauge(name, false, gauge)`. */
    method NewGauge(name: string, supplier: Supplier) returns (r: Result<Handle, RegistryError>)
      modifies registry
      ensures GaugeRegistered(old(registry.metrics), registry.metrics, WithMetricName(name), false, supplier, r)
      ensures r.Ok? ==> fresh(r.value.metric)
    {
      r := NewGaugeWith(name, false, supplier);
    }

    /**
     * `newGauge(name, replaceExisting, gauge)`: a new gauge object of
     * `supplier`; when `replaceExisting`, the identifier is removed first;
     * then it is registered.
     */
    method NewGaugeWith(name: string, replaceExisting: bool, supplier: Supplier) returns (r: Result<Handle, RegistryError>)
      modifies registry
      ensures GaugeRegistered(old(registry.metrics), registry.metrics, WithMetricName(name), replaceExisting, supplier, r)
      ensures r.Ok? ==> fresh(r.value.metric)
    {
      var n := WithMetricName(name);
      var gauge := new NativeMetric(Gauge(supplier));
      if replaceExisting {
        var _ := registry.Remove(n);
      }
      var outcome := registry.Register(n, gauge);
      match outcome
      case Ok(_) =>
        r := Ok(Handle(n, gauge));
      case Err(e) =>
        r := Err(e);
    }

    /** `remove(metric)`: drops the one identifier the handle names, from the whole registry. */
    method Remove(metric: Handle)
      modifies registry
      ensures registry.metrics == old(registry.metrics) - {metric.name}
    {
      var _ := registry.Remove(metric.name);
    }

    /** `close()`: empties the shared registry, whichever monitor created its metrics. */
    method Close()
      modifies registry
      ensures registry.metrics == map[]
    {
      registry.RemoveAll();
    }
  }

  /** Chaining `named` once per segment, left to right. */
  function Chain(m: Monitor, segments: seq<string>): Monitor
    decreases |segments|
  {
    if segments == [] then m else Chain(m.Named(segments[0]), segments[1..])
  }

  /**
   * Every monitor this class builds answers `NameSeparator` from
   * `separator()`: the roots and every copy, whatever the original answered,
   * so a child's identifiers are always joined by "/".
   */
  lemma BuiltMonitorsUseNameSeparator(registry: MetricRegistry, naming: Naming, m: Monitor,
                                      segment: string, extra: seq<string>, leaf: string)
    ensures Monitor.Root(registry, naming).Separator() == NameSeparator
    ensures m.Derived(extra).Separator() == NameSeparator
    ensures m.Named(segment).Separator() == NameSeparator
    ensures m.Named(segment).WithMetricName(leaf) == Join(m.names + [segment, leaf], NameSeparator)
  {
    assert m.Named(segment).names + [leaf] == m.names + [segment, leaf];
  }

  /** Chaining keeps registry and naming and appends the segments, in order. */
  lemma {:induction false} ChainNames(m: Monitor, segments: seq<string>)
    ensures Chain(m, segments).names == m.names + segments
    ensures Chain(m, segments).registry == m.registry && Chain(m, segments).naming == m.naming
    ensures segments != [] ==> Chain(m, segments).sep == NameSeparator
    decreases |segments|
  {
    if segments != [] {
      ChainNames(m.Named(segments[0]), segments[1..]);
      assert [segments[0]] + segments[1..] == segments;
    }
  }

  /** Copying with several segments at once is chaining `named` over them. */
  lemma DerivedIsChain(m: Monitor, segments: seq<string>)
    requires m.sep == NameSeparator
    ensures m.Derived(segments) == Chain(m, segments)
  {
    ChainNames(m, segments);
  }

  /** `named(a, b, rest...)` is `named(a).named(b)` followed by `named` for each of `rest`, in order. */
  lemma NamedManyIsChain(m: Monitor, a: string, b: string, rest: seq<string>)
    ensures m.NamedMany(a, b, rest) == Chain(m, [a, b] + rest)
  {
    var ab := m.Named(a).Named(b);
    DerivedIsChain(ab, rest);
    assert ([a, b] + rest)[1..] == [b] + rest;
    assert ([b] + rest)[1..] == rest;
  }

  /** From a root, chaining `named` over the segments gives a monitor named by the segments joined with "/". */
  lemma {:induction false} RootPathName(root: Monitor, segments: seq<string>)
    requires root.names == []
    ensures Chain(root, segments).GetName() == Join(segments, NameSeparator)
  {
    ChainNames(root, segments);
    assert Chain(root, segments).names == segments;
  }

  /** From a root, the variadic derivation is named like the chained one. */
  lemma {:induction false} RootVariadicName(root: Monitor, segments: seq<string>)
    requires root.names == [] && |segments| >= 2
    ensures root.NamedMany(segments[0], segments[1], segments[2..]).GetName() == Join(segments, NameSeparator)
  {
    var many := root.NamedMany(segments[0], segments[1], segments[2..]);
    assert many.names == [segments[0], segments[1]] + segments[2..];
    assert [segments[0], segments[1]] + segments[2..] == segments;
    assert many.GetName() == Join(many.names, NameSeparator);
  }

  /** A child's name is its parent's name, a "/", and the new segment; a root's child is named by the segment. */
  lemma ChildName(m: Monitor, segment: string)
    ensures m.Named(segment).GetName() ==
      if m.names == [] then segment else m.GetName() + NameSeparator + segment
  {
    if m.names != [] {
      JoinSnoc(m.names, segment, NameSeparator);
    }
  }

  /**
   * A segment that itself holds the separator gives the same identifier as
   * its two halves as separate segments: two monitors of different lineage
   * address the same registry key.
   */
  lemma {:induction false} SplitSegmentCollides(m: Monitor, x: string, y: string, leaf: string)
    ensures m.Named(x + NameSeparator + y).WithMetricName(leaf) == m.Named(x).Named(y).WithMetricName(leaf)
  {
    var joined := m.Named(x + NameSeparator + y);
    var split := m.Named(x).Named(y);
    var tail := x + NameSeparator + y + NameSeparator + leaf;
    JoinSnoc([x + NameSeparator + y], leaf, NameSeparator);
    assert [x + NameSeparator + y] + [leaf] == [x + NameSeparator + y, leaf];
    JoinSnoc([x], y, NameSeparator);
    JoinSnoc([x, y], leaf, NameSeparator);
    assert [x] + [y] == [x, y];
    assert [x, y] + [leaf] == [x, y, leaf];
    assert Join([x + NameSeparator + y, leaf], NameSeparator) == tail;
    assert Join([x, y, leaf], NameSeparator) == tail;
    if m.names == [] {
      assert joined.names + [leaf] == [x + NameSeparator + y, leaf];
      assert split.names + [leaf] == [x, y, leaf];
    } else {
      assert joined.names + [leaf] == m.names + [x + NameSeparator + y, leaf];
      assert split.names + [leaf] == m.names + [x, y, leaf];
      JoinConcat(m.names, [x + NameSeparator + y, leaf], NameSeparator);
      JoinConcat(m.names, [x, y, leaf], NameSeparator);
    }
  }

  /** Under a root, two segments and a leaf flatten to "a/b/leaf", and the two-segment scope is named "a/b". */
  lemma TwoSegmentPath(root: Monitor, a: string, b: string, leaf: string)
    requires root.names == []
    ensures root.Named(a).Named(b).WithMetricName(leaf) == a + NameSeparator + b + NameSeparator + leaf
    ensures root.NamedMany(a, b, []).GetName() == a + NameSeparator + b
  {
    var path := [a, b];
    assert root.Named(a).Named(b).names == path;
    assert root.NamedMany(a, b, []).names == path;
    assert Join(path, NameSeparator) == a + NameSeparator + b by {
      assert path == [a] + [b];
      JoinSnoc([a], b, NameSeparator);
    }
    JoinSnoc(path, leaf, NameSeparator);
  }

  /** The worked example: `db`, then `queries`, then the counter `errors`. */
  lemma DbQueriesExample(registry: MetricRegistry, naming: Naming)
    ensures Monitor.Root(registry, naming).Named("db").Named("queries").WithMetricName("errors") == "db/queries/errors"
    ensures Monitor.Root(registry, naming).NamedMany("db", "queries", []).GetName() == "db/queries"
  {
    var root := Monitor.Root(registry, naming);
    TwoSegmentPath(root, "db", "queries", "errors");
    var counter := root.Named("db").Named("queries").WithMetricName("errors");
    var scope := root.NamedMany("db", "queries", []).GetName();
    assert counter == "db" + NameSeparator + "queries" + NameSeparator + "errors";
    assert scope == "db" + NameSeparator + "queries";
  }

  /**
   * Get-or-create is idempotent across monitors: once one monitor has asked
   * for a metric under an identifier, another monitor over the same registry
   * whose identifier coincides gets the same answer (the same metric, or the
   * same refusal), and the registry stays as it was.
   */
  lemma SameIdentifierSameMetric(m1: Monitor, leaf1: string, m2: Monitor, leaf2: string, b: Builder,
                                 before: map<string, NativeMetric>, mid: map<string, NativeMetric>,
                                 after: map<string, NativeMetric>,
                                 r1: Result<Handle, RegistryError>, r2: Result<Handle, RegistryError>)
    requires m1.WithMetricName(leaf1) == m2.WithMetricName(leaf2)
    requires HandedOut(before, mid, m1.WithMetricName(leaf1), b, r1)
    requires HandedOut(mid, after, m2.WithMetricName(leaf2), b, r2)
    ensures r2 == r1 && after == mid
  {
  }

  /**
   * A successful timer pair adds at most its two identifiers to the
   * registry, each holding the timer handed out for it, and leaves every
   * other entry alone; when the naming maps both to one identifier, the two
   * handles share one timer.
   */
  lemma TimerPairEntries(before: map<string, NativeMetric>, after: map<string, NativeMetric>,
                         s: string, f: string, pair: TimerPair)
    requires HandedOut(before, before[s := pair.success.metric], s, Timers, Ok(pair.success))
    requires HandedOut(before[s := pair.success.metric], after, f, Timers, Ok(pair.failure))
    ensures after.Keys == before.Keys + {s, f}
    ensures after[s] == pair.success.metric && after[f] == pair.failure.metric
    ensures pair.success.metric.IsA(Timers) && pair.failure.metric.IsA(Timers)
    ensures forall k :: k in before && k != s && k != f ==> after[k] == before[k]
    ensures s == f ==> pair.failure == pair.success
  {
  }

  /**
   * Replacing a gauge always succeeds: afterwards the identifier holds the
   * new gauge of `supplier`, and every other entry is as before.
   */
  lemma ReplacedGaugeHoldsKey(before: map<string, NativeMetric>, after: map<string, NativeMetric>,
                              id: string, supplier: Supplier, r: Result<Handle, RegistryError>)
    requires GaugeRegistered(before, after, id, true, supplier, r)
    ensures r.Ok? && id in after && after[id] == r.value.metric && after[id].kind == Gauge(supplier)
    ensures after == (before - {id})[id := r.value.metric]
  {
  }

  /**
   * Without replacing, a taken identifier keeps its old metric and the
   * registry's refusal is handed back; a free one gets the new gauge.
   */
  lemma PlainGaugeDefersToRegistry(before: map<string, NativeMetric>, after: map<string, NativeMetric>,
                                   id: string, supplier: Supplier, r: Result<Handle, RegistryError>)
    requires GaugeRegistered(before, after, id, false, supplier, r)
    ensures id in before <==> r == Err(AlreadyExists(id))
    ensures id in before ==> after == before
    ensures id !in before ==> r.Ok? && after == before[id := r.value.metric] && after[id].kind == Gauge(supplier)
  {
  }

  /** Two replacing registrations under one identifier: the second supplier's gauge is the one left. */
  lemma SecondReplacementWins(before: map<string, NativeMetric>, mid: map<string, NativeMetric>,
                              after: map<string, NativeMetric>, id: string, first: Supplier, second: Supplier,
                              r1: Result<Handle, RegistryError>, r2: Result<Handle, RegistryError>)
    requires GaugeRegistered(before, mid, id, true, first, r1)
    requires GaugeRegistered(mid, after, id, true, second, r2)
    ensures r2.Ok? && id in after && after[id] == r2.value.metric && after[id].kind == Gauge(second)
    ensures after.Keys == before.Keys + {id}
  {
    ReplacedGaugeHoldsKey(before, mid, id, first, r1);
    ReplacedGaugeHoldsKey(mid, after, id, second, r2);
  }
}

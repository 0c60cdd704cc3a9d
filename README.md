# MetricsMonitor, modelled in Dafny

This project models `MetricsMonitor`, the hierarchical naming facade of the
Dropwizard binding of the Avast metrics library, together with the part of
the Dropwizard `MetricRegistry` it writes to.

A monitor is an immutable scope. It holds an ordered path of name segments,
a naming strategy, and a reference to a registry that many monitors share.
`named(...)` derives a child whose path is the parent's path with more
segments appended. Every `newX` call joins the path and a leaf name into one
flat identifier with `separator()`. It then asks the shared registry for
that identifier and wraps the answer in a handle. `remove` and `close` act on
the whole registry, not just the monitor's subtree.

Files:

- `wrappers.dfy` (`Wrappers`): `Option` for Java's `Optional` and nullable
  leaves, and `Result` for calls that may throw.
- `joining.dfy` (`Joining`): `Collectors.joining(separator)` as `Join`. It
  comes with a second, front-first definition and the lemmas that connect
  the two.
- `registry.dfy` (`Registry`): the registry as a class over
  `map<string, NativeMetric>`. Native metrics are objects, so "the same
  metric" means the same object. The ghost predicates `GotOrCreated`,
  `Registered` and `Refused` describe what each registry call does to the
  map.
- `monitor.dfy` (`Monitors`): the monitor as a datatype whose functions
  compute names and whose methods mutate the shared registry. The lemmas
  about derivation and about registry outcomes are here too.

`Monitor.sep` is what the overridable `separator()` hook
(`MetricsMonitor.java:121-123`) returns. Every monitor this class builds
returns `NameSeparator`, and that includes children. The reason is that
`named` always constructs a plain `MetricsMonitor`. The field lets the model
state that `getName()` joins with a literal `"/"` whatever `separator()`
returns.

## Model

| member | source | states |
|---|---|---|
| `Joining.Join` | dropwizard-common/src/main/java/com/avast/metrics/dropwizard/MetricsMonitor.java:132 | no parts give ""; otherwise the result starts with the first part and ends with the last, so no separator is added in front or behind (an empty first or last part still leaves one there); the value itself is fixed by `JoinMatchesFromFront` |
| `Joining.JoinMatchesFromFront` | dropwizard-common/src/main/java/com/avast/metrics/dropwizard/MetricsMonitor.java:132 | the joiner's left-to-right build equals "first part, then each further part preceded by the separator", for every input |
| `Joining.JoinConcat` | dropwizard-common/src/main/java/com/avast/metrics/dropwizard/MetricsMonitor.java:132 | joining two non-empty lists gives their two joins with one separator between them |
| `Registry.MetricRegistry.constructor` | dropwizard-common/src/main/java/com/avast/metrics/dropwizard/MetricsMonitor.java:30 | a new registry is empty |
| `Registry.MetricRegistry.GetOrAdd` | dropwizard-common/src/main/java/com/avast/metrics/dropwizard/MetricsMonitor.java:61-73 | get-or-create: returns an existing metric of the right type and changes nothing; refuses a metric of another type and changes nothing; for an absent name, inserts a fresh metric and changes nothing else |
| `Registry.MetricRegistry.Register` | dropwizard-common/src/main/java/com/avast/metrics/dropwizard/MetricsMonitor.java:95 | an absent name gets the metric; a taken name is refused with `AlreadyExists` and the map is unchanged |
| `Registry.MetricRegistry.Remove` | dropwizard-common/src/main/java/com/avast/metrics/dropwizard/MetricsMonitor.java:107 | exactly that name is dropped; reports whether it was present |
| `Registry.MetricRegistry.RemoveAll` | dropwizard-common/src/main/java/com/avast/metrics/dropwizard/MetricsMonitor.java:138 | the map is empty afterwards |
| `Monitors.Monitor.CreateDefault` | dropwizard-common/src/main/java/com/avast/metrics/dropwizard/MetricsMonitor.java:29-31 | a root over a fresh, empty registry with the default naming and separator "/" |
| `Monitors.Monitor.Root` | dropwizard-common/src/main/java/com/avast/metrics/dropwizard/MetricsMonitor.java:33-36 | a root over the given registry and naming: empty path, separator "/" |
| `Monitors.Monitor.Derived` | dropwizard-common/src/main/java/com/avast/metrics/dropwizard/MetricsMonitor.java:38-43 | the copy's path is the original's path followed by the extra names in order; same registry and naming |
| `Monitors.Monitor.Named` | dropwizard-common/src/main/java/com/avast/metrics/dropwizard/MetricsMonitor.java:45-48 | the child's path is the parent's path plus `[name]`; it shares the parent's registry and naming; the parent is a value and is untouched |
| `Monitors.Monitor.NamedMany` | dropwizard-common/src/main/java/com/avast/metrics/dropwizard/MetricsMonitor.java:50-53 | the path is the parent's path followed by `name1`, `name2` and the rest, in order |
| `Monitors.Monitor.ConstructMetricNameWith` | dropwizard-common/src/main/java/com/avast/metrics/dropwizard/MetricsMonitor.java:129-133 | with no leaf: the joined path; a leaf on the root: the leaf alone; otherwise the joined path, one separator and the leaf |
| `Monitors.Monitor.ConstructMetricName` | dropwizard-common/src/main/java/com/avast/metrics/dropwizard/MetricsMonitor.java:125-127 | a null leaf is left out and the path is joined by `separator()`; a present leaf is joined after the path |
| `Monitors.Monitor.Separator` | dropwizard-common/src/main/java/com/avast/metrics/dropwizard/MetricsMonitor.java:121-123 | what the overridable `separator()` hook answers for this monitor; `NameSeparator` for every monitor this class builds (`BuiltMonitorsUseNameSeparator`) |
| `Monitors.Monitor.GetName` | dropwizard-common/src/main/java/com/avast/metrics/dropwizard/MetricsMonitor.java:55-58 | the path joined by a literal "/" whatever `separator()` returns; "" on the root |
| `Monitors.Monitor.WithMetricName` | dropwizard-common/src/main/java/com/avast/metrics/dropwizard/MetricsMonitor.java:110-119 | the identifier handed to the creator is the path plus the leaf joined by `separator()`; on the root, the leaf itself |
| `Monitors.Monitor.GetOrCreate` | dropwizard-common/src/main/java/com/avast/metrics/dropwizard/MetricsMonitor.java:110-119 | asks the registry under exactly the flat identifier and wraps its answer in a handle carrying that identifier; an absent identifier yields a fresh metric |
| `Monitors.Monitor.NewMeter` | dropwizard-common/src/main/java/com/avast/metrics/dropwizard/MetricsMonitor.java:60-63 | get-or-create of a meter under exactly the flat identifier; the handle carries that identifier |
| `Monitors.Monitor.NewCounter` | dropwizard-common/src/main/java/com/avast/metrics/dropwizard/MetricsMonitor.java:65-68 | get-or-create of a counter under exactly the flat identifier; the handle carries that identifier |
| `Monitors.Monitor.NewTimer` | dropwizard-common/src/main/java/com/avast/metrics/dropwizard/MetricsMonitor.java:70-73 | get-or-create of a timer under exactly the flat identifier; the handle carries that identifier |
| `Monitors.Monitor.NewHistogram` | dropwizard-common/src/main/java/com/avast/metrics/dropwizard/MetricsMonitor.java:100-103 | get-or-create of a histogram under exactly the flat identifier; the handle carries that identifier |
| `Monitors.Monitor.NewTimerPair` | dropwizard-common/src/main/java/com/avast/metrics/dropwizard/MetricsMonitor.java:75-81 | two timer get-or-creates, under the flat success name and then the flat failure name; a refused first one stops; a refused second one leaves the first registered; an absent success name gets a new timer, and an absent failure name distinct from it gets another new one, different from the first |
| `Monitors.Monitor.NewGauge` | dropwizard-common/src/main/java/com/avast/metrics/dropwizard/MetricsMonitor.java:83-86 | the same outcome as `NewGaugeWith` with `replaceExisting` false |
| `Monitors.Monitor.NewGaugeWith` | dropwizard-common/src/main/java/com/avast/metrics/dropwizard/MetricsMonitor.java:88-98 | a fresh gauge of the supplier; with `replaceExisting` the identifier is removed first; then the registry's `register` outcome is passed through unchanged |
| `Monitors.Monitor.Remove` | dropwizard-common/src/main/java/com/avast/metrics/dropwizard/MetricsMonitor.java:105-108 | the registry loses exactly the handle's identifier and nothing else, whichever monitor created it |
| `Monitors.Monitor.Close` | dropwizard-common/src/main/java/com/avast/metrics/dropwizard/MetricsMonitor.java:135-139 | the shared registry is empty afterwards, whoever created its metrics; closing an empty registry leaves it empty |
| `Monitors.BuiltMonitorsUseNameSeparator` | dropwizard-common/src/main/java/com/avast/metrics/dropwizard/MetricsMonitor.java:121-123 | roots, copies and `named` children all answer "/" from `separator()`, whatever the original answered, so a child's identifiers are joined by "/" |
| `Monitors.ChainNames` | dropwizard-common/src/main/java/com/avast/metrics/dropwizard/MetricsMonitor.java:45-48 | chaining `named` over segments appends them to the path in order and keeps registry and naming |
| `Monitors.DerivedIsChain` | dropwizard-common/src/main/java/com/avast/metrics/dropwizard/MetricsMonitor.java:38-43 | copying with several names at once is the same monitor as chaining `named` over them |
| `Monitors.NamedManyIsChain` | dropwizard-common/src/main/java/com/avast/metrics/dropwizard/MetricsMonitor.java:50-53 | `named(a, b, rest...)` equals `named(a).named(b)` followed by `named` for each of `rest`, left to right |
| `Monitors.RootPathName` | dropwizard-common/src/main/java/com/avast/metrics/dropwizard/MetricsMonitor.java:55-58 | from a root, chaining `named` over segments yields the name "segments joined with /" |
| `Monitors.RootVariadicName` | dropwizard-common/src/main/java/com/avast/metrics/dropwizard/MetricsMonitor.java:50-58 | from a root, `named(s0, s1, rest...)` has the same name, the segments joined with "/" |
| `Monitors.ChildName` | dropwizard-common/src/main/java/com/avast/metrics/dropwizard/MetricsMonitor.java:45-58 | a child's name is the parent's name, "/" and the segment, or just the segment under the root |
| `Monitors.SplitSegmentCollides` | dropwizard-common/src/main/java/com/avast/metrics/dropwizard/MetricsMonitor.java:125-133 | `named("x/y")` and `named("x").named("y")` give the same identifier for every leaf, so they address the same registry key |
| `Monitors.TwoSegmentPath` | dropwizard-common/src/main/java/com/avast/metrics/dropwizard/MetricsMonitor.java:125-133 | under a root, `named(a).named(b)` flattens leaf `l` to "a/b/l", and `named(a, b)` is named "a/b" |
| `Monitors.DbQueriesExample` | dropwizard-common/src/main/java/com/avast/metrics/dropwizard/MetricsMonitor.java:125-133 | `named("db").named("queries")` registers a counter "errors" as "db/queries/errors"; `named("db", "queries")` is named "db/queries" |
| `Monitors.SameIdentifierSameMetric` | dropwizard-common/src/main/java/com/avast/metrics/dropwizard/MetricsMonitor.java:61-73 | two monitors whose flat identifiers coincide get the same answer (the same metric object, or the same refusal), and the second call changes nothing |
| `Monitors.TimerPairEntries` | dropwizard-common/src/main/java/com/avast/metrics/dropwizard/MetricsMonitor.java:75-81 | a successful pair adds only its two identifiers to the registry, each holding its own timer; other entries are unchanged; when the names coincide, both handles share one timer |
| `Monitors.ReplacedGaugeHoldsKey` | dropwizard-common/src/main/java/com/avast/metrics/dropwizard/MetricsMonitor.java:88-98 | a replacing registration always succeeds; the identifier then holds the new gauge and all other entries are as before |
| `Monitors.PlainGaugeDefersToRegistry` | dropwizard-common/src/main/java/com/avast/metrics/dropwizard/MetricsMonitor.java:88-98 | without replacing: a taken identifier is refused iff it was present, and the old entry stays; a free one gets the new gauge |
| `Monitors.SecondReplacementWins` | dropwizard-common/src/main/java/com/avast/metrics/dropwizard/MetricsMonitor.java:92-95 | after two replacing registrations the key holds the second supplier's gauge |

## Notes on the source

- `getName()` joins with a literal `"/"` (line 57), not with
  `separator()`. A subclass that overrides `separator()` therefore still
  gets "/"-joined scope names.
- `named` always builds a plain `MetricsMonitor` (lines 47 and 52). A
  subclass's `separator()` override therefore does not carry over to its
  children (`BuiltMonitorsUseNameSeparator`).
- The two timer names of a pair are not assumed to differ. The code never
  checks it, so `TimerPairEntries` also covers equal names.
- No derivation input is validated. The copying constructor adds whatever
  it is given (lines 40-41).

## Left out

- Logging: the debug line of `withMetricName` (lines 113-116) and the one
  in `close` (line 137) are not modelled. This includes the `replaceAll`
  that prepares the logged name. The branch only reads the registry's names
  and writes to the logger, so it cannot change a result or the registry.
- `Naming` and `Naming.defaultNaming()` are not part of this model. The
  strategy is a pair of uninterpreted functions. The no-argument
  constructor takes the default strategy as a parameter (`CreateDefault`).
- `TimerPairImpl` and the typed handle classes (`MetricsMeter`,
  `MetricsGauge.SupplierGauge`, ...) are not part of this model. A handle
  is just its identifier and the native metric it wraps, and a pair is two
  handles.
- Dropwizard `MetricRegistry` internals: statistics (reservoirs, decay,
  rates), listeners, locking and concurrency are left out. The exception
  messages become the two `RegistryError` values. The duplicate-`register`
  and wrong-type get-or-create behaviours are assumed to be Dropwizard's:
  refuse and change nothing.
- Gauge sampling is not modelled. A gauge records its supplier, and
  suppliers are typed `() -> int` rather than generic in `T`.
- Null arguments: `named(null)` and a null leaf passed to `newX` are not
  modelled; those parameters are plain strings. `constructMetricName`'s
  nullable leaf is modelled as an `Option`.
- Thread safety and sharing across threads are not modelled; every
  operation is sequential.

# Tanjun's dependency injector, modelled in Dafny

This project models `tanjun/injector.py`, the dependency-injection resolver
of the Tanjun command framework. A command callback marks a parameter as
injectable by giving it an `Injected(callback=...)` or `Injected(type=...)`
default. The registry `InjectorClient` holds type dependencies
(type → value), callable overrides (callable → replacement) and a memoised
map from component runtime type to component, rebuilt whenever the host
client's component set differs from the snapshot it was built from. Its two
getter factories turn a callable or a type into a getter: a callback getter yields the
override or the callback itself, and a type getter tries, in order, a
registered dependency, the context's client (for a Client-derived type), the
component of exactly that runtime type (for a Component-derived type), then,
still only for a Component-derived type, the context's current component,
and otherwise fails naming the type.
`resolve_callback_to_getters` scans a signature into a name → getter map,
refusing positional-only injection points. `InjectableCheck` wraps a check
callback: it accepts an injector once, resolves and caches the getter map on
its first call, calls the callback with the resolved values by keyword, and
fixes from the first call whose callback returns whether results are awaited.

The files:

- `wrappers.dfy` — `Option`, `Result`, `Outcome`.
- `injection.dfy` — module `Injection`: the UNDEFINED sentinel
  (`UndefinedOr`), the `Injected` marker and its constructor check, the
  host's types, components and contexts, signature parameters, errors.
- `registry.dfy` — module `Registry`: getters, the component mapping and its
  lemmas, the getters' decision logic (`Lookup`) and the cache-free resolution
  order over the live component set (`Admissible`), and the class
  `InjectorClient`.
- `checks.dfy` — module `Checks`: the class `InjectableCheck` and client
  scenarios that exercise the contracts end to end.

Types, callables, clients and values are opaque. A `TypeId` carries the two
`issubclass` answers the injector asks of it, and a `Component` carries its
runtime type. The host's current components are a `seq<Component>` passed
to each operation that reads them, since the source reads
`self._client.components` afresh each time; the cache compares its snapshot
with the set of their elements. A callback's behaviour is a function from its
keyword arguments to `Immediate(b)`, `Deferred(b)` (awaiting means
unwrapping) or `Raised(e)` (the callback raises `e`).

## Where the model follows intent rather than the code as written

- Line 155: the parameter filter reads `parameter.default is parameter.default
  and not isinstance(Injected, parameter.default)`. The first test is always
  true, and the `isinstance` arguments are swapped. The model skips exactly
  the parameters whose default is not an `Injected` (`IsInjected`).
- Line 161: `if parameter.default.callback:` tests truthiness, and UNDEFINED
  is truthy. The model makes a callback getter exactly when the marker holds
  a callback, and a type getter otherwise (`GetterFor`).
- Lines 127-128: `traits` is imported only for type checking (lines 38-39),
  so as written these `issubclass` calls raise `NameError`. (The module-level
  alias at line 44 reads `traits.Context` at import time too.) The model
  takes the two `issubclass` answers as given: each `TypeId` carries them.
- Line 184: `_cached_getters` is annotated but never assigned. The model
  starts it as `None`.
- Line 201: `self.callback(*{...})` would pass the parameter names
  positionally. The model passes the resolved values by keyword (`**`).
- The Python marker stores both attributes, one of them UNDEFINED. The
  model's `Injected` datatype has only the two shapes `__init__` lets
  through, and `NewInjected` is the check `__init__` performs; the
  attributes are read back through `Callback()` and `Type()`.

## Model

| member | source | states |
|---|---|---|
| `Injection.NewInjected` | tanjun/injector.py:68-81 | construction succeeds iff exactly one of `callback` and `type` is supplied; neither is "must specify one", both is "only one"; the marker keeps what was supplied |
| `Injection.NewInjectedRoundTrip` | tanjun/injector.py:74-81 | every marker is what the constructor builds from its own `callback` and `type` attributes |
| `Registry.InjectorClient.constructor` | tanjun/injector.py:93-98 | a new registry has no overrides, no dependencies and an empty mapping and snapshot, which is a valid cache |
| `Registry.InjectorClient.AddTypeDependency` | tanjun/injector.py:100-101 | binds `t` to `v`, replacing an earlier binding; every other type's entry, the overrides and the cache are unchanged |
| `Registry.InjectorClient.GetTypeDependency` | tanjun/injector.py:103-104 | returns the bound value exactly when `t` is bound, and UNDEFINED (not an error) otherwise |
| `Registry.InjectorClient.AddCallableOverride` | tanjun/injector.py:106-107 | redirects `callback` to `override`, replacing an earlier override; nothing else changes |
| `Registry.InjectorClient.GetCallableOverride` | tanjun/injector.py:109-110 | returns the override exactly when one is registered, and None otherwise |
| `Registry.InjectorClient.MappingFor` | tanjun/injector.py:112-118 | the mapping the cache yields for the current components is exact for their set: keys are their runtime types, each mapped to one of them of exactly that type |
| `Registry.InjectorClient.GetComponentMapping` | tanjun/injector.py:112-118 | on a snapshot equal to the current set the cached mapping is returned unchanged; otherwise it is rebuilt from the components; afterwards the snapshot equals the current set and the mapping is exact for it |
| `Registry.MappingOf` | tanjun/injector.py:115 | a definition: the dictionary comprehension as a left fold in which a later component overwrites an earlier one of the same runtime type; its properties are stated by `MappingOfValid` and `MappingOfLastWins` |
| `Registry.MappingOfValid` | tanjun/injector.py:115 | the rebuilt mapping's keys are exactly the components' runtime types, and each key maps to a component of exactly that type |
| `Registry.MappingOfLastWins` | tanjun/injector.py:115 | a component that no later component of the same runtime type follows is the one its type maps to (the last one wins) |
| `Registry.ValidMappingIsUnique` | tanjun/injector.py:113-118 | when runtime types are unique, a valid mapping is determined by the component set alone |
| `Registry.MappingOfOrderIrrelevant` | tanjun/injector.py:113-116 | when runtime types are unique, two listings of the same component set rebuild the same mapping, so comparing only sets loses nothing |
| `Registry.InjectorClient.MakeCallbackGetter` | tanjun/injector.py:120-124 | the getter, applied with any context, dependencies, overrides and mapping, yields the override registered for the callback, or the callback itself when there is none |
| `Registry.InjectorClient.MakeTypeGetter` | tanjun/injector.py:126-146 | the getter, applied with any context, dependencies, overrides and mapping, yields a registered dependency for the type; else the context's client for a Client-derived type; else, for a Component-derived type, the mapped component of exactly that type, then the context's component; else an error naming the type |
| `Registry.InjectorClient.Get` | tanjun/injector.py:120-148 | applying a getter meets the cache-free resolution order over the current component set; its result is the closure's decision on the cached mapping; only a type getter reaching the component step refreshes the cache; with unique runtime types it equals an uncached resolution; dictionaries are unchanged |
| `Registry.Lookup` | tanjun/injector.py:121-146 | a definition: the decision logic of both getter closures given the dictionaries and the mapping in effect; its properties are stated by `LookupAdmissible` and by the contracts of `MakeCallbackGetter` and `MakeTypeGetter` |
| `Registry.LookupAdmissible` | tanjun/injector.py:130-146 | the getters' decision logic on a valid cached mapping returns what the dependency → client → exact component → context component → error order allows |
| `Registry.TypeGetterOrder` | tanjun/injector.py:130-146 | a registered dependency wins even for Client- or Component-derived types; then the client; then the exact-type component; then, for a Component-derived type only, the context's component; else an error naming the type (a corollary of the contract of `MakeTypeGetter`) |
| `Registry.PlainTypeNeverResolves` | tanjun/injector.py:127-146 | a type that is neither Client- nor Component-derived and has no dependency always fails, even when the context has a component (a corollary of the contract of `MakeTypeGetter`) |
| `Registry.CallbackGetterIgnoresContext` | tanjun/injector.py:120-124 | a callback getter yields the registered override if there is one and the callback otherwise, for every context (a corollary of the contract of `MakeCallbackGetter`) |
| `Registry.GetterFor` | tanjun/injector.py:161-166 | a callback getter exactly when the marker holds a callback, keeping it; otherwise a type getter for the marker's type with that type's `issubclass` answers |
| `Registry.GettersMatchStep` | tanjun/injector.py:154-166 | each parameter extends the map built so far: an injection point sets its name to its marker's getter, any other parameter leaves the map as it is |
| `Registry.GettersOf` | tanjun/injector.py:153-168 | a definition: the resolver's loop as a left fold over the signature; its properties are stated by `GettersOfSpec` |
| `Registry.GettersOfSpec` | tanjun/injector.py:153-168 | the resolver's loop, as a fold over the signature, fails iff some injection point is positional-only, and otherwise yields every injection point's name mapped to the getter for its last marker |
| `Registry.GettersMatchUnique` | tanjun/injector.py:150-168 | the resolution of a signature is a single map, so getters cached from one resolution equal any later one |
| `Registry.InjectorClient.ResolveCallbackToGetters` | tanjun/injector.py:150-168 | fails iff some injection point is positional-only; otherwise the keys are exactly the injection points' names, each mapped to the getter for that name's marker |
| `Checks.Arguments` | tanjun/injector.py:201 | the keyword arguments have exactly the getters' names, each bound to what its getter resolves to |
| `Checks.ResolveArguments` | tanjun/injector.py:201 | succeeds iff every getter resolves, with exactly those values; otherwise fails with the error of a getter that fails; on success the cache ends rebuilt for the current set exactly when some getter reaches the component step, and unchanged otherwise; on failure it ends unchanged or rebuilt |
| `Checks.Settle` | tanjun/injector.py:203-213 | a result is accepted iff its kind agrees with the `is_async` flag, and then its bool is returned; otherwise the assertion fails |
| `Checks.InjectableCheck.constructor` | tanjun/injector.py:182-186 | a new check has no injector, no cached getters and no async flag |
| `Checks.InjectableCheck.AddInjector` | tanjun/injector.py:188-192 | the first injector is accepted; a second one fails and leaves the first attached |
| `Checks.InjectableCheck.Call` | tanjun/injector.py:194-213 | fails before an injector is set; resolves getters on the first call only and keeps them; a positional-only injection point fails without caching; calls the callback with every resolved value by keyword; when every getter resolves, the cache ends rebuilt exactly when some getter reaches the component step; a raising callback's exception is passed on and leaves `is_async` as it was; otherwise `is_async` is fixed from the first result that returns and settles every result by it |
| `Checks.LifecycleScenario` | tanjun/injector.py:188-199 | calling before `add_injector` fails, and a second `add_injector` fails |
| `Checks.ConfigScenario` | tanjun/injector.py:130-132 | a check on `cfg = Injected(type=Config)` returns `cfg1.enabled`, and after `Config` is rebound to `cfg2` the same check returns `cfg2.enabled` |
| `Checks.StickyAsyncScenario` | tanjun/injector.py:203-211 | after an awaitable first result the flag stays asynchronous, and a later immediate result fails the assertion |
| `Checks.RaisingCallScenario` | tanjun/injector.py:201-204 | a callback that raises passes its exception on and leaves `is_async` unset; the next call that returns fixes it |
| `Checks.CacheRefreshScenario` | tanjun/injector.py:138-139 | a call whose getter reaches the component step leaves the cache's snapshot equal to the host's current components |
| `Checks.CacheUntouchedScenario` | tanjun/injector.py:198-201 | a call with no getters leaves the cache's snapshot empty, whatever the host lists |
| `Checks.DependencyScenario` | tanjun/injector.py:100-104 | a type never added reads as UNDEFINED; after an add it reads as the value; a later add replaces it; another type's entry is untouched |
| `Checks.OverrideScenario` | tanjun/injector.py:120-122 | a callback getter yields the callback itself, then the override once one is added |
| `Checks.ComponentScenario` | tanjun/injector.py:112-118 | a component type resolves to the host's component of that type, and once the host drops it the rebuilt mapping has no stale entry and the getter fails |

## Left out

- The `Undefined.__new__` singleton mechanics (lines 47-58): the sentinel is the constructor `Undefined` of `UndefinedOr`.
- `inspect.signature`: a callback's signature is an explicit `seq<Parameter>` given to the check.
- `async`/`await` and the `typing.Awaitable` test: results are `Immediate(b)` or `Deferred(b)`, and awaiting unwraps. Since `__call__` is a coroutine, its errors surface when it is awaited; the model returns them directly.
- Non-bool results: the callback is taken to return bools, so the assertion at line 211 fails only for a deferred result under a synchronous flag.
- Python truthiness at lines 139 and 143: every component is taken to be truthy. At line 189, `InjectorClient` defines no `__bool__` or `__len__`, so `if self.injector:` is the same as a test for None.
- `issubclass` and the `traits.Client`, `traits.Component` and `traits.Context` protocols: each type carries its two `issubclass` answers, and clients, callables and values are opaque.
- Line 113 compares a `set` with `self._client.components`. If the host returned a collection that is not a set, the comparison would never be equal and every lookup would rebuild. The model compares the snapshot with the set of the current components' elements.
- The `clear()` at line 114 empties the dictionary object handed out by earlier calls. Maps are values here, so that aliasing is not modelled.
- The `Injectable` abstract base class (lines 171-176): it has no behaviour.
- The text of the error messages: errors are constructors of `Error`; `Unresolved` carries the type it names.
- Concurrency: the source has none apart from the single `await`.
- Checks.InjectableCheck.Call: resolves getters in an unspecified order, while the source goes in parameter order. So when several getters fail, the contract does not say which one's error is reported, nor whether a component getter ran before the failing one and rebuilt the cache.
- Checks.InjectableCheck.Call: an awaitable that raises when awaited is not modelled; `Deferred(b)` always yields `b`. A callback that raises when called is `Raised(e)`.
- Checks.ResolveArguments: same unspecified order as `Call`, with the same consequence for which failing getter's error is returned and for the cache's state after a failure.

/**
 * `InjectableCheck` (tanjun/injector.py:179-213): a check callback wrapped
 * with an injector that is attached once, a getter map resolved on the
 * first call and kept, and an `is_async` flag fixed by the first result.
 */
module Checks {
  import opened Wrappers
  import opened Injection
  import opened Registry

  /**
   * What calling the wrapped callback does: return a bool at once, return
   * an awaitable that yields a bool (awaiting it is unwrapping it), or raise.
   */
  datatype CallResult = Immediate(value: bool) | Deferred(value: bool) | Raised(exception: Exception)

  /** Every getter resolves against the context and the mapping in effect. */
  predicate AllResolve(getters: map<string, Getter>, ctx: Context, deps: map<TypeId, Value>,
                       overrides: map<Callable, Callable>, mapping: map<TypeId, Component>)
  {
    forall k :: k in getters ==> Lookup(getters[k], ctx, deps, overrides, mapping).Success?
  }

  /** The keyword arguments the callback is called with: each name bound to its getter's value. */
  function Arguments(getters: map<string, Getter>, ctx: Context, deps: map<TypeId, Value>,
                     overrides: map<Callable, Callable>, mapping: map<TypeId, Component>): (args: map<string, Resolved>)
    requires AllResolve(getters, ctx, deps, overrides, mapping)
    ensures args.Keys == getters.Keys
    ensures forall k :: k in args ==> Lookup(getters[k], ctx, deps, overrides, mapping) == Success(args[k])
  {
    map k | k in getters :: Lookup(getters[k], ctx, deps, overrides, mapping).value
  }

  /**
   * Lines 206-213: await the result when the cached flag says the callback
   * is asynchronous, take it as it is otherwise; a result of the other kind
   * fails the assertion at line 207 or 211.
   */
  function Settle(isAsync: bool, res: CallResult): (r: Result<bool, Error>)
    requires !res.Raised?
    ensures r.Success? <==> res.Deferred? == isAsync
    ensures r.Success? ==> r.value == res.value
    ensures r.Failure? ==> r.error == ResultKindMismatch
  {
    if isAsync then
      if res.Deferred? then Success(res.value) else Failure(ResultKindMismatch)
    else
      if res.Immediate? then Success(res.value) else Failure(ResultKindMismatch)
  }

  /** Some getter named in `keys` reaches the component step (line 139) under `deps`. */
  predicate SomeNeedsComponents(getters: map<string, Getter>, keys: set<string>, deps: map<TypeId, Value>)
  {
    exists k :: k in keys && k in getters && NeedsComponents(getters[k], deps)
  }

  /**
   * The dictionary comprehension at line 201: applies every getter, each of
   * which may refresh the registry's component cache, and stops at the
   * first one that raises.
   */
  method ResolveArguments(registry: InjectorClient, getters: map<string, Getter>, ctx: Context, components: seq<Component>)
    returns (r: Result<map<string, Resolved>, Error>)
    requires registry.Valid()
    modifies registry
    ensures registry.Valid()
    ensures registry.typeDependencies == old(registry.typeDependencies)
    ensures registry.callbackOverrides == old(registry.callbackOverrides)
    ensures registry.MappingFor(components) == old(registry.MappingFor(components))
    ensures (registry.componentMapping == old(registry.componentMapping)
             && registry.componentMappingValues == old(registry.componentMappingValues))
            || (registry.componentMapping == old(registry.MappingFor(components))
                && registry.componentMappingValues == SetOf(components))
    ensures r.Success? && SomeNeedsComponents(getters, getters.Keys, registry.typeDependencies) ==>
              registry.componentMapping == old(registry.MappingFor(components))
              && registry.componentMappingValues == SetOf(components)
    ensures r.Success? && !SomeNeedsComponents(getters, getters.Keys, registry.typeDependencies) ==>
              registry.componentMapping == old(registry.componentMapping)
              && registry.componentMappingValues == old(registry.componentMappingValues)
    ensures r.Success? <==>
              AllResolve(getters, ctx, registry.typeDependencies, registry.callbackOverrides, old(registry.MappingFor(components)))
    ensures r.Success? ==>
              r.value == Arguments(getters, ctx, registry.typeDependencies, registry.callbackOverrides, old(registry.MappingFor(components)))
    ensures r.Failure? ==>
              exists k :: k in getters &&
                Lookup(getters[k], ctx, registry.typeDependencies, registry.callbackOverrides, old(registry.MappingFor(components)))
                  == Failure(r.error)
  {
    ghost var mapping := registry.MappingFor(components);
    var args: map<string, Resolved> := map[];
    var remaining := getters.Keys;
    while remaining != {}
      invariant remaining <= getters.Keys
      invariant args.Keys == getters.Keys - remaining
      invariant forall k :: k in args ==>
                  Lookup(getters[k], ctx, registry.typeDependencies, registry.callbackOverrides, mapping) == Success(args[k])
      invariant registry.Valid() && registry.MappingFor(components) == mapping
      invariant registry.typeDependencies == old(registry.typeDependencies)
      invariant registry.callbackOverrides == old(registry.callbackOverrides)
      invariant (registry.componentMapping == old(registry.componentMapping)
                 && registry.componentMappingValues == old(registry.componentMappingValues))
                || (registry.componentMapping == mapping && registry.componentMappingValues == SetOf(components))
      invariant SomeNeedsComponents(getters, args.Keys, registry.typeDependencies) ==>
                  registry.componentMapping == mapping && registry.componentMappingValues == SetOf(components)
      invariant !SomeNeedsComponents(getters, args.Keys, registry.typeDependencies) ==>
                  registry.componentMapping == old(registry.componentMapping)
                  && registry.componentMappingValues == old(registry.componentMappingValues)
      decreases remaining
    {
      var k :| k in remaining;
      var value := registry.Get(getters[k], ctx, components);
      if value.Failure? {
        return Failure(value.error);
      }
      args := args[k := value.value];
      remaining := remaining - {k};
    }
    assert AllResolve(getters, ctx, registry.typeDependencies, registry.callbackOverrides, mapping);
    return Success(args);
  }

  /**
   * The wrapper. `signature` stands for `inspect.signature(callback)`; the
   * callback's behaviour is supplied to each call as a function from the
   * keyword arguments to its result.
   */
  class InjectableCheck {
    /** The wrapped callback's identity; `signature` and each call's `behaviour` stand for what is done with it. */
    const callback: Callable
    const signature: seq<Parameter>
    var injector: InjectorClient?
    var cachedGetters: Option<map<string, Getter>>
    var isAsync: Option<bool>

    /**
     * Getters are cached only once an injector is set, and they are the
     * resolution of the signature; the flag is fixed only after getters.
     */
    ghost predicate Valid()
      reads this
    {
      && (cachedGetters.Some? ==> injector != null && GettersMatch(signature, cachedGetters.value))
      && (isAsync.Some? ==> cachedGetters.Some?)
    }

    /**
     * `__init__`. The source only annotates `_cached_getters` (line 184);
     * it is evidently meant to start as None, as it does here.
     */
    constructor (callback: Callable, signature: seq<Parameter>)
      ensures Valid()
      ensures this.callback == callback && this.signature == signature
      ensures injector == null && cachedGetters == None && isAsync == None
    {
      this.callback := callback;
      this.signature := signature;
      injector := null;
      cachedGetters := None;
      isAsync := None;
    }

    /** `add_injector`: sets the injector once; a second attempt fails and changes nothing. */
    method AddInjector(client: InjectorClient) returns (r: Outcome<Error>)
      requires Valid()
      modifies this
      ensures Valid()
      ensures old(injector) != null ==> r == Fail(InjectorAlreadySet) && injector == old(injector)
      ensures old(injector) == null ==> r == Pass && injector == client
      ensures cachedGetters == old(cachedGetters) && isAsync == old(isAsync)
    {
      if injector != null {
        return Fail(InjectorAlreadySet);
      }
      injector := client;
      r := Pass;
    }

    /**
     * `__call__`. Resolves the getters on the first call and keeps them,
     * resolves every getter against `ctx` and the host's current
     * `components`, calls the callback with the values by keyword, fixes
     * `is_async` from the first result and settles every result by it.
     * The source passes `*{...}` at line 201, which would hand over the
     * parameter names positionally; the evident intent, `**{...}`, is
     * modelled. Getters are resolved in an unspecified order here.
     */
    method Call(ctx: Context, components: seq<Component>, behaviour: map<string, Resolved> -> CallResult)
      returns (r: Result<bool, Error>)
      requires Valid()
      requires injector != null ==> injector.Valid()
      modifies this, injector
      ensures Valid() && injector == old(injector)
      ensures injector != null ==> injector.Valid()
      ensures old(injector) == null ==>
                r == Failure(InjectorNotSet) && cachedGetters == old(cachedGetters) && isAsync == old(isAsync)
      ensures injector != null ==>
                && injector.typeDependencies == old(injector.typeDependencies)
                && injector.callbackOverrides == old(injector.callbackOverrides)
                && injector.MappingFor(components) == old(injector.MappingFor(components))
                && ((injector.componentMapping == old(injector.componentMapping)
                     && injector.componentMappingValues == old(injector.componentMappingValues))
                    || (injector.componentMapping == old(injector.MappingFor(components))
                        && injector.componentMappingValues == SetOf(components)))
      ensures injector != null && old(cachedGetters).None? && (exists i :: 0 <= i < |signature| && IsRejected(signature[i])) ==>
                && r == Failure(PositionalOnlyInjection)
                && cachedGetters == None && isAsync == old(isAsync)
                && injector.componentMapping == old(injector.componentMapping)
                && injector.componentMappingValues == old(injector.componentMappingValues)
      ensures old(cachedGetters).Some? ==> cachedGetters == old(cachedGetters)
      ensures injector != null && (old(cachedGetters).Some? || !(exists i :: 0 <= i < |signature| && IsRejected(signature[i]))) ==>
                cachedGetters.Some? && GettersMatch(signature, cachedGetters.value)
      ensures injector != null && cachedGetters.Some? ==>
                var getters := cachedGetters.value;
                var mapping := old(injector.MappingFor(components));
                var deps := injector.typeDependencies;
                var overrides := injector.callbackOverrides;
                if AllResolve(getters, ctx, deps, overrides, mapping) then
                  var res := behaviour(Arguments(getters, ctx, deps, overrides, mapping));
                  && (SomeNeedsComponents(getters, getters.Keys, deps) ==>
                        injector.componentMapping == mapping && injector.componentMappingValues == SetOf(components))
                  && (!SomeNeedsComponents(getters, getters.Keys, deps) ==>
                        && injector.componentMapping == old(injector.componentMapping)
                        && injector.componentMappingValues == old(injector.componentMappingValues))
                  && isAsync == (if old(isAsync).None? && !res.Raised? then Some(res.Deferred?) else old(isAsync))
                  && (res.Raised? ==> r == Failure(CallbackRaised(res.exception)))
                  && (!res.Raised? ==> r == Settle(isAsync.value, res))
                else
                  && isAsync == old(isAsync)
                  && r.Failure?
                  && exists k :: k in getters && Lookup(getters[k], ctx, deps, overrides, mapping) == Failure(r.error)
    {
      if injector == null {
        return Failure(InjectorNotSet);
      }
      var registry := injector;
      if cachedGetters.None? {
        var resolved := registry.ResolveCallbackToGetters(signature);
        if resolved.Failure? {
          return Failure(resolved.error);
        }
        cachedGetters := Some(resolved.value);
      }
      var getters := cachedGetters.value;
      var resolved := ResolveArguments(registry, getters, ctx, components);
      if resolved.Failure? {
        return Failure(resolved.error);
      }
      var res := behaviour(resolved.value);
      if res.Raised? {
        return Failure(CallbackRaised(res.exception));
      }
      if isAsync.None? {
        isAsync := Some(res.Deferred?);
      }
      r := Settle(isAsync.value, res);
    }
  }

  /** With a single getter, the arguments are its name bound to its value. */
  lemma SingleArgument(name: string, g: Getter, ctx: Context, deps: map<TypeId, Value>,
                       overrides: map<Callable, Callable>, mapping: map<TypeId, Component>)
    requires Lookup(g, ctx, deps, overrides, mapping).Success?
    ensures AllResolve(map[name := g], ctx, deps, overrides, mapping)
    ensures Arguments(map[name := g], ctx, deps, overrides, mapping) == map[name := Lookup(g, ctx, deps, overrides, mapping).value]
  {
  }

  /**
   * A check before any injector fails, and so does a second injector; the
   * first injector stays attached.
   */
  method LifecycleScenario(client: Client, callback: Callable, ctx: Context, behaviour: map<string, Resolved> -> CallResult)
    returns (early: Result<bool, Error>, first: Outcome<Error>, again: Outcome<Error>)
    ensures early == Failure(InjectorNotSet)
    ensures first == Pass && again == Fail(InjectorAlreadySet)
  {
    var registry := new InjectorClient(client);
    var other := new InjectorClient(client);
    var check := new InjectableCheck(callback, []);
    early := check.Call(ctx, [], behaviour);
    first := check.AddInjector(registry);
    again := check.AddInjector(other);
    assert check.injector == registry;
  }

  /**
   * A `Config` dependency is read on every call: after it is rebound the
   * same check, with the same cached getters, sees the new value.
   */
  method ConfigScenario(client: Client, config: TypeId, cfg1: Value, cfg2: Value, enabled: Value -> bool,
                        callback: Callable, ctx: Context)
    returns (first: Result<bool, Error>, second: Result<bool, Error>)
    requires enabled(cfg1) && !enabled(cfg2)
    ensures first == Success(true) && second == Success(false)
  {
    var registry := new InjectorClient(client);
    registry.AddTypeDependency(config, cfg1);
    var marker := NewInjected(Undefined, Defined(config));
    var signature := [Parameter("cfg", PositionalOrKeyword, InjectedDefault(marker.value))];
    var check := new InjectableCheck(callback, signature);
    var _ := check.AddInjector(registry);
    var behaviour := (args: map<string, Resolved>) =>
      Immediate("cfg" in args && args["cfg"].DependencyValue? && enabled(args["cfg"].value));
    var getters := map["cfg" := InjectorClient.MakeTypeGetter(config)];
    assert GettersOf(signature) == Success(getters) by {
      assert signature[..0] == [];
    }
    GettersOfSpec(signature);
    SingleArgument("cfg", getters["cfg"], ctx, registry.typeDependencies, registry.callbackOverrides, map[]);
    first := check.Call(ctx, [], behaviour);
    GettersMatchUnique(signature, check.cachedGetters.value, getters);
    registry.AddTypeDependency(config, cfg2);
    SingleArgument("cfg", getters["cfg"], ctx, registry.typeDependencies, registry.callbackOverrides, map[]);
    second := check.Call(ctx, [], behaviour);
  }

  /**
   * The first result fixes `is_async`: a later result of the other kind
   * fails instead of being awaited (or not) differently.
   */
  method StickyAsyncScenario(client: Client, callback: Callable, ctx: Context, b: bool)
    returns (first: Result<bool, Error>, second: Result<bool, Error>, flag: Option<bool>)
    ensures first == Success(b) && second == Failure(ResultKindMismatch) && flag == Some(true)
  {
    var registry := new InjectorClient(client);
    var check := new InjectableCheck(callback, []);
    var _ := check.AddInjector(registry);
    first := check.Call(ctx, [], (args: map<string, Resolved>) => Deferred(b));
    second := check.Call(ctx, [], (args: map<string, Resolved>) => Immediate(b));
    flag := check.isAsync;
  }

  /**
   * A callback that raises lets the exception through and leaves `is_async`
   * unset, with the getters already cached; the first call that returns
   * fixes the flag.
   */
  method RaisingCallScenario(client: Client, callback: Callable, ctx: Context, e: Exception, b: bool)
    returns (first: Result<bool, Error>, flagAfterRaise: Option<bool>, second: Result<bool, Error>, flag: Option<bool>)
    ensures first == Failure(CallbackRaised(e)) && flagAfterRaise == None
    ensures second == Success(b) && flag == Some(false)
  {
    var registry := new InjectorClient(client);
    var check := new InjectableCheck(callback, []);
    var _ := check.AddInjector(registry);
    first := check.Call(ctx, [], (args: map<string, Resolved>) => Raised(e));
    flagAfterRaise := check.isAsync;
    second := check.Call(ctx, [], (args: map<string, Resolved>) => Immediate(b));
    flag := check.isAsync;
  }

  /**
   * A call whose getter reaches the component step leaves the registry's
   * cache rebuilt for the host's current components.
   */
  method CacheRefreshScenario(client: Client, c: Component, callback: Callable, ctx: Context)
    returns (r: Result<bool, Error>, snapshot: set<Component>)
    requires IsComponentType(c.runtimeType) && !IsClientType(c.runtimeType)
    ensures r == Success(true) && snapshot == {c}
  {
    var registry := new InjectorClient(client);
    var t := c.runtimeType;
    var signature := [Parameter("component", KeywordOnly, InjectedDefault(InjectType(t)))];
    var check := new InjectableCheck(callback, signature);
    var _ := check.AddInjector(registry);
    var getters := map["component" := InjectorClient.MakeTypeGetter(t)];
    assert GettersOf(signature) == Success(getters) by {
      assert signature[..0] == [];
    }
    GettersOfSpec(signature);
    assert SetOf([c]) == {c};
    SingleArgument("component", getters["component"], ctx, registry.typeDependencies, registry.callbackOverrides, map[t := c]);
    assert SomeNeedsComponents(getters, getters.Keys, registry.typeDependencies);
    r := check.Call(ctx, [c], (args: map<string, Resolved>) => Immediate("component" in args && args["component"] == ComponentValue(c)));
    snapshot := registry.componentMappingValues;
  }

  /** A call whose getters never reach the component step leaves the cache as it was. */
  method CacheUntouchedScenario(client: Client, c: Component, callback: Callable, ctx: Context)
    returns (r: Result<bool, Error>, snapshot: set<Component>)
    ensures r == Success(true) && snapshot == {}
  {
    var registry := new InjectorClient(client);
    var check := new InjectableCheck(callback, []);
    var _ := check.AddInjector(registry);
    r := check.Call(ctx, [c], (args: map<string, Resolved>) => Immediate(true));
    snapshot := registry.componentMappingValues;
  }

  /**
   * Type dependencies: UNDEFINED before an add, the value after it, the
   * newer value after a second add, and other types untouched.
   */
  method DependencyScenario(client: Client, t: TypeId, u: TypeId, v: Value, w: Value, x: Value)
    returns (missing: UndefinedOr<Value>, added: UndefinedOr<Value>, replaced: UndefinedOr<Value>, other: UndefinedOr<Value>)
    requires t != u
    ensures missing == Undefined && added == Defined(v) && replaced == Defined(w) && other == Defined(x)
  {
    var registry := new InjectorClient(client);
    missing := registry.GetTypeDependency(t);
    registry.AddTypeDependency(u, x);
    registry.AddTypeDependency(t, v);
    added := registry.GetTypeDependency(t);
    registry.AddTypeDependency(t, w);
    replaced := registry.GetTypeDependency(t);
    other := registry.GetTypeDependency(u);
  }

  /** An override redirects a callback getter; before it, the callback resolves to itself. */
  method OverrideScenario(client: Client, f: Callable, g: Callable, ctx: Context)
    returns (before: Result<Resolved, Error>, after: Result<Resolved, Error>)
    ensures before == Success(CallableValue(f)) && after == Success(CallableValue(g))
  {
    var registry := new InjectorClient(client);
    var getter := InjectorClient.MakeCallbackGetter(f);
    before := registry.Get(getter, ctx, []);
    registry.AddCallableOverride(f, g);
    after := registry.Get(getter, ctx, []);
  }

  /**
   * A component type resolves to the host's component of exactly that
   * type; once the host drops it, no stale entry survives the rebuild.
   */
  method ComponentScenario(client: Client, c: Component, ctx: Context)
    returns (present: Result<Resolved, Error>, dropped: Result<Resolved, Error>)
    requires IsComponentType(c.runtimeType) && !IsClientType(c.runtimeType) && ctx.component.None?
    ensures present == Success(ComponentValue(c))
    ensures dropped == Failure(Unresolved(c.runtimeType))
  {
    var registry := new InjectorClient(client);
    var getter := InjectorClient.MakeTypeGetter(c.runtimeType);
    assert SetOf([c]) == {c};
    present := registry.Get(getter, ctx, [c]);
    assert SetOf([]) == {};
    dropped := registry.Get(getter, ctx, []);
  }
}

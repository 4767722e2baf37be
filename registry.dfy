/**
 * The injector registry `InjectorClient` (tanjun/injector.py:84-168): type
 * dependencies, callable overrides, the memoised component mapping, the two
 * getter factories and the signature resolver.
 */
module Registry {
  import opened Wrappers
  import opened Injection

  /**
   * A getter: the closure `_make_callback_getter` or `_make_type_getter`
   * returns. A type getter carries the two `issubclass` answers it computed
   * when it was made; everything else it reads when it is applied.
   */
  datatype Getter =
    | CallbackGetter(callback: Callable)
    | TypeGetter(t: TypeId, defaultToClient: bool, tryComponent: bool)

  /** What a getter produces. */
  datatype Resolved =
    | DependencyValue(value: Value)
    | ClientValue(client: Client)
    | ComponentValue(component: Component)
    | CallableValue(callable: Callable)

  /** The set of a sequence's elements (`set(client.components)`). */
  function SetOf(cs: seq<Component>): set<Component>
  {
    set c | c in cs
  }

  /** The runtime types of a set of components. */
  function TypesOf(live: set<Component>): set<TypeId>
  {
    set c | c in live :: RuntimeType(c)
  }

  /**
   * `{type(component): component for component in components}`: a later
   * component replaces an earlier one of the same runtime type.
   */
  function MappingOf(cs: seq<Component>): map<TypeId, Component>
  {
    if cs == [] then map[]
    else MappingOf(cs[..|cs| - 1])[RuntimeType(cs[|cs| - 1]) := cs[|cs| - 1]]
  }

  /**
   * What the cache keeps true of a mapping and the component set it was
   * built from: its keys are exactly their runtime types, and each key maps
   * to one of them whose runtime type is exactly that key.
   */
  predicate ComponentMappingValid(mapping: map<TypeId, Component>, live: set<Component>)
  {
    && mapping.Keys == TypesOf(live)
    && forall t :: t in mapping ==> mapping[t] in live && RuntimeType(mapping[t]) == t
  }

  /** No two of the components share a runtime type. */
  predicate UniqueRuntimeTypes(live: set<Component>)
  {
    forall c, d :: c in live && d in live && RuntimeType(c) == RuntimeType(d) ==> c == d
  }

  /** The rebuilt mapping is exact for the components it was built from. */
  lemma {:induction false} MappingOfValid(cs: seq<Component>)
    ensures ComponentMappingValid(MappingOf(cs), SetOf(cs))
  {
    if cs != [] {
      var init, last := cs[..|cs| - 1], cs[|cs| - 1];
      assert cs == init + [last];
      assert SetOf(cs) == SetOf(init) + {last};
      MappingOfValid(init);
      assert TypesOf(SetOf(cs)) == TypesOf(SetOf(init)) + {RuntimeType(last)};
    }
  }

  /** A component that no later component's runtime type shadows is the one mapped. */
  lemma {:induction false} MappingOfLastWins(cs: seq<Component>, i: nat)
    requires i < |cs|
    requires forall j :: i < j < |cs| ==> RuntimeType(cs[j]) != RuntimeType(cs[i])
    ensures RuntimeType(cs[i]) in MappingOf(cs) && MappingOf(cs)[RuntimeType(cs[i])] == cs[i]
  {
    if i < |cs| - 1 {
      var init := cs[..|cs| - 1];
      assert init[i] == cs[i];
      MappingOfLastWins(init, i);
    }
  }

  /** With unique runtime types, a valid mapping is fixed by the component set alone. */
  lemma ValidMappingIsUnique(m1: map<TypeId, Component>, m2: map<TypeId, Component>, live: set<Component>)
    requires ComponentMappingValid(m1, live) && ComponentMappingValid(m2, live)
    requires UniqueRuntimeTypes(live)
    ensures m1 == m2
  {
    forall t | t in m1
      ensures m1[t] == m2[t]
    {
      assert t in m2;
    }
  }

  /**
   * With unique runtime types, the rebuilt mapping does not depend on the
   * order the host lists its components in.
   */
  lemma MappingOfOrderIrrelevant(cs: seq<Component>, ds: seq<Component>)
    requires SetOf(cs) == SetOf(ds) && UniqueRuntimeTypes(SetOf(cs))
    ensures MappingOf(cs) == MappingOf(ds)
  {
    MappingOfValid(cs);
    MappingOfValid(ds);
    ValidMappingIsUnique(MappingOf(cs), MappingOf(ds), SetOf(cs));
  }

  /** Applying the getter looks at the component mapping (line 139 is reached). */
  predicate NeedsComponents(g: Getter, deps: map<TypeId, Value>)
  {
    g.TypeGetter? && g.t !in deps && !g.defaultToClient && g.tryComponent
  }

  /**
   * The decision logic of the two getter closures (lines 121-122 and
   * 130-146), given the registry's dictionaries and the component mapping
   * in effect. Every component is taken to be truthy.
   */
  function Lookup(g: Getter, ctx: Context, deps: map<TypeId, Value>, overrides: map<Callable, Callable>,
                  mapping: map<TypeId, Component>): Result<Resolved, Error>
  {
    match g
    case CallbackGetter(f) =>
      Success(CallableValue(if f in overrides then overrides[f] else f))
    case TypeGetter(t, defaultToClient, tryComponent) =>
      if t in deps then Success(DependencyValue(deps[t]))
      else if defaultToClient then Success(ClientValue(ctx.client))
      else if tryComponent && t in mapping then Success(ComponentValue(mapping[t]))
      else if tryComponent && ctx.component.Some? then Success(ComponentValue(ctx.component.value))
      else Failure(Unresolved(t))
  }

  /**
   * The cache-free resolution order over the host's live component set: a registered dependency, else the client,
   * else some live component whose runtime type is exactly `t`, else the
   * context's component, else an error naming `t`.
   */
  predicate Admissible(g: Getter, ctx: Context, deps: map<TypeId, Value>, overrides: map<Callable, Callable>,
                       live: set<Component>, r: Result<Resolved, Error>)
  {
    match g
    case CallbackGetter(f) =>
      r == Success(CallableValue(if f in overrides then overrides[f] else f))
    case TypeGetter(t, defaultToClient, tryComponent) =>
      if t in deps then r == Success(DependencyValue(deps[t]))
      else if defaultToClient then r == Success(ClientValue(ctx.client))
      else if tryComponent && t in TypesOf(live) then
        r.Success? && r.value.ComponentValue? && r.value.component in live && RuntimeType(r.value.component) == t
      else if tryComponent && ctx.component.Some? then r == Success(ComponentValue(ctx.component.value))
      else r == Failure(Unresolved(t))
  }

  /** Looking up through a mapping the cache keeps valid meets the cache-free order. */
  lemma LookupAdmissible(g: Getter, ctx: Context, deps: map<TypeId, Value>, overrides: map<Callable, Callable>,
                         mapping: map<TypeId, Component>, live: set<Component>)
    requires ComponentMappingValid(mapping, live)
    ensures Admissible(g, ctx, deps, overrides, live, Lookup(g, ctx, deps, overrides, mapping))
  {
  }

  /** The getter the resolver makes for a marker: a callback getter iff the marker holds a callback. */
  function GetterFor(m: Injected): (g: Getter)
    ensures g.CallbackGetter? <==> m.Callback().Defined?
    ensures g.CallbackGetter? ==> m.Callback() == Defined(g.callback)
    ensures g.TypeGetter? ==> m.Type() == Defined(g.t)
    ensures g.TypeGetter? ==> g.defaultToClient == IsClientType(g.t) && g.tryComponent == IsComponentType(g.t)
  {
    match m
    case InjectCallback(f) => InjectorClient.MakeCallbackGetter(f)
    case InjectType(t) => InjectorClient.MakeTypeGetter(t)
  }

  /** No later injection point of `params` has the same name as the one at `i`. */
  predicate LastInjectedNamed(params: seq<Parameter>, i: nat)
    requires i < |params|
  {
    forall j :: i < j < |params| && IsInjected(params[j]) ==> params[j].name != params[i].name
  }

  /**
   * `getters` is what resolving `params` yields: one entry per injection
   * point's name, holding the getter for that name's last marker.
   */
  predicate GettersMatch(params: seq<Parameter>, getters: map<string, Getter>)
  {
    && getters.Keys == InjectedNames(params)
    && forall i :: 0 <= i < |params| && IsInjected(params[i]) && LastInjectedNamed(params, i) ==>
         params[i].name in getters && getters[params[i].name] == GetterFor(params[i].defaultValue.marker)
  }

  /** One more parameter extends the resolution of the ones before it. */
  lemma GettersMatchStep(ps: seq<Parameter>, p: Parameter, getters: map<string, Getter>)
    requires GettersMatch(ps, getters)
    ensures GettersMatch(ps + [p], if IsInjected(p) then getters[p.name := GetterFor(p.defaultValue.marker)] else getters)
  {
    var qs := ps + [p];
    var after := if IsInjected(p) then getters[p.name := GetterFor(p.defaultValue.marker)] else getters;
    assert InjectedNames(qs) == InjectedNames(ps) + (if IsInjected(p) then {p.name} else {}) by {
      assert forall q :: q in qs <==> q in ps || q == p;
    }
    forall i | 0 <= i < |qs| && IsInjected(qs[i]) && LastInjectedNamed(qs, i)
      ensures qs[i].name in after && after[qs[i].name] == GetterFor(qs[i].defaultValue.marker)
    {
      if i < |ps| {
        assert qs[i] == ps[i];
        assert LastInjectedNamed(ps, i) by {
          forall j | i < j < |ps| && IsInjected(ps[j])
            ensures ps[j].name != ps[i].name
          {
            assert qs[j] == ps[j];
          }
        }
        assert IsInjected(p) ==> p.name != ps[i].name by {
          assert qs[|ps|] == p;
        }
      }
    }
  }

  /**
   * The resolver's loop as a left fold over the signature: the first
   * positional-only injection point raises; every other injection point
   * sets its name to its marker's getter.
   */
  function GettersOf(params: seq<Parameter>): Result<map<string, Getter>, Error>
  {
    if params == [] then Success(map[])
    else
      var prior := GettersOf(params[..|params| - 1]);
      var p := params[|params| - 1];
      if prior.Failure? || !IsInjected(p) then prior
      else if p.kind == PositionalOnly then Failure(PositionalOnlyInjection)
      else Success(prior.value[p.name := GetterFor(p.defaultValue.marker)])
  }

  /**
   * The fold fails exactly when some injection point is positional-only,
   * and otherwise yields the map `GettersMatch` describes.
   */
  lemma {:induction false} GettersOfSpec(params: seq<Parameter>)
    ensures GettersOf(params).Failure? <==> exists i :: 0 <= i < |params| && IsRejected(params[i])
    ensures GettersOf(params).Failure? ==> GettersOf(params).error == PositionalOnlyInjection
    ensures GettersOf(params).Success? ==> GettersMatch(params, GettersOf(params).value)
  {
    if params != [] {
      var n := |params| - 1;
      var init, p := params[..n], params[n];
      assert params == init + [p];
      GettersOfSpec(init);
      if GettersOf(init).Success? {
        GettersMatchStep(init, p, GettersOf(init).value);
      }
      assert (exists i :: 0 <= i < |params| && IsRejected(params[i])) <==>
             (exists i :: 0 <= i < |init| && IsRejected(init[i])) || IsRejected(p) by {
        forall i | 0 <= i < n
          ensures params[i] == init[i]
        {
        }
      }
    }
  }

  /** Resolving a signature determines the getter map completely. */
  lemma {:induction false} GettersMatchUnique(params: seq<Parameter>, g1: map<string, Getter>, g2: map<string, Getter>)
    requires GettersMatch(params, g1) && GettersMatch(params, g2)
    ensures g1 == g2
  {
    forall k | k in g1
      ensures g1[k] == g2[k]
    {
      var i := LastInjectedIndex(params, k);
    }
  }

  /** The index of the last injection point called `k`. */
  lemma {:induction false} LastInjectedIndexExists(params: seq<Parameter>, k: string)
    requires k in InjectedNames(params)
    ensures exists i :: 0 <= i < |params| && IsInjected(params[i]) && params[i].name == k && LastInjectedNamed(params, i)
  {
    var n := |params| - 1;
    var init := params[..n];
    assert params == init + [params[n]];
    if !(IsInjected(params[n]) && params[n].name == k) {
      assert k in InjectedNames(init) by {
        var p :| p in params && IsInjected(p) && p.name == k;
        assert p in init;
      }
      LastInjectedIndexExists(init, k);
      var i :| 0 <= i < |init| && IsInjected(init[i]) && init[i].name == k && LastInjectedNamed(init, i);
      assert params[i] == init[i];
      assert LastInjectedNamed(params, i) by {
        forall j | i < j < |params| && IsInjected(params[j])
          ensures params[j].name != params[i].name
        {
          if j < n { assert params[j] == init[j]; }
        }
      }
    } else {
      assert LastInjectedNamed(params, n);
    }
  }

  /** A witness for `LastInjectedIndexExists`. */
  lemma LastInjectedIndex(params: seq<Parameter>, k: string) returns (i: nat)
    requires k in InjectedNames(params)
    ensures i < |params| && IsInjected(params[i]) && params[i].name == k && LastInjectedNamed(params, i)
  {
    LastInjectedIndexExists(params, k);
    i :| 0 <= i < |params| && IsInjected(params[i]) && params[i].name == k && LastInjectedNamed(params, i);
  }

  /**
   * The registry. The host client's current components are not a field
   * here: the source reads `self._client.components` afresh on each use, so
   * every operation that reads them takes them as a parameter.
   */
  class InjectorClient {
    /** `self._client`, kept for its identity; the components it lists are passed to each operation. */
    const client: Client
    var callbackOverrides: map<Callable, Callable>
    var typeDependencies: map<TypeId, Value>
    var componentMapping: map<TypeId, Component>
    var componentMappingValues: set<Component>

    /** The memoised mapping is exact for the snapshot it was built from. */
    ghost predicate Valid()
      reads this
    {
      ComponentMappingValid(componentMapping, componentMappingValues)
    }

    constructor (client: Client)
      ensures Valid()
      ensures this.client == client
      ensures callbackOverrides == map[] && typeDependencies == map[]
      ensures componentMapping == map[] && componentMappingValues == {}
    {
      this.client := client;
      callbackOverrides := map[];
      typeDependencies := map[];
      componentMapping := map[];
      componentMappingValues := {};
    }

    /** `add_type_dependency`: binds `t` to `v`, replacing any earlier binding. */
    method AddTypeDependency(t: TypeId, v: Value)
      modifies this
      ensures typeDependencies == old(typeDependencies)[t := v]
      ensures callbackOverrides == old(callbackOverrides)
      ensures componentMapping == old(componentMapping) && componentMappingValues == old(componentMappingValues)
    {
      typeDependencies := typeDependencies[t := v];
    }

    /** `get_type_dependency`: the bound value, or UNDEFINED (never an error) for an unbound type. */
    function GetTypeDependency(t: TypeId): (r: UndefinedOr<Value>)
      reads this
      ensures r.Defined? <==> t in typeDependencies
      ensures r.Defined? ==> r.value == typeDependencies[t]
    {
      if t in typeDependencies then Defined(typeDependencies[t]) else Undefined
    }

    /** `add_callable_override`: redirects `callback` to `override`, replacing any earlier override. */
    method AddCallableOverride(callback: Callable, override: Callable)
      modifies this
      ensures callbackOverrides == old(callbackOverrides)[callback := override]
      ensures typeDependencies == old(typeDependencies)
      ensures componentMapping == old(componentMapping) && componentMappingValues == old(componentMappingValues)
    {
      callbackOverrides := callbackOverrides[callback := override];
    }

    /** `get_callable_override`: the override, or None when there is none. */
    function GetCallableOverride(callback: Callable): (r: Option<Callable>)
      reads this
      ensures r.Some? <==> callback in callbackOverrides
      ensures r.Some? ==> r.value == callbackOverrides[callback]
    {
      if callback in callbackOverrides then Some(callbackOverrides[callback]) else None
    }

    /** The mapping `_get_component_mapping` returns when the host lists `components`. */
    function MappingFor(components: seq<Component>): (m: map<TypeId, Component>)
      reads this
      requires Valid()
      ensures ComponentMappingValid(m, SetOf(components))
    {
      if componentMappingValues != SetOf(components) then
        MappingOfValid(components);
        MappingOf(components)
      else componentMapping
    }

    /**
     * `_get_component_mapping`: rebuilds the mapping and the snapshot when
     * the snapshot differs from the host's current component set, and
     * otherwise returns the cached mapping untouched.
     */
    method GetComponentMapping(components: seq<Component>) returns (m: map<TypeId, Component>)
      requires Valid()
      modifies this
      ensures Valid()
      ensures m == componentMapping && componentMappingValues == SetOf(components)
      ensures old(componentMappingValues) == SetOf(components) ==> m == old(componentMapping)
      ensures old(componentMappingValues) != SetOf(components) ==> m == MappingOf(components)
      ensures ComponentMappingValid(m, SetOf(components))
      ensures typeDependencies == old(typeDependencies) && callbackOverrides == old(callbackOverrides)
    {
      if componentMappingValues != SetOf(components) {
        componentMapping := map[];
        componentMapping := MappingOf(components);
        componentMappingValues := SetOf(components);
        MappingOfValid(components);
      }
      m := componentMapping;
    }

    /**
     * `_make_callback_getter`: the getter yields the override registered for
     * `callback` when it is applied, or `callback` itself, whatever the
     * context, the dependencies or the component mapping.
     */
    static function MakeCallbackGetter(callback: Callable): (g: Getter)
      ensures g.CallbackGetter? && g.callback == callback
      ensures forall ctx, deps, overrides, mapping ::
                Lookup(g, ctx, deps, overrides, mapping)
                  == Success(CallableValue(if callback in overrides then overrides[callback] else callback))
    {
      CallbackGetter(callback)
    }

    /**
     * `_make_type_getter`: the getter, applied, tries a registered
     * dependency for `t`, then (for a Client-derived `t`) the context's
     * client, then (for a Component-derived `t`) the component of exactly
     * that runtime type and after it the context's component, and otherwise
     * fails naming `t`. The `issubclass` answers are taken now, once. The
     * source imports `traits` only for type checking (lines 38-39), so as
     * written the `issubclass` calls at lines 127-128 raise NameError; the
     * evident intent, a working test, is modelled by the answers `t` carries.
     */
    static function MakeTypeGetter(t: TypeId): (g: Getter)
      ensures g.TypeGetter? && g.t == t
      ensures g.defaultToClient == IsClientType(t) && g.tryComponent == IsComponentType(t)
      ensures forall ctx, deps, overrides, mapping :: t in deps ==>
                Lookup(g, ctx, deps, overrides, mapping) == Success(DependencyValue(deps[t]))
      ensures forall ctx, deps, overrides, mapping :: t !in deps && IsClientType(t) ==>
                Lookup(g, ctx, deps, overrides, mapping) == Success(ClientValue(ctx.client))
      ensures forall ctx, deps, overrides, mapping: map<TypeId, Component> ::
                t !in deps && !IsClientType(t) && IsComponentType(t) && t in mapping ==>
                  Lookup(g, ctx, deps, overrides, mapping) == Success(ComponentValue(mapping[t]))
      ensures forall ctx: Context, deps, overrides, mapping ::
                t !in deps && !IsClientType(t) && IsComponentType(t) && t !in mapping && ctx.component.Some? ==>
                  Lookup(g, ctx, deps, overrides, mapping) == Success(ComponentValue(ctx.component.value))
      ensures forall ctx: Context, deps, overrides, mapping ::
                t !in deps && !IsClientType(t) && (!IsComponentType(t) || (t !in mapping && ctx.component.None?)) ==>
                  Lookup(g, ctx, deps, overrides, mapping) == Failure(Unresolved(t))
    {
      TypeGetter(t, IsClientType(t), IsComponentType(t))
    }

    /**
     * Applies a getter to a context (calls the closure). Only a type
     * getter that reaches the component step refreshes the cache; the
     * result follows the cache-free order over the current component set.
     */
    method Get(g: Getter, ctx: Context, components: seq<Component>) returns (r: Result<Resolved, Error>)
      requires Valid()
      modifies this
      ensures Valid()
      ensures r == Lookup(g, ctx, typeDependencies, callbackOverrides, old(MappingFor(components)))
      ensures Admissible(g, ctx, typeDependencies, callbackOverrides, SetOf(components), r)
      ensures UniqueRuntimeTypes(SetOf(components)) ==>
                r == Lookup(g, ctx, typeDependencies, callbackOverrides, MappingOf(components))
      ensures typeDependencies == old(typeDependencies) && callbackOverrides == old(callbackOverrides)
      ensures NeedsComponents(g, typeDependencies) ==>
                componentMapping == old(MappingFor(components)) && componentMappingValues == SetOf(components)
      ensures !NeedsComponents(g, typeDependencies) ==>
                componentMapping == old(componentMapping) && componentMappingValues == old(componentMappingValues)
      ensures MappingFor(components) == old(MappingFor(components))
    {
      ghost var cached := MappingFor(components);
      if UniqueRuntimeTypes(SetOf(components)) {
        MappingOfValid(components);
        ValidMappingIsUnique(cached, MappingOf(components), SetOf(components));
      }
      LookupAdmissible(g, ctx, typeDependencies, callbackOverrides, cached, SetOf(components));
      match g
      case CallbackGetter(f) =>
        r := Success(CallableValue(if f in callbackOverrides then callbackOverrides[f] else f));
      case TypeGetter(t, defaultToClient, tryComponent) =>
        if t in typeDependencies {
          r := Success(DependencyValue(typeDependencies[t]));
          return;
        }
        if defaultToClient {
          r := Success(ClientValue(ctx.client));
          return;
        }
        if tryComponent {
          var mapping := GetComponentMapping(components);
          if t in mapping {
            r := Success(ComponentValue(mapping[t]));
            return;
          }
          // The lenient fallback the source itself questions (line 142).
          if ctx.component.Some? {
            r := Success(ComponentValue(ctx.component.value));
            return;
          }
        }
        r := Failure(Unresolved(t));
    }

    /**
     * `resolve_callback_to_getters`, over an explicit parameter list in
     * signature order. Deviations from the code as written, following its
     * evident intent: the filter at line 155 skips exactly the parameters
     * whose default is not an `Injected` (as written its test is always
     * true and passes its `isinstance` arguments swapped), and the test at
     * line 161 asks whether a callback was given (as written the truthy
     * UNDEFINED would always pick the callback getter).
     */
    method ResolveCallbackToGetters(params: seq<Parameter>) returns (r: Result<map<string, Getter>, Error>)
      ensures r.Failure? <==> exists i :: 0 <= i < |params| && IsRejected(params[i])
      ensures r.Failure? ==> r.error == PositionalOnlyInjection
      ensures r.Success? ==> GettersMatch(params, r.value)
    {
      var getters: map<string, Getter> := map[];
      var i := 0;
      while i < |params|
        invariant 0 <= i <= |params|
        invariant GettersOf(params[..i]) == Success(getters)
      {
        var p := params[i];
        assert params[..i + 1][..i] == params[..i];
        if !IsInjected(p) {
          i := i + 1;
          continue;
        }
        if p.kind == PositionalOnly {
          return Failure(PositionalOnlyInjection);
        }
        var getter;
        match p.defaultValue.marker {
          case InjectCallback(f) =>
            getter := MakeCallbackGetter(f);
          case InjectType(t) =>
            getter := MakeTypeGetter(t);
        }
        assert getter == GetterFor(p.defaultValue.marker);
        getters := getters[p.name := getter];
        i := i + 1;
      }
      assert params[..i] == params;
      GettersOfSpec(params);
      return Success(getters);
    }
  }

  /**
   * A type getter's resolution order (lines 130-146): a registered
   * dependency first, even for a Client- or Component-derived type; then
   * the client; then the exact-type component; then the context's
   * component; else an error naming the type. A corollary of the contract
   * of `MakeTypeGetter`, stated here as one lemma.
   */
  lemma TypeGetterOrder(t: TypeId, ctx: Context, deps: map<TypeId, Value>, overrides: map<Callable, Callable>,
                        mapping: map<TypeId, Component>)
    ensures t in deps ==>
              Lookup(InjectorClient.MakeTypeGetter(t), ctx, deps, overrides, mapping) == Success(DependencyValue(deps[t]))
    ensures t !in deps && IsClientType(t) ==>
              Lookup(InjectorClient.MakeTypeGetter(t), ctx, deps, overrides, mapping) == Success(ClientValue(ctx.client))
    ensures t !in deps && !IsClientType(t) && IsComponentType(t) && t in mapping ==>
              Lookup(InjectorClient.MakeTypeGetter(t), ctx, deps, overrides, mapping) == Success(ComponentValue(mapping[t]))
    ensures t !in deps && !IsClientType(t) && IsComponentType(t) && t !in mapping && ctx.component.Some? ==>
              Lookup(InjectorClient.MakeTypeGetter(t), ctx, deps, overrides, mapping) == Success(ComponentValue(ctx.component.value))
    ensures t !in deps && !IsClientType(t) && (!IsComponentType(t) || (t !in mapping && ctx.component.None?)) ==>
              Lookup(InjectorClient.MakeTypeGetter(t), ctx, deps, overrides, mapping) == Failure(Unresolved(t))
  {
  }

  /**
   * A type that is neither Client- nor Component-derived and has no
   * dependency never resolves, whatever the context holds. A corollary of
   * the last clause of the contract of `MakeTypeGetter`.
   */
  lemma PlainTypeNeverResolves(t: TypeId, ctx: Context, deps: map<TypeId, Value>, overrides: map<Callable, Callable>,
                               mapping: map<TypeId, Component>)
    requires t !in deps && !IsClientType(t) && !IsComponentType(t)
    ensures Lookup(InjectorClient.MakeTypeGetter(t), ctx, deps, overrides, mapping) == Failure(Unresolved(t))
  {
  }

  /**
   * A callback getter yields the override if there is one, else the
   * callback, whatever the context. A corollary of the contract of
   * `MakeCallbackGetter`.
   */
  lemma CallbackGetterIgnoresContext(f: Callable, ctx: Context, deps: map<TypeId, Value>,
                                     overrides: map<Callable, Callable>, mapping: map<TypeId, Component>)
    ensures f in overrides ==>
              Lookup(InjectorClient.MakeCallbackGetter(f), ctx, deps, overrides, mapping) == Success(CallableValue(overrides[f]))
    ensures f !in overrides ==>
              Lookup(InjectorClient.MakeCallbackGetter(f), ctx, deps, overrides, mapping) == Success(CallableValue(f))
  {
  }
}

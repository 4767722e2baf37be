/**
 * The values the injector works with: the UNDEFINED sentinel, the
 * `Injected` parameter marker, the host's types, components and contexts,
 * callback parameters as a signature lists them, and the errors the
 * injector raises (tanjun/injector.py).
 */
module Injection {
  import opened Wrappers

  /** Any value a type dependency can be bound to. */
  type Value(==, !new)

  /** A callable, compared by identity (used as a dictionary key). */
  type Callable(==, !new)

  /** A host client object (the `traits.Client` protocol is not modelled). */
  type Client(==, !new)

  /** The identity of a component object. */
  type ComponentId(==, !new)

  /** The identity of a Python class (classes are dictionary keys compared by identity, not by name). */
  type ClassId(==, !new)

  /**
   * A Python type together with the two `issubclass` facts the injector
   * asks of it: derived from `traits.Client`, derived from `traits.Component`.
   */
  datatype TypeId = TypeId(identity: ClassId, subclassesClient: bool, subclassesComponent: bool)

  /** `issubclass(t, traits.Client)` */
  predicate IsClientType(t: TypeId) { t.subclassesClient }

  /** `issubclass(t, traits.Component)` */
  predicate IsComponentType(t: TypeId) { t.subclassesComponent }

  /** A component object together with its runtime type. */
  datatype Component = Component(id: ComponentId, runtimeType: TypeId)

  /** `type(component)` */
  function RuntimeType(c: Component): TypeId { c.runtimeType }

  /** The invocation context: its client and its current component, if any. */
  datatype Context = Context(client: Client, component: Option<Component>)

  /**
   * `UndefinedOr[T]`: the UNDEFINED sentinel is the constructor `Undefined`,
   * distinct from every supplied value (including falsy ones).
   */
  datatype UndefinedOr<+T> = Undefined | Defined(value: T)

  /** An exception the wrapped callback raises. */
  type Exception(==, !new)

  /** The errors the injector raises, or lets through from the callback. */
  datatype Error =
    | NoSourceGiven            // Injected(): neither `callback` nor `type`
    | BothSourcesGiven         // Injected(): both `callback` and `type`
    | PositionalOnlyInjection  // an injected parameter is positional-only
    | Unresolved(t: TypeId)    // a type getter ran out of sources for `t`
    | InjectorAlreadySet       // add_injector on a check that has one
    | InjectorNotSet           // a check called before add_injector
    | ResultKindMismatch       // a result that contradicts the cached is_async flag
    | CallbackRaised(exception: Exception)  // the wrapped callback raised

  /**
   * An `Injected` marker: it holds exactly one of a zero-argument callback
   * and a type, so a marker that holds neither or both cannot be written.
   */
  datatype Injected = InjectCallback(callback: Callable) | InjectType(target: TypeId)
  {
    /** The marker's `callback` attribute. */
    function Callback(): UndefinedOr<Callable>
    {
      if InjectCallback? then Defined(callback) else Undefined
    }

    /** The marker's `type` attribute. */
    function Type(): UndefinedOr<TypeId>
    {
      if InjectType? then Defined(target) else Undefined
    }
  }

  /**
   * `Injected(callback=..., type=...)`: succeeds exactly when one of the two
   * is supplied, and the marker it builds reports back what was supplied.
   */
  function NewInjected(callback: UndefinedOr<Callable>, target: UndefinedOr<TypeId>): (r: Result<Injected, Error>)
    ensures r.Success? <==> (callback.Defined? != target.Defined?)
    ensures r.Success? ==> r.value.Callback() == callback && r.value.Type() == target
    ensures callback.Undefined? && target.Undefined? ==> r == Failure(NoSourceGiven)
    ensures callback.Defined? && target.Defined? ==> r == Failure(BothSourcesGiven)
  {
    if callback.Undefined? && target.Undefined? then Failure(NoSourceGiven)
    else if callback.Defined? && target.Defined? then Failure(BothSourcesGiven)
    else if callback.Defined? then Success(InjectCallback(callback.value))
    else Success(InjectType(target.value))
  }

  /** Every marker is what the constructor builds from its own two attributes. */
  lemma NewInjectedRoundTrip(m: Injected)
    ensures NewInjected(m.Callback(), m.Type()) == Success(m)
  {
  }

  /** `inspect.Parameter.kind` */
  datatype ParamKind = PositionalOnly | PositionalOrKeyword | VarPositional | KeywordOnly | VarKeyword

  /** A parameter's default: none, an `Injected` marker, or any other value. */
  datatype ParamDefault = NoDefault | InjectedDefault(marker: Injected) | PlainDefault(value: Value)

  /** One parameter of a callback's signature. */
  datatype Parameter = Parameter(name: string, kind: ParamKind, defaultValue: ParamDefault)

  /** The parameter is an injection point: its default is an `Injected`. */
  predicate IsInjected(p: Parameter) { p.defaultValue.InjectedDefault? }

  /** An injection point the resolver refuses: it is positional-only. */
  predicate IsRejected(p: Parameter) { IsInjected(p) && p.kind == PositionalOnly }

  /** The names of the injection points among `params`. */
  function InjectedNames(params: seq<Parameter>): set<string>
  {
    set p | p in params && IsInjected(p) :: p.name
  }
}

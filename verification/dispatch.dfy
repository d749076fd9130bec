/** `Aggregate::create`: builds an aggregate from the new catalog, falling back
    to the legacy registry, and failing when neither knows the name. */
module Dispatch {
  import opened Wrappers
  import opened Steps
  import opened Registry

  /** The legacy registry's own creation routine. Its matching logic is not
      part of this model; it answers with an object, a null pointer when it
      cannot build one, or an error it raises. */
  type LegacyCreate = (string, Step, seq<TypePtr>, TypePtr) -> Product

  /** The fixed text before the function name in the not-registered error. */
  const NotRegisteredPrefix: string := "Aggregate function not registered: "

  /** The user error raised when no registry can build `name`. */
  function NotRegistered(name: string): (e: Error)
    ensures e.kind == UserError
    ensures |e.message| == |NotRegisteredPrefix| + |name|
    ensures e.message[..|NotRegisteredPrefix|] == NotRegisteredPrefix
    ensures e.message[|NotRegisteredPrefix|..] == name
  {
    Error(UserError, NotRegisteredPrefix + name)
  }

  /** Builds the aggregate `name` for `step`, `argTypes` and `resultType`. */
  function Create(functions: FunctionMap, legacy: LegacyCreate, name: string, step: Step,
                  argTypes: seq<TypePtr>, resultType: TypePtr): (r: Product)
    // a registered name is built by its own factory, whatever the factory answers
    ensures name in functions ==> r == functions[name].factory(step, argTypes, resultType)
    // an unregistered name is handed to the legacy registry with the same arguments
    ensures name !in functions && legacy(name, step, argTypes, resultType) != Success(Null)
            ==> r == legacy(name, step, argTypes, resultType)
    // and a null from the legacy registry becomes the not-registered error
    ensures name !in functions && legacy(name, step, argTypes, resultType) == Success(Null)
            ==> r == Failure(NotRegistered(name))
    // the dispatcher itself never turns a legacy miss into a null pointer
    ensures r == Success(Null) ==> name in functions
  {
    match GetEntry(functions, name)
    case Some(entry) => entry.factory(step, argTypes, resultType)
    case None =>
      var legacyProduct := legacy(name, step, argTypes, resultType);
      if legacyProduct == Success(Null) then Failure(NotRegistered(name)) else legacyProduct
  }

  /** Registering a function and then creating it calls exactly the factory
      just registered, with exactly the arguments given, and returns its
      product unchanged. */
  lemma CreateAfterRegister(functions: FunctionMap, legacy: LegacyCreate, name: string,
                            signatures: seq<Signature>, factory: Factory,
                            step: Step, argTypes: seq<TypePtr>, resultType: TypePtr)
    ensures Create(Registered(functions, name, signatures, factory), legacy, name, step, argTypes, resultType)
         == factory(step, argTypes, resultType)
  {
  }

  /** After two registrations of one name only the second factory is used. */
  lemma CreateAfterReregister(functions: FunctionMap, legacy: LegacyCreate, name: string,
                              signatures1: seq<Signature>, factory1: Factory,
                              signatures2: seq<Signature>, factory2: Factory,
                              step: Step, argTypes: seq<TypePtr>, resultType: TypePtr)
    ensures Create(Registered(Registered(functions, name, signatures1, factory1), name, signatures2, factory2),
                   legacy, name, step, argTypes, resultType)
         == factory2(step, argTypes, resultType)
  {
    LastWriterWins(functions, name, signatures1, factory1, signatures2, factory2);
  }

  /** For a name in the new catalog the legacy registry is not consulted:
      any two legacy registries give the same outcome. */
  lemma RegisteredIgnoresLegacy(functions: FunctionMap, legacy1: LegacyCreate, legacy2: LegacyCreate,
                                name: string, step: Step, argTypes: seq<TypePtr>, resultType: TypePtr)
    requires name in functions
    ensures Create(functions, legacy1, name, step, argTypes, resultType)
         == Create(functions, legacy2, name, step, argTypes, resultType)
  {
  }

  /** For a name missing from the new catalog no factory of the catalog is
      used: any two catalogs without the name give the same outcome. */
  lemma UnregisteredIgnoresCatalog(functions1: FunctionMap, functions2: FunctionMap, legacy: LegacyCreate,
                                   name: string, step: Step, argTypes: seq<TypePtr>, resultType: TypePtr)
    requires name !in functions1 && name !in functions2
    ensures Create(functions1, legacy, name, step, argTypes, resultType)
         == Create(functions2, legacy, name, step, argTypes, resultType)
  {
  }

  /** With the name registered nowhere, creation fails with a user error whose
      message carries the requested name. */
  lemma CreateUnknownFails(functions: FunctionMap, legacy: LegacyCreate, name: string, step: Step,
                           argTypes: seq<TypePtr>, resultType: TypePtr)
    requires name !in functions
    requires legacy(name, step, argTypes, resultType) == Success(Null)
    ensures var r := Create(functions, legacy, name, step, argTypes, resultType);
            r.Failure? && r.error.kind == UserError
            && r.error.message == NotRegisteredPrefix + name
  {
  }

  /** A resolver strategy: builds the aggregate, or declines with `None`. */
  type Resolver = (string, Step, seq<TypePtr>, TypePtr) -> Option<Product>

  /** The outcome of the first resolver in `resolvers` that does not decline. */
  function FirstResolved(resolvers: seq<Resolver>, name: string, step: Step,
                         argTypes: seq<TypePtr>, resultType: TypePtr): (r: Option<Product>)
    ensures r.None? <==> forall i :: 0 <= i < |resolvers| ==> resolvers[i](name, step, argTypes, resultType).None?
    ensures r.Some? ==> exists i :: 0 <= i < |resolvers| && resolvers[i](name, step, argTypes, resultType) == r
                                    && forall j :: 0 <= j < i ==> resolvers[j](name, step, argTypes, resultType).None?
    decreases |resolvers|
  {
    if |resolvers| == 0 then None
    else
      var answer := resolvers[0](name, step, argTypes, resultType);
      if answer.Some? then answer
      else FirstResolved(resolvers[1..], name, step, argTypes, resultType)
  }

  /** The new catalog as a resolver: it declines exactly the names it lacks. */
  function CatalogResolver(functions: FunctionMap): (resolve: Resolver)
    ensures forall n, s, a, t :: resolve(n, s, a, t).None? <==> n !in functions
    ensures forall n, s, a, t :: n in functions ==> resolve(n, s, a, t) == Some(functions[n].factory(s, a, t))
  {
    (n: string, s: Step, a: seq<TypePtr>, t: TypePtr) =>
      if n in functions then Some(functions[n].factory(s, a, t)) else None
  }

  /** The legacy registry as a resolver: it declines by producing a null pointer. */
  function LegacyResolver(legacy: LegacyCreate): (resolve: Resolver)
    ensures forall n, s, a, t :: resolve(n, s, a, t).None? <==> legacy(n, s, a, t) == Success(Null)
    ensures forall n, s, a, t :: legacy(n, s, a, t) != Success(Null) ==> resolve(n, s, a, t) == Some(legacy(n, s, a, t))
  {
    (n: string, s: Step, a: seq<TypePtr>, t: TypePtr) =>
      var p := legacy(n, s, a, t);
      if p == Success(Null) then None else Some(p)
  }

  /** Creation through an ordered list of resolvers, new catalog first and
      legacy registry second, failing when every resolver declines. */
  function CreateByResolvers(functions: FunctionMap, legacy: LegacyCreate, name: string, step: Step,
                             argTypes: seq<TypePtr>, resultType: TypePtr): Product
  {
    match FirstResolved([CatalogResolver(functions), LegacyResolver(legacy)], name, step, argTypes, resultType)
    case Some(p) => p
    case None => Failure(NotRegistered(name))
  }

  /** The two-step fallback of `Create` is the first-success search over the
      resolver list [new catalog, legacy registry]. */
  lemma CreateIsFirstResolved(functions: FunctionMap, legacy: LegacyCreate, name: string, step: Step,
                              argTypes: seq<TypePtr>, resultType: TypePtr)
    ensures Create(functions, legacy, name, step, argTypes, resultType)
         == CreateByResolvers(functions, legacy, name, step, argTypes, resultType)
  {
    var resolvers := [CatalogResolver(functions), LegacyResolver(legacy)];
    assert resolvers[1..] == [LegacyResolver(legacy)];
    assert resolvers[1..][1..] == [];
    if name !in functions {
      assert FirstResolved(resolvers, name, step, argTypes, resultType)
          == FirstResolved([LegacyResolver(legacy)], name, step, argTypes, resultType);
    }
  }
}

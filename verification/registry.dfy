/** The new aggregate-function catalog: a map from function name to the
    signatures the function accepts and the factory that builds it. */
module Registry {
  import opened Wrappers
  import opened Steps

  /** One accepted combination of argument and result types; its contents are
      not inspected by the catalog, only stored and handed back. */
  type Signature(!new)

  /** A type of the engine's type system, passed through to factories untouched. */
  type TypePtr(!new)

  /** An executable aggregation object built by a factory. */
  type Aggregate(!new)

  /** What a factory hands back: an owned object, or a null pointer. */
  datatype AggregatePtr = Null | Object(aggregate: Aggregate)

  /** A user error (bad query) or any other error a collaborator raises. */
  datatype ErrorKind = UserError | RuntimeError

  /** A raised error: its kind and its message text. */
  datatype Error = Error(kind: ErrorKind, message: string)

  /** The outcome of building an aggregate: a pointer, or the error raised. */
  type Product = Result<AggregatePtr, Error>

  /** Builds an aggregate for one step, argument types and result type. */
  type Factory = (Step, seq<TypePtr>, TypePtr) -> Product

  /** The catalog entry of one function name. */
  datatype FunctionEntry = FunctionEntry(signatures: seq<Signature>, factory: Factory)

  /** The catalog itself. Names are compared as exact strings. */
  type FunctionMap = map<string, FunctionEntry>

  /** The catalog as it is before anything is registered. */
  const EmptyCatalog: FunctionMap := map[]

  /** The entry registered under `name`, if there is one. */
  function GetEntry(functions: FunctionMap, name: string): (r: Option<FunctionEntry>)
    ensures r.Some? <==> name in functions.Keys
    ensures r.Some? ==> functions[name] == r.value
  {
    if name in functions then Some(functions[name]) else None
  }

  /** Registers `name`, replacing any previous entry under that name, and
      reports success: the catalog afterwards, paired with `true`. */
  function Register(functions: FunctionMap, name: string, signatures: seq<Signature>,
                    factory: Factory): (r: (FunctionMap, bool))
    ensures r.1
    ensures GetEntry(r.0, name) == Some(FunctionEntry(signatures, factory))
    ensures forall other :: other != name ==> GetEntry(r.0, other) == GetEntry(functions, other)
    ensures r.0.Keys == functions.Keys + {name}
  {
    (functions[name := FunctionEntry(signatures, factory)], true)
  }

  /** The catalog after registering `name`, without the success flag. */
  function Registered(functions: FunctionMap, name: string, signatures: seq<Signature>,
                      factory: Factory): FunctionMap
  {
    Register(functions, name, signatures, factory).0
  }

  /** The signatures registered under `name`, if the name is registered. */
  function GetSignatures(functions: FunctionMap, name: string): (r: Option<seq<Signature>>)
    ensures r.Some? <==> name in functions
    ensures r.Some? ==> r.value == functions[name].signatures
  {
    match GetEntry(functions, name)
    case Some(entry) => Some(entry.signatures)
    case None => None
  }

  /** Registering hands back exactly the given signatures, in order. */
  lemma SignaturesAfterRegister(functions: FunctionMap, name: string,
                                signatures: seq<Signature>, factory: Factory)
    ensures GetSignatures(Registered(functions, name, signatures, factory), name) == Some(signatures)
  {
  }

  /** Registering one name leaves the signatures of every other name as they were. */
  lemma RegisterFramesSignatures(functions: FunctionMap, name: string,
                                 signatures: seq<Signature>, factory: Factory, other: string)
    requires other != name
    ensures GetSignatures(Registered(functions, name, signatures, factory), other)
         == GetSignatures(functions, other)
  {
  }

  /** Re-registering a name forgets the earlier registration entirely: the
      result is as if only the later one had been made. */
  lemma LastWriterWins(functions: FunctionMap, name: string,
                       signatures1: seq<Signature>, factory1: Factory,
                       signatures2: seq<Signature>, factory2: Factory)
    ensures Registered(Registered(functions, name, signatures1, factory1), name, signatures2, factory2)
         == Registered(functions, name, signatures2, factory2)
  {
  }

  /** Registrations under different names do not interfere, so their order
      does not matter. */
  lemma RegisterCommutes(functions: FunctionMap,
                         name1: string, signatures1: seq<Signature>, factory1: Factory,
                         name2: string, signatures2: seq<Signature>, factory2: Factory)
    requires name1 != name2
    ensures Registered(Registered(functions, name1, signatures1, factory1), name2, signatures2, factory2)
         == Registered(Registered(functions, name2, signatures2, factory2), name1, signatures1, factory1)
  {
  }

  /** Registering a fresh name adds one entry; re-registering adds none. */
  lemma RegisterSize(functions: FunctionMap, name: string,
                     signatures: seq<Signature>, factory: Factory)
    ensures |Registered(functions, name, signatures, factory)|
         == if name in functions then |functions| else |functions| + 1
  {
  }
}

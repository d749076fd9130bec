/** A sequence of `registerAggregateFunction` calls, as made one after the
    other while the process registers its aggregates, and what the catalog
    holds after all of them. */
module RegistrationLog {
  import opened Wrappers
  import opened Steps
  import opened Registry
  import opened Dispatch

  /** The arguments of one registration call. */
  datatype Registration = Registration(name: string, signatures: seq<Signature>, factory: Factory)

  /** The catalog after making the registrations of `log` in order, first to last. */
  function RegisterAll(functions: FunctionMap, log: seq<Registration>): FunctionMap
    decreases |log|
  {
    if |log| == 0 then functions
    else RegisterAll(Registered(functions, log[0].name, log[0].signatures, log[0].factory), log[1..])
  }

  /** The names registered by `log`. */
  function NamesOf(log: seq<Registration>): set<string>
  {
    set i | 0 <= i < |log| :: log[i].name
  }

  /** The last registration of `name` in `log`, if `log` registers it at all. */
  function LastFor(log: seq<Registration>, name: string): (r: Option<Registration>)
    ensures r.None? <==> forall i :: 0 <= i < |log| ==> log[i].name != name
    ensures r.Some? ==> exists i :: 0 <= i < |log| && log[i] == r.value && log[i].name == name
                                    && forall j :: i < j < |log| ==> log[j].name != name
    decreases |log|
  {
    if |log| == 0 then None
    else if log[|log| - 1].name == name then Some(log[|log| - 1])
    else LastFor(log[..|log| - 1], name)
  }

  /** The last registration of `name` in `log`, read from the front: the one in
      the rest of the log if there is one, else the first entry if it names
      `name`. */
  lemma LastForFront(log: seq<Registration>, name: string)
    requires |log| > 0
    ensures LastFor(log, name)
         == match LastFor(log[1..], name)
            case Some(g) => Some(g)
            case None => if log[0].name == name then Some(log[0]) else None
  {
  }

  /** Last writer wins over a whole log: the entry of every name is the one its
      last registration made, and a name the log never registers keeps the
      entry it had before. */
  lemma {:induction false} EntryAfterLog(functions: FunctionMap, log: seq<Registration>, name: string)
    ensures GetEntry(RegisterAll(functions, log), name)
         == match LastFor(log, name)
            case Some(g) => Some(FunctionEntry(g.signatures, g.factory))
            case None => GetEntry(functions, name)
    decreases |log|
  {
    if |log| > 0 {
      var next := Registered(functions, log[0].name, log[0].signatures, log[0].factory);
      EntryAfterLog(next, log[1..], name);
      LastForFront(log, name);
    }
  }

  /** The log adds exactly its own names to the catalog. */
  lemma {:induction false} KeysAfterLog(functions: FunctionMap, log: seq<Registration>)
    ensures RegisterAll(functions, log).Keys == functions.Keys + NamesOf(log)
    decreases |log|
  {
    if |log| > 0 {
      var next := Registered(functions, log[0].name, log[0].signatures, log[0].factory);
      KeysAfterLog(next, log[1..]);
      assert NamesOf(log) == {log[0].name} + NamesOf(log[1..]) by {
        forall n | n in NamesOf(log) ensures n in {log[0].name} + NamesOf(log[1..]) {
          var i :| 0 <= i < |log| && log[i].name == n;
          if i > 0 {
            assert log[1..][i - 1].name == n;
          }
        }
        forall n | n in NamesOf(log[1..]) ensures n in NamesOf(log) {
          var i :| 0 <= i < |log[1..]| && log[1..][i].name == n;
          assert log[i + 1].name == n;
        }
      }
    }
  }

  /** After the log, a name's signatures are those of its last registration,
      or unchanged when the log never registers it. */
  lemma SignaturesAfterLog(functions: FunctionMap, log: seq<Registration>, name: string)
    ensures GetSignatures(RegisterAll(functions, log), name)
         == match LastFor(log, name)
            case Some(g) => Some(g.signatures)
            case None => GetSignatures(functions, name)
  {
    EntryAfterLog(functions, log, name);
  }

  /** After the log, creating a name it registers uses only the factory of its
      last registration; any other name is created as before the log. */
  lemma CreateAfterLog(functions: FunctionMap, legacy: LegacyCreate, log: seq<Registration>, name: string,
                       step: Step, argTypes: seq<TypePtr>, resultType: TypePtr)
    ensures Create(RegisterAll(functions, log), legacy, name, step, argTypes, resultType)
         == match LastFor(log, name)
            case Some(g) => g.factory(step, argTypes, resultType)
            case None => Create(functions, legacy, name, step, argTypes, resultType)
  {
    EntryAfterLog(functions, log, name);
  }

  /** Starting from the empty catalog, a name is in the new catalog exactly when
      the log registered it; every other name goes to the legacy registry. */
  lemma CatalogFromEmpty(legacy: LegacyCreate, log: seq<Registration>, name: string,
                         step: Step, argTypes: seq<TypePtr>, resultType: TypePtr)
    ensures name in RegisterAll(EmptyCatalog, log) <==> name in NamesOf(log)
    ensures name !in NamesOf(log) ==>
              Create(RegisterAll(EmptyCatalog, log), legacy, name, step, argTypes, resultType)
              == Create(EmptyCatalog, legacy, name, step, argTypes, resultType)
  {
    KeysAfterLog(EmptyCatalog, log);
    EntryAfterLog(EmptyCatalog, log, name);
  }
}

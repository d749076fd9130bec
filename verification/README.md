# Velox aggregate-function catalog, modelled in Dafny

This project models how Velox's execution layer finds and builds aggregate
functions (`velox/exec/Aggregate.cpp`):

- **Aggregation steps** (`steps.dfy`, module `Steps`). The four steps are Partial, Intermediate, Final and Single. Two predicates classify them: `IsRawInput` (the operator is fed raw rows) and `IsPartialOutput` (the operator emits intermediate accumulators). Together the two predicates form a 2x2 table with exactly one step in each cell.
- **The new catalog** (`registry.dfy`, module `Registry`). This is a map from function name to a `FunctionEntry`, which holds a signature sequence and a factory. `Register` models `registerAggregateFunction`: it inserts or silently overwrites the entry and always reports `true`. `GetEntry` and `GetSignatures` are the optional lookups. The catalog is an immutable `map` value. It starts as `EmptyCatalog`, the process-wide static map before anything is registered.
- **The creation dispatcher** (`dispatch.dfy`, module `Dispatch`). `Create` models `Aggregate::create`. A name in the new catalog is built by that entry's factory. Any other name goes to the legacy registry's own creation routine. A null from the legacy registry becomes the user error `Aggregate function not registered: <name>`. `CreateByResolvers` restates the same dispatch as a first-success search over the ordered resolver list [new catalog, legacy registry], and `CreateIsFirstResolved` proves that the two agree.
- **Sequences of registrations** (`registration_log.dfy`, module `RegistrationLog`). This module covers what the catalog holds after many registration calls made in order. For every name, the entry comes from that name's last registration (last writer wins). A name that was never registered keeps its old entry.

The collaborators the catalog only passes values through are opaque types: signatures (`Signature`), engine types (`TypePtr`) and the built aggregate objects (`Aggregate`). Factories are Dafny function values stored in the entry. The legacy registry is a function parameter, `LegacyCreate`. Both answer with a `Product`, which is one of three things:
- an owned object;
- a null pointer;
- an error they raise.

An error raised by a factory or by the legacy registry propagates unchanged. Function names are matched as exact strings, because the map is keyed by `std::string`.

Two facts about the code that the contracts record:
- A null from a registered factory is returned as it is (`Aggregate.cpp:82`). Only a null from the legacy registry becomes the user error (`Aggregate.cpp:87-89`). `Create`'s contract states that a null result can only come from a registered factory.
- `registerAggregateFunction` does not check the name, so `Register` accepts any string, the empty one included (`Aggregate.cpp:58-64`).

## Model

| member | source | states |
|---|---|---|
| Steps.StepOf | velox/exec/Aggregate.cpp:22-30 | inverse of the pair (isRawInput, isPartialOutput): for each of the four answer pairs it gives a step with exactly those answers |
| Steps.RawInputSteps | velox/exec/Aggregate.cpp:22-25 | isRawInput holds exactly for Partial and Single, and fails exactly for Intermediate and Final |
| Steps.PartialOutputSteps | velox/exec/Aggregate.cpp:27-30 | isPartialOutput holds exactly for Partial and Intermediate, and fails exactly for Single and Final |
| Steps.FlagsDetermineStep | velox/exec/Aggregate.cpp:22-30 | the two answers determine the step: no two steps share a cell of the 2x2 table |
| Registry.GetEntry | velox/exec/Aggregate.cpp:46-55 | finds an entry exactly when the name is a key of the catalog, and that entry is the one stored under the name |
| Registry.Register | velox/exec/Aggregate.cpp:58-64 | always returns true; afterwards the name's entry holds exactly the given signatures and factory; every other name's entry is unchanged; the key set gains only the name |
| Registry.GetSignatures | velox/exec/Aggregate.cpp:66-73 | gives Some exactly when the name is registered, carrying that entry's signatures, and None otherwise; it takes no legacy registry, so it cannot consult it |
| Registry.SignaturesAfterRegister | velox/exec/Aggregate.cpp:58-73 | after registration, the signatures read back are exactly the ones given, in order |
| Registry.RegisterFramesSignatures | velox/exec/Aggregate.cpp:62 | registering one name leaves the signatures of every other name as they were |
| Registry.LastWriterWins | velox/exec/Aggregate.cpp:62 | registering a name twice gives the same catalog as registering only the second time |
| Registry.RegisterCommutes | velox/exec/Aggregate.cpp:62 | registrations under different names commute |
| Registry.RegisterSize | velox/exec/Aggregate.cpp:62 | a new name adds one entry, and re-registering a name adds none |
| Dispatch.NotRegistered | velox/exec/Aggregate.cpp:89 | the not-registered error is a user error whose message is the fixed prefix followed by exactly the function name |
| Dispatch.Create | velox/exec/Aggregate.cpp:75-92 | a registered name returns its factory's product for (step, argTypes, resultType) unchanged; an unregistered name returns the legacy product unless it is null; a legacy null fails with the not-registered error; a null result only ever comes from a registered factory |
| Dispatch.CreateAfterRegister | velox/exec/Aggregate.cpp:58-83 | create right after register calls exactly the registered factory with exactly the passed arguments |
| Dispatch.CreateAfterReregister | velox/exec/Aggregate.cpp:58-83 | after two registrations of one name, create uses only the second factory |
| Dispatch.RegisteredIgnoresLegacy | velox/exec/Aggregate.cpp:80-83 | for a registered name the outcome is the same whatever the legacy registry would answer, so new registrations shadow legacy ones |
| Dispatch.UnregisteredIgnoresCatalog | velox/exec/Aggregate.cpp:85-91 | for a name missing from the new catalog, the outcome does not depend on the catalog's other entries |
| Dispatch.CreateUnknownFails | velox/exec/Aggregate.cpp:85-90 | a name known to neither registry fails with a user error whose message is the prefix followed by the name |
| Dispatch.FirstResolved | velox/exec/Aggregate.cpp:80-91 | the result is None exactly when every resolver declines; otherwise it is the answer of a resolver that does not decline, and every resolver before it declines |
| Dispatch.CatalogResolver | velox/exec/Aggregate.cpp:80-83 | the new catalog declines exactly the names it does not hold, and for a held name answers that entry's factory product for the same arguments |
| Dispatch.LegacyResolver | velox/exec/Aggregate.cpp:85-90 | the legacy registry declines exactly when it produces a null pointer, and otherwise answers its product unchanged |
| Dispatch.CreateIsFirstResolved | velox/exec/Aggregate.cpp:75-92 | create equals the first-success search over [new catalog, legacy registry], failing with the not-registered error when both decline |
| RegistrationLog.LastFor | velox/exec/Aggregate.cpp:62 | finds no registration exactly when the log never names the function; otherwise the one it finds is an entry of the log for that name with no later entry for the name |
| RegistrationLog.EntryAfterLog | velox/exec/Aggregate.cpp:58-64 | after a sequence of registrations, each name's entry is that of its last registration, or the earlier entry if the sequence never registers it |
| RegistrationLog.KeysAfterLog | velox/exec/Aggregate.cpp:62 | a sequence of registrations adds exactly its own names to the catalog's keys |
| RegistrationLog.SignaturesAfterLog | velox/exec/Aggregate.cpp:66-73 | after a sequence of registrations, signatures are those of each name's last registration |
| RegistrationLog.CreateAfterLog | velox/exec/Aggregate.cpp:58-92 | after a sequence of registrations, create uses only the last registered factory of a name, and names never registered are created as before |
| RegistrationLog.CatalogFromEmpty | velox/exec/Aggregate.cpp:41-44 | starting from the empty static map, a name is in the catalog exactly when some registration named it; any other name is resolved only through the legacy registry |

## Left out

- The legacy `AggregateFunctionRegistry` and its `AggregateFunctions()` singleton (velox/exec/Aggregate.cpp:94-97). The legacy registry's matching logic is not part of this model, so its creation routine is an arbitrary function parameter.
- Concrete aggregate implementations, the `TypePtr` type system and the contents of `AggregateFunctionSignature`. These are opaque types that are only stored and passed through.
- The process-wide lazily initialised static map and the thread safety of the unsynchronised `unordered_map`. The catalog is passed explicitly as an immutable value, and concurrency is not modelled.
- `shared_ptr` and `unique_ptr` ownership transfer. The unused `std::ostringstream` on line 88 has no observable effect.
- Factories and the legacy creation routine are pure Dafny function values, so two calls with the same arguments give equal products. The model does not express that every call builds a fresh object, nor that a C++ `std::function` factory can carry state between calls.
- Exceptions are modelled as `Failure` values of `Result`. The kind of a collaborator's error is kept, but its C++ exception class is not.

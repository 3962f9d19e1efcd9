# SwiftJotai store, modelled in Dafny

SwiftJotai is a small Swift port of Jotai's atomic state model. An *atom* is
an immutable handle with a process-wide unique key. A *primitive* atom
(`Atom(defaultValue)`) holds a value. A *derived* atom (`Atom(getter:)`)
computes its value from other atoms. A `Store` keeps one `AtomInternals`
cell per key:

- the stored value;
- the last value subscribers were told about (the *memorized* value);
- the atoms recorded as depending on it;
- its subscribers.

How the store behaves:

- `get` pushes the atom on a read scope, runs its getter, and pops the scope in a deferred `assert`.
- `getRaw` is the getter of a primitive atom. It creates the cell on demand and records every atom of the scope as a dependent.
- `set` writes a value and calls `triggerUpdate`.
- `triggerUpdate` does nothing when the new value equals the memorized one. Otherwise it memorizes the new value, notifies the subscribers, and re-evaluates and propagates every dependent. When nothing is memorized yet, the value counts as different.
- `subscribe` reads the atom once, to record its dependencies, and then registers the subscriber. It returns a disposable that unregisters it.

The model is functional. Every operation takes a store and returns the new
store together with its result. Operations are stated against the registry
of atoms that exist at the time. Creating an atom grows the registry, and a
valid store stays valid under the larger one. A write also returns the multiset of
subscriber ids it notified. Files, one module each:

- `values.dfy`: `Option` and the value type (integers and booleans).
- `identity.dfy`: the key allocator `nextId`.
- `atoms.dfy`: atoms and the registry of existing atoms, with both initializers.
- `state.dfy`: cells, the store and the reference meaning of an atom's value (`Val`). It also holds the store invariant `Valid`.
- `reading.dfy`: `get`, the getters, and `getRaw` with its tracking loop.
- `propagation.dfy`: `set` and `triggerUpdate`.
- `subscriptions.dfy`: `subscribe` and `dispose`.
- `scenario.dfy`: the two tests of the repository, with their assertions stated and proved about the model.

The model assumes that a derived atom reads only atoms created before it.
Keys increase, so reads point downwards in key order, and the key serves as
the rank that makes reads and propagation terminate. The source does not
enforce this. A getter closure can read an atom created after it. When that
closes a cycle, for example when the getter reads its own atom, the source
recurses without end. Without a cycle such a read works in the source, but it
is outside the model. A
derived atom's getter is its list of input atoms plus a pure function of
their values.

## Model

| member | source | states |
|---|---|---|
| Identity.NextId | Sources/SwiftJotai/Jotai.swift:10-16 | a key is issued by incrementing the counter, so it is larger than every earlier key and becomes the new counter value |
| Identity.NextIds | Sources/SwiftJotai/Jotai.swift:10-16 | `n` successive keys are exactly the old counter plus 1, 2, …, `n`, in that order, and the counter ends at the old counter plus `n` |
| Identity.IssuedKeysDistinct | Sources/SwiftJotai/Jotai.swift:10-16 | two different calls of `nextId` never return the same key |
| Identity.LaterKeysGreater | Sources/SwiftJotai/Jotai.swift:10-16 | every key issued later exceeds every key issued earlier |
| Atoms.NewPrimitive | Sources/SwiftJotai/Jotai.swift:42-48 | `Atom(defaultValue)` makes a primitive atom with that default, under a key no existing atom has and above all of them; the registry stays acyclic |
| Atoms.NewDerived | Sources/SwiftJotai/Jotai.swift:50-53 | `Atom(getter:)` makes a derived atom over existing atoms, under a fresh key above all of them; the registry stays acyclic |
| State.GrownLeaves | Sources/SwiftJotai/Jotai.swift:42-53 | creating atoms changes neither the primitive atoms an existing atom's reads reach nor the derived atoms they pass through |
| State.GrownVal | Sources/SwiftJotai/Jotai.swift:42-53 | creating atoms changes no existing atom's value, in any state |
| State.GrownValid | Sources/SwiftJotai/Jotai.swift:42-53 | a valid store stays valid, every atom keeping its value, when the registry gains atoms |
| State.NewAtomKeepsValid | Sources/SwiftJotai/Jotai.swift:42-53 | `Atom(defaultValue)` or `Atom(getter:)` while a store is in use keeps the store valid and every existing atom's value |
| State.ValCongruence | Sources/SwiftJotai/Jotai.swift:42-57 | an atom's value depends only on what the primitive atoms read as: same primitive values give the same value for every atom |
| Reading.Track | Sources/SwiftJotai/Jotai.swift:186-194 | after the tracking loop, the dependents are the old ones plus every scope entry except the atom itself |
| Reading.GetRaw | Sources/SwiftJotai/Jotai.swift:177-201 | returns the stored value, or the default (which it then stores) when the cell is missing or empty; adds the scope to the dependents; leaves the memorized value, the subscribers and all other cells untouched |
| Reading.GetRawEdges | Sources/SwiftJotai/Jotai.swift:186-194 | the edges recorded while reading a primitive atom point to derived atoms with larger keys, so the dependency records stay acyclic |
| Reading.Read | Sources/SwiftJotai/Jotai.swift:132-138 | `get` returns the atom's value in the store before the read and restores the scope. Only stored values and dependents are added. Every primitive atom reached records the whole scope and the atom as dependents |
| Reading.Eval | Sources/SwiftJotai/Jotai.swift:44-57 | the getter of a primitive atom is `getRaw`. A derived atom applies its rule to its inputs. Either way the result equals the reference value `Val` |
| Reading.ReadAll | Tests/SwiftJotaiTests/SwiftJotaiTests.swift:8-10 | a derived getter's successive `get`s return the reference values of its inputs and track every primitive atom they reach |
| Reading.ReadAddsEdges | Sources/SwiftJotai/Jotai.swift:186-194 | the only dependency records a `get` adds run from a primitive atom it reaches to an atom that was on the scope before it, or to a derived atom it passes through whose own reads reach that primitive atom; never from an atom to itself |
| Reading.EvalAddsEdges | Sources/SwiftJotai/Jotai.swift:44-57 | a getter adds dependency records within the same bounds, from the scope it runs in |
| Reading.ReadNoPop | Sources/SwiftJotai/Jotai.swift:132-138 | `get` with assertions disabled, so the pop in the deferred `assert` never runs: the value read is still the atom's value, and the scope only grows, with the atom pushed right after the old scope |
| Reading.ReadNoPopScope | Sources/SwiftJotai/Jotai.swift:132-138 | without the pop, the scope after a read holds exactly the old entries plus every atom the read visited: the atom, the derived atoms it passes through and the primitive atoms it reaches |
| Reading.NoPopLinksPrimitives | Sources/SwiftJotai/Jotai.swift:134-136 | without the pop, reading primitive atom 1 and then primitive atom 2 records atom 1 as a dependent of atom 2, which breaks the edge invariant |
| Reading.ReadKeepsValid | Sources/SwiftJotai/Jotai.swift:132-138 | a top-level `get` keeps the store invariant, including that every dependency record runs from a primitive atom to an atom whose reads reach it |
| Propagation.Least | Sources/SwiftJotai/Jotai.swift:221-224 | the next dependent visited is the smallest key left |
| Propagation.Trigger | Sources/SwiftJotai/Jotai.swift:203-225 | Nothing happens when there is no cell, or when the memorized value equals the new one. Otherwise the value is memorized. The notifications reach exactly the subscribers of cells whose memorized value changed, once each. Every other memorized value that changes belongs to a larger key and becomes that atom's value. Every dependent with a cell memorizes its value |
| Propagation.Cascade | Sources/SwiftJotai/Jotai.swift:220-224 | propagating each dependent in turn notifies exactly the subscribers of changed cells, once each, and leaves each dependent memorizing its value |
| Propagation.TriggerConfined | Sources/SwiftJotai/Jotai.swift:203-225 | `triggerUpdate` changes memorized values only at the updated atom and at the dependents it had |
| Propagation.CascadeConfined | Sources/SwiftJotai/Jotai.swift:220-224 | the loop over the dependents changes memorized values only at those dependents |
| Propagation.TriggerAddsEdges | Sources/SwiftJotai/Jotai.swift:203-225 | every dependency record `triggerUpdate` adds, through the `get`s of its dependents, runs from a primitive atom to an atom whose reads reach it |
| Propagation.CascadeAddsEdges | Sources/SwiftJotai/Jotai.swift:220-224 | the same for the loop over the dependents |
| Propagation.Set | Sources/SwiftJotai/Jotai.swift:140-148 | Writes `v` and memorizes it. No other primitive atom's value changes and subscriptions stay as they were. Notified ids are exactly the subscribers of changed cells, each at most once. Every other memorized value that changes becomes that atom's value after the write. Any new cell other than the written one belongs to a primitive atom. The store invariant holds afterwards, so every dependency record, old or new, runs from a primitive atom to an atom whose reads reach it |
| Propagation.SetConfined | Sources/SwiftJotai/Jotai.swift:140-148 | `set` changes memorized values only at the written atom and at the dependents it had before the write |
| Propagation.SetSparesNonDependents | Sources/SwiftJotai/Jotai.swift:140-148 | a subscriber of an atom that is neither the written atom nor recorded as one of its dependents is not notified |
| Propagation.SetSparesUnrelated | Sources/SwiftJotai/Jotai.swift:140-148 | a subscriber of an atom other than the written one, whose reads do not reach the written atom, is not notified |
| Propagation.SetThenGet | Sources/SwiftJotai/Jotai.swift:140-148 | reading a primitive atom right after writing it returns the written value |
| Propagation.CascadeNotifies | Sources/SwiftJotai/Jotai.swift:216-224 | when the write changes the written atom's memorized value, a subscriber of one of its dependents is notified exactly once if the dependent's new value differs from what it memorized |
| Propagation.SetSuppressed | Sources/SwiftJotai/Jotai.swift:208-213 | writing the value last memorized notifies nobody and memorizes nothing |
| Propagation.SetNotifiesOnce | Sources/SwiftJotai/Jotai.swift:214-218 | each subscriber is notified once if its atom's memorized value changed and not at all otherwise |
| Subscriptions.Subscribe | Sources/SwiftJotai/Jotai.swift:150-170 | Registers a fresh id on the atom, creating its cell if needed. The id is the store's next one, never handed out before, and the store moves past it. Every primitive atom it reaches now lists the atom as a dependent. Other subscriptions, memorized values and atom values are unchanged. Existing cells keep their dependents and stored values, and any other new cell belongs to a primitive atom. The only new dependency records run from a primitive atom the read reaches to a derived atom on the way whose own reads reach it. The store invariant holds afterwards, including that every dependency record runs from a primitive atom to an atom whose reads reach it |
| Subscriptions.Register | Sources/SwiftJotai/Jotai.swift:156-163 | the new subscriber joins the atom's existing cell, or a new cell without a value; no other cell changes |
| Subscriptions.Dispose | Sources/SwiftJotai/Jotai.swift:165-169 | `dispose()` removes exactly this subscriber from exactly this atom's cell, if the cell exists |
| Subscriptions.DisposeKeepsValid | Sources/SwiftJotai/Jotai.swift:165-169 | disposing keeps the store invariant |
| Subscriptions.DisposeRemoves | Sources/SwiftJotai/Jotai.swift:165-169 | after disposal the id is registered nowhere |
| Subscriptions.DisposeIdempotent | Sources/SwiftJotai/Jotai.swift:165-169 | disposing twice is the same as disposing once |
| Subscriptions.DisposeUndoesSubscribe | Sources/SwiftJotai/Jotai.swift:150-169 | subscribe then dispose leaves every cell with the subscribers it had before |
| Subscriptions.DisposedNotNotified | Sources/SwiftJotai/Jotai.swift:150-169 | after `dispose()` the subscriber is retired: the next write does not notify it, and no write of any later run of `get`, `set`, `subscribe` and `dispose()` calls does |
| Subscriptions.Step | Sources/SwiftJotai/Jotai.swift:132-169 | one `get`, `set`, `subscribe` or `dispose()` keeps the store invariant; only `set` notifies anyone |
| Subscriptions.Run | Sources/SwiftJotai/Jotai.swift:132-169 | a sequence of such calls keeps the store invariant |
| Subscriptions.StepKeepsRetired | Sources/SwiftJotai/Jotai.swift:150-169 | no single call notifies or re-registers a disposed subscriber, because `subscribe` always boxes a new subscriber |
| Subscriptions.SetKeepsRetired | Sources/SwiftJotai/Jotai.swift:140-148 | a write neither notifies nor registers a subscriber that is registered nowhere |
| Subscriptions.RetiredNeverNotified | Sources/SwiftJotai/Jotai.swift:150-169 | a disposed subscriber stays unregistered and is never notified, through any sequence of later calls |
| Propagation.SetKeepsNextSub | Sources/SwiftJotai/Jotai.swift:140-148 | `set` creates no subscriber |
| Scenario.Demo | Tests/SwiftJotaiTests/SwiftJotaiTests.swift:20-23 | a test's two atoms built from a fresh allocator: a counter with default 0 under key 1, and a derived "count > 10" atom reading only it, under key 2 |
| Scenario.ReadAfterWrite | Tests/SwiftJotaiTests/SwiftJotaiTests.swift:15-16 | after setting the count to `x`, the derived atom reads `x > 10` |
| Scenario.GeneralUsage | Tests/SwiftJotaiTests/SwiftJotaiTests.swift:6-17 | on a fresh store the derived atom reads `false`, and after `set(countAtom, 233)` it reads `true` |
| Scenario.Box | Tests/SwiftJotaiTests/SwiftJotaiTests.swift:32-34 | the subscriber's box holds the derived value when it was notified, and stays empty otherwise |
| Scenario.Write | Tests/SwiftJotaiTests/SwiftJotaiTests.swift:37-48 | one write of the count memorizes `x > 10` on the derived atom and notifies its subscribers once each, exactly when that differs from what was memorized |
| Scenario.FirstWrites | Tests/SwiftJotaiTests/SwiftJotaiTests.swift:36-44 | writing 6 notifies the subscriber, with the box `false`; writing 7 notifies nobody and leaves the box empty |
| Scenario.LastWrites | Tests/SwiftJotaiTests/SwiftJotaiTests.swift:46-54 | writing 42 notifies the subscriber, with the box `true`; after `dispose()`, writing 1 notifies nobody |
| Scenario.WriteDisposed | Tests/SwiftJotaiTests/SwiftJotaiTests.swift:51-54 | after disposal the write of 1 notifies nobody and the box stays empty |
| Scenario.PubSub | Tests/SwiftJotaiTests/SwiftJotaiTests.swift:19-55 | across the whole test the subscriber is notified once on 6, never on 7, once on 42, and never after disposal; each time the box holds what the test asserts |

## Left out

- `Jotai+Storage.swift`, `Jotai+SwiftUI.swift` and the example app are not part of this model. They are persistence and UI glue built on top of the store.
- Type erasure is not modelled: the `as!` casts and the generic `comparator`. All values share one type, `Value`, and are compared with `==`, which is an equivalence. A cast failure cannot happen in the model.
- Propagation.SetSuppressed: the model assumes each cell's comparator is reflexive. Swift's `==` on `Double` is not: a NaN never equals itself. In the source, writing NaN to an atom that has memorized NaN memorizes and notifies again, so the suppression promised here does not hold for such atoms. Such values are not modelled.
- `@MainActor`, `Store.shared` and thread safety are not modelled. The model is a single sequential store value.
- Reading.Read: models `get` as built with assertions enabled, where the pop runs. The build without assertions is `Reading.ReadNoPop`, described under Findings.
- Scenario.PubSub: each test is modelled from a fresh allocator and an empty store. In the source both tests share `Store.shared` and the global key counter. After `testGeneralUsage`, `testPubSub`'s atoms get keys 3 and 4, and the store still holds the first test's cells. Key 1 has value 233, memorized value 233, and key 2 as a dependent. `State.NewAtomKeepsValid` shows that such a store stays valid when the new atoms are created. The scenario itself is still stated from the empty store.
- Identity.NextId: keys are unbounded naturals. The source's `Int` counter would trap after 2^63−1 atoms, which is not modelled.
- Reading.Eval: a derived getter is a fixed list of inputs and a pure function of their values. Getters that read conditionally, call `set`, or read atoms created after them are not modelled.
- Cyclic atom graphs cannot be built in the model, because inputs must have smaller keys. The source would recurse forever on them.
- Propagation.Trigger: notifications are a multiset of subscriber ids. The order of `receiveUpdate` calls is not stated, including whether subscribers are called before dependents.
- Propagation.Cascade: the source iterates the `dependents` set in unspecified hash order; the model visits dependents in ascending key order. The contracts state the final memorized values and notification counts, not the order.
- Subscriber callbacks are not modelled: a subscriber is an id. Re-entrant reads or writes from inside `receiveUpdate` are not modelled. The test's callback reads the derived atom, which is modelled by `Scenario.Box` as a read after the write completes.
- The convenience overload `subscribe(atom:action:)` and `ClosureSubscriber` only wrap a closure as a subscriber, so they are not modelled separately.
- Propagation.Set: calling `set` on a derived atom writes the cell but does not change what the atom reads. The model allows this, as the source does, but states nothing about what it is for.

## Findings

| source | as written | input that shows it | evidently intended | confidence | as-written member | corrected member |
|---|---|---|---|---|---|---|
| Sources/SwiftJotai/Jotai.swift:134-136 | the scope is popped only as the condition of `assert(readScope.popLast() != nil)`, which Swift does not evaluate when assertions are disabled, as in optimized builds | with assertions disabled, `get` of primitive atom 1 and then of primitive atom 2 on an empty store: atom 1 is still on the scope and is recorded as a dependent of atom 2 | pop unconditionally and assert on the popped entry | not executed; applies only to builds with assertions disabled | Reading.NoPopLinksPrimitives | Reading.ReadKeepsValid |

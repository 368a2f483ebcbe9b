# silver-store: the state-transition and notification engine, in Dafny

This project models the core of silver-store, a small reactive store. The model covers:

- the shallow `merge` every write goes through;
- the store container built by `createStore`: a state tree, an ordered listener array and `unsubscribe` closures;
- named slices over a store, built by `createDefineStore` / `defineStore`: lazy initialisation, `setState`, the two-phase `setAsyncState` and `regist`;
- the class-style slice `StoreBase`, in both of its variants;
- the change-detection listener that `useSelector` installs.

Everything is an immutable value, and every operation is a pure function from a store to a store. A write also returns the listener calls it made, in order.

Files:

- `values.dfy` (module `Values`): JavaScript values as the store sees them. They are `undefined`, `null`, booleans, integers, strings, plain objects (maps) and functions known by an id. The module also defines `typeof … === 'object'`, truthiness and property reads. A `Runtime` record says what calling a function value does: `produce(id, base)` stands for immer's `produce(base, fn)`, and `call(id)` for `fn()`.
- `merge.dfy` (module `Merging`): `merge(to, from)`.
- `store.dfy` (module `Stores`): `createStore`, `getState`, `setState`, `subscribe` and the `unsubscribe` closure. It also defines the invariant `Wf`: the listener array holds one entry per live subscription.
- `slices.dfy` (module `Slices`): `createDefineStore` and the slice operations of `defineStore`.
- `class_slices.dfy` (module `ClassSlices`): the `createStoreBase` class and the exported `StoreBase` class.
- `selector.dfy` (module `Selectors`): the selector cache, modelled as a state machine.

Behaviours of the code worth knowing:

- The store's `setState` replaces the top-level keys of its argument (`Object.assign`). The branch under a key is replaced whole.
- Slice initialisation writes whenever the slice is falsy. A slice holding `0`, `""` or `false` is therefore initialised again when it is defined a second time.
- The selector cache starts as `undefined`, and a render does not fill it. The first notification with a defined selection therefore always re-renders.

## Model

| member | source | states |
|---|---|---|
| Merging.Merge | src/utils/merge.ts:1-9 | If both arguments are object-typed (`null` included), the result is an object. Its keys are the union of both own-key sets, and `from`'s values win. If either argument is not object-typed, the result is exactly `from`. |
| Merging.MergeWithNull | src/utils/merge.ts:3-4 | `merge(null, o)` and `merge(o, null)` both equal `o`, and `merge(null, null)` is `{}`. |
| Merging.MergeIdempotent | src/utils/merge.ts:3-6 | Merging the same `from` twice equals merging it once, except in one case: `from` is `null` and `to` is not object-typed. This is an if-and-only-if. |
| Stores.Create | src/store/createStore.ts:3-5 | A new store has no listeners, no subscriptions and no registry. An `undefined` initial state becomes `{}`. |
| Stores.GetState | src/store/createStore.ts:15-17 | The result is always truthy, never `undefined` or `null`. It is the tree when the tree is truthy, and `{}` otherwise. |
| Stores.SetState | src/store/createStore.ts:7-13 | With an object tree and an object `next`, every key of `next` takes `next`'s value and every other key keeps its value. With an object-typed tree, a `null` `next` leaves a copy of the tree. If either the tree or `next` is not object-typed, the tree becomes `next`. Listeners are untouched. There is one call per listener entry, in order, and each call sees the state after the write. |
| Stores.Subscribe | src/store/createStore.ts:19-22 | The listener is appended, and the new closure starts live. |
| Stores.IndexOf | src/store/createStore.ts:28 | `indexOf` returns the first index holding the listener, or -1 exactly when the listener is absent. |
| Stores.SpliceOne | src/store/createStore.ts:29 | `splice(i, 1)` removes entry `i`. An index of -1 removes the last entry, if there is one, and an index past the end removes nothing. |
| Stores.Unsubscribe | src/store/createStore.ts:23-30 | A closure that has already run changes nothing. A live closure clears its flag and removes the first occurrence of its listener. The remaining entries keep their order, and the tree is unchanged. A live closure whose listener is absent would run `splice(-1, 1)` and drop the last entry; `Stores.UnsubscribeWf` shows this cannot happen in a well-formed store. |
| Stores.CreateWf | src/store/createStore.ts:3-5 | A new store satisfies the listener/subscription invariant. |
| Stores.SubscribeWf | src/store/createStore.ts:19-22 | `subscribe` preserves the invariant. |
| Stores.UnsubscribeWf | src/store/createStore.ts:23-30 | `unsubscribe` preserves the invariant. Under it, a live closure's listener is always in the array, so `indexOf` never returns -1. |
| Stores.SetStateWf | src/store/createStore.ts:7-13 | A write preserves the invariant. |
| Stores.UnsubscribeIdempotent | src/store/createStore.ts:24-27 | Calling the same `unsubscribe` twice has the same effect as calling it once. |
| Stores.SubscribeThenUnsubscribe | src/store/createStore.ts:19-30 | Subscribing and then unsubscribing restores the multiset of listeners. For a listener that was not subscribed before, the array is restored exactly. |
| Stores.NoCallWithoutEntry | src/store/createStore.ts:9-12 | A write calls no listener that is absent from the array. |
| Stores.NotifyCountsEntries | src/store/createStore.ts:9-12 | One write calls a listener exactly as many times as it is registered. |
| Stores.SetStates | src/store/createStore.ts:7-13 | A run of writes leaves the listener array and the subscriptions as they were. |
| Stores.NoCallWithoutEntryAll | src/store/createStore.ts:9-12 | No write of a run calls a listener that is absent from the listener array. |
| Slices.CreateDefineStore | src/store/defineStore.ts:25-31 | Construction fails with "Expected the enhancer to be a function" exactly when the enhancer is defined but is not a function. `null` counts as defined. A function enhancer decides the factory. |
| Slices.GetState | src/store/defineStore.ts:33-39 | The slice is the tree's property `name`. It is `undefined` when the tree is not an object. |
| Slices.Write | src/store/defineStore.ts:57-59 | Committing `{[name]: v}` sets slice `name` to `v`. Every other slice is unchanged, and an object tree changes only at `name`. There is one notification pass, and it sees the write. |
| Slices.SetState | src/store/defineStore.ts:41-62 | A function update stores `produce(previous)`, and any other update stores `merge(previous, update)`. Sibling slices, listeners and the registry are unchanged, and there is exactly one notification pass. |
| Slices.StartAsync | src/store/defineStore.ts:64-68 | `setAsyncState` captures the slice as it is before its `await`. |
| Slices.CommitAsync | src/store/defineStore.ts:68-76 | The commit stores the producer's result on the captured value, whatever the slice holds by then. Sibling slices, the listeners and the registry are unchanged, and one notification pass calls every listener, in order, with the state after the commit. |
| Slices.Regist | src/store/defineStore.ts:79-81 | `regist` stores `merge(store[name], funcs)`, with `funcs` defaulting to `{}`. When both are object-typed, the entry's keys are exactly the union, `funcs` wins, and earlier keys that `funcs` lacks keep their values. Otherwise the entry becomes `funcs` itself, as on the first call. Other entries, the tree and the listeners are unchanged, and nobody is notified. |
| Slices.RegistAccumulates | src/store/defineStore.ts:79-81 | Two `regist` calls on a new name leave one entry with the methods of both, and the later call wins on a shared key. |
| Slices.Define | src/store/defineStore.ts:83-90 | On a truthy slice, nothing changes and nobody is called. On a falsy slice, `setState(initState)` runs: the slice takes the next value, and one pass calls every listener, in order, with the state after the write. Siblings, the listeners and the registry are untouched either way. |
| Slices.DefineAgainKeepsState | src/store/defineStore.ts:83-90 | Defining a slice again after it became truthy leaves the store as it was. |
| Slices.LostUpdate | src/store/defineStore.ts:64-77 | With two overlapping `setAsyncState` calls, the later commit wins, and the slice holds the second producer applied to the original value. |
| Slices.LostUpdateExample | src/store/defineStore.ts:64-77 | Two increments racing on `{value: 0}` give `{value: 1}`, while two synchronous increments give `{value: 2}`. The snapshot read before the writes still reads `{value: 0}`. |
| Slices.RedefineKeepsCounter | src/store/defineStore.ts:83-90 | The sequence `defineStore("counter", 0)`, then `setState({count: 1})`, then `defineStore("counter", 0)` again leaves `{count: 1}`. |
| ClassSlices.GetState | src/store/StoreBase.ts:62-64 | `store.getState()[this.name]` gives the same slice as the `defineStore` handle. |
| ClassSlices.SetState | src/store/StoreBase.ts:75-91 | The class's `setState` equals the `defineStore` slice's `setState` on every input of the model, where a primitive tree has no properties. |
| ClassSlices.Init | src/store/StoreBase.ts:65-74 | On a truthy slice, nothing changes. On a falsy slice, the initial state goes through `setState`. A function initial state is first called with no arguments, and its result goes through `setState` in its place. `setState` merges a value in, or runs it as a producer when it is itself a function. Siblings, the listeners and the registry are untouched. |
| ClassSlices.Regist | src/store/StoreBase.ts:16-18 | `store[this.name] = this` replaces the entry under `name`, leaves the other entries alone, and does not touch the tree. |
| ClassSlices.ConstructRegistered | src/store/StoreBase.ts:12-15 | The `createStoreBase` constructor initialises and then registers the instance under `name`. The tree and the calls are those of `init`, and the listeners and subscriptions are unchanged. |
| ClassSlices.Construct | src/store/StoreBase.ts:58-61 | The exported class's constructor initialises only, given the `name` and `state` the instance ends up with (see "## Left out" on the field order). A truthy slice is not reset and nobody is called. A falsy slice takes the value `setState` computes from the initial state, or from a function initial state's result, and one pass calls every listener with the state after the write. The registry, the listeners and the siblings are unchanged. |
| ClassSlices.FunctionInitialState | src/store/StoreBase.ts:65-74 | On a falsy slice, the class stores `merge(previous, fn())`, whereas `defineStore` stores `produce(previous)`. |
| ClassSlices.ConstructBeforeFields | src/store/StoreBase.ts:55-61 | With the field order of JavaScript, the exported constructor initialises slice `""` with `undefined`: on a falsy `""` slice it writes `undefined` there, calls every listener, and leaves every named slice alone. |
| ClassSlices.RegistOverwrites | src/store/StoreBase.ts:16-18 | Registering a second instance under the same name replaces the first one. |
| Selectors.Mount | src/useSelector.ts:10-11 | The cache starts as `undefined` and the render count starts at zero. |
| Selectors.OnNotify | src/useSelector.ts:15-20 | If the selection is identical to the cache, nothing changes. Otherwise the cache becomes the selection and exactly one re-render is requested. |
| Selectors.Render | src/useSelector.ts:27 | A render returns the selection of its own selector call, whatever the cache holds. It leaves the cache and the render count unchanged. |
| Selectors.ReplayRenders | src/useSelector.ts:14-21 | A run of notifications re-renders once per change of selection, and the last selection stays cached. |
| Selectors.NoChangeNoRender | src/useSelector.ts:15-18 | Notifications that keep selecting the cached value count no change, never re-render, and leave the hook exactly as it was. |
| Selectors.RepeatRendersOnce | src/useSelector.ts:14-21 | Two consecutive notifications with the same selection act like one, so they cause at most one re-render. |
| Selectors.FirstNotification | src/useSelector.ts:11-27 | The first notification re-renders exactly when its selection is not `undefined`. This holds even when it is identical to what the first render returned. |
| Selectors.FreshSelectionsAlwaysRender | src/useSelector.ts:14-21 | When each selection differs from the one before it, as for a selector that allocates, every notification re-renders. |
| Selectors.ListenerSeesWrite | src/useSelector.ts:14-15 | Every listener call of a write reads the state after that write. With an object tree and an object write, it already sees every written key. |
| Selectors.TeardownStopsNotifications | src/useSelector.ts:22-24 | The store may have seen any writes and subscriptions before the teardown, as long as it is well formed and the hook's listener holds one entry. After the teardown, the listener is gone from the array, no write of any later run calls it, and a second teardown is a no-op. |
| Selectors.ImmediateTeardown | src/useSelector.ts:22-24 | A hook torn down straight after it subscribed is never called by any later write, and a second teardown is a no-op. |

## Left out

- Merging.Merge: the result being a *fresh* object, and the identity of objects in general, are not modelled. Values are immutable here, so "neither argument is modified" holds by construction.
- Arrays, `NaN`, `-0`, fractional numbers, symbols, accessors and an own `__proto__` key are not modelled. Numbers are integers, and an array would be an object with index keys.
- ClassSlices.GetState: a property read on a primitive tree gives `undefined` here. In JavaScript, `"abc"[name]` can give a character or the length.
- Slices.Regist: the registry is kept apart from the store's own `getState`/`setState`/`subscribe` properties. A slice named after one of those would, in the source, overwrite that method of the store.
- immer's `produce` is an abstract function of the producer and the base (`Runtime.produce`). Draft proxies, freezing, structural sharing and a recipe's own asynchrony are not modelled, and neither is passing a non-function to `setAsyncState`.
- The Promise that `setAsyncState` returns is not modelled. It is split into a start step and a commit step, and anything can happen in between.
- Listener re-entrancy is not modelled. Listeners here are identities with no behaviour of their own, so a pass cannot change the array it walks. In the source, the loop reads the live array: a listener added during a pass runs in that pass, and a listener that removes itself makes the loop skip the next entry.
- Selectors.OnNotify: a selection is an abstract identity, supplied for each selector call. The model does not derive it from the state. So it does not decide which writes give a selector a new identity. In the source, every object write allocates a new object (`Object.assign({}, …)`), and a falsy state reads as a new `{}`. An equal but newly allocated selection therefore re-renders.
- Slices.GetState: property reads here see only own properties. In the source, `state[name]` also finds members inherited from `Object.prototype` (`constructor`, `toString`, `valueOf`, `hasOwnProperty`, `__proto__`, …). A slice with such a name reads a truthy inherited value there.
- Slices.Define: slice names inherited from `Object.prototype` are not modelled. In the source, `defineStore("constructor", 0)` on a fresh store finds the truthy `Object` and writes nothing. The model writes `0`.
- ClassSlices.Init: slice names inherited from `Object.prototype` are not modelled, for the same reason as in `Slices.Define`.
- ClassSlices.SetState: on a string or function tree, the source's unguarded `[this.name]` can read a character, a length or an inherited member as the previous slice value. The model reads `undefined`.
- ClassSlices.Init: on a string or function tree, the falsy test can see such a property too, and skip the write. The model writes.
- ClassSlices.ConstructRegistered: the constructor is modelled as if `name` and `state` were already set. In JavaScript, a subclass's fields are assigned after the base constructor returns.
- ClassSlices.Construct: the same field order applies to the exported class. It sets `name = ""` (src/store/StoreBase.ts:55), and a subclass's `name` and `state` are assigned only after `super()` returns. So `init(this.state)` runs with `""` and `undefined`: `new Counter(store)` writes `{"": undefined}`, calls every listener and never initialises `counter`. `Construct` is stated for the `name` and `state` the instance ends up with; `ClassSlices.ConstructBeforeFields` states what happens as written.
- The development-mode transition logging (`src/log/index.ts` and the `logByFunc` calls) and the debug `console.log` of the enhancer are left out. They are a diagnostic side channel with no effect on state.
- The default store singleton (`./Store`) is not part of this model, and neither is `_store || defaultStore`. The store is always passed explicitly.
- `enhancer(createDefineStore)` is a call into code the model cannot see. Its result is only recorded as `Enhanced(id)`.
- React glue is left out: `Provider`, `useStore`, the context, and the `useContext`/`useReducer`/`useLayoutEffect` mechanics of `useSelector`, including its re-subscription on every render. `forceRender` is a render counter.
- `src/index.ts` (re-exports) and `src/store/types.ts` (an interface) are left out. The `Store` datatype mirrors the interface's shape.

/** The class-style slice (`src/store/StoreBase.ts`): the class `createStoreBase`
    builds, which registers each instance on the store, and the exported `StoreBase`
    class, which does not. An instance is known by its `name` and `state` fields. */
module ClassSlices {
  import opened Values
  import opened Merging
  import Stores
  import Slices

  /** `getState()`: `store.getState()[this.name]`, with no object check of its own. */
  function GetState(s: Stores.Store, name: string): (r: Value)
    ensures r == Slices.GetState(s, name)
  {
    Prop(Stores.GetState(s), name)
  }

  /** `setState(state)`: the same update rule as a `defineStore` slice. */
  function SetState(s: Stores.Store, name: string, update: Value, rt: Runtime): (r: Stores.Notified)
    ensures r == Slices.SetState(s, name, update, rt)
  {
    Slices.Write(s, name, Slices.NextSlice(GetState(s, name), update, rt))
  }

  /** The value `init` hands to `setState`: the result of calling a function initial
      state with no arguments, any other initial state as it is. */
  function Initial(initState: Value, rt: Runtime): Value {
    if initState.Fn? then rt.call(initState.id) else initState
  }

  /** `init(initState)`: only when the slice is falsy, `setState` of the initial state, or
      of what a function initial state returns when called; `setState` merges that value
      in, or runs it as a producer when it is itself a function. */
  function Init(s: Stores.Store, name: string, initState: Value, rt: Runtime): (r: Stores.Notified)
    ensures Truthy(GetState(s, name)) ==> r.store == s && r.calls == []
    ensures !Truthy(GetState(s, name)) && initState.Fn? ==>
              r == SetState(s, name, rt.call(initState.id), rt)
    ensures !Truthy(GetState(s, name)) && !initState.Fn? ==>
              && r == SetState(s, name, initState, rt)
              && GetState(r.store, name) == Merge(GetState(s, name), initState)
    ensures forall k :: k != name ==> GetState(r.store, k) == GetState(s, k)
    ensures r.store.listeners == s.listeners && r.store.subs == s.subs
    ensures r.store.registry == s.registry
  {
    if !Truthy(GetState(s, name)) then SetState(s, name, Initial(initState, rt), rt)
    else Stores.Notified(s, [])
  }

  /** `regist()` of the `createStoreBase` class: `store[this.name] = this`, replacing any
      earlier entry under that name. */
  function Regist(s: Stores.Store, name: string, instance: Value): (r: Stores.Store)
    ensures r.tree == s.tree && r.listeners == s.listeners && r.subs == s.subs
    ensures name in r.registry && r.registry[name] == instance
    ensures forall k :: k in s.registry && k != name ==> k in r.registry && r.registry[k] == s.registry[k]
    ensures r.registry.Keys == s.registry.Keys + {name}
  {
    s.(registry := s.registry[name := instance])
  }

  /** Constructing an instance of the `createStoreBase` class: `init(this.state)`, then
      `regist()` of the instance object. */
  function ConstructRegistered(s: Stores.Store, name: string, state: Value, rt: Runtime, instance: Value)
    : (r: Stores.Notified)
    ensures r.store.tree == Init(s, name, state, rt).store.tree
    ensures r.store.registry == s.registry[name := instance]
    ensures r.store.listeners == s.listeners && r.store.subs == s.subs
    ensures r.calls == Init(s, name, state, rt).calls
  {
    var initialised := Init(s, name, state, rt);
    Stores.Notified(Regist(initialised.store, name, instance), initialised.calls)
  }

  /** Constructing an instance of the exported `StoreBase` class: `init(this.state)` only;
      the store's registry is left alone. */
  function Construct(s: Stores.Store, name: string, state: Value, rt: Runtime): (r: Stores.Notified)
    ensures r.store.registry == s.registry
    ensures r.store.listeners == s.listeners && r.store.subs == s.subs
    ensures Truthy(GetState(s, name)) ==> r.store == s && r.calls == []
    ensures !Truthy(GetState(s, name)) ==>
              && GetState(r.store, name)
                 == Slices.NextSlice(GetState(s, name), Initial(state, rt), rt)
              && |r.calls| == |s.listeners|
              && forall i :: 0 <= i < |r.calls| ==>
                   r.calls[i] == Stores.Call(s.listeners[i], Stores.GetState(r.store))
    ensures forall k :: k != name ==> GetState(r.store, k) == GetState(s, k)
  {
    Init(s, name, state, rt)
  }

  /** What the exported constructor does in JavaScript, where a subclass's `name` and
      `state` fields are assigned only after the base constructor returns: `init` runs
      with the name `""` and the state `undefined`, so slice `""` is written as
      `undefined` (when it was falsy) and every listener is called. */
  lemma ConstructBeforeFields(s: Stores.Store, rt: Runtime)
    requires !Truthy(GetState(s, ""))
    ensures var r := Construct(s, "", Undef, rt);
            && GetState(r.store, "") == Undef
            && |r.calls| == |s.listeners|
            && forall k :: k != "" ==> GetState(r.store, k) == GetState(s, k)
  {
  }

  /** On a falsy slice the two factories treat a function initial state differently:
      the class calls it with no arguments and merges the result in, `defineStore`
      runs it as a producer on the current slice. */
  lemma FunctionInitialState(s: Stores.Store, name: string, id: nat, rt: Runtime)
    requires !Truthy(GetState(s, name))
    ensures !rt.call(id).Fn? ==>
              GetState(Init(s, name, Fn(id), rt).store, name) == Merge(GetState(s, name), rt.call(id))
    ensures GetState(Slices.Define(s, name, Fn(id), rt).store, name)
            == rt.produce(id, GetState(s, name))
  {
  }

  /** A later instance registered under the same name replaces the earlier one. */
  lemma RegistOverwrites(s: Stores.Store, name: string, first: Value, second: Value)
    ensures Regist(Regist(s, name, first), name, second) == Regist(s, name, second)
  {
  }
}

/** Named slices over a store, as built by `createDefineStore` and the `defineStore`
    it returns (`src/store/defineStore.ts`). A slice handle is known by its name. */
module Slices {
  import opened Values
  import opened Merging
  import Stores

  datatype Result<T> = Ok(value: T) | Err(message: string)

  /** What `createDefineStore` returns: the built-in `defineStore` bound to the given
      store, or the factory an enhancer built by being applied to `createDefineStore`. */
  datatype Factory = Bound | Enhanced(enhancer: nat)

  const EnhancerError: string := "Expected the enhancer to be a function"

  /** `createDefineStore(store, enhancer)`: a defined enhancer must be a function, and
      then it decides the factory. */
  function CreateDefineStore(enhancer: Value): (r: Result<Factory>)
    ensures r.Err? <==> enhancer != Undef && !enhancer.Fn?
    ensures r.Err? ==> r.message == EnhancerError
    ensures r.Ok? ==> (r.value.Enhanced? <==> enhancer.Fn?)
    ensures r.Ok? && enhancer.Fn? ==> r.value.enhancer == enhancer.id
  {
    if enhancer != Undef then
      if !enhancer.Fn? then Err(EnhancerError) else Ok(Enhanced(enhancer.id))
    else Ok(Bound)
  }

  /** The slice's `getState()`: `state[name]` when the store's state is a non-null
      object, otherwise `undefined`. */
  function GetState(s: Stores.Store, name: string): (r: Value)
    ensures r == Prop(s.tree, name)
  {
    var state := Stores.GetState(s);
    if IsObjectTyped(state) && Truthy(state) then Prop(state, name) else Undef
  }

  /** The next slice value for an update: a function update is a producer run on the
      previous value, anything else is merged into it. */
  function NextSlice(last: Value, update: Value, rt: Runtime): Value {
    if update.Fn? then rt.produce(update.id, last) else Merge(last, update)
  }

  /** Commit `value` under `name` through the store's `setState`. */
  function Write(s: Stores.Store, name: string, value: Value): (r: Stores.Notified)
    ensures Prop(r.store.tree, name) == value
    ensures forall k :: k != name ==> Prop(r.store.tree, k) == Prop(s.tree, k)
    ensures s.tree.Obj? ==> r.store.tree == Obj(s.tree.fields[name := value])
    ensures r.store.listeners == s.listeners && r.store.subs == s.subs
    ensures r.store.registry == s.registry
    ensures |r.calls| == |s.listeners|
    ensures forall i :: 0 <= i < |r.calls| ==>
              r.calls[i] == Stores.Call(s.listeners[i], Stores.GetState(r.store))
  {
    var r := Stores.SetState(s, Obj(map[name := value]));
    assert s.tree.Obj? ==> r.store.tree == Obj(s.tree.fields[name := value]);
    r
  }

  /** The slice's `setState(update)`: the slice becomes the next value computed from its
      previous one, every other slice keeps its value, and the store runs one
      notification pass after the write. */
  function SetState(s: Stores.Store, name: string, update: Value, rt: Runtime): (r: Stores.Notified)
    ensures update.Fn? ==> GetState(r.store, name) == rt.produce(update.id, GetState(s, name))
    ensures !update.Fn? ==> GetState(r.store, name) == Merge(GetState(s, name), update)
    ensures forall k :: k != name ==> GetState(r.store, k) == GetState(s, k)
    ensures r.store.listeners == s.listeners && r.store.subs == s.subs
    ensures r.store.registry == s.registry
    ensures |r.calls| == |s.listeners|
    ensures forall i :: 0 <= i < |r.calls| ==>
              r.calls[i] == Stores.Call(s.listeners[i], Stores.GetState(r.store))
  {
    Write(s, name, NextSlice(GetState(s, name), update, rt))
  }

  /** An outstanding `setAsyncState(producer)`: the slice value it captured before its
      `await`, and the producer. */
  datatype Pending = Pending(name: string, base: Value, producer: nat)

  /** First half of `setAsyncState`: capture the slice as it is now. */
  function StartAsync(s: Stores.Store, name: string, producer: nat): (p: Pending)
    ensures p.name == name && p.producer == producer
    ensures p.base == Prop(s.tree, name)
  {
    Pending(name, GetState(s, name), producer)
  }

  /** Second half of `setAsyncState`: commit the producer's result on the captured value,
      whatever the slice holds by now. */
  function CommitAsync(s: Stores.Store, p: Pending, rt: Runtime): (r: Stores.Notified)
    ensures GetState(r.store, p.name) == rt.produce(p.producer, p.base)
    ensures forall k :: k != p.name ==> GetState(r.store, k) == GetState(s, k)
    ensures r.store.listeners == s.listeners && r.store.subs == s.subs
    ensures r.store.registry == s.registry
    ensures |r.calls| == |s.listeners|
    ensures forall i :: 0 <= i < |r.calls| ==>
              r.calls[i] == Stores.Call(s.listeners[i], Stores.GetState(r.store))
  {
    Write(s, p.name, rt.produce(p.producer, p.base))
  }

  /** `store[name]`: an entry `regist` wrote earlier, or `undefined`. */
  function Registered(s: Stores.Store, name: string): Value {
    if name in s.registry then s.registry[name] else Undef
  }

  /** `regist(funcs = {})`: merge `funcs` into the store's entry for `name`; the state
      tree and the listeners are not touched and nobody is notified. */
  function Regist(s: Stores.Store, name: string, funcs: Value): (r: Stores.Store)
    ensures r.tree == s.tree && r.listeners == s.listeners && r.subs == s.subs
    ensures r.registry.Keys == s.registry.Keys + {name}
    ensures forall k :: k in s.registry && k != name ==> r.registry[k] == s.registry[k]
    ensures funcs == Undef ==>
              r.registry[name]
              == Obj(if IsObjectTyped(Registered(s, name)) then Own(Registered(s, name)) else map[])
    ensures funcs != Undef && !(IsObjectTyped(Registered(s, name)) && IsObjectTyped(funcs)) ==>
              r.registry[name] == funcs
    ensures IsObjectTyped(Registered(s, name)) && IsObjectTyped(funcs) ==>
              && r.registry[name].Obj?
              && r.registry[name].fields.Keys == Own(Registered(s, name)).Keys + Own(funcs).Keys
              && (forall k :: k in Own(funcs) ==> Prop(r.registry[name], k) == Own(funcs)[k])
              && (forall k :: k in Own(Registered(s, name)) && k !in Own(funcs) ==>
                                Prop(r.registry[name], k) == Own(Registered(s, name))[k])
  {
    var given := if funcs == Undef then Obj(map[]) else funcs;
    s.(registry := s.registry[name := Merge(Registered(s, name), given)])
  }

  /** Two `regist` calls on a name not registered before leave one entry holding the
      methods of both, the later call winning on a shared key. */
  lemma {:induction false} RegistAccumulates(s: Stores.Store, name: string,
                                             first: map<string, Value>, second: map<string, Value>)
    requires name !in s.registry
    ensures Regist(Regist(s, name, Obj(first)), name, Obj(second)).registry[name]
            == Obj(first + second)
  {
    var once := Regist(s, name, Obj(first));
    assert Registered(s, name) == Undef;
    assert once.registry[name] == Obj(first);
    assert Registered(once, name) == Obj(first);
  }

  /** `defineStore(name, initState)` on a store: `init()` runs `setState(initState)` only
      when the slice is falsy, so a truthy slice is kept and nobody is notified. */
  function Define(s: Stores.Store, name: string, initState: Value, rt: Runtime): (r: Stores.Notified)
    ensures Truthy(GetState(s, name)) ==> r.store == s && r.calls == []
    ensures !Truthy(GetState(s, name)) ==>
              && GetState(r.store, name) == NextSlice(GetState(s, name), initState, rt)
              && |r.calls| == |s.listeners|
              && forall i :: 0 <= i < |r.calls| ==>
                   r.calls[i] == Stores.Call(s.listeners[i], Stores.GetState(r.store))
    ensures forall k :: k != name ==> GetState(r.store, k) == GetState(s, k)
    ensures r.store.listeners == s.listeners && r.store.subs == s.subs
    ensures r.store.registry == s.registry
  {
    if !Truthy(GetState(s, name)) then SetState(s, name, initState, rt)
    else Stores.Notified(s, [])
  }

  /** Defining a slice again after it became truthy leaves the store as it was. */
  lemma DefineAgainKeepsState(s: Stores.Store, name: string, init1: Value, init2: Value, rt: Runtime)
    requires Truthy(GetState(Define(s, name, init1, rt).store, name))
    ensures var once := Define(s, name, init1, rt).store;
            Define(once, name, init2, rt) == Stores.Notified(once, [])
  {
  }

  /** Two `setAsyncState` calls started on the same slice before either commits: the
      later commit overwrites the earlier, and the slice holds the second producer's
      result on the original value, as if the first had never run. */
  lemma LostUpdate(s: Stores.Store, name: string, f1: nat, f2: nat, rt: Runtime)
    ensures var p1 := StartAsync(s, name, f1);
            var p2 := StartAsync(s, name, f2);
            var first := CommitAsync(s, p1, rt).store;
            GetState(CommitAsync(first, p2, rt).store, name) == rt.produce(f2, GetState(s, name))
  {
  }

  /** The producer that increments the `value` property of its draft. */
  function Increment(id: nat, base: Value): Value {
    Obj(Own(base)["value" := Num(if Prop(base, "value").Num? then Prop(base, "value").n + 1 else 1)])
  }

  /** A concrete run of the race: two increments started together on `{value: 0}` leave
      `{value: 1}`, where two synchronous increments leave `{value: 2}`; the object read
      before the first write still reads `{value: 0}`. */
  lemma {:induction false} LostUpdateExample()
    ensures var rt := Runtime(Increment, (id: nat) => Undef);
            var s := Define(Stores.Create(Undef), "counter", Obj(map["value" := Num(0)]), rt).store;
            var before := GetState(s, "counter");
            var p1 := StartAsync(s, "counter", 1);
            var p2 := StartAsync(s, "counter", 2);
            var raced := CommitAsync(CommitAsync(s, p1, rt).store, p2, rt).store;
            var twice := SetState(SetState(s, "counter", Fn(1), rt).store, "counter", Fn(2), rt).store;
            && GetState(raced, "counter") == Obj(map["value" := Num(1)])
            && GetState(twice, "counter") == Obj(map["value" := Num(2)])
            && before == Obj(map["value" := Num(0)])
  {
    var rt := Runtime(Increment, (id: nat) => Undef);
    var zero := Obj(map["value" := Num(0)]);
    var one := Obj(map["value" := Num(1)]);
    var s := Define(Stores.Create(Undef), "counter", zero, rt).store;
    assert GetState(Stores.Create(Undef), "counter") == Undef;
    assert GetState(s, "counter") == Merge(Undef, zero) == zero;
    assert Increment(1, zero) == one by {
      assert Own(zero)["value" := Num(1)] == map["value" := Num(1)];
    }
    assert Increment(2, one) == Obj(map["value" := Num(2)]) by {
      assert Own(one)["value" := Num(2)] == map["value" := Num(2)];
    }
  }

  /** Redefining `counter` after a write through its handle does not reset it. */
  lemma {:induction false} RedefineKeepsCounter(rt: Runtime)
    ensures var s0 := Define(Stores.Create(Undef), "counter", Num(0), rt).store;
            var s1 := SetState(s0, "counter", Obj(map["count" := Num(1)]), rt).store;
            var s2 := Define(s1, "counter", Num(0), rt).store;
            GetState(s0, "counter") == Num(0)
            && GetState(s2, "counter") == Obj(map["count" := Num(1)])
  {
    var s0 := Define(Stores.Create(Undef), "counter", Num(0), rt).store;
    assert GetState(Stores.Create(Undef), "counter") == Undef;
    assert GetState(s0, "counter") == Merge(Undef, Num(0)) == Num(0);
    var s1 := SetState(s0, "counter", Obj(map["count" := Num(1)]), rt).store;
    assert GetState(s1, "counter") == Merge(Num(0), Obj(map["count" := Num(1)]));
  }
}

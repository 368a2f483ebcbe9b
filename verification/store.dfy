/** The store container built by `createStore` (`src/store/createStore.ts`): a state
    tree, an ordered listener array, and the `unsubscribe` closures handed out. */
module Stores {
  import opened Values
  import opened Merging

  /** A listener, known by its identity. */
  type ListenerId = nat

  /** One `subscribe` call: the listener it pushed, and the `isSubscribed` flag of the
      `unsubscribe` closure it returned. */
  datatype Subscription = Subscription(listener: ListenerId, active: bool)

  /** `currentState`, the `listeners` array, one entry per `subscribe` call so far (a
      token is an index into `subs`), and the extra properties `regist` writes onto
      the store object. */
  datatype Store = Store(
    tree: Value,
    listeners: seq<ListenerId>,
    subs: seq<Subscription>,
    registry: map<string, Value>)

  /** A listener invoked by a notification pass, with the value `getState()` gives it. */
  datatype Call = Call(listener: ListenerId, sees: Value)

  /** A store after a write, with the listener calls the write made, in order. */
  datatype Notified = Notified(store: Store, calls: seq<Call>)

  /** The store after `subscribe`, and the token of the returned `unsubscribe`. */
  datatype Subscribed = Subscribed(store: Store, token: nat)

  /** `createStore(initState = {})`: passing `undefined` selects the default `{}`. */
  function Create(init: Value): (s: Store)
    ensures s.listeners == [] && s.subs == [] && s.registry == map[]
    ensures init != Undef ==> s.tree == init
    ensures GetState(s) == (if Truthy(init) then init else Obj(map[]))
  {
    Store(if init == Undef then Obj(map[]) else init, [], [], map[])
  }

  /** `getState()`: `currentState || {}`. */
  function GetState(s: Store): (r: Value)
    ensures Truthy(r) && r != Undef && r != Null
    ensures Truthy(s.tree) ==> r == s.tree
    ensures !Truthy(s.tree) ==> r == Obj(map[])
  {
    if Truthy(s.tree) then s.tree else Obj(map[])
  }

  /** One notification pass over the listener array as it stands. */
  function NotifyAll(s: Store): seq<Call> {
    seq(|s.listeners|, i requires 0 <= i < |s.listeners| => Call(s.listeners[i], GetState(s)))
  }

  /** `setState(nextState)`: shallow-merge `nextState` into the tree, then call every
      entry of the listener array once, in order. */
  function SetState(s: Store, next: Value): (r: Notified)
    ensures r.store.listeners == s.listeners && r.store.subs == s.subs
    ensures r.store.registry == s.registry
    ensures IsObjectTyped(s.tree) && next.Obj? ==>
              && r.store.tree.Obj?
              && r.store.tree.fields.Keys == Own(s.tree).Keys + next.fields.Keys
              && forall k :: Prop(r.store.tree, k)
                             == if k in next.fields then next.fields[k] else Prop(s.tree, k)
    ensures IsObjectTyped(s.tree) && next == Null ==> r.store.tree == Obj(Own(s.tree))
    ensures !IsObjectTyped(s.tree) || !IsObjectTyped(next) ==> r.store.tree == next
    ensures |r.calls| == |s.listeners|
    ensures forall i :: 0 <= i < |r.calls| ==>
              r.calls[i] == Call(s.listeners[i], GetState(r.store))
  {
    var written := s.(tree := Merge(s.tree, next));
    Notified(written, NotifyAll(written))
  }

  /** `subscribe(listener)`: push the listener; the returned closure is live. */
  function Subscribe(s: Store, l: ListenerId): (r: Subscribed)
    ensures r.store.listeners == s.listeners + [l]
    ensures r.token == |s.subs| && r.store.subs == s.subs + [Subscription(l, true)]
    ensures r.store.tree == s.tree && r.store.registry == s.registry
  {
    Subscribed(s.(listeners := s.listeners + [l], subs := s.subs + [Subscription(l, true)]),
               |s.subs|)
  }

  /** `xs.indexOf(x)`: the first index holding `x`, or -1. */
  function IndexOf(xs: seq<ListenerId>, x: ListenerId): (i: int)
    ensures -1 <= i < |xs|
    ensures i == -1 <==> x !in xs
    ensures 0 <= i ==> xs[i] == x
    ensures forall j :: 0 <= j < i ==> xs[j] != x
  {
    if |xs| == 0 then -1
    else if xs[0] == x then 0
    else
      var j := IndexOf(xs[1..], x);
      if j == -1 then -1
      else j + 1
  }

  /** `xs.splice(index, 1)`, giving the array left behind: a negative index counts back
      from the end, and an index past the end removes nothing. */
  function SpliceOne(xs: seq<ListenerId>, index: int): (r: seq<ListenerId>)
    ensures 0 <= index < |xs| ==> r == xs[..index] + xs[index + 1..]
    ensures index == -1 && |xs| > 0 ==> r == xs[..|xs| - 1]
    ensures index == -1 && |xs| == 0 ==> r == []
    ensures index >= |xs| ==> r == xs
  {
    var start := if index < 0 then (if |xs| + index < 0 then 0 else |xs| + index)
                 else if index > |xs| then |xs| else index;
    if start < |xs| then xs[..start] + xs[start + 1..] else xs
  }

  /** The `unsubscribe` closure with the given token: a no-op once it has run;
      otherwise it clears its flag and splices out the first occurrence of its listener. */
  function Unsubscribe(s: Store, token: nat): (r: Store)
    requires token < |s.subs|
    ensures !s.subs[token].active ==> r == s
    ensures r.tree == s.tree && r.registry == s.registry
    ensures r.subs == s.subs[token := s.subs[token].(active := false)]
    ensures s.subs[token].active && s.subs[token].listener in s.listeners ==>
              var i := IndexOf(s.listeners, s.subs[token].listener);
              && 0 <= i
              && s.listeners[i] == s.subs[token].listener
              && s.subs[token].listener !in s.listeners[..i]
              && r.listeners == s.listeners[..i] + s.listeners[i + 1..]
    ensures s.subs[token].active && s.subs[token].listener !in s.listeners ==>
              r.listeners == SpliceOne(s.listeners, -1)
  {
    var sub := s.subs[token];
    if !sub.active then s
    else
      s.(subs := s.subs[token := sub.(active := false)],
         listeners := SpliceOne(s.listeners, IndexOf(s.listeners, sub.listener)))
  }

  /** The listeners whose `unsubscribe` closures have not yet run, with multiplicity. */
  function Active(subs: seq<Subscription>): multiset<ListenerId> {
    if |subs| == 0 then multiset{} else Active(subs[..|subs| - 1]) + Live(subs[|subs| - 1])
  }

  /** The listener a subscription contributes to `Active`: one entry while it is live. */
  function Live(sub: Subscription): multiset<ListenerId> {
    if sub.active then multiset{sub.listener} else multiset{}
  }

  /** The listener array holds exactly one entry per live subscription. */
  ghost predicate Wf(s: Store) {
    multiset(s.listeners) == Active(s.subs)
  }

  lemma {:induction false} ActiveHasLive(subs: seq<Subscription>, t: nat)
    requires t < |subs| && subs[t].active
    ensures subs[t].listener in Active(subs)
    decreases |subs|
  {
    if t < |subs| - 1 {
      ActiveHasLive(subs[..|subs| - 1], t);
    }
  }

  /** Removing a present element commutes with adding others. */
  lemma RemoveThenAdd(m: multiset<ListenerId>, extra: multiset<ListenerId>, l: ListenerId)
    requires l in m
    ensures (m - multiset{l}) + extra == (m + extra) - multiset{l}
  {
  }

  lemma {:induction false} ActiveDeactivate(subs: seq<Subscription>, t: nat)
    requires t < |subs| && subs[t].active
    ensures Active(subs[t := subs[t].(active := false)])
            == Active(subs) - multiset{subs[t].listener}
    decreases |subs|
  {
    var after := subs[t := subs[t].(active := false)];
    var n := |subs| - 1;
    var l := subs[t].listener;
    assert Active(after) == Active(after[..n]) + Live(after[n]);
    assert Active(subs) == Active(subs[..n]) + Live(subs[n]);
    if t < n {
      assert after[..n] == subs[..n][t := subs[t].(active := false)];
      assert after[n] == subs[n];
      ActiveDeactivate(subs[..n], t);
      ActiveHasLive(subs[..n], t);
      RemoveThenAdd(Active(subs[..n]), Live(subs[n]), l);
    } else {
      assert after[..n] == subs[..n];
      assert Live(after[n]) == multiset{};
      assert Live(subs[n]) == multiset{l};
    }
  }

  lemma RemoveOneMultiset(xs: seq<ListenerId>, i: nat)
    requires i < |xs|
    ensures multiset(xs[..i] + xs[i + 1..]) == multiset(xs) - multiset{xs[i]}
  {
    assert xs == xs[..i] + [xs[i]] + xs[i + 1..];
  }

  /** A fresh store has no listeners and no subscriptions. */
  lemma CreateWf(init: Value)
    ensures Wf(Create(init))
  {
  }

  /** `subscribe` keeps the listener array in step with the live subscriptions. */
  lemma SubscribeWf(s: Store, l: ListenerId)
    requires Wf(s)
    ensures Wf(Subscribe(s, l).store)
  {
    var r := Subscribe(s, l).store;
    assert r.subs[..|r.subs| - 1] == s.subs;
  }

  /** `unsubscribe` keeps the listener array in step with the live subscriptions: a live
      closure always finds its listener, so `indexOf` never yields -1 and the
      `splice(-1, 1)` that would drop the last entry never happens. */
  lemma UnsubscribeWf(s: Store, token: nat)
    requires Wf(s) && token < |s.subs|
    ensures s.subs[token].active ==> s.subs[token].listener in s.listeners
    ensures s.subs[token].active ==> IndexOf(s.listeners, s.subs[token].listener) >= 0
    ensures Wf(Unsubscribe(s, token))
  {
    if s.subs[token].active {
      var l := s.subs[token].listener;
      ActiveHasLive(s.subs, token);
      assert l in multiset(s.listeners);
      var i := IndexOf(s.listeners, l);
      ActiveDeactivate(s.subs, token);
      RemoveOneMultiset(s.listeners, i);
    }
  }

  /** A write changes neither the listeners nor the subscriptions. */
  lemma SetStateWf(s: Store, next: Value)
    requires Wf(s)
    ensures Wf(SetState(s, next).store)
  {
  }

  /** Calling the same `unsubscribe` closure twice has the effect of calling it once. */
  lemma UnsubscribeIdempotent(s: Store, token: nat)
    requires token < |s.subs|
    ensures token < |Unsubscribe(s, token).subs|
    ensures Unsubscribe(Unsubscribe(s, token), token) == Unsubscribe(s, token)
  {
  }

  /** Subscribing and at once unsubscribing restores the listener multiset; a listener
      that was not subscribed before leaves the listener array exactly as it was. */
  lemma SubscribeThenUnsubscribe(s: Store, l: ListenerId)
    ensures var a := Subscribe(s, l);
            a.token < |a.store.subs|
            && multiset(Unsubscribe(a.store, a.token).listeners) == multiset(s.listeners)
            && (l !in s.listeners ==> Unsubscribe(a.store, a.token).listeners == s.listeners)
  {
    var a := Subscribe(s, l);
    var xs := a.store.listeners;
    assert xs[|s.listeners|] == l;
    var i := IndexOf(xs, l);
    var rest := Unsubscribe(a.store, a.token).listeners;
    assert rest == xs[..i] + xs[i + 1..];
    RemoveOneMultiset(xs, i);
    if l !in s.listeners {
      assert i == |s.listeners|;
      assert xs[..i] == s.listeners;
    }
  }

  /** A write calls no listener that is absent from the listener array. */
  lemma NoCallWithoutEntry(s: Store, l: ListenerId, next: Value)
    requires l !in s.listeners
    ensures forall c :: c in SetState(s, next).calls ==> c.listener != l
  {
    var r := SetState(s, next);
    forall c | c in r.calls
      ensures c.listener != l
    {
      var k :| 0 <= k < |r.calls| && r.calls[k] == c;
      assert c.listener == s.listeners[k];
    }
  }

  /** A run of writes, one `setState` after another, with every listener call they made,
      in order. */
  function SetStates(s: Store, nexts: seq<Value>): (r: Notified)
    ensures r.store.listeners == s.listeners && r.store.subs == s.subs
    decreases |nexts|
  {
    if |nexts| == 0 then Notified(s, [])
    else
      var first := SetState(s, nexts[0]);
      var rest := SetStates(first.store, nexts[1..]);
      Notified(rest.store, first.calls + rest.calls)
  }

  /** No write in a run calls a listener that is absent from the listener array. */
  lemma {:induction false} NoCallWithoutEntryAll(s: Store, l: ListenerId, nexts: seq<Value>)
    requires l !in s.listeners
    ensures forall c :: c in SetStates(s, nexts).calls ==> c.listener != l
    decreases |nexts|
  {
    if |nexts| > 0 {
      var first := SetState(s, nexts[0]);
      NoCallWithoutEntry(s, l, nexts[0]);
      NoCallWithoutEntryAll(first.store, l, nexts[1..]);
    }
  }

  /** One write calls a listener exactly as many times as it is registered. */
  lemma NotifyCountsEntries(s: Store, next: Value, l: ListenerId)
    ensures var calls := SetState(s, next).calls;
            |set i | 0 <= i < |calls| && calls[i].listener == l|
            == |set i | 0 <= i < |s.listeners| && s.listeners[i] == l|
  {
    var calls := SetState(s, next).calls;
    assert (set i | 0 <= i < |calls| && calls[i].listener == l)
        == (set i | 0 <= i < |s.listeners| && s.listeners[i] == l);
  }
}

/** The subscription listener `useSelector` installs (`src/useSelector.ts`): it keeps the
    last selection it saw and requests a re-render only when a new selection is not
    identical to it. */
module Selectors {
  import opened Values
  import Stores

  /** The identity of what one call of `selector(store.getState())` returned: two
      selections are identical (`===`) exactly when they are equal here. Which identity
      a call returns is up to the selector and is not derived from the state: a
      selector that allocates returns a new one on every call, and one that returns a
      part of the state returns a new one whenever a write has rebuilt that part. */
  datatype Selection = Undefined | Ref(id: nat)

  /** The hook's `latestState.current` and the number of `forceRender()` calls. */
  datatype Hook = Hook(cache: Selection, renders: nat)

  /** `useRef<unknown>()` starts as undefined; no re-render has been requested. */
  function Mount(): (h: Hook)
    ensures h.cache.Undefined? && h.renders == 0
  {
    Hook(Undefined, 0)
  }

  /** The listener the hook subscribes, run by a notification pass, given the selection
      its selector call returned: return early when it is identical to the cached one,
      otherwise cache it and request one re-render. */
  function OnNotify(h: Hook, selected: Selection): (r: Hook)
    ensures selected == h.cache ==> r == h
    ensures selected != h.cache ==> r.cache == selected && r.renders == h.renders + 1
    ensures r.cache == selected
  {
    if h.cache == selected then h else Hook(selected, h.renders + 1)
  }

  /** A render of the hook, given the selection its own selector call returned: the hook
      returns that selection, whatever the cache holds, and the render neither fills the
      cache nor counts as a re-render request. */
  function Render(h: Hook, selected: Selection): (r: (Selection, Hook))
    ensures r.0 == selected
    ensures r.1 == h
  {
    (selected, h)
  }

  /** Notifications with the selections `xs`, in order. */
  function Replay(h: Hook, xs: seq<Selection>): Hook
    decreases |xs|
  {
    if |xs| == 0 then h else Replay(OnNotify(h, xs[0]), xs[1..])
  }

  /** How many entries of `xs` differ from the entry before them, starting from `prev`. */
  function Changes(prev: Selection, xs: seq<Selection>): (n: nat)
    ensures n <= |xs|
    decreases |xs|
  {
    if |xs| == 0 then 0
    else (if xs[0] == prev then 0 else 1) + Changes(xs[0], xs[1..])
  }

  /** A run of notifications re-renders once per change of selection, and leaves the last
      selection cached. */
  lemma {:induction false} ReplayRenders(h: Hook, xs: seq<Selection>)
    ensures Replay(h, xs).renders == h.renders + Changes(h.cache, xs)
    ensures |xs| > 0 ==> Replay(h, xs).cache == xs[|xs| - 1]
    ensures |xs| == 0 ==> Replay(h, xs).cache == h.cache
    decreases |xs|
  {
    if |xs| > 0 {
      ReplayRenders(OnNotify(h, xs[0]), xs[1..]);
      if |xs| > 1 {
        assert xs[1..][|xs[1..]| - 1] == xs[|xs| - 1];
      }
    }
  }

  /** Notifications that keep selecting the cached value never re-render, and leave the
      hook as it was. */
  lemma {:induction false} NoChangeNoRender(h: Hook, xs: seq<Selection>)
    requires forall i :: 0 <= i < |xs| ==> xs[i] == h.cache
    ensures Changes(h.cache, xs) == 0
    ensures Replay(h, xs) == h
    decreases |xs|
  {
    if |xs| > 0 {
      assert OnNotify(h, xs[0]) == h;
      NoChangeNoRender(h, xs[1..]);
    }
  }

  /** Two consecutive notifications with an identical selection re-render at most once. */
  lemma RepeatRendersOnce(h: Hook, x: Selection)
    ensures OnNotify(OnNotify(h, x), x) == OnNotify(h, x)
    ensures OnNotify(OnNotify(h, x), x).renders <= h.renders + 1
  {
  }

  /** Since the cache starts undefined and a render does not fill it, the first
      notification re-renders exactly when its selection is not undefined, even if it is
      identical to the selection the first render returned. */
  lemma FirstNotification(x: Selection)
    ensures OnNotify(Mount(), x).renders == (if x.Undefined? then 0 else 1)
    ensures var (shown, h) := Render(Mount(), x);
            OnNotify(h, shown).renders == (if x.Undefined? then 0 else 1)
  {
  }

  /** When every selection differs from the one before it, as for a selector that
      allocates, every notification re-renders. */
  lemma {:induction false} FreshSelectionsAlwaysRender(h: Hook, xs: seq<Selection>)
    requires |xs| > 0 ==> xs[0] != h.cache
    requires forall i :: 0 < i < |xs| ==> xs[i] != xs[i - 1]
    ensures Replay(h, xs).renders == h.renders + |xs|
  {
    ReplayRenders(h, xs);
    AllChange(h.cache, xs);
  }

  /** A run whose every entry differs from the one before it counts a change per entry. */
  lemma {:induction false} AllChange(prev: Selection, xs: seq<Selection>)
    requires |xs| > 0 ==> xs[0] != prev
    requires forall i :: 0 < i < |xs| ==> xs[i] != xs[i - 1]
    ensures Changes(prev, xs) == |xs|
    decreases |xs|
  {
    if |xs| > 0 {
      AllChange(xs[0], xs[1..]);
    }
  }

  /** Every listener call of a write reads the state after that write, so a hook's
      selector runs on the committed state. */
  lemma ListenerSeesWrite(s: Stores.Store, next: Value, i: nat)
    requires i < |s.listeners|
    ensures var r := Stores.SetState(s, next);
            i < |r.calls|
            && r.calls[i].listener == s.listeners[i]
            && r.calls[i].sees == Stores.GetState(r.store)
            && (IsObjectTyped(s.tree) && next.Obj? ==>
                  forall k :: k in next.fields ==> Prop(r.calls[i].sees, k) == next.fields[k])
  {
  }

  /** A teardown at any point of the store's life: once the `unsubscribe` closure of a
      hook whose listener holds one entry has run, no write of any later run calls that
      listener, and a second teardown changes nothing. */
  lemma TeardownStopsNotifications(s: Stores.Store, token: nat, nexts: seq<Value>)
    requires Stores.Wf(s) && token < |s.subs| && s.subs[token].active
    requires multiset(s.listeners)[s.subs[token].listener] == 1
    ensures var after := Stores.Unsubscribe(s, token);
            && s.subs[token].listener !in after.listeners
            && (forall c :: c in Stores.SetStates(after, nexts).calls ==>
                  c.listener != s.subs[token].listener)
            && token < |after.subs|
            && Stores.Unsubscribe(after, token) == after
  {
    var l := s.subs[token].listener;
    var after := Stores.Unsubscribe(s, token);
    Stores.UnsubscribeWf(s, token);
    var i := Stores.IndexOf(s.listeners, l);
    Stores.RemoveOneMultiset(s.listeners, i);
    assert multiset(after.listeners)[l] == 0;
    Stores.NoCallWithoutEntryAll(after, l, nexts);
  }

  /** A hook torn down straight after it subscribed, from a store where its listener was
      absent: no write of any later run calls that listener. */
  lemma ImmediateTeardown(s: Stores.Store, l: Stores.ListenerId, nexts: seq<Value>)
    requires l !in s.listeners
    ensures var a := Stores.Subscribe(s, l);
            a.token < |a.store.subs|
            && (forall c :: c in Stores.SetStates(Stores.Unsubscribe(a.store, a.token), nexts).calls
                  ==> c.listener != l)
            && Stores.Unsubscribe(Stores.Unsubscribe(a.store, a.token), a.token)
               == Stores.Unsubscribe(a.store, a.token)
  {
    var a := Stores.Subscribe(s, l);
    Stores.SubscribeThenUnsubscribe(s, l);
    Stores.NoCallWithoutEntryAll(Stores.Unsubscribe(a.store, a.token), l, nexts);
  }
}

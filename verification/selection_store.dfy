/** The page-wide selection store of state.js: one nullable selected country
    and a `Set` of listener callbacks. Listeners are opaque identities; calling
    one is recorded as a `Call` in the trace a write returns, in call order. */
module SelectionStore {
  import opened Base
  import opened Seqs

  /** The module state: the selected country and the listeners in the
      insertion order of the `Set` that holds them. */
  datatype Store<L> = Store(selected: Option<string>, listeners: seq<L>)

  /** One call `fn(selectedCountry)` made while broadcasting. */
  datatype Call<L> = Call(listener: L, country: Option<string>)

  /** The state when the module is loaded: nothing selected, nobody listening. */
  function Initial<L>(): Store<L> {
    Store(None, [])
  }

  /** A `Set` holds each listener at most once. */
  ghost predicate Valid<L>(st: Store<L>) {
    forall i, j :: 0 <= i < j < |st.listeners| ==> st.listeners[i] != st.listeners[j]
  }

  /** The broadcast: every listener is called with `country`, in order. */
  function Broadcast<L>(listeners: seq<L>, country: Option<string>): (calls: seq<Call<L>>)
    ensures |calls| == |listeners|
    ensures forall i :: 0 <= i < |calls| ==> calls[i] == Call(listeners[i], country)
  {
    if |listeners| == 0 then []
    else [Call(listeners[0], country)] + Broadcast(listeners[1..], country)
  }

  /** `setSelectedCountry(country)`: stores `country`, then calls every
      registered listener with it, in registration order. There is no check
      against the current value, so writing the same value again broadcasts
      again. */
  function SetSelectedCountry<L>(st: Store<L>, country: Option<string>): (r: (Store<L>, seq<Call<L>>))
    ensures r.0.selected == country
    ensures r.0.listeners == st.listeners
    ensures |r.1| == |st.listeners|
    ensures forall i :: 0 <= i < |r.1| ==> r.1[i].listener == st.listeners[i] && r.1[i].country == country
  {
    var st' := st.(selected := country);
    (st', Broadcast(st'.listeners, st'.selected))
  }

  /** `onCountryChange(fn)`: `listeners.add(fn)`, which appends `fn` unless it
      is already in the set. */
  function OnCountryChange<L(==, !new)>(st: Store<L>, fn: L): (r: Store<L>)
    ensures r.selected == st.selected
    ensures fn in r.listeners
    ensures forall l :: l in r.listeners <==> l in st.listeners || l == fn
    ensures st.listeners <= r.listeners
    ensures Valid(st) ==> Valid(r)
  {
    if fn in st.listeners then st else st.(listeners := st.listeners + [fn])
  }

  /** Registering the same listener again leaves the store as it is. */
  lemma RegisterIdempotent<L(!new)>(st: Store<L>, fn: L)
    ensures OnCountryChange(OnCountryChange(st, fn), fn) == OnCountryChange(st, fn)
  {
  }

  /** Calls `onCountryChange` with each of `fns` in turn. */
  function RegisterAll<L(==, !new)>(st: Store<L>, fns: seq<L>): (r: Store<L>)
    ensures r.selected == st.selected
    ensures Valid(st) ==> Valid(r)
  {
    if |fns| == 0 then st
    else OnCountryChange(RegisterAll(st, fns[..|fns| - 1]), fns[|fns| - 1])
  }

  /** Each listener is called exactly once per write, with the written value,
      and nothing else is called. */
  lemma {:induction false} EachListenerCalledOnce<L>(st: Store<L>, country: Option<string>, fn: L)
    requires Valid(st)
    ensures var calls := SetSelectedCountry(st, country).1;
      multiset(calls)[Call(fn, country)] == if fn in st.listeners then 1 else 0
    ensures forall c :: c in SetSelectedCountry(st, country).1 ==>
      c.country == country && c.listener in st.listeners
  {
    BroadcastCounts(st.listeners, country, fn);
    assert DistinctBy(st.listeners, Itself);
    DistinctAtMostOnce(st.listeners, Itself, fn);
  }

  /** A write calls each listener as often as it is listed. */
  lemma {:induction false} BroadcastCounts<L>(listeners: seq<L>, country: Option<string>, fn: L)
    ensures multiset(Broadcast(listeners, country))[Call(fn, country)] == multiset(listeners)[fn]
  {
    if |listeners| > 0 {
      var rest := listeners[1..];
      BroadcastCounts(rest, country, fn);
      assert multiset(listeners) == multiset{listeners[0]} + multiset(rest) by {
        assert listeners == [listeners[0]] + rest;
      }
      assert multiset(Broadcast(listeners, country))
          == multiset{Call(listeners[0], country)} + multiset(Broadcast(rest, country));
    }
  }

  /** Registering distinct listeners one after another and then writing
      `country` calls them in exactly the order they were registered. */
  lemma {:induction false} BroadcastFollowsRegistration<L(!new)>(fns: seq<L>, country: Option<string>)
    requires forall i, j :: 0 <= i < j < |fns| ==> fns[i] != fns[j]
    ensures SetSelectedCountry(RegisterAll(Initial(), fns), country).1
      == seq(|fns|, i requires 0 <= i < |fns| => Call(fns[i], country))
  {
    RegisteredInOrder(fns);
  }

  lemma {:induction false} RegisteredInOrder<L(!new)>(fns: seq<L>)
    requires forall i, j :: 0 <= i < j < |fns| ==> fns[i] != fns[j]
    ensures RegisterAll(Initial(), fns).listeners == fns
  {
    if |fns| > 0 {
      var front := fns[..|fns| - 1];
      assert forall i, j :: 0 <= i < j < |front| ==> front[i] != front[j] by {
        forall i, j | 0 <= i < j < |front| ensures front[i] != front[j] {
          assert front[i] == fns[i] && front[j] == fns[j];
        }
      }
      RegisteredInOrder(front);
      var last := fns[|fns| - 1];
      assert last !in front by {
        forall j | 0 <= j < |front| ensures front[j] != last {
          assert front[j] == fns[j];
        }
      }
      assert front + [last] == fns;
    }
  }
}

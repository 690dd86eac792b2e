/**
 * The widget layout of the dashboard page as values: the saved layout record,
 * how it is read back from and written to the browser's local storage, the
 * pin map, and the order in which `applyStateToDom` leaves the widget
 * container.
 */
module Layout {
  import opened Wrappers
  import opened Json
  import opened Seqs

  /** The local-storage key of the widget layout. */
  const StorageKey: string := "fieldOpsDashboardV1"

  /**
   * A local-storage entry. `JSON.parse` and `JSON.stringify` are abstract:
   * `Serialized(j)` is a text that parses to `j` (what `JSON.stringify(j)`
   * writes) and `Unparseable(text)` is any text that `JSON.parse` rejects,
   * the empty text among them.
   */
  datatype Raw = Serialized(value: Json) | Unparseable(text: string)

  /**
   * The layout state object `{ order, pinned, customize }`. `order` is kept as
   * the array that was read back, so its entries need not be strings;
   * `pinned` maps widget ids to whatever value was stored for them.
   */
  datatype LayoutState = LayoutState(order: seq<Json>, pinned: map<string, Json>, customize: bool)

  /** The ids as a JSON array of strings. */
  function Strings(ids: seq<string>): (r: seq<Json>)
    ensures |r| == |ids|
  {
    if ids == [] then [] else [JStr(ids[0])] + Strings(ids[1..])
  }

  /** `Strings` wraps each id in place, so it names exactly the ids. */
  lemma {:induction false} StringsNames(ids: seq<string>)
    ensures forall i :: 0 <= i < |ids| ==> Strings(ids)[i] == JStr(ids[i])
    ensures forall x :: JStr(x) in Strings(ids) <==> x in ids
    decreases |ids|
  {
    if ids != [] {
      StringsNames(ids[1..]);
      assert Strings(ids) == [JStr(ids[0])] + Strings(ids[1..]);
      assert ids == [ids[0]] + ids[1..];
    }
  }

  /** `getDefaultState()`: the current widget order, nothing pinned, customize mode off. */
  function DefaultState(live: seq<string>): LayoutState
  {
    LayoutState(Strings(live), map[], false)
  }

  /**
   * The value `JSON.parse` gives for the stored entry when reading its fields
   * does not throw: `None` when there is no entry, when the text does not
   * parse, and when it parses to `null` (reading `null.order` throws).
   */
  function ParsedRecord(stored: Option<Raw>): (r: Option<Json>)
    ensures r.Some? ==> !r.value.JNull?
  {
    if stored.Some? && stored.value.Serialized? && !stored.value.value.JNull? then Some(stored.value.value)
    else None
  }

  /**
   * `loadLayoutState()` given the stored entry (`None` when there is none) and
   * the widget ids in the current document order. Every failure falls back to
   * the default state, and each field of a parsed record is checked on its own.
   */
  function LoadLayoutState(stored: Option<Raw>, live: seq<string>): (r: LayoutState)
    ensures ParsedRecord(stored).None? ==> r == DefaultState(live)
    ensures ParsedRecord(stored).Some? ==> var parsed := ParsedRecord(stored).value;
      && (if Prop(parsed, "order").Some? && Prop(parsed, "order").value.JArr?
          then r.order == Prop(parsed, "order").value.items
          else r.order == Strings(live))
      && (if Prop(parsed, "pinned").Some? && Prop(parsed, "pinned").value.JObj?
          then r.pinned == Prop(parsed, "pinned").value.fields
          else r.pinned == map[])
      && (r.customize <==> Truthy(Prop(parsed, "customize")))
  {
    if stored.None? || stored.value == Unparseable("") then
      DefaultState(live)                          // `if (!raw)`
    else if stored.value.Unparseable? || stored.value.value.JNull? then
      DefaultState(live)                          // `JSON.parse` threw, or `null.order` threw
    else
      var parsed := stored.value.value;
      var order := Prop(parsed, "order");
      var pinned := Prop(parsed, "pinned");
      LayoutState(
        if order.Some? && order.value.JArr? then order.value.items else Strings(live),
        if Truthy(pinned) && pinned.value.JObj? then pinned.value.fields else map[],
        Truthy(Prop(parsed, "customize")))
  }

  /** The JSON value `JSON.stringify(state)` writes. */
  function Encode(s: LayoutState): Json
  {
    JObj(map["order" := JArr(s.order), "pinned" := JObj(s.pinned), "customize" := JBool(s.customize)])
  }

  /** `saveLayoutState(state)`: overwrite the entry under the storage key. */
  function SaveLayoutState(storage: map<string, Raw>, s: LayoutState): map<string, Raw>
  {
    storage[StorageKey := Serialized(Encode(s))]
  }

  /** The stored entry under the storage key, as `localStorage.getItem` answers. */
  function Stored(storage: map<string, Raw>): Option<Raw>
  {
    if StorageKey in storage then Some(storage[StorageKey]) else None
  }

  /** Loading what was saved gives back the saved state, whatever the live widgets are. */
  lemma LoadAfterSave(storage: map<string, Raw>, s: LayoutState, live: seq<string>)
    ensures LoadLayoutState(Stored(SaveLayoutState(storage, s)), live) == s
  {
    var parsed := Encode(s);
    assert Prop(parsed, "order") == Some(JArr(s.order));
    assert Prop(parsed, "pinned") == Some(JObj(s.pinned));
    assert Prop(parsed, "customize") == Some(JBool(s.customize));
  }

  /**
   * An `order` array is kept as it was stored even when its entries are not
   * strings; only a non-array `order` falls back to the current widget order.
   */
  lemma LoadKeepsAnyOrderArray(items: seq<Json>, live: seq<string>)
    ensures LoadLayoutState(Some(Serialized(JObj(map["order" := JArr(items)]))), live)
      == LayoutState(items, map[], false)
  {
    var parsed := JObj(map["order" := JArr(items)]);
    assert Prop(parsed, "order") == Some(JArr(items));
    assert Prop(parsed, "pinned") == None;
    assert Prop(parsed, "customize") == None;
  }

  // ---------------------------------------------------------------- pinning

  /** `!!state.pinned[id]`. */
  predicate IsPinned(pinned: map<string, Json>, id: string)
  {
    id in pinned && TruthyValue(pinned[id])
  }

  /** The pin-button click: `state.pinned[id] = true` or `delete state.pinned[id]`. */
  function TogglePinned(pinned: map<string, Json>, id: string): map<string, Json>
  {
    if !IsPinned(pinned, id) then pinned[id := JBool(true)] else pinned - {id}
  }

  /**
   * A pin click flips whether `id` is pinned, touches no other id, and
   * stores only `true`.
   */
  lemma TogglePinnedFlips(pinned: map<string, Json>, id: string)
    ensures var r := TogglePinned(pinned, id);
      && IsPinned(r, id) == !IsPinned(pinned, id)
      && (forall k :: k != id ==> (k in r <==> k in pinned) && (k in r ==> r[k] == pinned[k]))
      && (id in r ==> r[id] == JBool(true))
  {
  }

  /** Every stored pin value is `true`, as after any number of pin clicks from `{}`. */
  ghost predicate OnlyTrue(pinned: map<string, Json>)
  {
    forall k :: k in pinned ==> pinned[k] == JBool(true)
  }

  /** Clicking the same pin twice restores which widgets are pinned. */
  lemma ToggleTwiceRestoresPins(pinned: map<string, Json>, id: string, k: string)
    ensures IsPinned(TogglePinned(TogglePinned(pinned, id), id), k) == IsPinned(pinned, k)
  {
  }

  /** Pin clicks only ever store `true`, and two clicks on one id restore the map itself. */
  lemma ToggleTwiceRestoresMap(pinned: map<string, Json>, id: string)
    requires OnlyTrue(pinned)
    ensures OnlyTrue(TogglePinned(pinned, id))
    ensures TogglePinned(TogglePinned(pinned, id), id) == pinned
  {
    var once := TogglePinned(pinned, id);
    var twice := TogglePinned(once, id);
    assert twice.Keys == pinned.Keys;
    forall k | k in pinned ensures twice[k] == pinned[k] {
    }
  }

  // ---------------------------------------------------------- reconciling

  /** The ids that the saved order names (its string entries). */
  function Mentioned(order: seq<Json>): (r: set<string>)
    ensures forall x :: x in r <==> JStr(x) in order
  {
    set e | e in order && e.JStr? :: e.s
  }

  /** One `state.order.forEach` step: append the widget the entry names, if it is live. */
  function PlaceSavedStep(c: seq<string>, entry: Json): seq<string>
  {
    if entry.JStr? && entry.s in c then MoveToEnd(c, entry.s) else c
  }

  /** The first loop of `applyStateToDom`, over the saved order. */
  function PlaceSaved(c: seq<string>, order: seq<Json>): seq<string>
    decreases |order|
  {
    if order == [] then c else PlaceSaved(PlaceSavedStep(c, order[0]), order[1..])
  }

  /** The second loop: append each widget of `ws` that the saved order does not name. */
  function PlaceNew(c: seq<string>, ws: seq<string>, order: seq<Json>): seq<string>
    decreases |ws|
  {
    if ws == [] then c
    else PlaceNew(if JStr(ws[0]) !in order then MoveToEnd(c, ws[0]) else c, ws[1..], order)
  }

  /**
   * The container order `applyStateToDom` leaves, from the container order `c`
   * it starts with (`widgets` is built from `c`, in that order).
   */
  function Reconcile(c: seq<string>, order: seq<Json>): seq<string>
  {
    PlaceNew(PlaceSaved(c, order), c, order)
  }

  /**
   * The live widgets the saved order names, each where the order names it for
   * the last time (appending a widget again moves it behind the others).
   */
  function SavedLast(order: seq<Json>, live: set<string>): (r: seq<string>)
    ensures forall x :: x in r ==> x in live && JStr(x) in order
  {
    if order == [] then []
    else
      var head := if order[0].JStr? && order[0].s in live && order[0] !in order[1..] then [order[0].s] else [];
      head + SavedLast(order[1..], live)
  }

  /** The live widgets a saved order names, in the saved order. */
  function SavedLive(order: seq<Json>, live: set<string>): (r: seq<string>)
    ensures forall x :: x in r <==> x in live && JStr(x) in order
  {
    if order == [] then []
    else (if order[0].JStr? && order[0].s in live then [order[0].s] else []) + SavedLive(order[1..], live)
  }

  lemma {:induction false} PlaceSavedForm(c: seq<string>, order: seq<Json>)
    ensures PlaceSaved(c, order) == Keep(c, Mentioned(order)) + SavedLast(order, Elems(c))
    decreases |order|
  {
    if order == [] {
      KeepEmpty(c);
      assert Mentioned(order) == {};
      assert c + [] == c;
    } else {
      var e, rest := order[0], order[1..];
      var c' := PlaceSavedStep(c, e);
      if e.JStr? && e.s in c {
        MoveToEndElems(c, e.s);
      }
      assert Elems(c') == Elems(c);
      PlaceSavedForm(c', rest);
      assert PlaceSaved(c, order) == PlaceSaved(c', rest);
      PlaceSavedFormStep(c, e, rest);
      assert order == [e] + rest;
    }
  }

  /** The inductive step of `PlaceSavedForm`, for the first entry `e` of the order. */
  lemma PlaceSavedFormStep(c: seq<string>, e: Json, rest: seq<Json>)
    ensures Keep(PlaceSavedStep(c, e), Mentioned(rest)) + SavedLast(rest, Elems(c))
      == Keep(c, Mentioned([e] + rest)) + SavedLast([e] + rest, Elems(c))
  {
    var order := [e] + rest;
    assert order[0] == e && order[1..] == rest;
    if e.JStr? && e.s in c {
      PlaceSavedFormMove(c, e.s, rest);
    } else {
      KeepSameOn(c, Mentioned(rest), Mentioned(order));
      assert SavedLast(order, Elems(c)) == SavedLast(rest, Elems(c));
    }
  }

  /** `PlaceSavedFormStep` when the entry names a live widget `id`. */
  lemma PlaceSavedFormMove(c: seq<string>, id: string, rest: seq<Json>)
    requires id in c
    ensures Keep(MoveToEnd(c, id), Mentioned(rest)) + SavedLast(rest, Elems(c))
      == Keep(c, Mentioned([JStr(id)] + rest)) + SavedLast([JStr(id)] + rest, Elems(c))
  {
    var order := [JStr(id)] + rest;
    var m, m1 := Mentioned(order), Mentioned(rest);
    var tail := SavedLast(rest, Elems(c));
    var head := Keep([id], m1);
    assert m == {id} + m1;
    MoveToEndKeepThen(c, id, m1, tail);
    assert SavedLast(order, Elems(c)) == head + tail by {
      assert order[0] == JStr(id) && order[1..] == rest;
      if JStr(id) in rest {
        KeepEverything([id], m1);
      } else {
        KeepNothing([id], m1);
      }
    }
  }

  lemma {:induction false} PlaceNewForm(c: seq<string>, ws: seq<string>, order: seq<Json>)
    requires Distinct(ws)
    ensures PlaceNew(c, ws, order) == Keep(c, Elems(Keep(ws, Mentioned(order)))) + Keep(ws, Mentioned(order))
    decreases |ws|
  {
    var m := Mentioned(order);
    if ws == [] {
      KeepEmpty(c);
      assert Elems(Keep(ws, m)) == {};
      assert c + [] == c;
    } else {
      var w, rest := ws[0], ws[1..];
      DistinctTail(ws);
      assert ws == [w] + rest;
      if JStr(w) !in order {
        var c' := MoveToEnd(c, w);
        PlaceNewForm(c', rest, order);
        assert PlaceNew(c, ws, order) == PlaceNew(c', rest, order);
        PlaceNewFormMove(c, w, rest, m);
      } else {
        PlaceNewForm(c, rest, order);
        assert PlaceNew(c, ws, order) == PlaceNew(c, rest, order);
        assert Keep(ws, m) == Keep(rest, m);
      }
    }
  }

  /** The inductive step of `PlaceNewForm` when the first widget `w` is appended. */
  lemma PlaceNewFormMove(c: seq<string>, w: string, rest: seq<string>, m: set<string>)
    requires w !in rest && w !in m
    ensures Keep(MoveToEnd(c, w), Elems(Keep(rest, m))) + Keep(rest, m)
      == Keep(c, Elems(Keep([w] + rest, m))) + Keep([w] + rest, m)
  {
    var u1 := Keep(rest, m);
    KeepMembers(rest, m);
    MoveToEndThenFront(c, w, u1);
    assert ([w] + rest)[0] == w && ([w] + rest)[1..] == rest;
  }

  /**
   * What `applyStateToDom` does to the order, in closed form: the live widgets
   * the saved order names come first, then the widgets it does not name, in
   * their previous container order.
   */
  lemma ReconcileForm(c: seq<string>, order: seq<Json>)
    requires Distinct(c)
    ensures Reconcile(c, order) == SavedLast(order, Elems(c)) + Keep(c, Mentioned(order))
  {
    var m := Mentioned(order);
    var saved := SavedLast(order, Elems(c));
    var unnamed := Keep(c, m);
    PlaceSavedForm(c, order);
    assert PlaceSaved(c, order) == unnamed + saved;
    PlaceNewForm(unnamed + saved, c, order);
    assert Reconcile(c, order) == Keep(unnamed + saved, Elems(unnamed)) + unnamed;
    KeepAppend(unnamed, saved, Elems(unnamed));
    assert Keep(unnamed + saved, Elems(unnamed)) == Keep(unnamed, Elems(unnamed)) + Keep(saved, Elems(unnamed));
    KeepEverything(unnamed, Elems(unnamed));
    assert Keep(unnamed, Elems(unnamed)) == [];
    KeepMembers(c, m);
    assert forall x :: x in saved ==> x !in Elems(unnamed);
    KeepNothing(saved, Elems(unnamed));
    assert Keep(saved, Elems(unnamed)) == saved;
    assert [] + saved == saved;
  }
  /** For a saved order without repeated entries the saved widgets keep the saved order. */
  lemma {:induction false} SavedLastWithoutRepeats(order: seq<Json>, live: set<string>)
    requires Distinct(order)
    ensures SavedLast(order, live) == SavedLive(order, live)
    decreases |order|
  {
    if order != [] {
      DistinctTail(order);
      SavedLastWithoutRepeats(order[1..], live);
    }
  }

  /**
   * For a saved order without repeated entries, `applyStateToDom` orders the
   * container as `[id in order | id live]` followed by the live widgets the
   * order does not name, in their previous container order.
   */
  lemma ReconcileWithoutRepeats(c: seq<string>, order: seq<Json>)
    requires Distinct(c) && Distinct(order)
    ensures Reconcile(c, order) == SavedLive(order, Elems(c)) + Keep(c, Mentioned(order))
  {
    ReconcileForm(c, order);
    SavedLastWithoutRepeats(order, Elems(c));
  }

  lemma {:induction false} PlaceSavedPermutes(c: seq<string>, order: seq<Json>)
    requires Distinct(c)
    ensures multiset(PlaceSaved(c, order)) == multiset(c)
    decreases |order|
  {
    if order != [] {
      var c' := PlaceSavedStep(c, order[0]);
      if order[0].JStr? && order[0].s in c {
        MoveToEndPermutes(c, order[0].s);
      }
      PlaceSavedPermutes(c', order[1..]);
    }
  }

  lemma {:induction false} PlaceNewPermutes(c: seq<string>, ws: seq<string>, order: seq<Json>)
    requires Distinct(c) && forall w :: w in ws ==> w in c
    ensures multiset(PlaceNew(c, ws, order)) == multiset(c)
    decreases |ws|
  {
    if ws != [] {
      var c' := if JStr(ws[0]) !in order then MoveToEnd(c, ws[0]) else c;
      if JStr(ws[0]) !in order {
        MoveToEndPermutes(c, ws[0]);
        MoveToEndElems(c, ws[0]);
      }
      PlaceNewPermutes(c', ws[1..], order);
    }
  }

  /** `applyStateToDom` neither loses nor duplicates a widget. */
  lemma ReconcilePermutes(c: seq<string>, order: seq<Json>)
    requires Distinct(c)
    ensures multiset(Reconcile(c, order)) == multiset(c)
    ensures Distinct(Reconcile(c, order))
  {
    PlaceSavedPermutes(c, order);
    var placed := PlaceSaved(c, order);
    PermutationElems(placed, c);
    PlaceNewPermutes(placed, c, order);
  }

  /** Applying the same order a second time leaves the container as it is. */
  lemma ReconcileIdempotent(c: seq<string>, order: seq<Json>)
    requires Distinct(c)
    ensures Reconcile(Reconcile(c, order), order) == Reconcile(c, order)
  {
    var m := Mentioned(order);
    var r := Reconcile(c, order);
    var saved := SavedLast(order, Elems(c));
    var unnamed := Keep(c, m);
    ReconcileForm(c, order);
    ReconcilePermutes(c, order);
    PermutationElems(r, c);
    ReconcileForm(r, order);
    KeepMembers(c, m);
    KeepPrefix(saved, unnamed, m);
  }

  /** The container's own order is a fixed point: applying it changes nothing. */
  lemma ReconcileOwnOrder(c: seq<string>)
    requires Distinct(c)
    ensures Reconcile(c, Strings(c)) == c
  {
    ReconcileForm(c, Strings(c));
    StringsNames(c);
    SavedLastOfOwnOrder(c, Elems(c));
    KeepEverything(c, Mentioned(Strings(c)));
  }

  lemma {:induction false} SavedLastOfOwnOrder(w: seq<string>, live: set<string>)
    requires Distinct(w) && forall x :: x in w ==> x in live
    ensures SavedLast(Strings(w), live) == w
    decreases |w|
  {
    if w != [] {
      DistinctTail(w);
      var rest := Strings(w[1..]);
      assert Strings(w) == [JStr(w[0])] + rest;
      StringsNames(w[1..]);
      assert JStr(w[0]) !in rest;
      SavedLastOfOwnOrder(w[1..], live);
    }
  }

  /** A saved order `[b, a]` over live widgets `a, b, x` puts `b, a` first and `x` after them. */
  lemma ReconcileExample(a: string, b: string, x: string)
    requires a != b && a != x && b != x
    ensures Reconcile([a, b, x], [JStr(b), JStr(a)]) == [b, a, x]
  {
    var c := [a, b, x];
    var order := [JStr(b), JStr(a)];
    ReconcileForm(c, order);
    var live := Elems(c);
    assert SavedLast(order, live) == [b, a] by {
      var rest := [JStr(a)];
      assert order[0] == JStr(b) && order[1..] == rest;
      assert rest[0] == JStr(a) && rest[1..] == [];
      assert a in live && b in live;
      assert SavedLast(rest, live) == [a] + SavedLast([], live);
      assert SavedLast(order, live) == [b] + SavedLast(rest, live);
    }
    assert Mentioned(order) == {a, b};
    assert Keep(c, {a, b}) == [x] by {
      var s := {a, b};
      assert c[0] == a && c[1..] == [b, x];
      assert [b, x][0] == b && [b, x][1..] == [x];
      assert [x][0] == x && [x][1..] == [];
      assert Keep([x], s) == [x] + Keep([], s);
      assert Keep([b, x], s) == Keep([x], s);
      assert Keep(c, s) == Keep([b, x], s);
    }
  }
}

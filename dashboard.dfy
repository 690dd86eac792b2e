/**
 * The dashboard page's widget container and its event handlers: boot,
 * `applyStateToDom`, `getDragAfterElement`, the drag-and-drop handlers, the
 * pin button, the customize toggle and the reset button.
 *
 * The document is abstracted to what these handlers read and write: the
 * `data-id`s of the widgets in the `#widgets` container in document order,
 * the widgets carrying the `pinned` and `dragging` classes, the
 * `aria-pressed` attribute of each pin button and the `draggable` attribute
 * of each widget, the container's `drop-indicator` class, the customize
 * checkbox and the body's `customizing` class. Local storage is a map from
 * keys to entries. The shared `state` object is the three fields `order`,
 * `pinned` and `customize`.
 */
module DashboardPage {
  import opened Wrappers
  import opened Json
  import opened Seqs
  import opened Layout
  import opened DropTarget

  /** `String(b)`, as written into an attribute. */
  function BoolText(b: bool): (r: string)
    ensures r == Text(JBool(b))
  {
    if b then "true" else "false"
  }

  /**
   * What the handlers track of one widget element: its `pinned` class, the
   * `aria-pressed` attribute of its pin button and its `draggable` attribute
   * (`None` while an attribute is not set).
   */
  datatype Widget = Widget(pinnedClass: bool, ariaPressed: Option<string>, draggable: Option<string>)

  /**
   * One step of the third loop of `applyStateToDom`: the widget `id` after its
   * class and attributes are set from `s`; `hasButton` says whether it
   * contains a `.pin-btn`.
   */
  function Flagged(w: Widget, id: string, hasButton: bool, s: LayoutState): Widget
  {
    var isPinned := IsPinned(s.pinned, id);
    Widget(isPinned, if hasButton then Some(BoolText(isPinned)) else w.ariaPressed, Some(BoolText(s.customize && !isPinned)))
  }

  /** Every widget flagged from `s`. */
  function FlagAll(ws: map<string, Widget>, buttons: set<string>, s: LayoutState): map<string, Widget>
  {
    map id | id in ws :: Flagged(ws[id], id, id in buttons, s)
  }

  /** Each widget shows `s`: its class, its pin button's pressed state and its draggability. */
  ghost predicate FlagsShow(ws: map<string, Widget>, buttons: set<string>, s: LayoutState)
  {
    forall id :: id in ws ==>
      && ws[id].pinnedClass == IsPinned(s.pinned, id)
      && (id in buttons ==> ws[id].ariaPressed == Some(BoolText(IsPinned(s.pinned, id))))
      && ws[id].draggable == Some(BoolText(s.customize && !IsPinned(s.pinned, id)))
  }

  /** Flagging shows the state on every widget, and flagging again changes nothing. */
  lemma FlagAllShows(ws: map<string, Widget>, buttons: set<string>, s: LayoutState)
    ensures FlagAll(ws, buttons, s).Keys == ws.Keys
    ensures FlagsShow(FlagAll(ws, buttons, s), buttons, s)
    ensures FlagAll(FlagAll(ws, buttons, s), buttons, s) == FlagAll(ws, buttons, s)
  {
    var once := FlagAll(ws, buttons, s);
    forall id | id in once ensures Flagged(once[id], id, id in buttons, s) == once[id] {
      assert once[id] == Flagged(ws[id], id, id in buttons, s);
    }
  }

  /**
   * The container order the `dragover` handler leaves in customize mode: the
   * first widget marked `dragging` moves to just before the anchor, or to the
   * end when there is no anchor; without a dragging widget nothing moves.
   */
  function DragOverOrder(c: seq<string>, dragging: set<string>, box: string -> Rect, x: int, y: int): seq<string>
  {
    var anchor := Anchor(Keep(c, dragging), box, x, y);
    var d := FirstIn(c, dragging);
    if d.None? then c
    else if anchor.None? then MoveToEnd(c, d.value)
    else
      KeepMembers(c, dragging);
      MoveBefore(c, d.value, anchor.value)
  }

  /**
   * A `dragover` keeps the widgets, and puts the dragged widget at the end
   * when every widget is being dragged and otherwise immediately before the
   * anchor, leaving the other widgets in their order.
   */
  lemma DragOverMoves(c: seq<string>, dragging: set<string>, box: string -> Rect, x: int, y: int)
    requires Distinct(c)
    ensures var r := DragOverOrder(c, dragging, box, x, y);
      multiset(r) == multiset(c) && Distinct(r)
    ensures var r := DragOverOrder(c, dragging, box, x, y);
      var d := FirstIn(c, dragging);
      var anchor := Anchor(Keep(c, dragging), box, x, y);
      && (d.None? ==> r == c)
      && (d.Some? ==> Keep(r, {d.value}) == Keep(c, {d.value}))
      && (d.Some? && anchor.None? ==> r[|r| - 1] == d.value)
      && (d.Some? && anchor.Some? ==> anchor.value in r && 0 < IndexOf(r, anchor.value) && r[IndexOf(r, anchor.value) - 1] == d.value)
  {
    var d := FirstIn(c, dragging);
    var anchor := Anchor(Keep(c, dragging), box, x, y);
    if d.Some? {
      if anchor.None? {
        MoveToEndPermutes(c, d.value);
        MoveToEndPlaces(c, d.value);
      } else {
        KeepMembers(c, dragging);
        MoveBeforePermutes(c, d.value, anchor.value);
        MoveBeforePlaces(c, d.value, anchor.value);
      }
    }
  }

  /**
   * Because the dragged widget always goes before the nearest other widget,
   * it can only end up last when no other widget is left to anchor on.
   */
  lemma DragOverLastOnlyWhenAlone(c: seq<string>, dragging: set<string>, box: string -> Rect, x: int, y: int)
    requires Distinct(c) && FirstIn(c, dragging).Some?
    requires Keep(c, dragging) != []
    ensures var r := DragOverOrder(c, dragging, box, x, y);
      |r| > 0 && r[|r| - 1] != FirstIn(c, dragging).value
  {
    var d := FirstIn(c, dragging).value;
    var anchor := Anchor(Keep(c, dragging), box, x, y);
    AnchorIsNearest(Keep(c, dragging), box, x, y);
    KeepMembers(c, dragging);
    DragOverMoves(c, dragging, box, x, y);
    var r := DragOverOrder(c, dragging, box, x, y);
    var k := IndexOf(r, anchor.value);
    assert r[k - 1] == d && k < |r|;
    assert Distinct(r);
    if r[|r| - 1] == d {
      DistinctIndex(r, k - 1, |r| - 1);
    }
  }

  /** Applying a state a second time changes neither the container order nor any widget. */
  lemma ApplyTwice(c: seq<string>, ws: map<string, Widget>, buttons: set<string>, s: LayoutState)
    requires Distinct(c)
    ensures Reconcile(Reconcile(c, s.order), s.order) == Reconcile(c, s.order)
    ensures FlagAll(FlagAll(ws, buttons, s), buttons, s) == FlagAll(ws, buttons, s)
  {
    ReconcileIdempotent(c, s.order);
    FlagAllShows(ws, buttons, s);
  }

  /**
   * Widget ids are unique, every widget of the container has an element state
   * and only widgets of the container are marked `dragging`.
   */
  ghost predicate WellFormed(c: seq<string>, ws: map<string, Widget>, dragging: set<string>)
  {
    && Distinct(c)
    && ws.Keys == Elems(c)
    && dragging <= Elems(c)
  }

  /** Reordering the widgets keeps the page well formed. */
  lemma WellFormedReordered(c: seq<string>, c': seq<string>, ws: map<string, Widget>, dragging: set<string>)
    requires WellFormed(c, ws, dragging)
    requires Distinct(c') && multiset(c') == multiset(c)
    ensures WellFormed(c', ws, dragging)
  {
    PermutationElems(c', c);
  }

  /** A `dragover` keeps the page well formed and the widgets the same. */
  lemma DragOverKeepsWellFormed(c: seq<string>, ws: map<string, Widget>, dragging: set<string>,
                                box: string -> Rect, x: int, y: int)
    requires WellFormed(c, ws, dragging)
    ensures WellFormed(DragOverOrder(c, dragging, box, x, y), ws, dragging)
    ensures multiset(DragOverOrder(c, dragging, box, x, y)) == multiset(c)
  {
    DragOverMoves(c, dragging, box, x, y);
    WellFormedReordered(c, DragOverOrder(c, dragging, box, x, y), ws, dragging);
  }

  /**
   * Reset's default state leaves the container order as it is, and loading
   * after reset's save gives that default back.
   */
  lemma ResetRestores(c: seq<string>, storage: map<string, Raw>)
    requires Distinct(c)
    ensures Reconcile(c, DefaultState(c).order) == c
    ensures LoadLayoutState(Stored(SaveLayoutState(storage, DefaultState(c))), c) == DefaultState(c)
  {
    ReconcileOwnOrder(c);
    LoadAfterSave(storage, DefaultState(c), c);
  }

  class Dashboard {
    /** The `data-id`s of the container's widgets, in document order. */
    var container: seq<string>
    /** The widgets that contain a `.pin-btn`. */
    const pinButtons: set<string>
    /** The class and attributes of each widget, by `data-id`. */
    var widgets: map<string, Widget>
    /** The widgets with the `dragging` class. */
    var dragging: set<string>
    /** The container's `drop-indicator` class. */
    var dropIndicator: bool
    /** The `checked` property of `#customizeToggle`. */
    var toggleChecked: bool
    /** The body's `customizing` class. */
    var customizing: bool
    /** `localStorage`. */
    var storage: map<string, Raw>
    /** The shared `state` object, field by field. */
    var order: seq<Json>
    var pinned: map<string, Json>
    var customize: bool

    ghost predicate Valid()
      reads this`container, this`widgets, this`dragging
    {
      WellFormed(container, widgets, dragging)
    }

    function State(): LayoutState
      reads this`order, this`pinned, this`customize
    {
      LayoutState(order, pinned, customize)
    }

    /** The widgets and the two customize flags show `s`. */
    ghost predicate Shows(s: LayoutState)
      reads this`widgets, this`toggleChecked, this`customizing
    {
      && FlagsShow(widgets, pinButtons, s)
      && toggleChecked == s.customize
      && customizing == s.customize
    }

    /**
     * The `DOMContentLoaded` handler: load the state and apply it to the
     * page, whose widgets start out in `ws`.
     */
    constructor (ids: seq<string>, buttons: set<string>, ws: map<string, Widget>, store: map<string, Raw>)
      requires Distinct(ids) && ws.Keys == Elems(ids)
      ensures Valid()
      ensures State() == LoadLayoutState(Stored(store), ids)
      ensures container == Reconcile(ids, LoadLayoutState(Stored(store), ids).order)
      ensures widgets == FlagAll(ws, buttons, LoadLayoutState(Stored(store), ids))
      ensures toggleChecked == customize && customizing == customize
      ensures pinButtons == buttons && storage == store
      ensures dragging == {} && !dropIndicator
    {
      container := ids;
      pinButtons := buttons;
      widgets := ws;
      dragging := {};
      dropIndicator := false;
      toggleChecked := false;
      customizing := false;
      storage := store;
      var s := LoadLayoutState(Stored(store), ids);
      order, pinned, customize := s.order, s.pinned, s.customize;
      new;
      ApplyStateToDom(s);
    }

    /**
     * `applyStateToDom(s)`: append the widgets the saved order names, in that
     * order; then append, in their earlier order, the widgets it does not name;
     * then set every widget's class and attributes and the two customize flags.
     */
    method ApplyStateToDom(s: LayoutState)
      requires Valid()
      modifies this`container, this`widgets, this`toggleChecked, this`customizing
      ensures Valid()
      ensures container == Reconcile(old(container), s.order)
      ensures multiset(container) == multiset(old(container))
      ensures widgets == FlagAll(old(widgets), pinButtons, s)
      ensures toggleChecked == s.customize && customizing == s.customize
      ensures Shows(s)
    {
      var c0 := container;
      PlaceSavedLoop(s.order);
      PlaceNewLoop(c0, s.order);
      FlagLoop(s);
      FlagAllShows(old(widgets), pinButtons, s);
      toggleChecked := s.customize;
      customizing := s.customize;
    }

    /** The first loop of `applyStateToDom`: `state.order.forEach`, appending each live widget it names. */
    method PlaceSavedLoop(order: seq<Json>)
      requires Valid()
      modifies this`container
      ensures Valid()
      ensures container == PlaceSaved(old(container), order)
      ensures multiset(container) == multiset(old(container))
    {
      var c0 := container;
      var live := Elems(c0);        // the keys of the `widgets` map
      for i := 0 to |order|
        invariant Distinct(container) && multiset(container) == multiset(c0)
        invariant Elems(container) == live
        invariant PlaceSaved(container, order[i..]) == PlaceSaved(c0, order)
      {
        var id := order[i];
        assert order[i..][0] == id && order[i..][1..] == order[i + 1..];
        if id.JStr? && id.s in live {
          MoveToEndStep(container, id.s);
          container := MoveToEnd(container, id.s);
        }
      }
      assert order[|order|..] == [];
    }

    /**
     * The second loop: `widgets.forEach` over the widgets in the order `c0`
     * they had when `applyStateToDom` started, appending those the order does
     * not name.
     */
    method PlaceNewLoop(c0: seq<string>, order: seq<Json>)
      requires Valid() && Elems(c0) == Elems(container)
      modifies this`container
      ensures Valid()
      ensures container == PlaceNew(old(container), c0, order)
      ensures multiset(container) == multiset(old(container))
    {
      ghost var placed := container;
      for i := 0 to |c0|
        invariant Distinct(container) && multiset(container) == multiset(placed)
        invariant Elems(container) == Elems(c0)
        invariant PlaceNew(container, c0[i..], order) == PlaceNew(placed, c0, order)
      {
        var id := c0[i];
        assert c0[i..][0] == id && c0[i..][1..] == c0[i + 1..];
        if JStr(id) !in order {
          MoveToEndStep(container, id);
          container := MoveToEnd(container, id);
        }
      }
      assert c0[|c0|..] == [];
    }

    /** The third loop: every widget in document order gets its class and attributes set from `s`. */
    method FlagLoop(s: LayoutState)
      requires Valid()
      modifies this`widgets
      ensures Valid()
      ensures widgets == FlagAll(old(widgets), pinButtons, s)
    {
      ghost var w0 := widgets;
      ghost var done: set<string> := {};
      for i := 0 to |container|
        invariant done <= Elems(container)
        invariant forall j :: 0 <= j < i ==> container[j] in done
        invariant widgets.Keys == w0.Keys
        invariant forall id :: id in widgets ==>
          widgets[id] == if id in done then Flagged(w0[id], id, id in pinButtons, s) else w0[id]
      {
        var id := container[i];
        var el := widgets[id];
        var isPinned := IsPinned(s.pinned, id);
        var pressed := if id in pinButtons then Some(BoolText(isPinned)) else el.ariaPressed;
        widgets := widgets[id := Widget(isPinned, pressed, Some(BoolText(s.customize && !isPinned)))];
        done := done + {id};
      }
      assert done == Elems(container) by {
        forall id | id in container ensures id in done {
          var j := IndexOf(container, id);
        }
      }
    }

    /**
     * `getDragAfterElement(container, x, y)`: scan the widgets without the
     * `dragging` class and keep the first one whose centre is strictly nearer
     * than every one before it.
     */
    method GetDragAfterElement(x: int, y: int, box: string -> Rect) returns (r: Option<string>)
      ensures r == Anchor(Keep(container, dragging), box, x, y)
    {
      var elements := Keep(container, dragging);
      if |elements| == 0 {
        return None;
      }
      ghost var ds := Distances(elements, box, x, y);
      var closest: Option<nat> := None;       // `Number.POSITIVE_INFINITY`
      var element := elements[0];
      for i := 0 to |elements|
        invariant i == 0 <==> closest.None?
        invariant i > 0 ==> var k := FirstMin(ds[..i]);
          closest == Some(ds[k]) && element == elements[k]
      {
        var dist := CentreDistance(box(elements[i]), x, y);
        assert ds[..i + 1][..i] == ds[..i];
        if closest.None? || dist < closest.value {
          closest, element := Some(dist), elements[i];
        }
      }
      assert ds[..|elements|] == ds;
      return Some(element);
    }

    /**
     * The `dragstart` handler, for the widget the event started in (`None`
     * when the target is not inside one). The drag is cancelled when customize
     * mode is off or the widget is pinned; otherwise the widget is marked
     * `dragging`.
     */
    method DragStart(target: Option<string>) returns (cancelled: bool)
      requires Valid() && (target.Some? ==> target.value in container)
      modifies this`dragging
      ensures Valid()
      ensures cancelled <==> target.Some? && (!customize || IsPinned(pinned, target.value))
      ensures dragging == if target.Some? && !cancelled then old(dragging) + {target.value} else old(dragging)
    {
      cancelled := false;
      if target.None? {
        return;
      }
      var id := target.value;
      if !customize || IsPinned(pinned, id) {
        cancelled := true;       // `e.preventDefault()`
        return;
      }
      dragging := dragging + {id};
    }

    /** The `dragend` handler: unmark the widget, clear the drop indicator, save nothing. */
    method DragEnd(target: Option<string>)
      requires Valid()
      modifies this`dragging, this`dropIndicator
      ensures Valid()
      ensures dragging == if target.Some? then old(dragging) - {target.value} else old(dragging)
      ensures !dropIndicator
      ensures storage == old(storage) && State() == old(State())
    {
      if target.Some? {
        dragging := dragging - {target.value};
      }
      dropIndicator := false;
    }

    /**
     * The `dragover` handler at pointer `(x, y)`: nothing outside customize
     * mode; otherwise show the drop indicator and move the dragging widget
     * before the anchor, or to the end when there is none.
     */
    method DragOver(x: int, y: int, box: string -> Rect)
      requires Valid()
      modifies this`container, this`dropIndicator
      ensures Valid()
      ensures container == if customize then DragOverOrder(old(container), dragging, box, x, y) else old(container)
      ensures dropIndicator == (customize || old(dropIndicator))
      ensures multiset(container) == multiset(old(container))
    {
      if customize {
        dropIndicator := true;
        MoveDragging(x, y, box);
      }
    }

    /**
     * The rest of the `dragover` handler: find the anchor and the dragging
     * widget, and move that widget before the anchor or to the end.
     */
    method MoveDragging(x: int, y: int, box: string -> Rect)
      requires Valid()
      modifies this`container
      ensures Valid()
      ensures container == DragOverOrder(old(container), dragging, box, x, y)
      ensures multiset(container) == multiset(old(container))
    {
      var afterEl := GetDragAfterElement(x, y, box);
      var item := FirstIn(container, dragging);
      var next := container;
      if item.Some? {
        if afterEl.None? {
          next := MoveToEnd(container, item.value);
        } else {
          KeepMembers(container, dragging);
          next := MoveBefore(container, item.value, afterEl.value);
        }
      }
      assert next == DragOverOrder(container, dragging, box, x, y);
      DragOverKeepsWellFormed(container, widgets, dragging, box, x, y);
      container := next;
    }

    /** The `drop` handler: take the container order as the saved order and save the state. */
    method Drop()
      requires Valid()
      modifies this`order, this`storage, this`dropIndicator
      ensures Valid()
      ensures order == Strings(container)
      ensures storage == SaveLayoutState(old(storage), State())
      ensures !dropIndicator
    {
      order := Strings(container);
      storage := SaveLayoutState(storage, State());
      dropIndicator := false;
    }

    /**
     * A click on the pin button of a widget (`None` when the click is not in a
     * pin button inside a widget): flip the pin, save, and apply the state.
     */
    method TogglePin(target: Option<string>)
      requires Valid()
      modifies this`pinned, this`storage, this`container, this`widgets, this`toggleChecked, this`customizing
      ensures Valid()
      ensures target.None? ==> (
        && container == old(container) && storage == old(storage) && State() == old(State())
        && widgets == old(widgets) && toggleChecked == old(toggleChecked) && customizing == old(customizing))
      ensures target.Some? ==> (
        && pinned == TogglePinned(old(pinned), target.value)
        && storage == SaveLayoutState(old(storage), State())
        && container == Reconcile(old(container), order)
        && widgets == FlagAll(old(widgets), pinButtons, State())
        && toggleChecked == customize && customizing == customize)
    {
      if target.Some? {
        pinned := TogglePinned(pinned, target.value);
        storage := SaveLayoutState(storage, State());
        ApplyStateToDom(State());
      }
    }

    /** The customize checkbox's `change` handler, after the box was set to `checked`. */
    method CustomizeChanged(checked: bool)
      requires Valid()
      modifies this`customize, this`storage, this`container, this`widgets, this`toggleChecked, this`customizing
      ensures Valid()
      ensures customize == checked
      ensures storage == SaveLayoutState(old(storage), State())
      ensures container == Reconcile(old(container), order)
      ensures widgets == FlagAll(old(widgets), pinButtons, State())
      ensures toggleChecked == customize && customizing == customize
    {
      toggleChecked := checked;
      customize := toggleChecked;
      storage := SaveLayoutState(storage, State());
      ApplyStateToDom(State());
    }

    /**
     * The reset button: drop the saved entry, apply a fresh default state
     * built from the current widget order, save it and adopt it as the state.
     */
    method Reset()
      requires Valid()
      modifies this`order, this`pinned, this`customize, this`storage
      modifies this`container, this`widgets, this`toggleChecked, this`customizing
      ensures Valid()
      ensures State() == DefaultState(old(container))
      ensures container == old(container)
      ensures widgets == FlagAll(old(widgets), pinButtons, DefaultState(old(container)))
      ensures storage == SaveLayoutState(old(storage) - {StorageKey}, DefaultState(old(container)))
      ensures toggleChecked == customize && customizing == customize
    {
      storage := storage - {StorageKey};
      var def := DefaultState(container);
      ReconcileOwnOrder(container);
      ApplyStateToDom(def);
      storage := SaveLayoutState(storage, def);
      order, pinned, customize := def.order, def.pinned, def.customize;
    }
  }
}

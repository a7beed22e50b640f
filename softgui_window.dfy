// `SoftGUI::Window`: the widgets it owns, pack layout, and the mouse and
// keyboard cases of its window procedure.
//
// Widget objects live in `store` and are referred to by their index there
// (a handle stands for a `shared_ptr`; the same handle may be registered
// more than once, as the same pointer may).  `parent[h]` is widget `h`'s
// `parent` pointer.  `widgets` is `widgets_`, `packOrder` is `pack_order_`
// and `focusedEntry` is `focused_entry_`.

module SoftGuiWindow {
  import opened Common
  import opened SoftGuiWidgets
  import opened SoftGuiTree
  import opened SoftGuiLayout

  /** The store with the `dirty` flag set on the widgets `hs` and nothing else changed. */
  function Marked(store: seq<Widget>, hs: seq<nat>): (r: seq<Widget>)
    ensures |r| == |store|
    ensures forall x :: 0 <= x < |store| ==> r[x] == store[x].(dirty := store[x].dirty || x in hs)
  {
    seq(|store|, x requires 0 <= x < |store| => store[x].(dirty := store[x].dirty || x in hs))
  }

  /** Every caret is within its text. */
  predicate CaretsInRange(store: seq<Widget>)
  {
    forall x :: 0 <= x < |store| ==> store[x].caret <= |store[x].text|
  }

  /** `focused_entry_` is an Entry, and only it may have `focused` set. */
  predicate FocusTracked(store: seq<Widget>, focus: Option<nat>)
  {
    (focus.Some? ==> focus.value < |store| && store[focus.value].kind == EntryKind)
    && forall x :: 0 <= x < |store| && store[x].focused ==> focus == Some(x)
  }

  /** At most one widget is focused. */
  lemma {:induction false} AtMostOneFocused(store: seq<Widget>, focus: Option<nat>, x: nat, y: nat)
    requires FocusTracked(store, focus) && x < |store| && y < |store|
    requires store[x].focused && store[y].focused
    ensures x == y
  {
  }

  /** The widget at `w` is visible and its half-open rectangle holds the point. */
  predicate Contains(w: Widget, x: int, y: int)
  {
    w.visible && w.geom.x <= x < w.geom.x + w.geom.w && w.geom.y <= y < w.geom.y + w.geom.h
  }

  /**
   * The position in `widgets[..n]` of the last registered widget that
   * contains the point, as the reverse scan of `WM_LBUTTONDOWN` finds it.
   */
  function Hit(store: seq<Widget>, widgets: seq<nat>, x: int, y: int, n: nat): (r: Option<nat>)
    requires InStore(store, widgets) && n <= |widgets|
    ensures r.Some? ==> r.value < n && Contains(store[widgets[r.value]], x, y)
    ensures r.Some? ==> forall j :: r.value < j < n ==> !Contains(store[widgets[j]], x, y)
    ensures r.None? ==> forall j :: 0 <= j < n ==> !Contains(store[widgets[j]], x, y)
    decreases n
  {
    if n == 0 then None
    else if Contains(store[widgets[n - 1]], x, y) then Some(n - 1)
    else Hit(store, widgets, x, y, n - 1)
  }

  /** Parent chains that all end. */
  ghost predicate TreeSound(store: seq<Widget>, parent: Parents)
  {
    |parent| == |store| && Linked(parent) && Acyclic(parent)
  }

  /**
   * The store and `focused_entry_` after a click delivered to widget `t`.
   * An Entry takes focus and the caret position `pick` (marking itself
   * dirty), the previously focused entry, if different, loses focus and is
   * marked dirty, and the clicked entry becomes `focused_entry_`.  Any other
   * widget clears the focus, without marking the old entry dirty.
   */
  ghost function Clicked(store: seq<Widget>, parent: Parents, focus: Option<nat>, t: nat, pick: nat): (r: (seq<Widget>, Option<nat>))
    requires TreeSound(store, parent) && t < |store| && FocusTracked(store, focus)
    ensures |r.0| == |store|
  {
    if store[t].kind == EntryKind then
      var clicked := Marked(store[t := ClickEntry(store[t], pick)], Lineage(parent, t));
      var released :=
        if focus.Some? && focus.value != t then
          Marked(clicked[focus.value := clicked[focus.value].(focused := false)], Lineage(parent, focus.value))
        else clicked;
      (released[t := released[t].(focused := true)], Some(t))
    else if focus.Some? then
      (store[focus.value := store[focus.value].(focused := false)], None)
    else (store, None)
  }

  /** A click on an Entry makes it the one focused widget, with the caret where the click put it. */
  lemma {:induction false} ClickOnEntry(store: seq<Widget>, parent: Parents, focus: Option<nat>, t: nat, pick: nat)
    requires TreeSound(store, parent) && t < |store| && FocusTracked(store, focus)
    requires store[t].kind == EntryKind
    ensures Clicked(store, parent, focus, t, pick).1 == Some(t)
    ensures Clicked(store, parent, focus, t, pick).0[t].focused && Clicked(store, parent, focus, t, pick).0[t].dirty
    ensures Clicked(store, parent, focus, t, pick).0[t].caret == if pick < |store[t].text| then pick else |store[t].text|
    ensures forall x :: 0 <= x < |store| && x != t ==> !Clicked(store, parent, focus, t, pick).0[x].focused
    ensures FocusTracked(Clicked(store, parent, focus, t, pick).0, Clicked(store, parent, focus, t, pick).1)
  {
  }

  /** A click on any other widget leaves no widget focused and no focused entry. */
  lemma {:induction false} ClickElsewhere(store: seq<Widget>, parent: Parents, focus: Option<nat>, t: nat, pick: nat)
    requires TreeSound(store, parent) && t < |store| && FocusTracked(store, focus)
    requires store[t].kind != EntryKind
    ensures Clicked(store, parent, focus, t, pick).1 == None
    ensures forall x :: 0 <= x < |store| ==> !Clicked(store, parent, focus, t, pick).0[x].focused
  {
  }

  /** A click keeps every caret within its text. */
  lemma {:induction false} ClickKeepsCarets(store: seq<Widget>, parent: Parents, focus: Option<nat>, t: nat, pick: nat)
    requires TreeSound(store, parent) && t < |store| && FocusTracked(store, focus) && CaretsInRange(store)
    ensures CaretsInRange(Clicked(store, parent, focus, t, pick).0)
  {
  }

  class Window {
    var width: int
    var height: int
    var store: seq<Widget>
    var parent: Parents
    var widgets: seq<nat>
    var packOrder: seq<nat>
    var focusedEntry: Option<nat>

    ghost predicate Valid()
      reads this
    {
      TreeSound(store, parent) && InStore(store, widgets) && InStore(store, packOrder)
      && FocusTracked(store, focusedEntry) && CaretsInRange(store)
    }

    /** A window of the given size with no widgets (window class and handle are the platform's). */
    constructor (width: int, height: int)
      ensures Valid() && this.width == width && this.height == height
      ensures store == [] && widgets == [] && packOrder == [] && focusedEntry == None
    {
      this.width, this.height := width, height;
      store, parent := [], [];
      widgets, packOrder := [], [];
      focusedEntry := None;
    }

    /** `Widget::mark_dirty`: the widget and every ancestor, up the parent chain. */
    method MarkDirty(h: nat)
      requires TreeSound(store, parent) && h < |store|
      modifies this`store
      ensures store == Marked(old(store), Lineage(parent, h))
    {
      ghost var path := Lineage(parent, h);
      var cur := Some(h);
      ghost var i := 0;
      while cur.Some?
        invariant 0 <= i <= |path| && |store| == |old(store)|
        invariant cur.Some? <==> i < |path|
        invariant cur.Some? ==> cur.value == path[i]
        invariant store == Marked(old(store), path[..i])
        decreases |path| - i
      {
        var w := cur.value;
        store := store[w := store[w].(dirty := true)];
        if i + 1 < |path| {
          assert parent[path[i]] == Some(path[i + 1]);
        } else {
          assert parent[path[|path| - 1]].None?;
        }
        cur := parent[w];
        assert path[..i + 1] == path[..i] + [w];
        i := i + 1;
      }
      assert path[..i] == path;
    }

    /** `register_widget`: a null pointer is ignored; a widget is appended to both lists. */
    method Register(w: Option<nat>)
      requires Valid() && (w.Some? ==> w.value < |store|)
      modifies this`widgets, this`packOrder
      ensures w.None? ==> widgets == old(widgets) && packOrder == old(packOrder)
      ensures w.Some? ==> widgets == old(widgets) + [w.value] && packOrder == old(packOrder) + [w.value]
      ensures Valid()
    {
      if w.None? {
        return;
      }
      widgets := widgets + [w.value];
      packOrder := packOrder + [w.value];
    }

    /** `Window::add_child`: registration as a top-level widget. */
    method AddTopLevel(w: Option<nat>)
      requires Valid() && (w.Some? ==> w.value < |store|)
      modifies this`widgets, this`packOrder
      ensures w.None? ==> widgets == old(widgets) && packOrder == old(packOrder)
      ensures w.Some? ==> widgets == old(widgets) + [w.value] && packOrder == old(packOrder) + [w.value]
      ensures Valid()
    {
      Register(w);
    }

    /** A new widget, registered: what each `make_*` factory does. */
    method Make(kind: Kind, text: string, w: int, h: int) returns (handle: nat)
      requires Valid()
      modifies this`store, this`parent, this`widgets, this`packOrder
      ensures handle == |old(store)| && store == old(store) + [NewWidget(kind, text, w, h)]
      ensures parent == old(parent) + [None]
      ensures widgets == old(widgets) + [handle] && packOrder == old(packOrder) + [handle]
      ensures Valid()
    {
      AppendKeepsAcyclic(parent);
      handle := |store|;
      store := store + [NewWidget(kind, text, w, h)];
      parent := parent + [None];
      Register(Some(handle));
    }

    method MakeLabel(text: string) returns (handle: nat)
      requires Valid()
      modifies this`store, this`parent, this`widgets, this`packOrder
      ensures handle == |old(store)| && store == old(store) + [NewWidget(LabelKind, text, 0, 0)]
      ensures parent == old(parent) + [None]
      ensures widgets == old(widgets) + [handle] && packOrder == old(packOrder) + [handle]
      ensures Valid()
    {
      handle := Make(LabelKind, text, 0, 0);
    }

    method MakeEntry(text: string) returns (handle: nat)
      requires Valid()
      modifies this`store, this`parent, this`widgets, this`packOrder
      ensures handle == |old(store)| && store == old(store) + [NewWidget(EntryKind, text, 0, 0)]
      ensures parent == old(parent) + [None]
      ensures widgets == old(widgets) + [handle] && packOrder == old(packOrder) + [handle]
      ensures Valid()
    {
      handle := Make(EntryKind, text, 0, 0);
    }

    method MakeButton(text: string) returns (handle: nat)
      requires Valid()
      modifies this`store, this`parent, this`widgets, this`packOrder
      ensures handle == |old(store)| && store == old(store) + [NewWidget(ButtonKind, text, 0, 0)]
      ensures parent == old(parent) + [None]
      ensures widgets == old(widgets) + [handle] && packOrder == old(packOrder) + [handle]
      ensures Valid()
    {
      handle := Make(ButtonKind, text, 0, 0);
    }

    method MakeCanvas(w: int, h: int) returns (handle: nat)
      requires Valid()
      modifies this`store, this`parent, this`widgets, this`packOrder
      ensures handle == |old(store)| && store == old(store) + [NewWidget(CanvasKind, [], w, h)]
      ensures parent == old(parent) + [None]
      ensures widgets == old(widgets) + [handle] && packOrder == old(packOrder) + [handle]
      ensures Valid()
    {
      handle := Make(CanvasKind, [], w, h);
    }

    method MakeFrame() returns (handle: nat)
      requires Valid()
      modifies this`store, this`parent, this`widgets, this`packOrder
      ensures handle == |old(store)| && store == old(store) + [NewWidget(FrameKind, [], 0, 0)]
      ensures parent == old(parent) + [None]
      ensures widgets == old(widgets) + [handle] && packOrder == old(packOrder) + [handle]
      ensures Valid()
    {
      handle := Make(FrameKind, [], 0, 0);
    }

    /**
     * `Frame::add_child`: the child's parent becomes the frame, and the
     * child is appended to the frame's children.  The child must not be the
     * frame or one of its ancestors, or `mark_dirty` would never return.
     */
    method AddChild(frame: nat, child: nat)
      requires Valid() && frame < |store| && child < |store| && store[frame].kind == FrameKind
      requires forall k :: !Above(parent, child, frame, k)
      modifies this`store, this`parent
      ensures parent == old(parent)[child := Some(frame)]
      ensures store == old(store)[frame := old(store)[frame].(children := old(store)[frame].children + [child])]
      ensures Valid()
    {
      assert Rooted(parent, frame);
      LinkKeepsAcyclic(parent, child, frame);
      parent := parent[child := Some(frame)];
      store := store[frame := store[frame].(children := store[frame].children + [child])];
    }

    /** `recompute_layout`. */
    method RecomputeLayout()
      requires Valid()
      modifies this`store
      ensures store == Laid(old(store), packOrder, width, height)
      ensures Valid()
    {
      var curTop, curLeft := 10, 10;
      var i := 0;
      while i < |packOrder|
        invariant 0 <= i <= |packOrder|
        invariant (store, Cursor(curTop, curLeft)) == Layout(old(store), packOrder, width, height, i)
      {
        var w := packOrder[i];
        if store[w].packed {
          var g;
          g, curTop, curLeft := PlaceWidget(store[w], curTop, curLeft);
          store := store[w := store[w].(geom := g)];
        }
        i := i + 1;
      }
      LayoutMovesOnlyPacked(old(store), packOrder, width, height, |packOrder|);
    }

    /** The body of the `recompute_layout` loop for one packed widget. */
    method PlaceWidget(w: Widget, curTop: int, curLeft: int) returns (g: Geometry, top: int, left: int)
      ensures (w.(geom := g), Cursor(top, left)) == PlaceOne(w, Cursor(curTop, curLeft), width, height)
    {
      var o := w.packOpts;
      g, top, left := w.geom, curTop, curLeft;
      if o.side == Top {
        if o.fill == FillX || o.fill == FillBoth {
          g := g.(x := 10 + o.padx, w := (width - 20) - 2 * o.padx);
        } else {
          if g.w == 0 {
            g := g.(w := 100);
          }
          g := g.(x := 10 + o.padx);
        }
        g := g.(y := curTop + o.pady);
        top := curTop + g.h + o.pady + 8;
      } else {
        if o.fill == FillY || o.fill == FillBoth {
          g := g.(y := 10 + o.pady, h := (height - 20) - 2 * o.pady);
        } else {
          if g.h == 0 {
            g := g.(h := 24);
          }
          g := g.(y := 10 + o.pady);
        }
        g := g.(x := curLeft + o.padx);
        left := curLeft + g.w + o.padx + 8;
      }
    }

    /** `pack`: a null pointer is ignored; otherwise the widget is packed at the top level and laid out. */
    method Pack(w: Option<nat>, opts: PackOptions)
      requires Valid() && (w.Some? ==> w.value < |store|)
      modifies this`store, this`parent
      ensures w.None? ==> store == old(store) && parent == old(parent)
      ensures w.Some? ==> parent == old(parent)[w.value := None]
      ensures w.Some? ==>
        store == Laid(old(store)[w.value := old(store)[w.value].(packOpts := opts, packed := true)], packOrder, width, height)
      ensures Valid()
    {
      if w.None? {
        return;
      }
      var h := w.value;
      CutKeepsAcyclic(parent, h);
      store := store[h := store[h].(packOpts := opts, packed := true)];
      parent := parent[h := None];
      RecomputeLayout();
    }

    /** `place`: a null pointer is ignored; otherwise the widget moves to (x, y) and is no longer packed. */
    method Place(w: Option<nat>, x: int, y: int)
      requires Valid() && (w.Some? ==> w.value < |store|)
      modifies this`store, this`parent
      ensures w.None? ==> store == old(store) && parent == old(parent)
      ensures w.Some? ==> parent == old(parent)[w.value := None]
      ensures w.Some? ==>
        store == old(store)[w.value := old(store)[w.value].(geom := old(store)[w.value].geom.(x := x, y := y), packed := false)]
      ensures Valid()
    {
      if w.None? {
        return;
      }
      var h := w.value;
      CutKeepsAcyclic(parent, h);
      store := store[h := store[h].(geom := store[h].geom.(x := x, y := y))];
      parent := parent[h := None];
      store := store[h := store[h].(packed := false)];
    }

    /** The reverse scan of `WM_LBUTTONDOWN` for the widget under the point. */
    method FindTarget(x: int, y: int) returns (found: Option<nat>)
      requires InStore(store, widgets)
      ensures found == Hit(store, widgets, x, y, |widgets|)
    {
      var i := |widgets|;
      while i > 0
        invariant 0 <= i <= |widgets|
        invariant Hit(store, widgets, x, y, |widgets|) == Hit(store, widgets, x, y, i)
      {
        var w := widgets[i - 1];
        if store[w].visible && x >= store[w].geom.x && x < store[w].geom.x + store[w].geom.w
           && y >= store[w].geom.y && y < store[w].geom.y + store[w].geom.h {
          return Some(i - 1);
        }
        i := i - 1;
      }
      return None;
    }

    /**
     * `WM_LBUTTONDOWN` at (x, y): the click goes to the last registered
     * visible widget that contains the point, and focus follows it.  `pick`
     * is what `TextIndexFromPos` returns for the click in an Entry.
     */
    method OnLButtonDown(x: int, y: int, pick: nat)
      requires Valid()
      modifies this`store, this`focusedEntry
      ensures Hit(old(store), widgets, x, y, |widgets|).None? ==>
        store == old(store) && focusedEntry == old(focusedEntry)
      ensures Hit(old(store), widgets, x, y, |widgets|).Some? ==>
        (store, focusedEntry)
          == Clicked(old(store), parent, old(focusedEntry), widgets[Hit(old(store), widgets, x, y, |widgets|).value], pick)
      ensures Valid()
    {
      var found := FindTarget(x, y);
      if found.None? {
        return;
      }
      var t := widgets[found.value];
      ClickKeepsCarets(store, parent, focusedEntry, t, pick);
      if store[t].kind == EntryKind {
        ClickOnEntry(store, parent, focusedEntry, t, pick);
        ClickEntryThenFocus(t, pick);
      } else {
        ClickElsewhere(store, parent, focusedEntry, t, pick);
        if focusedEntry.Some? {
          var p := focusedEntry.value;
          store := store[p := store[p].(focused := false)];
          focusedEntry := None;
        }
      }
    }

    /** The Entry branch of `WM_LBUTTONDOWN`, in the order the source runs it. */
    method ClickEntryThenFocus(t: nat, pick: nat)
      requires Valid() && t < |store| && store[t].kind == EntryKind
      modifies this`store, this`focusedEntry
      ensures (store, focusedEntry) == Clicked(old(store), parent, old(focusedEntry), t, pick)
    {
      store := store[t := ClickEntry(store[t], pick)];
      MarkDirty(t);
      if focusedEntry.Some? && focusedEntry.value != t {
        var p := focusedEntry.value;
        store := store[p := store[p].(focused := false)];
        MarkDirty(p);
      }
      focusedEntry := Some(t);
      store := store[t := store[t].(focused := true)];
    }

    /** `WM_CHAR`: with a focused entry, the key goes to it (`(char)wParam`) and it is marked dirty. */
    method OnChar(wParam: nat)
      requires Valid()
      modifies this`store
      ensures focusedEntry.None? ==> store == old(store)
      ensures focusedEntry.Some? ==>
        store == Marked(old(store)[focusedEntry.value := KeyEdit(old(store)[focusedEntry.value], SignedChar(wParam))],
                        Lineage(parent, focusedEntry.value))
      ensures Valid()
    {
      if focusedEntry.Some? {
        var e := focusedEntry.value;
        store := store[e := KeyEdit(store[e], SignedChar(wParam))];
        MarkDirty(e);
      }
    }

    /** `WM_KEYDOWN`: with a focused entry, the left and right arrows move its caret and mark it dirty. */
    method OnKeyDown(vk: int)
      requires Valid()
      modifies this`store
      ensures focusedEntry.None? || (vk != VkLeft && vk != VkRight) ==> store == old(store)
      ensures focusedEntry.Some? && (vk == VkLeft || vk == VkRight) ==>
        store == Marked(old(store)[focusedEntry.value := ArrowKey(old(store)[focusedEntry.value], vk)],
                        Lineage(parent, focusedEntry.value))
      ensures Valid()
    {
      if focusedEntry.Some? {
        var e := focusedEntry.value;
        if vk == VkLeft || vk == VkRight {
          store := store[e := ArrowKey(store[e], vk)];
          MarkDirty(e);
        }
      }
    }

    /** `WM_SIZE`: the client size comes from the low and high words of `lParam`, then the layout is redone. */
    method OnSize(lParam: nat)
      requires Valid()
      modifies this`width, this`height, this`store
      ensures width == lParam % 0x1_0000 && height == (lParam / 0x1_0000) % 0x1_0000
      ensures 0 <= width < 0x1_0000 && 0 <= height < 0x1_0000
      ensures store == Laid(old(store), packOrder, width, height)
      ensures Valid()
    {
      width := lParam % 0x1_0000;
      height := (lParam / 0x1_0000) % 0x1_0000;
      RecomputeLayout();
    }
  }
}

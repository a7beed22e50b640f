// `Window::recompute_layout`: a single pass over the pack order that places
// every packed widget along a running cursor, down for `Side::TOP` and
// right for `Side::LEFT`.

module SoftGuiLayout {
  import opened SoftGuiWidgets

  /** `cur_top` and `cur_left`. */
  datatype Cursor = Cursor(top: int, left: int)

  const Start := Cursor(10, 10)

  predicate FillsX(f: Fill) { f == FillX || f == FillBoth }

  predicate FillsY(f: Fill) { f == FillY || f == FillBoth }

  /**
   * One packed widget placed at the cursor in a client area of `width` by
   * `height`, and the cursor after it.
   */
  function PlaceOne(w: Widget, c: Cursor, width: int, height: int): (r: (Widget, Cursor))
    ensures r.0 == w.(geom := r.0.geom)
    ensures w.packOpts.side == Top ==>
      r.0.geom.x == 10 + w.packOpts.padx && r.0.geom.y == c.top + w.packOpts.pady && r.0.geom.h == w.geom.h
      && r.1 == Cursor(c.top + w.geom.h + w.packOpts.pady + 8, c.left)
    ensures w.packOpts.side == Top && FillsX(w.packOpts.fill) ==> r.0.geom.w == width - 20 - 2 * w.packOpts.padx
    ensures w.packOpts.side == Top && !FillsX(w.packOpts.fill) ==> r.0.geom.w == if w.geom.w == 0 then 100 else w.geom.w
    ensures w.packOpts.side == Left ==>
      r.0.geom.y == 10 + w.packOpts.pady && r.0.geom.x == c.left + w.packOpts.padx && r.0.geom.w == w.geom.w
      && r.1 == Cursor(c.top, c.left + w.geom.w + w.packOpts.padx + 8)
    ensures w.packOpts.side == Left && FillsY(w.packOpts.fill) ==> r.0.geom.h == height - 20 - 2 * w.packOpts.pady
    ensures w.packOpts.side == Left && !FillsY(w.packOpts.fill) ==> r.0.geom.h == if w.geom.h == 0 then 24 else w.geom.h
  {
    var o := w.packOpts;
    var g := w.geom;
    if o.side == Top then
      var width' := if FillsX(o.fill) then (width - 20) - 2 * o.padx else if g.w == 0 then 100 else g.w;
      var placed := Geometry(10 + o.padx, c.top + o.pady, width', g.h);
      (w.(geom := placed), c.(top := c.top + placed.h + o.pady + 8))
    else
      var height' := if FillsY(o.fill) then (height - 20) - 2 * o.pady else if g.h == 0 then 24 else g.h;
      var placed := Geometry(c.left + o.padx, 10 + o.pady, g.w, height');
      (w.(geom := placed), c.(left := c.left + placed.w + o.padx + 8))
  }

  predicate InStore(store: seq<Widget>, order: seq<nat>)
  {
    forall i :: 0 <= i < |order| ==> order[i] < |store|
  }

  /** The store and the cursor after the first `n` entries of the pack order. */
  function Layout(store: seq<Widget>, order: seq<nat>, width: int, height: int, n: nat): (r: (seq<Widget>, Cursor))
    requires n <= |order| && InStore(store, order)
    ensures |r.0| == |store|
    decreases n
  {
    if n == 0 then (store, Start)
    else
      var before := Layout(store, order, width, height, n - 1);
      var w := order[n - 1];
      if !before.0[w].packed then before
      else
        var placed := PlaceOne(before.0[w], before.1, width, height);
        (before.0[w := placed.0], placed.1)
  }

  /** The whole pass. */
  function Laid(store: seq<Widget>, order: seq<nat>, width: int, height: int): (r: seq<Widget>)
    requires InStore(store, order)
    ensures |r| == |store|
  {
    Layout(store, order, width, height, |order|).0
  }

  /** Layout changes nothing but geometry, and leaves widgets that are not packed where they are. */
  lemma {:induction false} LayoutMovesOnlyPacked(store: seq<Widget>, order: seq<nat>, width: int, height: int, n: nat)
    requires n <= |order| && InStore(store, order)
    ensures forall x :: 0 <= x < |store| ==>
      Layout(store, order, width, height, n).0[x] == store[x].(geom := Layout(store, order, width, height, n).0[x].geom)
    ensures forall x :: 0 <= x < |store| && !store[x].packed ==> Layout(store, order, width, height, n).0[x] == store[x]
    decreases n
  {
    if n > 0 {
      LayoutMovesOnlyPacked(store, order, width, height, n - 1);
    }
  }

  // Idempotence.  Placing a widget overwrites everything placing it again
  // reads, except its extent along the packing axis, which placing never
  // changes; so placing twice is placing once, and the cursor advances by
  // the same amounts on a second pass.

  function NonZero(v: int, default: int): int { if v == 0 then default else v }

  /** `a` and `b` differ at most in what placing overwrites. */
  predicate Agree(a: Widget, b: Widget)
  {
    a.(geom := b.geom) == b
    && (a.packOpts.side == Top ==>
          a.geom.h == b.geom.h && (FillsX(a.packOpts.fill) || NonZero(a.geom.w, 100) == NonZero(b.geom.w, 100)))
    && (a.packOpts.side == Left ==>
          a.geom.w == b.geom.w && (FillsY(a.packOpts.fill) || NonZero(a.geom.h, 24) == NonZero(b.geom.h, 24)))
  }

  lemma {:induction false} AgreeTransitive(a: Widget, b: Widget, c: Widget)
    requires Agree(a, b) && Agree(b, c)
    ensures Agree(a, c)
  {
  }

  /** Widgets that agree are placed alike. */
  lemma {:induction false} AgreePlaced(a: Widget, b: Widget, c: Cursor, width: int, height: int)
    requires Agree(a, b)
    ensures PlaceOne(a, c, width, height) == PlaceOne(b, c, width, height)
  {
  }

  /** A placed widget agrees with what it was. */
  lemma {:induction false} PlacedAgrees(a: Widget, c: Cursor, width: int, height: int)
    ensures Agree(PlaceOne(a, c, width, height).0, a) && Agree(a, PlaceOne(a, c, width, height).0)
  {
  }

  /** `x` is one of the packed widgets among the first `n` of the pack order. */
  predicate PlacedIn(store: seq<Widget>, order: seq<nat>, x: nat, n: nat)
    requires n <= |order| && x < |store|
    decreases n
  {
    n > 0 && ((order[n - 1] == x && store[x].packed) || PlacedIn(store, order, x, n - 1))
  }

  /** During one pass, every widget agrees with where it started, and only placed ones have moved. */
  lemma {:induction false} LayoutAgrees(store: seq<Widget>, order: seq<nat>, width: int, height: int, n: nat)
    requires n <= |order| && InStore(store, order)
    ensures forall x :: 0 <= x < |store| ==> Agree(Layout(store, order, width, height, n).0[x], store[x])
    ensures forall x :: 0 <= x < |store| && !PlacedIn(store, order, x, n) ==>
      Layout(store, order, width, height, n).0[x] == store[x]
    decreases n
  {
    if n > 0 {
      LayoutAgrees(store, order, width, height, n - 1);
      LayoutMovesOnlyPacked(store, order, width, height, n - 1);
      var before := Layout(store, order, width, height, n - 1);
      var w := order[n - 1];
      if before.0[w].packed {
        PlacedAgrees(before.0[w], before.1, width, height);
        AgreeTransitive(PlaceOne(before.0[w], before.1, width, height).0, before.0[w], store[w]);
      }
    }
  }

  /**
   * A second pass from the result of the first runs with the same cursor,
   * and each widget it has placed so far is where the first pass had it
   * at that point; the others are still where the first pass left them.
   */
  lemma {:induction false} SecondPass(store: seq<Widget>, order: seq<nat>, width: int, height: int, n: nat)
    requires n <= |order| && InStore(store, order)
    ensures InStore(Laid(store, order, width, height), order)
    ensures Layout(Laid(store, order, width, height), order, width, height, n).1 == Layout(store, order, width, height, n).1
    ensures forall x :: 0 <= x < |store| ==>
      Layout(Laid(store, order, width, height), order, width, height, n).0[x]
        == if PlacedIn(store, order, x, n) then Layout(store, order, width, height, n).0[x]
           else Laid(store, order, width, height)[x]
    decreases n
  {
    var last := Laid(store, order, width, height);
    if n > 0 {
      SecondPass(store, order, width, height, n - 1);
      LayoutAgrees(store, order, width, height, n - 1);
      LayoutAgrees(store, order, width, height, |order|);
      var first := Layout(store, order, width, height, n - 1);
      var second := Layout(last, order, width, height, n - 1);
      var w := order[n - 1];
      if store[w].packed {
        if !PlacedIn(store, order, w, n - 1) {
          AgreeTransitive(last[w], store[w], first.0[w]);
          AgreePlaced(second.0[w], first.0[w], first.1, width, height);
        }
      }
    }
  }

  /** Running the layout again with the same inputs changes nothing. */
  lemma {:induction false} LayoutIdempotent(store: seq<Widget>, order: seq<nat>, width: int, height: int)
    requires InStore(store, order)
    ensures InStore(Laid(store, order, width, height), order)
    ensures Laid(Laid(store, order, width, height), order, width, height) == Laid(store, order, width, height)
  {
    SecondPass(store, order, width, height, |order|);
  }

  /** Three packed top widgets of heights 24, 40 and 24 without padding land at y = 10, 42 and 90. */
  lemma {:induction false} StackedExample(a: Widget, b: Widget, c: Widget, width: int, height: int)
    requires a.packed && b.packed && c.packed
    requires a.packOpts.side == Top && b.packOpts.side == Top && c.packOpts.side == Top
    requires a.packOpts.pady == 0 && b.packOpts.pady == 0 && c.packOpts.pady == 0
    requires a.geom.h == 24 && b.geom.h == 40 && c.geom.h == 24
    ensures Laid([a, b, c], [0, 1, 2], width, height)[0].geom.y == 10
    ensures Laid([a, b, c], [0, 1, 2], width, height)[1].geom.y == 42
    ensures Laid([a, b, c], [0, 1, 2], width, height)[2].geom.y == 90
  {
    var store, order := [a, b, c], [0, 1, 2];
    var one := Layout(store, order, width, height, 1);
    var two := Layout(store, order, width, height, 2);
    assert one.1.top == 42 && one.0[1] == b && one.0[2] == c;
    assert two.1.top == 90 && two.0[2] == c;
  }
}

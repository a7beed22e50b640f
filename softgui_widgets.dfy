// The widget records of SoftGUI and the single-line `Entry` editor.
//
// Every widget kind shares one record: the base `Widget` fields, plus the
// Entry fields `focused`/`caret` (false and 0 on other kinds) and the Frame
// field `children` (empty on other kinds).  The parent back-reference lives
// in the window (see SoftGuiTree), and callbacks, fonts and drawing are not
// part of the model.

module SoftGuiWidgets {

  datatype Kind = FrameKind | LabelKind | EntryKind | ButtonKind | CanvasKind

  /** `Geometry`: position and size in client pixels. */
  datatype Geometry = Geometry(x: int, y: int, w: int, h: int)

  datatype Side = Top | Left

  datatype Fill = NoFill | FillX | FillY | FillBoth

  /** `PackOptions`, with its defaults in `DefaultPack`. */
  datatype PackOptions = PackOptions(side: Side, fill: Fill, padx: int, pady: int)

  const DefaultPack := PackOptions(Top, NoFill, 0, 0)

  datatype Widget = Widget(
    kind: Kind,
    geom: Geometry,
    visible: bool,
    text: string,
    dirty: bool,
    packed: bool,
    packOpts: PackOptions,
    focused: bool,
    caret: nat,
    children: seq<nat>)

  /**
   * A widget as its constructor leaves it: `Label`, `Entry` and `Button`
   * take the text; `Canvas(w, h)` sets the geometry size; `Frame` has no text.
   */
  function NewWidget(kind: Kind, text: string, w: int, h: int): (r: Widget)
    ensures r.kind == kind && r.visible && r.dirty && !r.packed && r.packOpts == DefaultPack
    ensures !r.focused && r.caret == 0 && r.children == [] && r.geom.x == 0 && r.geom.y == 0
    ensures kind == CanvasKind ==> r.geom.w == w && r.geom.h == h && r.text == []
    ensures kind != CanvasKind ==> r.geom.w == 100 && r.geom.h == 24
    ensures kind == FrameKind ==> r.text == []
    ensures kind in {LabelKind, EntryKind, ButtonKind} ==> r.text == text
  {
    var t := if kind in {LabelKind, EntryKind, ButtonKind} then text else [];
    var g := if kind == CanvasKind then Geometry(0, 0, w, h) else Geometry(0, 0, 100, 24);
    Widget(kind, g, true, t, true, false, DefaultPack, false, 0, [])
  }

  /** The value of a `char` received as the low byte of a message parameter (`char` is signed). */
  function SignedChar(wParam: nat): (ch: int)
    ensures -128 <= ch < 128
    ensures (ch - wParam) % 256 == 0
  {
    var b := wParam % 256;
    if b < 128 then b else b - 256
  }

  /** `Entry::on_key_internal`, without the `on_change` callback and `mark_dirty`. */
  function KeyEdit(e: Widget, ch: int): (r: Widget)
    requires e.caret <= |e.text| && -128 <= ch < 128
    ensures r.caret <= |r.text|
    ensures r.kind == e.kind && r.geom == e.geom && r.packed == e.packed && r.dirty == e.dirty
    ensures ch != 13 ==> r.focused == e.focused
  {
    if ch == 8 then
      if e.text != [] && e.caret > 0 then
        e.(text := e.text[..e.caret - 1] + e.text[e.caret..], caret := e.caret - 1)
      else e
    else if ch == 13 then e.(focused := false)
    else if ch >= 32 then e.(text := e.text[..e.caret] + [ch as char] + e.text[e.caret..], caret := e.caret + 1)
    else e
  }

  /** Backspace removes exactly the character before the caret, and the caret steps back over it. */
  lemma {:induction false} BackspaceRemoves(e: Widget)
    requires e.caret <= |e.text| && 0 < e.caret
    ensures |KeyEdit(e, 8).text| == |e.text| - 1 && KeyEdit(e, 8).caret == e.caret - 1
    ensures forall i :: 0 <= i < e.caret - 1 ==> KeyEdit(e, 8).text[i] == e.text[i]
    ensures forall i :: e.caret - 1 <= i < |e.text| - 1 ==> KeyEdit(e, 8).text[i] == e.text[i + 1]
  {
  }

  /** Backspace at the start of the text changes nothing. */
  lemma {:induction false} BackspaceAtStart(e: Widget)
    requires e.caret == 0
    ensures KeyEdit(e, 8) == e
  {
  }

  /** A printable character lands at the caret, the text grows by one and the caret moves past it. */
  lemma {:induction false} InsertPlaces(e: Widget, ch: int)
    requires e.caret <= |e.text| && 32 <= ch < 128
    ensures |KeyEdit(e, ch).text| == |e.text| + 1 && KeyEdit(e, ch).caret == e.caret + 1
    ensures KeyEdit(e, ch).text[e.caret] == ch as char
    ensures KeyEdit(e, ch).text[..e.caret] == e.text[..e.caret]
    ensures KeyEdit(e, ch).text[e.caret + 1..] == e.text[e.caret..]
  {
    var t := KeyEdit(e, ch).text;
    assert t == e.text[..e.caret] + [ch as char] + e.text[e.caret..];
    assert t[..e.caret] == e.text[..e.caret];
    assert t[e.caret + 1..] == e.text[e.caret..];
  }

  /** Typing a printable character and then backspace gives back the text and caret. */
  lemma {:induction false} InsertThenBackspace(e: Widget, ch: int)
    requires e.caret <= |e.text| && 32 <= ch < 128
    ensures KeyEdit(KeyEdit(e, ch), 8) == e
  {
    var t := KeyEdit(e, ch).text;
    InsertPlaces(e, ch);
    assert t[..e.caret] + t[e.caret + 1..] == e.text;
  }

  /** Enter drops the focus and keeps text and caret; other control characters change nothing. */
  lemma {:induction false} ControlKeys(e: Widget, ch: int)
    requires e.caret <= |e.text| && -128 <= ch < 32 && ch != 8
    ensures ch == 13 ==> KeyEdit(e, ch) == e.(focused := false)
    ensures ch != 13 ==> KeyEdit(e, ch) == e
  {
  }

  /** The virtual-key codes `VK_LEFT` and `VK_RIGHT`. */
  const VkLeft := 0x25
  const VkRight := 0x27

  /** The caret moves of `WM_KEYDOWN`: one step left or right, never past either end. */
  function ArrowKey(e: Widget, vk: int): (r: Widget)
    requires e.caret <= |e.text|
    ensures r.caret <= |r.text| && r.text == e.text && r == e.(caret := r.caret)
    ensures vk == VkLeft ==> r.caret == if e.caret > 0 then e.caret - 1 else 0
    ensures vk == VkRight ==> r.caret == if e.caret < |e.text| then e.caret + 1 else |e.text|
    ensures vk != VkLeft && vk != VkRight ==> r == e
  {
    if vk == VkLeft then
      if e.caret > 0 then e.(caret := e.caret - 1) else e
    else if vk == VkRight then
      if e.caret < |e.text| then e.(caret := e.caret + 1) else e
    else e
  }

  /** Right then left comes back to the same caret unless the caret was already at the end. */
  lemma {:induction false} RightThenLeft(e: Widget)
    requires e.caret < |e.text|
    ensures ArrowKey(ArrowKey(e, VkRight), VkLeft) == e
  {
  }

  /**
   * `Entry::on_click_internal` without `on_focus` and `mark_dirty`: focus,
   * and the caret at the index `pick` that `TextIndexFromPos` found, cut to
   * the text length.
   */
  function ClickEntry(e: Widget, pick: nat): (r: Widget)
    ensures r.focused && r.caret <= |r.text| && r.text == e.text
    ensures pick <= |e.text| ==> r.caret == pick
    ensures pick > |e.text| ==> r.caret == |e.text|
    ensures r == e.(focused := true, caret := r.caret)
  {
    e.(focused := true, caret := if pick < |e.text| then pick else |e.text|)
  }
}

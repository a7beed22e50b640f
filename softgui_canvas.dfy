// The pixel buffer of the SoftGUI `Canvas` widget: `buf_h` rows of `buf_w`
// pixels, three bytes each in blue, green, red order, in one flat vector.
//
// `put_pixel` and `clear` end with `mark_dirty()`; here they return
// `marked` to say that they call it, and the walk up the parent chain is
// `SoftGuiWindow.Window.MarkDirty`.

module SoftGuiCanvas {

  type Byte = b: int | 0 <= b < 256

  /** `Color`: three bytes. */
  datatype Color = Color(r: Byte, g: Byte, b: Byte)

  /** `Color(int rr, int gg, int bb)`: each component cast to `uint8_t`, i.e. taken modulo 256. */
  function ColorOf(rr: int, gg: int, bb: int): (c: Color)
    ensures (c.r - rr) % 256 == 0 && (c.g - gg) % 256 == 0 && (c.b - bb) % 256 == 0
    ensures 0 <= rr < 256 ==> c.r == rr
    ensures 0 <= gg < 256 ==> c.g == gg
    ensures 0 <= bb < 256 ==> c.b == bb
  {
    Color(rr % 256, gg % 256, bb % 256)
  }

  /** The default colour of `clear`. */
  const White := Color(255, 255, 255)

  /** The byte at offset `k` (0, 1 or 2) of a pixel of colour `c`. */
  function Channel(c: Color, k: int): (v: Byte)
    ensures k == 0 ==> v == c.b
    ensures k == 1 ==> v == c.g
    ensures k == 2 ==> v == c.r
  {
    if k == 0 then c.b else if k == 1 then c.g else c.r
  }

  /** The offset of pixel (`x`, `y`) in a buffer `w` pixels wide. */
  function Offset(x: int, y: int, w: int): int
  {
    (y * w + x) * 3
  }

  /** A pixel of the grid has all three of its bytes inside the buffer. */
  lemma {:induction false} PixelInside(x: int, y: int, w: int, h: int)
    requires 0 <= x < w && 0 <= y < h
    ensures 0 <= Offset(x, y, w) && Offset(x, y, w) + 2 < w * h * 3
    ensures Offset(x, y, w) % 3 == 0
  {
    assert y * w + x < (y + 1) * w;
    MultiplyMonotone(y + 1, h, w);
  }

  lemma {:induction false} MultiplyMonotone(a: int, b: int, c: int)
    requires a <= b && 0 <= c
    ensures a * c <= b * c
  {
  }

  class Canvas {
    const bufW: nat
    const bufH: nat
    const buffer: array<Byte>

    ghost predicate Valid()
      reads this
    {
      buffer.Length == bufW * bufH * 3
    }

    /** `Canvas(w, h)`: a zero-filled buffer of `w * h * 3` bytes. */
    constructor (w: nat, h: nat)
      ensures Valid() && bufW == w && bufH == h && fresh(buffer)
      ensures forall i :: 0 <= i < buffer.Length ==> buffer[i] == 0
    {
      bufW, bufH := w, h;
      buffer := new Byte[w * h * 3](i => 0);
    }

    /**
     * `put_pixel`: a point outside the grid changes nothing; a point inside
     * gets the three bytes of `c` and nothing else changes.
     */
    method PutPixel(x: int, y: int, c: Color) returns (marked: bool)
      requires Valid()
      modifies buffer
      ensures !(0 <= x < bufW && 0 <= y < bufH) ==> !marked && buffer[..] == old(buffer[..])
      ensures 0 <= x < bufW && 0 <= y < bufH ==> marked && 0 <= Offset(x, y, bufW) && Offset(x, y, bufW) + 2 < buffer.Length
      ensures 0 <= x < bufW && 0 <= y < bufH ==>
        buffer[..] == old(buffer[..])[Offset(x, y, bufW) := c.b][Offset(x, y, bufW) + 1 := c.g][Offset(x, y, bufW) + 2 := c.r]
    {
      if x < 0 || y < 0 || x >= bufW || y >= bufH {
        return false;
      }
      PixelInside(x, y, bufW, bufH);
      var idx := (y * bufW + x) * 3;
      buffer[idx + 0] := c.b;
      buffer[idx + 1] := c.g;
      buffer[idx + 2] := c.r;
      marked := true;
    }

    /** `clear`: every pixel of the grid, and so every byte of the buffer, takes colour `c`. */
    method Clear(c: Color) returns (marked: bool)
      requires Valid()
      modifies buffer
      ensures marked
      ensures forall i :: 0 <= i < buffer.Length ==> buffer[i] == Channel(c, i % 3)
    {
      var y, start := 0, 0;
      while y < bufH
        invariant 0 <= y <= bufH && start == y * bufW * 3
        invariant forall i :: 0 <= i < start ==> buffer[i] == Channel(c, i % 3)
      {
        MultiplyMonotone(y + 1, bufH, bufW * 3);
        ClearRow(c, start);
        y, start := y + 1, start + bufW * 3;
      }
      marked := true;
    }

    /** The inner loop of `clear`: the row that starts at byte `start`, after the bytes before it. */
    method ClearRow(c: Color, start: nat)
      requires Valid() && start % 3 == 0 && start + bufW * 3 <= buffer.Length
      requires forall i :: 0 <= i < start ==> buffer[i] == Channel(c, i % 3)
      modifies buffer
      ensures forall i :: 0 <= i < start + bufW * 3 ==> buffer[i] == Channel(c, i % 3)
    {
      var x := 0;
      while x < bufW
        invariant 0 <= x <= bufW
        invariant forall i :: 0 <= i < start + x * 3 ==> buffer[i] == Channel(c, i % 3)
      {
        var idx := start + x * 3;
        buffer[idx + 0] := c.b;
        buffer[idx + 1] := c.g;
        buffer[idx + 2] := c.r;
        x := x + 1;
      }
    }
  }
}

/** Bytes, colours and the pure view of the off-screen pixel buffer `screendata`:
    four bytes per pixel (red, green, blue, one unused byte), rows of `xres4`
    bytes one after the other. */
module Pixels {

  /** One byte of the buffer, an `unsigned char`. */
  newtype byte = x: int | 0 <= x < 256

  /** A `cVec`: the three colour channels written for one pixel. */
  datatype Colour = Colour(r: byte, g: byte, b: byte)

  const Black := Colour(0, 0, 0)
  const Red := Colour(255, 0, 0)
  const Yellow := Colour(255, 255, 0)

  /** A buffer of the size `setup_screen_res` allocates: `yres * xres4` bytes, `xres4 == 4 * xres`. */
  predicate Shape(d: seq<byte>, xres: nat, yres: nat)
  {
    |d| == yres * (4 * xres)
  }

  predicate InBounds(xres: nat, yres: nat, x: int, y: int)
  {
    0 <= x < xres && 0 <= y < yres
  }

  /** The byte offset of pixel (x, y) as `setpixel` computes it: `y*xres4 + (x<<2)`. */
  function Offset(xres4: int, x: int, y: int): int
  {
    y * xres4 + 4 * x
  }

  lemma MulLeft(a: int, b: int, c: nat)
    requires a <= b
    ensures a * c <= b * c
  {
  }

  /** The buffer size `yres * xres4` is four bytes for each of the `xres * yres` pixels. */
  lemma ShapeSize(xres: nat, yres: nat)
    ensures yres * (4 * xres) == 4 * (xres * yres)
  {
  }

  /** The row-major number `y*xres + x` of an in-range pixel lies in
      `[0, xres*yres)`, and the offset of the pixel is four times that number. */
  lemma OffsetInBounds(xres: nat, yres: nat, x: int, y: int)
    requires InBounds(xres, yres, x, y)
    ensures Offset(4 * xres, x, y) == 4 * (y * xres + x)
    ensures 0 <= y * xres + x < xres * yres
    ensures 0 <= Offset(4 * xres, x, y) && Offset(4 * xres, x, y) + 3 < yres * (4 * xres)
  {
    MulLeft(y + 1, yres, xres);
    assert y * xres + x < (y + 1) * xres;
  }

  /** Two pixels with the same row-major number are the same pixel. */
  lemma IndexInjective(xres: nat, x: int, y: int, x': int, y': int)
    requires 0 <= x < xres && 0 <= x' < xres && 0 <= y && 0 <= y'
    requires y * xres + x == y' * xres + x'
    ensures x == x' && y == y'
  {
    if y < y' {
      MulLeft(y + 1, y', xres);
      assert false;
    } else if y' < y {
      MulLeft(y' + 1, y, xres);
      assert false;
    }
  }

  /** Every number in `[0, xres*yres)` is the row-major number of an in-range
      pixel, `(i % xres, i / xres)`; with `IndexInjective`, the numbering is a
      bijection onto that range. */
  lemma PixelNumberOnto(xres: nat, yres: nat, i: int)
    requires 0 <= i < xres * yres
    ensures xres > 0
    ensures InBounds(xres, yres, i % xres, i / xres) && (i / xres) * xres + i % xres == i
  {
    if xres == 0 {
      assert false;
    }
    var x, y := i % xres, i / xres;
    assert y * xres + x == i;
    if yres <= y {
      MulLeft(yres, y, xres);
      assert false;
    }
  }

  /** The colour channels of the pixel numbered `i` (the bytes `4i`, `4i+1`, `4i+2`). */
  function Channels(d: seq<byte>, i: int): Colour
    requires 0 <= i && 4 * i + 2 < |d|
  {
    Colour(d[4 * i], d[4 * i + 1], d[4 * i + 2])
  }

  /** The colour stored for pixel (x, y), read at the offset `setpixel` writes to. */
  function PixelAt(d: seq<byte>, xres: nat, yres: nat, x: int, y: int): Colour
    requires Shape(d, xres, yres) && InBounds(xres, yres, x, y)
  {
    OffsetInBounds(xres, yres, x, y);
    var o := Offset(4 * xres, x, y);
    Colour(d[o], d[o + 1], d[o + 2])
  }

  /** The fourth, unused byte of the pixel numbered `i`. */
  function Pad(d: seq<byte>, i: int): byte
    requires 0 <= i && 4 * i + 3 < |d|
  {
    d[4 * i + 3]
  }

  /** `b` is `a` with every fourth byte (the unused channel) left as it was. */
  ghost predicate SamePadding(a: seq<byte>, b: seq<byte>)
  {
    |a| == |b| && forall i :: 0 <= i && 4 * i + 3 < |a| ==> Pad(a, i) == Pad(b, i)
  }

  lemma SamePaddingTrans(a: seq<byte>, b: seq<byte>, c: seq<byte>)
    requires SamePadding(a, b) && SamePadding(b, c)
    ensures SamePadding(a, c)
  {
  }

  /** The buffer after `setpixel(x, y, c)` (what it means: `PutPixelWrites`, `PutPixelOther`). */
  function PutPixel(d: seq<byte>, xres: nat, yres: nat, x: int, y: int, c: Colour): (r: seq<byte>)
    requires Shape(d, xres, yres) && InBounds(xres, yres, x, y)
    ensures Shape(r, xres, yres)
  {
    OffsetInBounds(xres, yres, x, y);
    var o := Offset(4 * xres, x, y);
    d[o := c.r][o + 1 := c.g][o + 2 := c.b]
  }

  /** `setpixel(x, y, c)` stays inside the buffer; pixel (x, y) reads back as
      `c`; the fourth byte of the pixel and every byte of other offsets are unchanged. */
  lemma PutPixelWrites(d: seq<byte>, xres: nat, yres: nat, x: int, y: int, c: Colour)
    requires Shape(d, xres, yres) && InBounds(xres, yres, x, y)
    ensures 0 <= Offset(4 * xres, x, y) && Offset(4 * xres, x, y) + 2 < |d|
    ensures PixelAt(PutPixel(d, xres, yres, x, y, c), xres, yres, x, y) == c
    ensures forall k :: 0 <= k < |d| && (k < Offset(4 * xres, x, y) || Offset(4 * xres, x, y) + 2 < k) ==>
              PutPixel(d, xres, yres, x, y, c)[k] == d[k]
    ensures SamePadding(d, PutPixel(d, xres, yres, x, y, c))
  {
    OffsetInBounds(xres, yres, x, y);
    var r := PutPixel(d, xres, yres, x, y, c);
    forall i | 0 <= i && 4 * i + 3 < |d|
      ensures Pad(r, i) == Pad(d, i)
    {
      assert 4 * i + 3 != Offset(4 * xres, x, y) + 2;
    }
  }

  /** Writing one pixel leaves the colour of every other pixel as it was. */
  lemma PutPixelOther(d: seq<byte>, xres: nat, yres: nat, x: int, y: int, c: Colour, x': int, y': int)
    requires Shape(d, xres, yres) && InBounds(xres, yres, x, y) && InBounds(xres, yres, x', y')
    requires x != x' || y != y'
    ensures PixelAt(PutPixel(d, xres, yres, x, y, c), xres, yres, x', y') == PixelAt(d, xres, yres, x', y')
  {
    OffsetInBounds(xres, yres, x, y);
    OffsetInBounds(xres, yres, x', y');
    PutPixelWrites(d, xres, yres, x, y, c);
    if y * xres + x == y' * xres + x' {
      IndexInjective(xres, x, y, x', y');
    }
  }

  /** The buffer after `clearBuffer(col)` has walked its first `n` pixels:
      channels 0..2 of each of them hold `col` (their fourth byte: `ClearedPadding`). */
  function Cleared(d: seq<byte>, n: nat, col: Colour): (r: seq<byte>)
    requires 4 * n <= |d|
    ensures |r| == |d|
    ensures forall i :: 0 <= i < n ==> Channels(r, i) == col
    decreases n
  {
    if n == 0 then d
    else
      var prev := Cleared(d, n - 1, col);
      var p := 4 * (n - 1);
      var r := prev[p := col.r][p + 1 := col.g][p + 2 := col.b];
      assert forall i :: 0 <= i < n - 1 ==> Channels(r, i) == Channels(prev, i);
      r
  }

  /** After clearing all `xres*yres` pixels, every pixel reads back as `col`. */
  lemma ClearedPixel(d: seq<byte>, xres: nat, yres: nat, col: Colour, x: int, y: int)
    requires Shape(d, xres, yres) && InBounds(xres, yres, x, y)
    ensures 4 * (xres * yres) <= |d|
    ensures PixelAt(Cleared(d, xres * yres, col), xres, yres, x, y) == col
  {
    OffsetInBounds(xres, yres, x, y);
    var r := Cleared(d, xres * yres, col);
    assert Channels(r, y * xres + x) == col;
  }

  /** Clearing never touches the fourth byte of a pixel. */
  lemma {:induction false} ClearedPadding(d: seq<byte>, n: nat, col: Colour)
    requires 4 * n <= |d|
    ensures SamePadding(d, Cleared(d, n, col))
    decreases n
  {
    if n > 0 {
      ClearedPadding(d, n - 1, col);
      var prev := Cleared(d, n - 1, col);
      var r := Cleared(d, n, col);
      forall i | 0 <= i && 4 * i + 3 < |d|
        ensures Pad(r, i) == Pad(prev, i)
      {
        assert 4 * i + 3 != 4 * (n - 1) + 2;
      }
    }
  }
}

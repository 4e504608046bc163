/** The buffer-writing part of `render`: clear to black, a red 20x20 square at
    the origin, then a 20x20 square around the moving position. */
module Render {
  import opened Pixels
  import opened Framebuffer


  /** One run of the inner loop: pixels (x, y0), (x, y0+1), ..., (x, y1-1)
      get colour `c` in that order. A pixel outside the buffer is skipped (the
      source writes it regardless; see `Render`). */
  function FillColumn(d: seq<byte>, xres: nat, yres: nat, x: int, y0: int, y1: int, c: Colour): (r: seq<byte>)
    requires Shape(d, xres, yres)
    ensures Shape(r, xres, yres)
    decreases y1 - y0, d  // `d` in the measure: no unrolling of calls with constant bounds
  {
    if y1 <= y0 then d
    else
      var prev := FillColumn(d, xres, yres, x, y0, y1 - 1, c);
      if InBounds(xres, yres, x, y1 - 1) then PutPixel(prev, xres, yres, x, y1 - 1, c) else prev
  }

  /** The nested loops: the columns x0, ..., x1-1 in that order, each filled
      over the rows y0, ..., y1-1. */
  function FillRect(d: seq<byte>, xres: nat, yres: nat, x0: int, x1: int, y0: int, y1: int, c: Colour): (r: seq<byte>)
    requires Shape(d, xres, yres)
    ensures Shape(r, xres, yres)
    decreases x1 - x0, d  // as in `FillColumn`
  {
    if x1 <= x0 then d
    else FillColumn(FillRect(d, xres, yres, x0, x1 - 1, y0, y1, c), xres, yres, x1 - 1, y0, y1, c)
  }

  /** Drawing a column leaves every fourth byte alone. */
  lemma {:induction false} FillColumnPadding(d: seq<byte>, xres: nat, yres: nat, x: int, y0: int, y1: int, c: Colour)
    requires Shape(d, xres, yres)
    ensures SamePadding(d, FillColumn(d, xres, yres, x, y0, y1, c))
    decreases y1 - y0
  {
    if y0 < y1 {
      FillColumnPadding(d, xres, yres, x, y0, y1 - 1, c);
      var prev := FillColumn(d, xres, yres, x, y0, y1 - 1, c);
      if InBounds(xres, yres, x, y1 - 1) {
        PutPixelWrites(prev, xres, yres, x, y1 - 1, c);
        SamePaddingTrans(d, prev, PutPixel(prev, xres, yres, x, y1 - 1, c));
      }
    }
  }

  /** Drawing a rectangle leaves every fourth byte alone. */
  lemma {:induction false} FillRectPadding(d: seq<byte>, xres: nat, yres: nat, x0: int, x1: int, y0: int, y1: int, c: Colour)
    requires Shape(d, xres, yres)
    ensures SamePadding(d, FillRect(d, xres, yres, x0, x1, y0, y1, c))
    decreases x1 - x0
  {
    if x0 < x1 {
      FillRectPadding(d, xres, yres, x0, x1 - 1, y0, y1, c);
      var prev := FillRect(d, xres, yres, x0, x1 - 1, y0, y1, c);
      FillColumnPadding(prev, xres, yres, x1 - 1, y0, y1, c);
      SamePaddingTrans(d, prev, FillRect(d, xres, yres, x0, x1, y0, y1, c));
    }
  }

  /** A column run gives `c` to exactly its own pixels and leaves every other pixel alone. */
  lemma {:induction false} FillColumnPixel(d: seq<byte>, xres: nat, yres: nat, x: int, y0: int, y1: int, c: Colour, px: int, py: int)
    requires Shape(d, xres, yres) && InBounds(xres, yres, px, py)
    ensures PixelAt(FillColumn(d, xres, yres, x, y0, y1, c), xres, yres, px, py)
         == if px == x && y0 <= py < y1 then c else PixelAt(d, xres, yres, px, py)
    decreases y1 - y0
  {
    if y0 < y1 {
      FillColumnPixel(d, xres, yres, x, y0, y1 - 1, c, px, py);
      var prev := FillColumn(d, xres, yres, x, y0, y1 - 1, c);
      if InBounds(xres, yres, x, y1 - 1) {
        if px == x && py == y1 - 1 {
          PutPixelWrites(prev, xres, yres, x, y1 - 1, c);
        } else {
          PutPixelOther(prev, xres, yres, x, y1 - 1, c, px, py);
        }
      }
    }
  }

  /** A rectangle gives `c` to exactly the pixels it covers and leaves every other pixel alone. */
  lemma {:induction false} FillRectPixel(d: seq<byte>, xres: nat, yres: nat, x0: int, x1: int, y0: int, y1: int, c: Colour, px: int, py: int)
    requires Shape(d, xres, yres) && InBounds(xres, yres, px, py)
    ensures PixelAt(FillRect(d, xres, yres, x0, x1, y0, y1, c), xres, yres, px, py)
         == if x0 <= px < x1 && y0 <= py < y1 then c else PixelAt(d, xres, yres, px, py)
    decreases x1 - x0
  {
    if x0 < x1 {
      FillRectPixel(d, xres, yres, x0, x1 - 1, y0, y1, c, px, py);
      var prev := FillRect(d, xres, yres, x0, x1 - 1, y0, y1, c);
      FillColumnPixel(prev, xres, yres, x1 - 1, y0, y1, c, px, py);
    }
  }

  /** The picture one frame should show, pixel by pixel: the moving square wins
      over the red one (it is drawn last), the red one over the black background. */
  function ExpectedColour(cx: int, cy: int, x: int, y: int): Colour
  {
    if cx - 10 <= x < cx + 10 && cy - 10 <= y < cy + 10 then Yellow
    else if 0 <= x < 20 && 0 <= y < 20 then Red
    else Black
  }

  /** The buffer after the drawing steps of `render`, in the order the source runs them. */
  function FrameSpec(d: seq<byte>, xres: nat, yres: nat, cx: int, cy: int): (r: seq<byte>)
    requires Shape(d, xres, yres)
    ensures Shape(r, xres, yres)
  {
    ShapeSize(xres, yres);
    var black := Cleared(d, xres * yres, Black);
    var red := FillRect(black, xres, yres, 0, 20, 0, 20, Red);
    FillRect(red, xres, yres, cx - 10, cx + 10, cy - 10, cy + 10, Yellow)
  }

  /** Drawing a frame leaves the fourth byte of every pixel as it was. */
  lemma FramePadding(d: seq<byte>, xres: nat, yres: nat, cx: int, cy: int)
    requires Shape(d, xres, yres)
    ensures SamePadding(d, FrameSpec(d, xres, yres, cx, cy))
  {
    ShapeSize(xres, yres);
    var black := Cleared(d, xres * yres, Black);
    var red := FillRect(black, xres, yres, 0, 20, 0, 20, Red);
    ClearedPadding(d, xres * yres, Black);
    FillRectPadding(black, xres, yres, 0, 20, 0, 20, Red);
    FillRectPadding(red, xres, yres, cx - 10, cx + 10, cy - 10, cy + 10, Yellow);
    SamePaddingTrans(d, black, red);
    SamePaddingTrans(d, red, FrameSpec(d, xres, yres, cx, cy));
  }

  /** Every pixel of the drawn frame has its expected colour, wherever the squares are. */
  lemma FramePixel(d: seq<byte>, xres: nat, yres: nat, cx: int, cy: int, x: int, y: int)
    requires Shape(d, xres, yres) && InBounds(xres, yres, x, y)
    ensures PixelAt(FrameSpec(d, xres, yres, cx, cy), xres, yres, x, y) == ExpectedColour(cx, cy, x, y)
  {
    ShapeSize(xres, yres);
    var black := Cleared(d, xres * yres, Black);
    var red := FillRect(black, xres, yres, 0, 20, 0, 20, Red);
    ClearedPixel(d, xres, yres, Black, x, y);
    FillRectPixel(black, xres, yres, 0, 20, 0, 20, Red, x, y);
    FillRectPixel(red, xres, yres, cx - 10, cx + 10, cy - 10, cy + 10, Yellow, x, y);
  }

  /** The nested `for` loops of `render`: column by column, `setpixel(x0+i, y0+j)`
      for `i` and `j` from 0 to 19. As written, every one of the 400 writes must
      land in the buffer. */
  method DrawSquare(s: Screen, x0: int, y0: int, rgb: Colour)
    requires s.Valid()
    requires 0 <= x0 && x0 + 20 <= s.xres && 0 <= y0 && y0 + 20 <= s.yres
    modifies s.screendata
    ensures s.screendata[..] == FillRect(old(s.screendata[..]), s.xres, s.yres, x0, x0 + 20, y0, y0 + 20, rgb)
  {
    ghost var d := s.screendata[..];
    for i := 0 to 20
      invariant s.screendata[..] == FillRect(d, s.xres, s.yres, x0, x0 + i, y0, y0 + 20, rgb)
    {
      ghost var before := s.screendata[..];
      for j := 0 to 20
        invariant s.screendata[..] == FillColumn(before, s.xres, s.yres, x0 + i, y0, y0 + j, rgb)
      {
        s.SetPixel(x0 + i, y0 + j, rgb);
      }
    }
  }

  /** `render` as written: both squares must fit in the buffer, so the window is
      at least 20x20 and the moving square's centre is at least 10 pixels from
      each edge (its last row and column are `cx+9`, `cy+9`). The second colour
      is `{255,255,0}`: the source sets channel 1 of the red colour it used for
      the first square. */
  method Render(s: Screen, cx: int, cy: int)
    requires s.Valid()
    requires 20 <= s.xres && 20 <= s.yres
    requires 10 <= cx <= s.xres - 10 && 10 <= cy <= s.yres - 10
    modifies s.screendata
    ensures s.screendata[..] == FrameSpec(old(s.screendata[..]), s.xres, s.yres, cx, cy)
    ensures forall x, y :: InBounds(s.xres, s.yres, x, y) ==>
              PixelAt(s.screendata[..], s.xres, s.yres, x, y) == ExpectedColour(cx, cy, x, y)
    ensures SamePadding(old(s.screendata[..]), s.screendata[..])
  {
    ghost var d := s.screendata[..];
    var r := Black;
    s.ClearBuffer(r);
    var rgb := Red;
    DrawSquare(s, 0, 0, rgb);
    rgb := rgb.(g := 255);
    DrawSquare(s, cx - 10, cy - 10, rgb);
    FramePadding(d, s.xres, s.yres, cx, cy);
    forall x, y | InBounds(s.xres, s.yres, x, y)
      ensures PixelAt(s.screendata[..], s.xres, s.yres, x, y) == ExpectedColour(cx, cy, x, y)
    {
      FramePixel(d, s.xres, s.yres, cx, cy, x, y);
    }
  }

  /** Why `Render` needs its precondition: a pixel in a column of the buffer
      but in a row above or below it has an offset outside `[0, yres*xres4)`,
      so `setpixel` writes outside `screendata`. */
  lemma RowOutsideMissesBuffer(xres: nat, yres: nat, x: int, y: int)
    requires 0 <= x < xres && (y < 0 || yres <= y)
    ensures Offset(4 * xres, x, y) < 0 || yres * (4 * xres) <= Offset(4 * xres, x, y)
  {
    if y < 0 {
      MulLeft(y, -1, 4 * xres);
    } else {
      MulLeft(yres, y, 4 * xres);
    }
  }

  /** A column past the right edge, in a row that is not the last, is no
      error in the buffer: `setpixel(x, y)` with `xres <= x < 2*xres` writes
      the bytes of pixel `(x - xres, y + 1)`, the start of the next row. */
  lemma ColumnOutsideWrapsRow(xres: nat, yres: nat, x: int, y: int)
    requires xres <= x < 2 * xres && 0 <= y && y + 1 < yres
    ensures InBounds(xres, yres, x - xres, y + 1) && !InBounds(xres, yres, x, y)
    ensures Offset(4 * xres, x, y) == Offset(4 * xres, x - xres, y + 1)
  {
  }

  /** `ggbuffer 30 480`: the first `physics` step puts the centre at (23, 200).
      The moving square's columns 30..32 of row 190 are outside the window but
      land on columns 0..2 of row 191. */
  lemma NarrowWindowWraps()
    ensures var xres, yres := 30, 480;
            forall x :: 30 <= x <= 32 ==>
              !InBounds(xres, yres, x, 190)
              && InBounds(xres, yres, x - 30, 191)
              && Offset(4 * xres, x, 190) == Offset(4 * xres, x - 30, 191)
  {
    forall x | 30 <= x <= 32
      ensures Offset(120, x, 190) == Offset(120, x - 30, 191)
    {
      ColumnOutsideWrapsRow(30, 480, x, 190);
    }
  }

  /** In general a column `x >= 0` past the right edge writes the bytes of
      pixel `(x % xres, y + x / xres)`: each further `xres` columns move the
      write one row further down. */
  lemma ColumnWrapsRows(xres: nat, yres: nat, x: int, y: int)
    requires 0 < xres && 0 <= x && 0 <= y
    ensures 0 <= x % xres < xres
    ensures Offset(4 * xres, x, y) == Offset(4 * xres, x % xres, y + x / xres)
    ensures y + x / xres < yres ==> InBounds(xres, yres, x % xres, y + x / xres)
  {
  }

  /** `ggbuffer 5 480`: the red square's `setpixel(12, 0)` is more than one
      row's width past the edge. It writes the bytes of pixel (2, 2), two rows
      down, and `(12 - 5, 0 + 1)` is no pixel at all. */
  lemma TinyWindowWrapsTwoRows()
    ensures Offset(20, 12, 0) == Offset(20, 2, 2)
    ensures InBounds(5, 480, 2, 2) && !InBounds(5, 480, 12, 0) && !InBounds(5, 480, 7, 1)
  {
  }

  /** A 640x100 window (`ggbuffer 640 100`): the square starts at (20, 200)
      moving right at 3 pixels per frame with no vertical speed, so the first
      `physics` step puts its centre at (23, 200). That centre is outside what
      `Render` accepts, and the first write of the moving square, at
      (23-10, 200-10), lands past the end of the 100-row buffer. */
  lemma WriteOutsideSmallWindow()
    ensures var xres, yres, cx, cy := 640, 100, 20 + 3, 200 + 0;
            !(10 <= cy <= yres - 10)
            && 0 <= cx - 10 < xres && !InBounds(xres, yres, cx - 10, cy - 10)
            && yres * (4 * xres) <= Offset(4 * xres, cx - 10, cy - 10)
  {
    RowOutsideMissesBuffer(640, 100, 13, 190);
  }

  /** The loops of `DrawSquare` with each write guarded: a pixel outside the
      buffer is skipped. */
  method DrawSquareClipped(s: Screen, x0: int, y0: int, rgb: Colour)
    requires s.Valid()
    modifies s.screendata
    ensures s.screendata[..] == FillRect(old(s.screendata[..]), s.xres, s.yres, x0, x0 + 20, y0, y0 + 20, rgb)
  {
    ghost var d := s.screendata[..];
    for i := 0 to 20
      invariant s.screendata[..] == FillRect(d, s.xres, s.yres, x0, x0 + i, y0, y0 + 20, rgb)
    {
      ghost var before := s.screendata[..];
      for j := 0 to 20
        invariant s.screendata[..] == FillColumn(before, s.xres, s.yres, x0 + i, y0, y0 + j, rgb)
      {
        if InBounds(s.xres, s.yres, x0 + i, y0 + j) {
          s.SetPixel(x0 + i, y0 + j, rgb);
        }
      }
    }
  }

  /** `render` with every write kept inside the buffer. No constraint on the
      window size or on where the moving square is. */
  method RenderClipped(s: Screen, cx: int, cy: int)
    requires s.Valid()
    modifies s.screendata
    ensures s.screendata[..] == FrameSpec(old(s.screendata[..]), s.xres, s.yres, cx, cy)
    ensures forall x, y :: InBounds(s.xres, s.yres, x, y) ==>
              PixelAt(s.screendata[..], s.xres, s.yres, x, y) == ExpectedColour(cx, cy, x, y)
    ensures SamePadding(old(s.screendata[..]), s.screendata[..])
  {
    ghost var d := s.screendata[..];
    var r := Black;
    s.ClearBuffer(r);
    var rgb := Red;
    DrawSquareClipped(s, 0, 0, rgb);
    rgb := rgb.(g := 255);
    DrawSquareClipped(s, cx - 10, cy - 10, rgb);
    FramePadding(d, s.xres, s.yres, cx, cy);
    forall x, y | InBounds(s.xres, s.yres, x, y)
      ensures PixelAt(s.screendata[..], s.xres, s.yres, x, y) == ExpectedColour(cx, cy, x, y)
    {
      FramePixel(d, s.xres, s.yres, cx, cy, x, y);
    }
  }
}

/** The resolution globals `xres`, `yres`, `xres3`, `xres4` and the buffer
    `screendata` of ggbuffer.cpp, gathered in one object. */
module Framebuffer {
  import opened Pixels

  class Screen {
    var xres: nat
    var yres: nat
    var xres3: nat
    var xres4: nat
    var screendata: array<byte>

    /** The derived widths agree with `xres`, and the buffer holds four bytes per pixel. */
    ghost predicate Valid()
      reads this
    {
      xres3 == 3 * xres && xres4 == 4 * xres && screendata.Length == yres * xres4
    }

    /** Startup: `screendata` starts out NULL (here an empty array) and `main`
        then calls `setup_screen_res` with the window's resolution. */
    constructor (w: nat, h: nat)
      ensures Valid()
      ensures xres == w && yres == h && xres3 == 3 * w && xres4 == 4 * w
      ensures fresh(screendata) && screendata.Length == h * w * 4
    {
      xres, yres, xres3, xres4 := 0, 0, 0, 0;
      screendata := new byte[0];
      new;
      SetupScreenRes(w, h);
    }

    /** `setup_screen_res`: set the resolution and replace the buffer by a new
        one of `yres * xres4` bytes; nothing of the old contents is carried over. */
    method SetupScreenRes(w: nat, h: nat)
      modifies this
      ensures Valid()
      ensures xres == w && yres == h && xres3 == 3 * w && xres4 == 4 * w
      ensures fresh(screendata) && screendata.Length == h * w * 4
    {
      xres := w;
      yres := h;
      xres3 := xres * 3;
      xres4 := xres * 4;
      screendata := new byte[yres * xres4];
    }

    /** `setpixel`: the three colour bytes at offset `y*xres4 + (x<<2)` become
        `rgb`. The source does not check the coordinates; a write outside the
        buffer is undefined behaviour, so the coordinates must be in range. */
    method SetPixel(x: int, y: int, rgb: Colour)
      requires Valid() && InBounds(xres, yres, x, y)
      modifies screendata
      ensures screendata[..] == PutPixel(old(screendata[..]), xres, yres, x, y, rgb)
    {
      OffsetInBounds(xres, yres, x, y);
      var offset := y * xres4 + 4 * x;
      screendata[offset] := rgb.r;
      screendata[offset + 1] := rgb.g;
      screendata[offset + 2] := rgb.b;
    }

    /** `clearBuffer`: a pointer walks all `xres*yres` pixels, writing channels
        0..2 and stepping over the fourth byte. */
    method ClearBuffer(col: Colour)
      requires Valid()
      modifies screendata
      ensures 4 * (xres * yres) <= screendata.Length
      ensures screendata[..] == Cleared(old(screendata[..]), xres * yres, col)
      ensures forall i :: 0 <= i < xres * yres ==> Channels(screendata[..], i) == col
      ensures SamePadding(old(screendata[..]), screendata[..])
    {
      ghost var d := screendata[..];
      var n := xres * yres;
      ShapeSize(xres, yres);
      var p := 0;
      var i := 0;
      while i < n
        invariant 0 <= i <= n && p == 4 * i && 4 * n == screendata.Length
        invariant screendata[..] == Cleared(old(screendata[..]), i, col)
      {
        screendata[p] := col.r;
        screendata[p + 1] := col.g;
        screendata[p + 2] := col.b;
        p := p + 4;
        i := i + 1;
      }
      ClearedPadding(d, n, col);
    }
  }
}

# ggbuffer: the off-screen pixel buffer, modelled in Dafny

ggbuffer draws into a memory buffer `screendata` and then hands it to OpenGL.
The buffer holds four bytes per pixel (red, green, blue and one unused byte) in
rows of `xres4 = 4 * xres` bytes. Around the buffer sits a little bookkeeping:

- `setup_screen_res` sets the resolution and allocates the buffer;
- `setpixel` writes one pixel's three colour bytes;
- `clearBuffer` fills every pixel with one colour;
- `render` clears to black, then draws a red 20x20 square at the origin and a
  20x20 square in `{255,255,0}` around the moving position;
- the event loop of `main` handles resize events through `check_resize` and
  keys through `check_keys`, and sets `done` from each event;
- `showFrameRate` counts frames in blocks of 32.

The model consists of these modules:

- `Pixels` (pixels.dfy): the byte type, colours, the offset `y*xres4 + (x<<2)`,
  and pure descriptions of the buffer after `setpixel` (`PutPixel`) and after
  a partial or full `clearBuffer` (`Cleared`). It also has the lemmas saying
  what the buffer then holds, pixel by pixel and in the unused bytes.
- `Framebuffer` (framebuffer.dfy): class `Screen` holds the globals `xres`,
  `yres`, `xres3`, `xres4` and the array `screendata`. Its methods are
  `SetupScreenRes`, `SetPixel` and `ClearBuffer`, each proved against the
  pure descriptions.
- `Render` (render.dfy): `FillColumn` and `FillRect` describe the nested
  `setpixel` loops; `FrameSpec` and `ExpectedColour` describe the whole
  frame. There are two drawing methods:
  - `Render` is the code as written. It requires both squares to lie in the
    buffer.
  - `RenderClipped` corrects it by skipping pixels outside the buffer (see
    Findings).
- `Events` (events.dfy): an `Event` datatype, `CheckKeys`, `CheckResize`, and
  the inner event loop. Its specification is `Drain`, a fold of `Step` over
  the pending events. `LastConfigure` is an independent reference for the
  resulting resolution. `DrainSticky` and `DrainEventsSticky` correct the
  loop so that an Escape press is not undone by a later event (see Findings).
- `FrameRate` (frame_rate.dfy): the counter of `showFrameRate`. It has the
  one-call step `NextCount`, the value after `n` calls `CountAfter`, and the
  class `FrameCounter` with the method `ShowFrameRate`.

Modelling choices:

- The moving square has an integer centre `(cx, cy)`. The square covers
  columns `cx-10 .. cx+9` and rows `cy-10 .. cy+9`, which is what the source's
  float-to-int conversion `pos+i` gives when every coordinate is
  non-negative. `Render` requires the square inside the buffer, so this
  always holds for it.
- Event sizes are natural numbers.
- The pending events are a finite sequence passed to the drain loop.

## Model

| member | source | states |
|---|---|---|
| Pixels.OffsetInBounds | ggbuffer.cpp:301-307 | For `0<=x<xres`, `0<=y<yres`, the offset `y*xres4+4x` is four times the pixel's row-major number `y*xres+x < xres*yres`, and bytes `o..o+3` all lie inside the `yres*xres4` bytes of the buffer |
| Pixels.Offset | ggbuffer.cpp:304 | No contract: the definition of the byte offset `y*xres4 + (x<<2)`, with `x<<2` as `4*x` |
| Pixels.PixelNumberOnto | ggbuffer.cpp:304 | Every number `i < xres*yres` is the row-major number of the in-range pixel `(i % xres, i / xres)`; with `IndexInjective` the numbering is a bijection |
| Pixels.IndexInjective | ggbuffer.cpp:304 | Two pixels with the same row-major number, and so the same offset, are the same pixel |
| Pixels.PutPixel | ggbuffer.cpp:301-308 | Shape only: the buffer after the three writes of `setpixel` keeps its `yres*xres4` bytes (what it holds: `PutPixelWrites`, `PutPixelOther`) |
| Pixels.PutPixelWrites | ggbuffer.cpp:301-308 | After `setpixel(x,y,c)` the pixel reads back as `c`; every byte outside `o..o+2`, the pixel's fourth byte included, is unchanged |
| Pixels.PutPixelOther | ggbuffer.cpp:301-308 | `setpixel(x,y,c)` leaves the colour of every other pixel as it was |
| Pixels.Cleared | ggbuffer.cpp:310-320 | After the loop has handled its first `n` pixels, bytes `4i..4i+2` of each pixel `i < n` hold the colour (the loop invariant of `clearBuffer`) |
| Pixels.ClearedPixel | ggbuffer.cpp:310-320 | After `clearBuffer(col)` every pixel (x, y) reads back as `col` |
| Pixels.ClearedPadding | ggbuffer.cpp:310-320 | `clearBuffer` never touches a pixel's fourth byte |
| Framebuffer.Screen.constructor | ggbuffer.cpp:68-69 | The startup state after `main` calls `setup_screen_res(xres, yres)`: the resolution is set, and the buffer is fresh with `h*w*4` bytes |
| Framebuffer.Screen.SetupScreenRes | ggbuffer.cpp:122-131 | `xres==w`, `yres==h`, `xres3==3w`, `xres4==4w`; the buffer is a fresh array of exactly `h*w*4` bytes, so no old contents survive |
| Framebuffer.Screen.SetPixel | ggbuffer.cpp:301-308 | For in-range coordinates, the three writes turn the buffer into `PutPixel` of the old buffer. Its meaning is given by `PutPixelWrites` and `PutPixelOther` |
| Framebuffer.Screen.ClearBuffer | ggbuffer.cpp:310-320 | The pointer loop gives every pixel `i < xres*yres` the colour in bytes `4i..4i+2` and keeps every byte `4i+3` |
| Render.FillColumn | ggbuffer.cpp:329-331 | Shape only: the buffer after one run of the inner loop, pixel by pixel in order, keeps its size |
| Render.FillRect | ggbuffer.cpp:328-332 | Shape only: the buffer after the nested loops, column by column, keeps its size |
| Render.FrameSpec | ggbuffer.cpp:325-338 | Shape only: the buffer after clearing to black, the red square and the second square, in that order, keeps its size (what it holds: `FramePixel`, `FramePadding`) |
| Render.FillColumnPixel | ggbuffer.cpp:329-331 | One run of the inner loop gives colour `c` to exactly the pixels `(x, y0..y1-1)` and leaves every other pixel alone |
| Render.FillColumnPadding | ggbuffer.cpp:329-331 | One run of the inner loop keeps every fourth byte |
| Render.FillRectPixel | ggbuffer.cpp:328-332 | The nested loops give `c` to exactly the pixels of the rectangle `[x0,x1) x [y0,y1)` and leave every other pixel alone |
| Render.FillRectPadding | ggbuffer.cpp:328-332 | The nested loops keep every fourth byte |
| Render.FramePixel | ggbuffer.cpp:325-338 | In the drawn frame, a pixel is `{255,255,0}` inside the moving square (the last write wins), else `{255,0,0}` inside the 20x20 origin square, else `{0,0,0}` |
| Render.FramePadding | ggbuffer.cpp:325-338 | Drawing a frame keeps the fourth byte of every pixel |
| Render.DrawSquare | ggbuffer.cpp:328-332 | The nested `for` loops of `setpixel(x0+i, y0+j)`, `0<=i,j<20`, with the square inside the buffer, compute `FillRect` over `[x0,x0+20) x [y0,y0+20)` |
| Render.Render | ggbuffer.cpp:322-338 | Given a window of at least 20x20 and `10<=cx<=xres-10`, `10<=cy<=yres-10`, the buffer becomes `FrameSpec`: every pixel has its `ExpectedColour`, with `rgb[1]=255` making the second square `{255,255,0}`, and no fourth byte changes |
| Render.RowOutsideMissesBuffer | ggbuffer.cpp:304 | A pixel in a buffer column but in a row above or below the buffer has an offset outside `[0, yres*xres4)` |
| Render.ColumnOutsideWrapsRow | ggbuffer.cpp:304-307 | For `xres <= x < 2*xres` and a row `y` that is not the last, pixel `(x, y)` is out of range but its offset is that of the in-range pixel `(x - xres, y + 1)`: the write wraps into the next row |
| Render.ColumnWrapsRows | ggbuffer.cpp:304-307 | For any column `x >= 0` and row `y >= 0`, the offset of `(x, y)` is that of `(x % xres, y + x / xres)`, an in-range pixel whenever that row is below `yres`: each further `xres` columns move the write one row down |
| Render.TinyWindowWrapsTwoRows | ggbuffer.cpp:326-332 | With a 5-pixel-wide window, the red square's `setpixel(12, 0)` writes the bytes of pixel (2, 2), two rows down, while `(7, 1)` is not a pixel |
| Render.NarrowWindowWraps | ggbuffer.cpp:334-336 | With a 30x480 window and the first frame's centre (23, 200), the columns 30..32 of row 190 wrap onto columns 0..2 of row 191 |
| Render.WriteOutsideSmallWindow | ggbuffer.cpp:38-39 | With a 640x100 window, the first frame's centre (23, 200) breaks `Render`'s precondition, and its first write of the moving square at (13, 190) lands past the end of the buffer |
| Render.DrawSquareClipped | ggbuffer.cpp:328-338 | The square loops with each write guarded by an in-bounds test compute the same `FillRect`, for any `x0, y0` |
| Render.RenderClipped | ggbuffer.cpp:322-338 | For any window and any centre, the buffer becomes `FrameSpec`: every in-buffer pixel has its `ExpectedColour`, and no fourth byte changes |
| Events.CheckKeys | ggbuffer.cpp:255-265 | Returns 0 or 1, and 1 exactly for a KeyPress whose keysym is `XK_Escape` |
| Events.CheckResize | ggbuffer.cpp:217-228 | A `ConfigureNotify` whose size differs in width or height leads to the state `setup_screen_res(w, h)` leaves, with a fresh buffer of `h*w*4` bytes; any other event changes no field and keeps the same buffer |
| Events.Step | ggbuffer.cpp:77-79 | No contract: the definition of one loop turn, where `check_resize` may take the new size and `done` becomes `check_keys(&e)` |
| Events.Drain | ggbuffer.cpp:74-80 | No contract: the definition of the loop as a fold of `Step`, first event to last (what it computes: `DrainDone`, `DrainResolution`) |
| Events.DrainSnoc | ggbuffer.cpp:74-80 | Handling one more event is one more `Step` after the events before it |
| Events.DrainAppend | ggbuffer.cpp:74-80 | Handling `p` and then `q` is the same as handling `p + q` |
| Events.DrainDone | ggbuffer.cpp:74-80 | After a batch, `done` is `check_keys` of the batch's last event; an empty batch leaves it unchanged |
| Events.DrainQuits | ggbuffer.cpp:73-80 | A batch ends the program (`done == 1`) exactly when its last event is an Escape press, or when it is empty and `done` was already 1 |
| Events.EscapeOverwritten | ggbuffer.cpp:79 | An Escape press followed in the same batch by a last event that is not an Escape press leaves `done == 0` |
| Events.EscapeTapLost | ggbuffer.cpp:74-80 | A batch holding an Escape press and then its release leaves `done == 0`: a quick tap of Escape does not end the program |
| Events.DrainStickySnoc | ggbuffer.cpp:74-80 | In the corrected loop, draining one more event is one more `StepSticky` after the rest |
| Events.DrainStickyQuits | ggbuffer.cpp:74-80 | In the corrected loop, `done == 1` after a batch exactly when it was 1 before or some event of the batch is an Escape press |
| Events.DrainStickyAgrees | ggbuffer.cpp:74-80 | The corrected loop ends at the same resolution and reallocation as the loop as written; only `done` differs |
| Events.DrainIgnoresDone | ggbuffer.cpp:74-80 | The resolution and reallocation after a batch do not depend on the `done` it starts from |
| Events.DrainResolution | ggbuffer.cpp:217-228 | After a batch, the resolution is the size of the batch's last `ConfigureNotify` (`LastConfigure`), or the old one when there is none |
| Events.NoResizeNoRealloc | ggbuffer.cpp:224 | A batch whose `ConfigureNotify` events all carry the current size reallocates nothing and keeps the resolution |
| Events.NewSizeReallocates | ggbuffer.cpp:224-226 | A batch that ends at a different resolution has reallocated the buffer; once reallocated, the flag stays set |
| Events.DrainEvents | ggbuffer.cpp:74-80 | The `XPending` loop that calls `check_resize` and then `done = check_keys(&e)` on each event gives the `done` and resolution of `Drain`; the buffer is a fresh array if any resize happened, else the same array |
| Events.DrainEventsSticky | ggbuffer.cpp:74-80 | The corrected loop, which sets `done` to 1 on an Escape press and never clears it within the batch, gives the `done` and resolution of `DrainSticky`; the buffer is a fresh array if any resize happened, else the same array |
| FrameRate.NextCount | ggbuffer.cpp:109-117 | One call takes a count in `[0,31]` to `(count+1) mod 32`, staying in `[0,31]`; the result is either 0 or `count+1` |
| FrameRate.CountAfter | ggbuffer.cpp:107-117 | The count after any number of calls lies in `[0,31]` |
| FrameRate.CountAfterIsMod | ggbuffer.cpp:107-117 | After `n` calls the count is `n mod 32` |
| FrameRate.Wraps | ggbuffer.cpp:109-117 | Call number `n` resets the count to 0 exactly when `n` is a multiple of 32; any other call adds 1 |
| FrameRate.FrameCounter.constructor | ggbuffer.cpp:107 | The count starts at 0 |
| FrameRate.FrameCounter.ShowFrameRate | ggbuffer.cpp:105-119 | One call steps the count by `NextCount` and keeps it in `[0,31]`, equal to the number of calls mod 32; it reports a sample exactly on every 32nd call, which is also when the count becomes 0 |

## Left out

- X11 and GLX setup and teardown are left out, because they are calls into
  foreign libraries: `initXWindows`, `cleanupXWindows`, `set_title`,
  `init_opengl`, and the GL calls of `reshape_window`.
- Presentation is left out for the same reason: `renderViewport`,
  `glDrawPixels`, `glXSwapBuffers`, and the optional OpenGL quad of `render`.
- `physics` is floating-point arithmetic and is left out. The renderer
  receives an integer centre `(cx, cy)` instead. `WriteOutsideSmallWindow`
  uses only the first step from the initial values.
- The float-to-int conversion at line 336 truncates toward zero. With a
  negative `pos+i`, two values of `i` can land on column or row 0. The model
  draws a contiguous 20x20 square around its integer centre. The two agree
  whenever the square lies in the buffer, which is what `Render` requires.
- `xxGetTicks`, `lastt` and the fps computation and `printf` of
  `showFrameRate` are left out, because they depend on wall-clock time and
  floats. `ShowFrameRate` only reports whether this call is where the source
  would print.
- `check_mouse` is left out, because it changes only two static variables
  that nothing else reads.
- The `argv`/`atoi` parsing of `main` and the fullscreen size taken from the
  root window are left out, because they are operating-system input. The
  constructor takes the resolution as parameters.
- The outer frame loop of `main` is not modelled as a loop. Its steps are
  modelled one by one: `DrainEvents`, `Render`, `ShowFrameRate`.
- `XPending`/`XNextEvent` are modelled as a finite sequence of pending events.
- Events.CheckResize: the `ConfigureNotify` fields are `int` in X, but here
  they are `nat`, because a negative window size does not occur.
- Framebuffer.Screen.SetupScreenRes: integers are unbounded, so a 32-bit
  overflow of `yres * xres4` or of `xres * yres` is not modelled, and neither
  is a failing `new`. The contents of the new buffer are unspecified in C++.
  Dafny initialises them, but no contract here promises anything about them.
- Framebuffer.Screen.SetPixel and Render.Render require every write to be to
  an in-range pixel, `0 <= x < xres` and `0 <= y < yres`. The source checks
  nothing there. Two kinds of write are excluded by that requirement:
  - A write whose offset falls outside `[0, yres*xres4)` is undefined
    behaviour in C++ (`RowOutsideMissesBuffer`, and see Findings).
  - A write with `x >= xres` whose offset still lies inside the buffer is
    defined. It paints the pixel `(x % xres, y + x / xres)`
    (`ColumnWrapsRows`), which is `(x - xres, y + 1)` when `x < 2*xres`
    (`ColumnOutsideWrapsRow`). This happens, for example, with
    `ggbuffer 30 480` (`NarrowWindowWraps`), and the red square wraps in any
    window narrower than 20. In a window narrower than 10 its writes land two
    or more rows down: with `ggbuffer 5 480`, `setpixel(12, 0)` paints pixel
    (2, 2) (`TinyWindowWrapsTwoRows`). The model does not capture these
    wrapped writes: `Render` excludes them, and `RenderClipped` skips them.
- `FillColumn` and `FillRect` skip pixels outside the buffer. `Render`
  requires there to be none, so for it the skip never happens. The skip is
  what makes one specification, `FrameSpec`, serve both `Render` and
  `RenderClipped`.

## Findings

| source | as written | input that shows it | evidently intended | confidence | as-written member | corrected member |
|---|---|---|---|---|---|---|
| ggbuffer.cpp:334-338 | the moving square is drawn with `setpixel(pos[0]+i, pos[1]+j)` without any bounds check, while the window size comes from the command line and the square starts at `(20, 200)` | `ggbuffer 640 100`: after the first `physics` step the centre is (23, 200), and rows 190..209 are written into a buffer of 100 rows, at offsets past `yres*xres4` | only pixels inside the buffer are written | not executed | Render.WriteOutsideSmallWindow | Render.RenderClipped |
| ggbuffer.cpp:79 | `done = check_keys(&e)` overwrites `done` with every pending event, so only the batch's last event decides whether the program ends | a quick Escape tap whose `KeyPress` and `KeyRelease` are both pending when the frame loop drains events: the release sets `done` back to 0 and the program keeps running | an Escape press ends the program, whatever follows it in the same batch | not executed | Events.EscapeTapLost | Events.DrainStickyQuits |

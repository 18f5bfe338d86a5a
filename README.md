# pyxel graphics core: bank, colour and clipped-pixel policy

A Dafny model of the inline layer of pyxel's software rasterizer, `pyxelcore::Graphics`
(`pyxel/core/include/pyxelcore/graphics.h`). Every drawing call depends on this layer:

- **Bank-index resolution** (`GetImageBank`, `GetTilemapBank`). An index outside the bank is reported and
  replaced by slot 0. A non-system request for the reserved system image slot is reported but still served.
- **Colour resolution** (`GetDrawColor`). A logical colour in `[0, COLOR_COUNT)` maps through the palette
  table. Any other colour is reported and becomes physical colour 0.
- **Clipped pixel write** (`SetPixel`). It writes one cell of the row-major framebuffer, at
  `screen_width_ * y + x`, only when the clip area includes `(x, y)`. The write has no bounds check of
  its own. It stays inside the buffer because the class invariant keeps the clip area inside the screen.

Files:

- `rectangle.dfy` (module `Rectangles`): the clip rectangle. `rectangle.h` is not part of this model, so
  `Includes` is an assumption about that collaborator. It is taken to test inclusive bounds on every side.
- `framebuffer.dfy` (module `Framebuffer`): the row-major layout and its arithmetic (in bounds, injective,
  invertible). It also defines `ClippedWrite`, the buffer after one clipped write, as a function on values.
- `graphics.dfy` (module `PyxelCore`): the constants, the diagnostics, the class `Graphics` and its
  invariant `Valid()`, the three lookups (as functions, since they are `const` in the source) and
  `SetPixel` (a method with `modifies screenData`). `SetPixel` is proved against `ClippedWrite`.

How errors are modelled: each `PRINT_ERROR` call becomes a `Diagnostic` value. A lookup returns a
`Reported<T>`, which holds the looked-up value and the diagnostics reported while finding it, in order.
So "an error was reported" is a statement about the result. The lookups stay side-effect free, as they
are in the source.

The constants are not defined in `graphics.h`. The model declares them with pyxel's values: `COLOR_COUNT`
= 16, `IMAGE_BANK_COUNT` = 4, `IMAGE_BANK_FOR_SYSTEM` = `IMAGE_BANK_COUNT - 1`, `TILEMAP_BANK_COUNT` = 8.
The only facts the proofs use are that the counts are positive and that the system slot is a valid,
non-zero image slot. The contract of `GetImageBank` is written so that it also holds if the system slot
were 0.

## Model

| member | source | states |
|---|---|---|
| `PyxelCore.ResolveBankIndex` | pyxel/core/include/pyxelcore/graphics.h:79-82 | the slot is always in `[0, count)`; it equals the index exactly when the index is in range, and is 0 otherwise; an error is reported exactly when the index is out of range, and it is the one given diagnostic |
| `PyxelCore.Graphics.GetImageBank` | pyxel/core/include/pyxelcore/graphics.h:78-89 | an in-range index returns `image_bank_[index]`; any other index returns slot 0's image; invalid-index is reported exactly when the index is out of range, and it is reported first; the system-access diagnostic is reported exactly when the resolved slot is the system slot and `system` is false; the system slot's image is returned either way; nothing else is reported |
| `PyxelCore.Graphics.GetTilemapBank` | pyxel/core/include/pyxelcore/graphics.h:91-98 | an in-range index returns `tilemap_bank_[index]` with no error; any other index returns slot 0's tilemap with exactly one invalid-tilemap-index error; there is no reserved-slot check |
| `PyxelCore.Graphics.GetDrawColor` | pyxel/core/include/pyxelcore/graphics.h:100-107 | a colour in `[0, COLOR_COUNT)` gives its palette entry with no error; any other colour gives physical colour 0 with exactly one invalid-colour error; as a function over the state it changes nothing (the source declares it `const`) |
| `PyxelCore.Graphics.SetPixel` | pyxel/core/include/pyxelcore/graphics.h:109-113 | the framebuffer afterwards is `ClippedWrite` of the old framebuffer: `draw_color` lands at cell `screen_width_*y + x` when the clip area includes `(x, y)`; otherwise the buffer is unchanged; the palette, clip area and banks are untouched; the invariant is kept |
| `PyxelCore.ImageIndexOutOfRangeIsSlotZero` | pyxel/core/include/pyxelcore/graphics.h:78-88 | an out-of-range image index (for example -1 or `IMAGE_BANK_COUNT`) gives the same image as `GetImageBank(0, true)`, with exactly one diagnostic, invalid-index |
| `Framebuffer.ClippedWrite` | pyxel/core/include/pyxelcore/graphics.h:109-113 | one clipped write keeps the buffer's length; when the clip includes `(x, y)`, cell `width*y + x` is inside the buffer and holds the colour; when it does not, the buffer is unchanged; no other cell changes in any case |
| `Framebuffer.PixelAfterClippedWrite` | pyxel/core/include/pyxelcore/graphics.h:110-111 | pixel by pixel: after the write, a screen pixel holds the colour if it is `(x, y)` and the clip includes it; every other screen pixel keeps its old value, so a write never disturbs another pixel |
| `Framebuffer.PixelIndexInBounds` | pyxel/core/include/pyxelcore/graphics.h:111 | every pixel in `[0, width) x [0, height)` has its cell `width*y + x` in `[0, width*height)` |
| `Framebuffer.PixelIndexInjective` | pyxel/core/include/pyxelcore/graphics.h:111 | two pixels whose columns are in `[0, width)` share a cell only if they are the same pixel |
| `Framebuffer.PixelIndexCoordinates` | pyxel/core/include/pyxelcore/graphics.h:111 | the layout is invertible: the cell of `(x, y)` gives back `x` by `% width` and `y` by `/ width` |
| `Rectangles.WithinScreenIff` | pyxel/core/include/pyxelcore/graphics.h:69 | for a normalized clip area, lying within the screen (the invariant on its corners) holds exactly when every point it includes is a screen pixel |

## Left out

- The drawing algorithms `ClearScreen`, `DrawPoint`, `DrawLine`, `DrawRectangle`, `DrawRectangleBorder`, `DrawCircle`, `DrawCircleBorder`, `DrawImage`, `DrawTilemap`, `DrawText`: they are only declared in `graphics.h`, and their bodies are not part of this model.
- `SetClipArea`, `ResetClipArea`, `SetPalette`, `ResetPalette`: also only declared. Their bodies are not part of this model.
- The constructor's body, the destructor, `SetupMouseCursor` and `SetupFont`: not part of this model. Dafny needs a constructor for the class. The one here only sets up the documented initial state: a full-screen clip area and the identity palette. The framebuffer array is allocated with unspecified contents, and the caller supplies the bank handles. Image allocation and drawing the system font and cursor are not modelled.
- `Image` and `Tilemap` internals: the banks hold opaque handles, the class's type parameters.
- `Rectangle` internals: `rectangle.h` is not part of this model. Only an inclusive `Includes` is assumed.
- `PRINT_ERROR` output: the message goes out as a `Diagnostic` value in the result. No text is printed.
- Raw pointer ownership and memory management, and the read-only accessors `ClipArea`, `PaletteTable` and `ScreenData`: the accessors only expose fields that the model already makes public.
- SetPixel: the index `screen_width_ * y + x` is computed over unbounded integers, so 32-bit overflow of that expression is not modelled. Under the invariant the index lies in `[0, width*height)`, which is within `int32` whenever the buffer size is.

/**
 * The policy layer of pyxel's software rasterizer (`pyxelcore::Graphics`): resolution of bank indices
 * and logical colours, each of which degrades to slot 0 or physical colour 0 with a reported error
 * rather than failing, and the clipped single-pixel write through which every drawing call goes.
 *
 * A reported error (`PRINT_ERROR` in the source) is part of the value a lookup returns, so that
 * "an error was reported" can be stated exactly while the lookups stay side-effect free.
 */
module PyxelCore {
  import opened Rectangles
  import opened Framebuffer

  /** The source's `int32_t`. */
  type int32 = x: int | -0x8000_0000 <= x < 0x8000_0000

  /** Number of logical colours, the size of the palette table. */
  const COLOR_COUNT: int32 := 16
  /** Number of image bank slots, the system slot included. */
  const IMAGE_BANK_COUNT: int32 := 4
  /** The image slot reserved for the built-in font and mouse cursor. */
  const IMAGE_BANK_FOR_SYSTEM: int32 := IMAGE_BANK_COUNT - 1
  /** Number of tilemap bank slots. */
  const TILEMAP_BANK_COUNT: int32 := 8

  /** The diagnostics the core prints, one per message text. */
  datatype Diagnostic =
    | InvalidImageIndex     // "invalid image index"
    | ImageBankForSystem    // "access to image bank for system"
    | InvalidTilemapIndex   // "invalid tilemap index"
    | InvalidColor          // "invalid color"

  /** A looked-up value together with the diagnostics reported, in order, while looking it up. */
  datatype Reported<T> = Reported(value: T, errors: seq<Diagnostic>)

  /**
   * Validate-and-degrade of a bank index: an index in `[0, count)` is kept, any other index is
   * reported with `invalid` and replaced by slot 0. The slot is always a valid one.
   */
  function ResolveBankIndex(index: int32, count: int32, invalid: Diagnostic): (r: Reported<int32>)
    requires 0 < count
    ensures 0 <= r.value < count
    ensures r.value == index <==> 0 <= index < count
    ensures r.value != index ==> r.value == 0
    ensures r.errors == [] <==> 0 <= index < count
    ensures r.errors != [] ==> r.errors == [invalid]
  {
    if index < 0 || index >= count then Reported(0, [invalid]) else Reported(index, [])
  }

  /**
   * The rasterizer's state. `Image` and `Tilemap` stand for the opaque handles held in the banks.
   * The framebuffer `screenData` is row-major, `screenWidth * screenHeight` cells.
   */
  class Graphics<Image, Tilemap> {
    var screenWidth: int32
    var screenHeight: int32
    var screenData: array<int32>
    var imageBank: seq<Image>
    var tilemapBank: seq<Tilemap>
    var clipArea: Rectangle
    var paletteTable: array<int32>

    /**
     * The class invariant. The clip area lying within the screen is what keeps every write of
     * `SetPixel` inside the framebuffer, which has no bounds check of its own.
     */
    ghost predicate Valid()
      reads this
    {
      0 <= screenWidth && 0 <= screenHeight &&
      screenData.Length == screenWidth * screenHeight &&
      paletteTable.Length == COLOR_COUNT as int &&
      screenData != paletteTable &&
      |imageBank| == IMAGE_BANK_COUNT as int &&
      |tilemapBank| == TILEMAP_BANK_COUNT as int &&
      clipArea.WithinScreen(screenWidth, screenHeight)
    }

    /**
     * Establishes the documented initial state: a full-screen clip area and the identity palette.
     * The bank handles are supplied by the caller.
     */
    constructor (width: int32, height: int32, images: seq<Image>, tilemaps: seq<Tilemap>)
      requires 0 <= width && 0 <= height
      requires |images| == IMAGE_BANK_COUNT as int && |tilemaps| == TILEMAP_BANK_COUNT as int
      ensures Valid() && fresh(screenData) && fresh(paletteTable)
      ensures screenWidth == width && screenHeight == height
      ensures imageBank == images && tilemapBank == tilemaps
      ensures clipArea == Rectangle(0, 0, width - 1, height - 1)
      ensures forall c :: 0 <= c < COLOR_COUNT ==> paletteTable[c] == c
    {
      screenWidth, screenHeight := width, height;
      screenData := new int32[width * height];
      imageBank, tilemapBank := images, tilemaps;
      clipArea := Rectangle(0, 0, width - 1, height - 1);
      paletteTable := new int32[COLOR_COUNT](i => if i < COLOR_COUNT as int then i else 0);
    }

    /**
     * The image in bank `imageIndex`. An out-of-range index is reported and slot 0 is used instead;
     * asking for the system slot without `system` is reported, but its image is still returned.
     */
    function GetImageBank(imageIndex: int32, system: bool := false): (r: Reported<Image>)
      reads this
      requires Valid()
      ensures 0 <= imageIndex < IMAGE_BANK_COUNT ==> r.value == imageBank[imageIndex]
      ensures !(0 <= imageIndex < IMAGE_BANK_COUNT) ==> r.value == imageBank[0]
      ensures InvalidImageIndex in r.errors <==> !(0 <= imageIndex < IMAGE_BANK_COUNT)
      ensures ImageBankForSystem in r.errors <==>
                !system && (imageIndex == IMAGE_BANK_FOR_SYSTEM ||
                            (!(0 <= imageIndex < IMAGE_BANK_COUNT) && IMAGE_BANK_FOR_SYSTEM == 0))
      ensures |r.errors| == (if InvalidImageIndex in r.errors then 1 else 0) +
                            (if ImageBankForSystem in r.errors then 1 else 0)
      ensures InvalidImageIndex in r.errors ==> r.errors[0] == InvalidImageIndex
    {
      var slot := ResolveBankIndex(imageIndex, IMAGE_BANK_COUNT, InvalidImageIndex);
      var policy := if slot.value == IMAGE_BANK_FOR_SYSTEM && !system then [ImageBankForSystem] else [];
      Reported(imageBank[slot.value], slot.errors + policy)
    }

    /** The tilemap in bank `tilemapIndex`; an out-of-range index is reported and slot 0 used instead. */
    function GetTilemapBank(tilemapIndex: int32): (r: Reported<Tilemap>)
      reads this
      requires Valid()
      ensures 0 <= tilemapIndex < TILEMAP_BANK_COUNT ==> r.value == tilemapBank[tilemapIndex] && r.errors == []
      ensures !(0 <= tilemapIndex < TILEMAP_BANK_COUNT) ==>
                r.value == tilemapBank[0] && r.errors == [InvalidTilemapIndex]
    {
      var slot := ResolveBankIndex(tilemapIndex, TILEMAP_BANK_COUNT, InvalidTilemapIndex);
      Reported(tilemapBank[slot.value], slot.errors)
    }

    /**
     * The physical colour that logical colour `color` is drawn with: its palette entry, or, for a
     * colour outside the palette, physical colour 0 with a reported error.
     */
    function GetDrawColor(color: int32): (r: Reported<int32>)
      reads this, paletteTable
      requires Valid()
      ensures 0 <= color < COLOR_COUNT ==> r.value == paletteTable[color] && r.errors == []
      ensures !(0 <= color < COLOR_COUNT) ==> r.value == 0 && r.errors == [InvalidColor]
    {
      if color < 0 || color >= COLOR_COUNT then Reported(0, [InvalidColor]) else Reported(paletteTable[color], [])
    }

    /**
     * Writes `drawColor` to the framebuffer cell of (x, y) when the clip area includes that pixel,
     * and changes nothing otherwise. The palette, the clip area and the banks stay as they were.
     */
    method SetPixel(x: int32, y: int32, drawColor: int32)
      requires Valid()
      modifies screenData
      ensures Valid()
      ensures screenData[..] ==
              ClippedWrite(old(screenData[..]), screenWidth, screenHeight, clipArea, x, y, drawColor)
      ensures unchanged(paletteTable)
    {
      if clipArea.Includes(x, y) {
        PixelIndexInBounds(screenWidth, screenHeight, x, y);
        screenData[screenWidth * y + x] := drawColor;
      }
    }
  }

  /**
   * An out-of-range image index gives the same image as a system access to slot 0, with the one
   * invalid-index diagnostic (slot 0 is not the system slot).
   */
  lemma ImageIndexOutOfRangeIsSlotZero<Image, Tilemap>(g: Graphics<Image, Tilemap>, imageIndex: int32, system: bool)
    requires g.Valid()
    requires imageIndex < 0 || imageIndex >= IMAGE_BANK_COUNT
    ensures g.GetImageBank(imageIndex, system) == Reported(g.GetImageBank(0, true).value, [InvalidImageIndex])
  {
  }
}

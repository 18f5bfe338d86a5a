/**
 * The framebuffer is a flat, row-major buffer: pixel (x, y) of a screen `width` pixels wide is held in
 * cell `width * y + x`. This module states that layout and the clipped single-pixel write on a value
 * of the buffer.
 */
module Framebuffer {
  import opened Rectangles

  /** The cell that holds pixel (x, y). */
  function PixelIndex(width: int, x: int, y: int): int {
    width * y + x
  }

  predicate OnScreen(width: int, height: int, x: int, y: int) {
    0 <= x < width && 0 <= y < height
  }

  /** Moving down by `k >= 1` rows moves the cell by at least one full row. */
  lemma RowsApart(width: int, y: int, k: int)
    requires 0 <= width && 1 <= k
    ensures width * (y + k) >= width * y + width
  {
  }

  /** Every screen pixel has its cell inside a buffer of `width * height` cells. */
  lemma PixelIndexInBounds(width: int, height: int, x: int, y: int)
    requires OnScreen(width, height, x, y)
    ensures 0 <= PixelIndex(width, x, y) < width * height
  {
    if 0 < y {
      RowsApart(width, 0, y);
    }
    RowsApart(width, y, height - y);
  }

  /** Two pixels of a row-major screen never share a cell. */
  lemma PixelIndexInjective(width: int, x1: int, y1: int, x2: int, y2: int)
    requires 0 <= x1 < width && 0 <= x2 < width
    requires PixelIndex(width, x1, y1) == PixelIndex(width, x2, y2)
    ensures x1 == x2 && y1 == y2
  {
    if y1 < y2 {
      RowsApart(width, y1, y2 - y1);
    } else if y2 < y1 {
      RowsApart(width, y2, y1 - y2);
    }
  }

  /** The cell of pixel (x, y) gives back x as its column and y as its row. */
  lemma PixelIndexCoordinates(width: int, x: int, y: int)
    requires 0 <= x < width
    ensures PixelIndex(width, x, y) % width == x
    ensures PixelIndex(width, x, y) / width == y
  {
    var i := PixelIndex(width, x, y);
    var q, r := i / width, i % width;
    assert i == width * q + r;
    PixelIndexInjective(width, r, q, x, y);
  }

  /**
   * The buffer after a clipped write of `color` at (x, y): the one cell of (x, y) takes `color` when
   * `clip` includes the pixel, and nothing changes otherwise. Because `clip` lies within the screen,
   * the cell written is always inside the buffer.
   */
  function ClippedWrite<T>(data: seq<T>, width: int, height: int, clip: Rectangle,
                           x: int, y: int, color: T): (r: seq<T>)
    requires 0 <= width && 0 <= height && |data| == width * height
    requires clip.WithinScreen(width, height)
    ensures |r| == |data|
    ensures clip.Includes(x, y) ==>
              0 <= PixelIndex(width, x, y) < |r| && r[PixelIndex(width, x, y)] == color
    ensures !clip.Includes(x, y) ==> r == data
    ensures forall i :: 0 <= i < |r| && i != PixelIndex(width, x, y) ==> r[i] == data[i]
  {
    if clip.Includes(x, y) then
      PixelIndexInBounds(width, height, x, y);
      data[PixelIndex(width, x, y) := color]
    else
      data
  }

  /**
   * Pixel by pixel: after a clipped write at (x, y), a screen pixel holds `color` exactly when it is
   * (x, y) and the clip includes it; every other pixel keeps its old value.
   */
  lemma PixelAfterClippedWrite<T>(data: seq<T>, width: int, height: int, clip: Rectangle,
                                  x: int, y: int, color: T, px: int, py: int)
    requires 0 <= width && 0 <= height && |data| == width * height
    requires clip.WithinScreen(width, height)
    requires OnScreen(width, height, px, py)
    ensures 0 <= PixelIndex(width, px, py) < |data|
    ensures ClippedWrite(data, width, height, clip, x, y, color)[PixelIndex(width, px, py)] ==
            if clip.Includes(x, y) && px == x && py == y then color else data[PixelIndex(width, px, py)]
  {
    PixelIndexInBounds(width, height, px, py);
    if clip.Includes(x, y) && (px != x || py != y) {
      if PixelIndex(width, px, py) == PixelIndex(width, x, y) {
        PixelIndexInjective(width, px, py, x, y);
      }
    }
  }
}

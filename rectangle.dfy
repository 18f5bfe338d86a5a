/**
 * The clip rectangle collaborator (`Rectangle`, declared in rectangle.h, which is not part of this model).
 * Only the membership test `Includes` is used by the graphics core; it is assumed to test inclusive bounds.
 */
module Rectangles {

  /** An axis-aligned rectangle given by its corners; both corners belong to it. */
  datatype Rectangle = Rectangle(x1: int, y1: int, x2: int, y2: int) {

    /** Assumed behaviour of `Rectangle::Includes`: inclusive on every side. */
    predicate Includes(x: int, y: int) {
      x1 <= x <= x2 && y1 <= y <= y2
    }

    /** The corners are ordered, so the rectangle holds at least one point. */
    predicate IsNormalized() {
      x1 <= x2 && y1 <= y2
    }

    /** The rectangle lies in the screen `[0, width) x [0, height)`. */
    predicate WithinScreen(width: int, height: int) {
      0 <= x1 && 0 <= y1 && x2 < width && y2 < height
    }
  }

  /**
   * For a normalized rectangle, lying within the screen (a statement about its corners) is the same as
   * every point it includes being a screen pixel.
   */
  lemma WithinScreenIff(clip: Rectangle, width: int, height: int)
    requires clip.IsNormalized()
    ensures clip.WithinScreen(width, height) <==>
            forall x, y :: clip.Includes(x, y) ==> 0 <= x < width && 0 <= y < height
  {
    if forall x, y :: clip.Includes(x, y) ==> 0 <= x < width && 0 <= y < height {
      assert clip.Includes(clip.x1, clip.y1);
      assert clip.Includes(clip.x2, clip.y2);
    }
  }
}

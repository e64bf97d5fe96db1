/** The point-in-rectangle test shared by the user-interface widgets. */
module Ui {

  /** The WITHIN_BOUNDS macro: is the point (xi, yi) inside the rectangle with
      corner (x, y), width w and height h? The left and top edges are inside,
      the right and bottom edges are not. */
  predicate WithinBounds(xi: int, yi: int, x: int, y: int, w: int, h: int)
    ensures WithinBounds(xi, yi, x, y, w, h) ==> w > 0 && h > 0
    ensures WithinBounds(xi, yi, x, y, w, h) ==> x <= xi < x + w && y <= yi < y + h
    ensures xi == x + w || yi == y + h ==> !WithinBounds(xi, yi, x, y, w, h)
  {
    xi >= x && yi >= y && xi < x + w && yi < y + h
  }

  /** The corner itself is inside exactly when the rectangle has a positive
      width and a positive height. */
  lemma CornerWithin(x: int, y: int, w: int, h: int)
    ensures WithinBounds(x, y, x, y, w, h) <==> w > 0 && h > 0
  {
  }

  /** A rectangle without positive width or height contains no point. */
  lemma DegenerateIsEmpty(xi: int, yi: int, x: int, y: int, w: int, h: int)
    requires w <= 0 || h <= 0
    ensures !WithinBounds(xi, yi, x, y, w, h)
  {
  }

  /** Moving the point and the rectangle by the same offset keeps the answer. */
  lemma TranslationInvariant(xi: int, yi: int, x: int, y: int, w: int, h: int, dx: int, dy: int)
    ensures WithinBounds(xi + dx, yi + dy, x + dx, y + dy, w, h) == WithinBounds(xi, yi, x, y, w, h)
  {
  }
}

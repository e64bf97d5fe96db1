/** The crop-rectangle stack of the video subsystem: nested widgets push the
    region they may draw into, each push is cut down to the region already in
    force, and each pop brings the enclosing region back. */
module Graphics {
  import Ui

  /** A rectangle with its corner (x, y), width w and height h, in pixels. */
  datatype Rect = Rect(x: int, y: int, w: int, h: int)

  /** The state of the scissor test: off, or on with the box last handed to
      the graphics library (its y counted from the bottom of the screen). */
  datatype Scissor = Off | Box(x: int, y: int, w: int, h: int)

  function Max(a: int, b: int): int { if a < b then b else a }
  function Min(a: int, b: int): int { if a < b then a else b }

  /** Is the point inside the rectangle? */
  predicate Inside(px: int, py: int, r: Rect)
  {
    Ui.WithinBounds(px, py, r.x, r.y, r.w, r.h)
  }

  /** Does `outer` enclose `inner` edge by edge? */
  predicate Encloses(outer: Rect, inner: Rect)
  {
    outer.x <= inner.x && inner.x + inner.w <= outer.x + outer.w &&
    outer.y <= inner.y && inner.y + inner.h <= outer.y + outer.h
  }

  /** Do the two rectangles share a (possibly zero-sized) region? */
  predicate Overlap(a: Rect, b: Rect)
  {
    Max(a.x, b.x) <= Min(a.x + a.w, b.x + b.w) &&
    Max(a.y, b.y) <= Min(a.y + a.h, b.y + b.h)
  }

  /** The intersection of the current crop rectangle with the requested one,
      with a negative width or height clamped to zero. */
  function Nested(prev: Rect, want: Rect): Rect
  {
    var left := Max(prev.x, want.x);
    var top := Max(prev.y, want.y);
    Rect(left, top,
         Max(Min(prev.x + prev.w, want.x + want.w) - left, 0),
         Max(Min(prev.y + prev.h, want.y + want.h) - top, 0))
  }

  /** The rectangle a push records on top of `stack` (the last element is the top). */
  function NewTop(stack: seq<Rect>, want: Rect): Rect
  {
    if stack == [] then want else Nested(stack[|stack| - 1], want)
  }

  /** The scissor box issued for crop rectangle r on a screen `height` pixels tall. */
  function BoxFor(r: Rect, height: int): Scissor
  {
    Box(r.x, height - (r.y + r.h), r.w, r.h)
  }

  /** The scissor state that matches a crop stack: off when it is empty, the
      top rectangle's box otherwise. */
  function ScissorFor(stack: seq<Rect>, height: int): Scissor
  {
    if stack == [] then Off else BoxFor(stack[|stack| - 1], height)
  }

  /** On an empty stack the requested rectangle is recorded unchanged. */
  lemma FirstPushUnchanged(want: Rect)
    ensures NewTop([], want) == want
  {
  }

  /** A nested crop never has a negative width or height. */
  lemma NestedNonNegative(prev: Rect, want: Rect)
    ensures Nested(prev, want).w >= 0 && Nested(prev, want).h >= 0
  {
  }

  /** A point is inside the nested crop exactly when it is inside both the
      previous crop and the requested rectangle. */
  lemma NestedIsIntersection(prev: Rect, want: Rect, px: int, py: int)
    ensures Inside(px, py, Nested(prev, want)) <==> Inside(px, py, prev) && Inside(px, py, want)
  {
  }

  /** When the requested rectangle overlaps the current crop, the nested crop
      lies within both of them and is not clamped. */
  lemma NestedEnclosed(prev: Rect, want: Rect)
    requires Overlap(prev, want)
    ensures Encloses(prev, Nested(prev, want)) && Encloses(want, Nested(prev, want))
    ensures Nested(prev, want).x + Nested(prev, want).w == Min(prev.x + prev.w, want.x + want.w)
    ensures Nested(prev, want).y + Nested(prev, want).h == Min(prev.y + prev.h, want.y + want.h)
  {
  }

  /** When they do not overlap, the nested crop has no area. */
  lemma NestedDisjointIsEmpty(prev: Rect, want: Rect)
    requires !Overlap(prev, want)
    ensures Nested(prev, want).w == 0 || Nested(prev, want).h == 0
  {
  }

  /** The video state that the crop functions touch. */
  class Video {
    /** The crop rectangles in force, innermost last. */
    var cropRects: seq<Rect>
    /** What the graphics library was last told about scissoring. */
    var scissor: Scissor
    /** The screen height, used to flip the y axis for the scissor box. */
    const height: int

    ghost predicate Valid()
      reads this
    {
      scissor == ScissorFor(cropRects, height)
    }

    constructor (screenHeight: int)
      ensures Valid() && cropRects == [] && scissor == Off && height == screenHeight
    {
      cropRects := [];
      scissor := Off;
      height := screenHeight;
    }

    /** Pushes the part of (x, y, w, h) that lies within the current crop
        rectangle and scissors to it. */
    method SetCropRect(x: int, y: int, w: int, h: int)
      requires Valid()
      modifies this
      ensures Valid()
      ensures cropRects == old(cropRects) + [NewTop(old(cropRects), Rect(x, y, w, h))]
    {
      var xn, yn, wn, hn;
      if cropRects == [] {
        xn, yn, wn, hn := x, y, w, h;
      } else {
        var prev := cropRects[|cropRects| - 1];
        var rightPrev := prev.x + prev.w;
        var right := x + w;
        var botPrev := prev.y + prev.h;
        var bot := y + h;
        xn := if prev.x > x then prev.x else x;
        yn := if prev.y > y then prev.y else y;
        wn := if rightPrev > right then right - xn else rightPrev - xn;
        hn := if botPrev > bot then bot - yn else botPrev - yn;
        if wn < 0 { wn := 0; }
        if hn < 0 { hn := 0; }
      }
      cropRects := cropRects + [Rect(xn, yn, wn, hn)];
      scissor := Box(xn, height - (yn + hn), wn, hn);
    }

    /** Pops the innermost crop rectangle and scissors to the one below it, or
        turns scissoring off when none is left. Popping an empty stack only
        warns; `warned` reports that. */
    method UnsetCropRect() returns (warned: bool)
      requires Valid()
      modifies this
      ensures Valid()
      ensures warned == (old(cropRects) == [])
      ensures cropRects == if warned then [] else old(cropRects)[..|old(cropRects)| - 1]
    {
      warned := cropRects == [];
      if !warned {
        cropRects := cropRects[..|cropRects| - 1];
      }
      if cropRects == [] {
        scissor := Off;
      } else {
        var prev := cropRects[|cropRects| - 1];
        scissor := Box(prev.x, height - (prev.y + prev.h), prev.w, prev.h);
      }
    }

    /** A widget's draw pass crops to its own rectangle and then releases it:
        the stack and the scissor state are back to what they were. */
    method CropAndRelease(x: int, y: int, w: int, h: int) returns (drawArea: Rect)
      requires Valid()
      modifies this
      ensures Valid() && cropRects == old(cropRects) && scissor == old(scissor)
      ensures drawArea == NewTop(old(cropRects), Rect(x, y, w, h))
    {
      SetCropRect(x, y, w, h);
      drawArea := cropRects[|cropRects| - 1];
      var warned := UnsetCropRect();
      assert cropRects == old(cropRects);
    }
  }
}

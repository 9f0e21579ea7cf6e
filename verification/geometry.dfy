/**
  Pixel rectangles as `imgreader.py` writes them: numpy basic slices `a[r0:r1, c0:c1]`
  over an image of a given height and width. Only step-1 slices occur, so a
  slice is a half-open interval of indices after Python's index normalisation.
 */
module Geometry {

  /** Height (rows) and width (columns) of an image or region, in pixels. */
  datatype Size = Size(h: nat, w: nat)

  /** The half-open index range [lo, hi). */
  datatype Interval = Interval(lo: int, hi: int) {

    predicate Valid() {
      0 <= lo <= hi
    }

    function Len(): nat
      requires Valid()
    {
      hi - lo
    }

    predicate Contains(i: int) {
      lo <= i < hi
    }
  }

  /** Python's normalisation of one slice bound against a sequence of length `len`. */
  function Clamp(len: nat, i: int): (r: nat)
    ensures r <= len
    ensures 0 <= i <= len ==> r == i
    ensures i < 0 && 0 <= len + i ==> r == len + i
  {
    if i < 0 then
      if i + len < 0 then 0 else i + len
    else if i > len then len
    else i
  }

  /**
    The indices selected by `a[start:stop]` when `len(a) == len`: negative bounds count from
    the end, bounds are clipped to the sequence, and a stop before the start selects nothing.
   */
  function Slice(len: nat, start: int, stop: int): (s: Interval)
    ensures s.Valid() && s.hi <= len
    ensures 0 <= start <= stop <= len ==> s == Interval(start, stop)
    ensures start < 0 && 0 <= len + start && stop == len ==> s == Interval(len + start, len)
    ensures forall i :: s.Contains(i) ==> 0 <= i < len
  {
    var lo := Clamp(len, start);
    var hi := Clamp(len, stop);
    Interval(lo, if hi < lo then lo else hi)
  }

  /** A rectangle `a[rows, cols]` of an image. */
  datatype Rect = Rect(rows: Interval, cols: Interval) {

    predicate Valid() {
      rows.Valid() && cols.Valid()
    }

    function Dims(): Size
      requires Valid()
    {
      Size(rows.Len(), cols.Len())
    }

    predicate Contains(r: int, c: int) {
      rows.Contains(r) && cols.Contains(c)
    }

    /** The same rectangle moved down by `dr` rows and right by `dc` columns. */
    function Shift(dr: int, dc: int): Rect {
      Rect(Interval(rows.lo + dr, rows.hi + dr), Interval(cols.lo + dc, cols.hi + dc))
    }
  }

  /** The rectangle `img[r0:r1, c0:c1]` of an image of size `frame`. */
  function Crop(frame: Size, r0: int, r1: int, c0: int, c1: int): (r: Rect)
    ensures r.Valid() && r.rows.hi <= frame.h && r.cols.hi <= frame.w
    ensures 0 <= r0 <= r1 <= frame.h && 0 <= c0 <= c1 <= frame.w ==>
              r.Dims() == Size(r1 - r0, c1 - c0)
  {
    Rect(Slice(frame.h, r0, r1), Slice(frame.w, c0, c1))
  }

  predicate Disjoint(a: Rect, b: Rect) {
    a.rows.hi <= b.rows.lo || b.rows.hi <= a.rows.lo || a.cols.hi <= b.cols.lo || b.cols.hi <= a.cols.lo
  }
}

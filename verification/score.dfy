/**
  `read_score`: the score band of the summary is cut into eight fixed digit cells, the
  template match of each cell against the digit atlas gives a horizontal offset, the
  offset is rounded to a digit, and the digits are accumulated in base 10 with a wrap.
  Pixel matching is not modelled: the offset found for a cell is an input.
 */
module Score {
  import opened Geometry
  import Layout

  /** Width in pixels of one glyph of the digit atlas. */
  const GlyphWidth: nat := 52
  const NumCells: nat := 8
  const WrapModulus: nat := 10_000_000

  /** The score band read from the summary: `img[25:94, :]`, then resized to 475 x 69. */
  const BandRows: Interval := Slice(Layout.CanvasHeight, 25, 94)
  const BandCols: Interval := Slice(Layout.CanvasWidth, 0, Layout.CanvasWidth)
  const BandSize: Size := Size(69, 475)

  /** Width and height of digit cell `d`: four large cells, then four small ones. */
  function CellWidth(d: nat): nat {
    if d < 4 then 72 else 48
  }

  function CellHeight(d: nat): nat {
    if d < 4 then 69 else 46
  }

  /** `cur_x` before cell `d`: the widths of the cells to its left. */
  function CellLeft(d: nat): nat {
    if d == 0 then 0 else CellLeft(d - 1) + CellWidth(d - 1)
  }

  /** Cell `d` of the band: `score_bw[-dh:, cur_x:cur_x + dw]`. */
  function CellRect(d: nat): (r: Rect)
    ensures r.Valid() && r.rows.hi <= BandSize.h && r.cols.hi <= BandSize.w
  {
    Rect(Slice(BandSize.h, 0 - CellHeight(d), BandSize.h),
         Slice(BandSize.w, CellLeft(d), CellLeft(d) + CellWidth(d)))
  }

  /** `int(x / 52 + 0.5)` for a non-negative offset `x`: the nearest glyph index, halves rounding up. */
  function RoundDigit(x: nat): (r: nat)
    ensures GlyphWidth * r <= x + GlyphWidth / 2 < GlyphWidth * (r + 1)
    ensures r == (x + GlyphWidth / 2) / GlyphWidth
  {
    var half := GlyphWidth / 2;
    var q := (x + half) / GlyphWidth;
    var m := (x + half) % GlyphWidth;
    assert (x as real) / (GlyphWidth as real) + 0.5 == q as real + (m as real) / (GlyphWidth as real);
    ((x as real) / (GlyphWidth as real) + 0.5).Floor
  }

  /** One accumulation step: shift in a digit, and reduce modulo 10^7 when above 10^7. */
  function Step(acc: nat, digit: nat): (r: nat)
    ensures r <= WrapModulus
    ensures 10 * acc + digit <= WrapModulus ==> r == 10 * acc + digit
    ensures 10 * acc + digit > WrapModulus ==> r == (10 * acc + digit) % WrapModulus && r < WrapModulus
    ensures r % WrapModulus == (10 * acc + digit) % WrapModulus
  {
    var v := 10 * acc + digit;
    if v > WrapModulus then v % WrapModulus else v
  }

  /** The plain base-10 value of a digit sequence, most significant first. */
  function DecimalValue(ds: seq<nat>): nat {
    if |ds| == 0 then 0 else 10 * DecimalValue(ds[..|ds| - 1]) + ds[|ds| - 1]
  }

  /** The score accumulated left to right from `ds`. */
  function ScoreOf(ds: seq<nat>): (r: nat)
    ensures r <= WrapModulus
    ensures r % WrapModulus == DecimalValue(ds) % WrapModulus
  {
    if |ds| == 0 then 0
    else
      var p := ScoreOf(ds[..|ds| - 1]);
      var d := ds[|ds| - 1];
      ShiftCongruent(p, DecimalValue(ds[..|ds| - 1]), d);
      Step(p, d)
  }

  /** Appending the same digit keeps two values congruent modulo 10^7. */
  lemma ShiftCongruent(a: nat, b: nat, d: nat)
    requires a % WrapModulus == b % WrapModulus
    ensures (10 * a + d) % WrapModulus == (10 * b + d) % WrapModulus
  {
  }

  /** The digits read from the eight cells, given the template-match offset of each cell. */
  function CellDigits(matchAt: Rect -> nat): (ds: seq<nat>)
    ensures |ds| == NumCells
    ensures forall d :: 0 <= d < NumCells ==> ds[d] == RoundDigit(matchAt(CellRect(d)))
  {
    seq<nat>(NumCells, (d: int) requires 0 <= d => RoundDigit(matchAt(CellRect(d))))
  }

  /**
    The loop of `read_score`, with `matchAt` standing for resizing a cell to glyph width,
    template matching it against the atlas and taking the x of the best match.
   */
  method ReadScore(matchAt: Rect -> nat) returns (score: nat)
    ensures score == ScoreOf(CellDigits(matchAt))
    ensures score <= WrapModulus
    ensures score % WrapModulus == DecimalValue(CellDigits(matchAt)) % WrapModulus
  {
    var digits := CellDigits(matchAt);
    var curX := 0;
    score := 0;
    for d := 0 to NumCells
      invariant curX == CellLeft(d)
      invariant score == ScoreOf(digits[..d])
    {
      var dw: int, dh: int := CellWidth(d), CellHeight(d);
      var cell := Rect(Slice(BandSize.h, 0 - dh, BandSize.h), Slice(BandSize.w, curX, curX + dw));
      curX := curX + dw;
      assert cell == CellRect(d);
      var digit := RoundDigit(matchAt(cell));
      ghost var before := score;
      score := 10 * score + digit;
      if score > WrapModulus {
        score := score % WrapModulus;
      }
      assert score == Step(before, digits[d]);
      assert digits[..d + 1][..d] == digits[..d];
    }
    assert digits[..NumCells] == digits;
  }

  /** The cells are contiguous, have the widths and heights `read_score` uses, and the last one is clipped. */
  lemma CellLayout()
    ensures forall d :: 0 <= d < NumCells ==> CellRect(d).cols.hi == CellLeft(d + 1) || d == NumCells - 1
    ensures CellLeft(4) == 288 && CellLeft(8) == 480 && CellLeft(8) > BandSize.w
    ensures forall d :: 0 <= d < NumCells - 1 ==> CellRect(d).cols.hi == CellRect(d + 1).cols.lo
    ensures forall d :: 0 <= d < NumCells - 1 ==> CellRect(d).cols.Len() == CellWidth(d)
    ensures CellRect(7).cols == Interval(432, 475) && CellRect(7).cols.Len() == 43
    ensures forall d :: 0 <= d < NumCells ==> CellRect(d).rows == Interval(BandSize.h - CellHeight(d), BandSize.h)
  {
  }

  function Pow10(n: nat): nat {
    if n == 0 then 1 else 10 * Pow10(n - 1)
  }

  predicate AllDigits(ds: seq<nat>) {
    forall i :: 0 <= i < |ds| ==> ds[i] <= 9
  }

  /** With at most seven decimal digits read so far, no step has wrapped. */
  lemma {:induction false} NoWrapWhileShort(ds: seq<nat>)
    requires |ds| <= 7 && AllDigits(ds)
    ensures DecimalValue(ds) < Pow10(|ds|)
    ensures ScoreOf(ds) == DecimalValue(ds)
  {
    if |ds| > 0 {
      var init := ds[..|ds| - 1];
      NoWrapWhileShort(init);
      assert Pow10(|init|) <= 1_000_000 by {
        Pow10Monotone(|init|, 6);
      }
    }
  }

  lemma {:induction false} Pow10Monotone(m: nat, n: nat)
    requires m <= n
    ensures Pow10(m) <= Pow10(n)
  {
    if m < n {
      Pow10Monotone(m, n - 1);
    }
  }

  /**
    For eight decimal digits with value V, the score is V when V <= 10^7 (so exactly
    10,000,000 survives the strict test) and V mod 10^7 otherwise.
   */
  lemma EightDigitScore(ds: seq<nat>)
    requires |ds| == NumCells && AllDigits(ds)
    ensures DecimalValue(ds) <= WrapModulus ==> ScoreOf(ds) == DecimalValue(ds)
    ensures DecimalValue(ds) > WrapModulus ==> ScoreOf(ds) == DecimalValue(ds) % WrapModulus
  {
    NoWrapWhileShort(ds[..7]);
  }

  /** Eight nines wrap to 9,999,999. */
  lemma AllNinesExample()
    ensures ScoreOf([9, 9, 9, 9, 9, 9, 9, 9]) == 9_999_999
  {
    var ds: seq<nat> := [9, 9, 9, 9, 9, 9, 9, 9];
    DecimalOfPrefixes(ds);
    EightDigitScore(ds);
  }

  /** The digits one to eight give 2,345,678: 12,345,678 is above 10^7 and wraps. */
  lemma OneToEightExample()
    ensures ScoreOf([1, 2, 3, 4, 5, 6, 7, 8]) == 2_345_678
  {
    var ds: seq<nat> := [1, 2, 3, 4, 5, 6, 7, 8];
    DecimalOfPrefixes(ds);
    EightDigitScore(ds);
  }

  /** A one followed by seven zeros reads as 10,000,000, one more than seven digits hold. */
  lemma TenMillionExample()
    ensures ScoreOf([1, 0, 0, 0, 0, 0, 0, 0]) == 10_000_000
  {
    var ds: seq<nat> := [1, 0, 0, 0, 0, 0, 0, 0];
    DecimalOfPrefixes(ds);
    EightDigitScore(ds);
  }

  /** Unfolds `DecimalValue` of an eight-digit literal into its positional sum. */
  lemma DecimalOfPrefixes(ds: seq<nat>)
    requires |ds| == 8
    ensures DecimalValue(ds) == ds[0] * 10_000_000 + ds[1] * 1_000_000 + ds[2] * 100_000 + ds[3] * 10_000
                                + ds[4] * 1000 + ds[5] * 100 + ds[6] * 10 + ds[7]
  {
    assert DecimalValue(ds[..0]) == 0;
    DecimalSnoc(ds, 0);
    DecimalSnoc(ds, 1);
    DecimalSnoc(ds, 2);
    DecimalSnoc(ds, 3);
    DecimalSnoc(ds, 4);
    DecimalSnoc(ds, 5);
    DecimalSnoc(ds, 6);
    DecimalSnoc(ds, 7);
    assert ds[..8] == ds;
  }

  lemma DecimalSnoc(ds: seq<nat>, k: nat)
    requires k < |ds|
    ensures DecimalValue(ds[..k + 1]) == 10 * DecimalValue(ds[..k]) + ds[k]
  {
    assert ds[..k + 1][..k] == ds[..k];
  }

  /**
    The band `read_score` takes is exactly the slot `crop_image` wrote the score into, its
    resize to 475 x 69 keeps its size, and every pixel of every digit cell shows the score piece.
   */
  lemma BandIsScoreSlot(d: nat, r: int, c: int)
    requires d < NumCells && CellRect(d).Contains(r, c)
    ensures BandRows == Layout.Slot(Layout.Score).rows && BandCols == Layout.Slot(Layout.Score).cols
    ensures Size(BandRows.Len(), BandCols.Len()) == BandSize
    ensures Layout.Fill(BandRows.lo + r, BandCols.lo + c) == Layout.FromPiece(Layout.Score, r, c)
  {
    Layout.PieceShownInFull(Layout.Score, r, c);
  }
}

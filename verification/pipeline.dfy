/**
  `message_to_image`: acquisition, alignment, compositing, score reading and the chain
  stub composed in sequence, with the first failing stage ending the run.
 */
module Pipeline {
  import opened Wrappers
  import opened Geometry
  import opened Layout
  import Score
  import Acquire
  import Align

  /**
    The library calls the pipeline makes, as total functions over an opaque image type:
    the image width, the 0.5 Lanczos resize, the final resize to width 1200, SIFT plus
    FLANN 2-nearest-neighbour matching against the template, homography estimation plus
    the perspective warp into the template frame, the template's size, and the x offset
    of the best atlas match for a digit cell of a summary.
   */
  datatype Vision<!Img> = Vision(
    width: Img -> nat,
    halve: Img -> Img,
    toCanonical: Img -> Img,
    knn: Img -> seq<Align.KnnPair>,
    warp: (Img, seq<Align.DMatch>) -> Img,
    frame: Size,
    matchDigit: (Composite<Img>, Rect) -> nat)

  /** What the pipeline relies on: halving shrinks wide images, and the template is large enough. */
  ghost predicate Valid<Img(!new)>(v: Vision<Img>) {
    Acquire.Shrinks(v.width, v.halve) && TemplateFits(v.frame)
  }

  /** Break, long-note and volume chain totals; `None` stands for Python's `None`. */
  datatype ChainTotals = ChainTotals(bt: Option<int>, long: Option<int>, vol: Option<int>)

  /** `read_chains` is a stub that returns nothing, so every total is unknown. */
  function ReadChains<Img>(summary: Composite<Img>): (t: ChainTotals)
    ensures t.bt.None? && t.long.None? && t.vol.None?
  {
    ChainTotals(None, None, None)
  }

  /** The result dictionary: `status` 'error' with a message, or 'ok' with image, score and totals. */
  datatype Outcome<Img> = Failed(msg: string) | Succeeded(image: Composite<Img>, score: nat, totals: ChainTotals)

  const NoImageFound: string := "No image found."
  const NoScoreRegion: string := "Cannot find score region in image."

  /**
    The score `read_score` returns for a summary: the fold of the eight cell digits. The loop
    method `Score.ReadScore` computes the same value when given `cell => v.matchDigit(summary, cell)`.
   */
  function SummaryScore<Img>(v: Vision<Img>, summary: Composite<Img>): nat {
    Score.ScoreOf(Score.CellDigits(cell => v.matchDigit(summary, cell)))
  }

  /** `message_to_image` for a message with the given attachments. */
  function MessageToImage<Img(!new)>(v: Vision<Img>, atts: seq<Acquire.ReadOutcome<Img>>): (r: Outcome<Img>)
    requires Valid(v)
    ensures Acquire.SelectImage(atts).None? ==> r == Failed(NoImageFound)
    ensures r == Failed(NoImageFound) ==> Acquire.SelectImage(atts).None?
    ensures r.Failed? ==> r.msg == NoImageFound || r.msg == NoScoreRegion
    ensures r.Succeeded? ==> r.score <= Score.WrapModulus && r.totals == ChainTotals(None, None, None)
    ensures r.Succeeded? ==> r.image.frame == v.frame
                             && forall g :: PieceSize(r.image.frame, g) == Slot(g).Dims()
    ensures r.Succeeded? ==>
              && Acquire.GetImage(atts, v.width, v.halve, v.toCanonical).Some?
              && var inImg := Acquire.GetImage(atts, v.width, v.halve, v.toCanonical).value;
                 && Align.CountDistinctive(v.knn(inImg)) >= Align.MatchThreshold
                 && r.image.aligned == v.warp(inImg, Align.GoodPoints(v.knn(inImg)))
                 && r.score == SummaryScore(v, r.image)
  {
    match Acquire.GetImage(atts, v.width, v.halve, v.toCanonical)
    case None => Failed(NoImageFound)
    case Some(inImg) =>
      match Align.Unwarp(inImg, v.knn, v.warp)
      case None => Failed(NoScoreRegion)
      case Some(outImg) =>
        var finalImg := CropImage(outImg, v.frame);
        Succeeded(finalImg, SummaryScore(v, finalImg), ReadChains(finalImg))
  }

  /** The alignment gate decides between the second failure and success. */
  lemma AlignmentGate<Img(!new)>(v: Vision<Img>, atts: seq<Acquire.ReadOutcome<Img>>)
    requires Valid(v) && Acquire.SelectImage(atts).Some?
    ensures var inImg := Acquire.GetImage(atts, v.width, v.halve, v.toCanonical).value;
            && (MessageToImage(v, atts) == Failed(NoScoreRegion) <==>
                Align.CountDistinctive(v.knn(inImg)) < Align.MatchThreshold)
            && (MessageToImage(v, atts).Succeeded? <==>
                Align.CountDistinctive(v.knn(inImg)) >= Align.MatchThreshold)
  {
  }

  /**
    A failed run does not depend on any stage after the failing one: two sets of library
    calls that agree up to that stage give the same failure.
   */
  lemma FailureShortCircuits<Img(!new)>(v: Vision<Img>, v': Vision<Img>, atts: seq<Acquire.ReadOutcome<Img>>)
    requires Valid(v) && Valid(v')
    requires v'.width == v.width && v'.halve == v.halve && v'.toCanonical == v.toCanonical
    ensures MessageToImage(v, atts) == Failed(NoImageFound) ==> MessageToImage(v', atts) == Failed(NoImageFound)
    ensures MessageToImage(v, atts) == Failed(NoScoreRegion) && v'.knn == v.knn
            ==> MessageToImage(v', atts) == Failed(NoScoreRegion)
  {
  }

  /**
    When every cell's best match lies within the ten glyphs of the atlas, the score is the
    eight-digit decimal value V read from the cells, or V mod 10^7 when V exceeds 10^7.
   */
  lemma SuccessScoreIsDecimal<Img(!new)>(v: Vision<Img>, atts: seq<Acquire.ReadOutcome<Img>>)
    requires Valid(v)
    requires MessageToImage(v, atts).Succeeded?
    requires forall s: Composite<Img>, d :: 0 <= d < Score.NumCells ==> v.matchDigit(s, Score.CellRect(d)) < 10 * Score.GlyphWidth - Score.GlyphWidth / 2
    ensures var r := MessageToImage(v, atts);
            var value := Score.DecimalValue(Score.CellDigits(cell => v.matchDigit(r.image, cell)));
            r.score == (if value <= Score.WrapModulus then value else value % Score.WrapModulus)
  {
    var r := MessageToImage(v, atts);
    var ds := Score.CellDigits(cell => v.matchDigit(r.image, cell));
    Score.EightDigitScore(ds);
  }
}

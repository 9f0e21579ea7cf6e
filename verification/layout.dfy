/**
  The summary image built by `crop_image`: seven fixed rectangles of the aligned
  screenshot pasted into fixed slots of a black 295 x 475 canvas, three of them
  resized to their slot first. Pixel values are not modelled; the layout is,
  together with which piece every canvas pixel ends up showing.
 */
module Layout {
  import opened Wrappers
  import opened Geometry

  /** The named parts of the result screen that the summary keeps. */
  datatype Region = CardName | Score | SongTitle | SongArtist | Details | Jacket | Diff

  const CanvasHeight: nat := 295
  const CanvasWidth: nat := 475

  /** The order of the assignments into the canvas; a later one would overwrite an earlier one. */
  const PasteOrder: seq<Region> := [CardName, Score, SongTitle, SongArtist, Details, Jacket, Diff]

  /** The smallest aligned frame for which none of the rectangles `crop_image` cuts is clipped. */
  predicate TemplateFits(frame: Size) {
    frame.h >= 625 && frame.w >= 878
  }

  /** The rectangle of the aligned image (of size `frame`, the template's size) cut out for a region. */
  function Source(frame: Size, g: Region): (r: Rect)
    ensures r.Valid()
  {
    match g
    case Score => Crop(frame, 207, 262, 438, 815)
    case SongTitle => Crop(frame, 137, 166, 403, 878)
    case SongArtist => Crop(frame, 170, 200, 403, 878)
    case Diff => Crop(frame, 10, 30, 205, 289)
    case Details => Crop(frame, 338, 480, 31, 391)
    case Jacket => Crop(frame, 34, 306, 23, 295)
    case CardName => Crop(frame, 600, 625, 156, 425)
  }

  /** The canvas slot a region is written into. */
  function Slot(g: Region): (r: Rect)
    ensures r.Valid()
  {
    match g
    case CardName => Rect(Slice(CanvasHeight, 0, 25), Slice(CanvasWidth, 0, 269))
    case Score => Rect(Slice(CanvasHeight, 25, 94), Slice(CanvasWidth, 0, CanvasWidth))
    case SongTitle => Rect(Slice(CanvasHeight, 94, 123), Slice(CanvasWidth, 0, CanvasWidth))
    case SongArtist => Rect(Slice(CanvasHeight, 123, 153), Slice(CanvasWidth, 0, CanvasWidth))
    case Details => Rect(Slice(CanvasHeight, 153, CanvasHeight), Slice(CanvasWidth, 0, 360))
    case Jacket => Rect(Slice(CanvasHeight, 153, 268), Slice(CanvasWidth, 360, CanvasWidth))
    case Diff => Rect(Slice(CanvasHeight, 268, CanvasHeight), Slice(CanvasWidth, 360, CanvasWidth))
  }

  /**
    The `cv2.resize` target of the three regions that are resized before pasting. OpenCV
    takes the target as (width, height); a `Size` is (height, width).
   */
  function ResizeTarget(g: Region): Option<Size> {
    match g
    case Score => Some(Size(69, 475))
    case Jacket => Some(Size(115, 115))
    case Diff => Some(Size(27, 115))
    case _ => None
  }

  /** The size of the array actually assigned into the region's slot. */
  function PieceSize(frame: Size, g: Region): Size {
    match ResizeTarget(g)
    case Some(target) => target
    case None => Source(frame, g).Dims()
  }

  /**
    The canvas as `crop_image` builds it: the aligned screenshot it was cut from and that
    screenshot's size. Its pixels are described by `Fill`.
   */
  datatype Composite<Img> = Composite(aligned: Img, frame: Size)

  /** `crop_image`: the summary of an aligned screenshot of size `frame`. */
  function CropImage<Img>(aligned: Img, frame: Size): (c: Composite<Img>)
    requires TemplateFits(frame)
    ensures c.aligned == aligned && c.frame == frame
    ensures forall g :: PieceSize(c.frame, g) == Slot(g).Dims()
  {
    PiecesFitSlots(frame);
    Composite(aligned, frame)
  }

  /** What a canvas pixel shows: the zero background, or pixel (dr, dc) of a region's piece. */
  datatype Pixel = Background | FromPiece(region: Region, dr: int, dc: int)

  /** The last region in `order` whose slot holds (r, c): numpy assignment overwrites. */
  function LastCovering(order: seq<Region>, r: int, c: int): (res: Option<Region>)
    ensures res.Some? ==> res.value in order && Slot(res.value).Contains(r, c)
    ensures res.None? ==> forall i :: 0 <= i < |order| ==> !Slot(order[i]).Contains(r, c)
  {
    if |order| == 0 then None
    else if Slot(order[|order| - 1]).Contains(r, c) then Some(order[|order| - 1])
    else LastCovering(order[..|order| - 1], r, c)
  }

  /** Where a region's assignment stands in `PasteOrder`: every region is pasted. */
  function PastePosition(g: Region): (i: nat)
    ensures i < |PasteOrder| && PasteOrder[i] == g
  {
    match g
    case CardName => 0
    case Score => 1
    case SongTitle => 2
    case SongArtist => 3
    case Details => 4
    case Jacket => 5
    case Diff => 6
  }

  /** The content of canvas pixel (r, c) after all seven assignments. */
  function Fill(r: int, c: int): Pixel {
    match LastCovering(PasteOrder, r, c)
    case None => Background
    case Some(g) => FromPiece(g, r - Slot(g).rows.lo, c - Slot(g).cols.lo)
  }

  /**
    Every assignment in `crop_image` is shape-correct: the four regions pasted as cut are
    exactly their slot's size, and the three resize targets are exactly their slot's size.
   */
  lemma PiecesFitSlots(frame: Size)
    requires TemplateFits(frame)
    ensures Source(frame, CardName).Dims() == Size(25, 269)
    ensures Source(frame, SongTitle).Dims() == Size(29, 475)
    ensures Source(frame, SongArtist).Dims() == Size(30, 475)
    ensures Source(frame, Details).Dims() == Size(142, 360)
    ensures Slot(Score).Dims() == Size(69, 475)
    ensures Slot(Jacket).Dims() == Size(115, 115)
    ensures Slot(Diff).Dims() == Size(27, 115)
    ensures forall g :: PieceSize(frame, g) == Slot(g).Dims()
  {
  }

  /** The slots lie inside the canvas and no two of them share a pixel. */
  lemma SlotsDisjoint()
    ensures forall g :: Slot(g).rows.hi <= CanvasHeight && Slot(g).cols.hi <= CanvasWidth
    ensures forall g, g' :: g != g' ==> Disjoint(Slot(g), Slot(g'))
  {
  }

  /** Outside the top-right corner every canvas pixel lies in exactly one slot. */
  lemma SlotsCover(r: int, c: int)
    requires 0 <= r < CanvasHeight && 0 <= c < CanvasWidth
    ensures (exists g :: Slot(g).Contains(r, c)) <==> !(r < 25 && c >= 269)
  {
    if !(r < 25 && c >= 269) {
      var g :=
        if r < 25 then CardName
        else if r < 94 then Score
        else if r < 123 then SongTitle
        else if r < 153 then SongArtist
        else if c < 360 then Details
        else if r < 268 then Jacket
        else Diff;
      assert Slot(g).Contains(r, c);
    }
  }

  /** Exactly rows 0-24 of columns 269-474 keep the black background. */
  lemma BackgroundIsTopRightCorner(r: int, c: int)
    requires 0 <= r < CanvasHeight && 0 <= c < CanvasWidth
    ensures Fill(r, c) == Background <==> r < 25 && c >= 269
  {
    SlotsCover(r, c);
    if Fill(r, c) == Background {
      forall g ensures !Slot(g).Contains(r, c) {
        var i := PastePosition(g);
      }
    }
  }

  /** A canvas pixel lies in at most one slot. */
  lemma SlotOfPixelUnique(g: Region, g': Region, r: int, c: int)
    requires Slot(g).Contains(r, c) && Slot(g').Contains(r, c)
    ensures g == g'
  {
    SlotsDisjoint();
  }

  /** A pixel inside a slot shows that slot's piece, at its offset within the slot. */
  lemma FillInsideSlot(g: Region, r: int, c: int)
    requires Slot(g).Contains(r, c)
    ensures Fill(r, c) == FromPiece(g, r - Slot(g).rows.lo, c - Slot(g).cols.lo)
  {
    var i := PastePosition(g);
    assert Slot(PasteOrder[i]).Contains(r, c);
    var res := LastCovering(PasteOrder, r, c);
    assert res.Some?;
    SlotOfPixelUnique(res.value, g, r, c);
  }

  /**
    The paste order does not matter: since the slots are disjoint, in any order that pastes
    `g`, the last assignment covering a pixel of `g`'s slot is `g`'s.
   */
  lemma AnyOrderLastCovering(order: seq<Region>, g: Region, r: int, c: int)
    requires g in order && Slot(g).Contains(r, c)
    ensures LastCovering(order, r, c) == Some(g)
  {
  }

  /** Each piece is visible in full at its slot: no later assignment overwrites any of it. */
  lemma PieceShownInFull(g: Region, dr: int, dc: int)
    requires 0 <= dr < Slot(g).rows.Len() && 0 <= dc < Slot(g).cols.Len()
    ensures Fill(Slot(g).rows.lo + dr, Slot(g).cols.lo + dc) == FromPiece(g, dr, dc)
  {
    FillInsideSlot(g, Slot(g).rows.lo + dr, Slot(g).cols.lo + dc);
  }
}

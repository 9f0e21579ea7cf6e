/**
  `get_image`: pick the attachment image and shrink it to a working width.
  Reading and decoding an attachment, its width, and both resizes are inputs.
 */
module Acquire {
  import opened Wrappers

  /**
    What `imdecode(read())` did for one attachment: it raised (the exception is swallowed),
    or it returned a decoded image or `None` (bytes that are not an image).
   */
  datatype ReadOutcome<Img> = Raised | Returned(decoded: Option<Img>)

  /** Widths above this are halved, again and again. */
  const MaxWidth: nat := 2400

  /** The loop over `msg.attachments`: each attempt that does not raise overwrites `in_img`. */
  function SelectFrom<Img>(inImg: Option<Img>, atts: seq<ReadOutcome<Img>>): Option<Img>
    decreases |atts|
  {
    if |atts| == 0 then inImg
    else
      match atts[0]
      case Raised => SelectFrom(inImg, atts[1..])
      case Returned(decoded) => SelectFrom(decoded, atts[1..])
  }

  /** The image `get_image` goes on with, before resizing: `in_img` after the loop. */
  function SelectImage<Img>(atts: seq<ReadOutcome<Img>>): Option<Img> {
    SelectFrom(None, atts)
  }

  /** The fold over one more attachment is one more step on the fold's result. */
  lemma {:induction false} SelectFromSnoc<Img>(inImg: Option<Img>, atts: seq<ReadOutcome<Img>>, last: ReadOutcome<Img>)
    ensures SelectFrom(inImg, atts + [last]) == (if last.Raised? then SelectFrom(inImg, atts) else last.decoded)
    decreases |atts|
  {
    if |atts| > 0 {
      assert (atts + [last])[1..] == atts[1..] + [last];
      match atts[0]
      case Raised => SelectFromSnoc(inImg, atts[1..], last);
      case Returned(decoded) => SelectFromSnoc(decoded, atts[1..], last);
    }
  }

  /**
    No attachments, or only attachments that raise, give no image; otherwise the result is
    whatever the LAST attachment that did not raise decoded to, even `None`: there is no early exit.
   */
  lemma {:induction false} SelectImageIsLastReturned<Img>(atts: seq<ReadOutcome<Img>>)
    ensures (forall i :: 0 <= i < |atts| ==> atts[i].Raised?) ==> SelectImage(atts) == None
    ensures forall i :: 0 <= i < |atts| && atts[i].Returned? && (forall j :: i < j < |atts| ==> atts[j].Raised?)
                        ==> SelectImage(atts) == atts[i].decoded
  {
    if |atts| > 0 {
      var init, last := atts[..|atts| - 1], atts[|atts| - 1];
      assert atts == init + [last];
      SelectImageIsLastReturned(init);
      SelectFromSnoc(None, init, last);
    }
  }

  /** An image followed by a non-image attachment gives no image: the later `None` wins. */
  lemma LaterNonImageOverwrites<Img>(img: Img)
    ensures SelectImage([Returned(Some(img)), Returned(None)]) == None
    ensures SelectImage([Returned(Some(img)), Raised]) == Some(img)
  {
    var overwritten: seq<ReadOutcome<Img>> := [Returned(Some(img)), Returned(None)];
    SelectImageIsLastReturned(overwritten);
    assert overwritten[1].Returned?;
    var kept: seq<ReadOutcome<Img>> := [Returned(Some(img)), Raised];
    SelectImageIsLastReturned(kept);
    assert kept[0].Returned? && kept[1].Raised?;
  }

  /** `f` applied `n` times. */
  function Iterate<T>(f: T -> T, x: T, n: nat): T {
    if n == 0 then x else f(Iterate(f, x, n - 1))
  }

  lemma {:induction false} IterateShift<T>(f: T -> T, x: T, n: nat)
    ensures Iterate(f, f(x), n) == Iterate(f, x, n + 1)
  {
    if n > 0 {
      IterateShift(f, x, n - 1);
    }
  }

  /** The halving resize makes every too-wide image strictly narrower, whatever its rounding. */
  ghost predicate Shrinks<Img(!new)>(width: Img -> nat, halve: Img -> Img) {
    forall x :: width(x) > MaxWidth ==> width(halve(x)) < width(x)
  }

  /** How many times the loop of `get_image` halves `img`: the first count at which it is narrow enough. */
  function Halvings<Img(!new)>(width: Img -> nat, halve: Img -> Img, img: Img): (n: nat)
    requires Shrinks(width, halve)
    ensures width(Iterate(halve, img, n)) <= MaxWidth
    ensures forall k :: 0 <= k < n ==> width(Iterate(halve, img, k)) > MaxWidth
    decreases width(img)
  {
    if width(img) <= MaxWidth then 0
    else
      var m := Halvings(width, halve, halve(img));
      IterateShift(halve, img, m);
      assert forall k :: 0 < k <= m ==> Iterate(halve, img, k) == Iterate(halve, halve(img), k - 1) by {
        forall k | 0 < k <= m
          ensures Iterate(halve, img, k) == Iterate(halve, halve(img), k - 1)
        {
          IterateShift(halve, img, k - 1);
        }
      }
      m + 1
  }

  /**
    The halving loop `while width > 2400: halve`, run on `img`. It stops exactly at the
    first count of halvings that leaves the width at most 2400, so it runs zero times for
    any image at most 2400 wide, 2400 itself included.
   */
  method HalveWhileWide<Img(!new)>(width: Img -> nat, halve: Img -> Img, img: Img) returns (out: Img, count: nat)
    requires Shrinks(width, halve)
    ensures width(out) <= MaxWidth
    ensures out == Iterate(halve, img, count)
    ensures forall k :: 0 <= k < count ==> width(Iterate(halve, img, k)) > MaxWidth
    ensures count == Halvings(width, halve, img)
    ensures count == 0 <==> width(img) <= MaxWidth
  {
    out, count := img, 0;
    while width(out) > MaxWidth
      invariant out == Iterate(halve, img, count)
      invariant forall k :: 0 <= k < count ==> width(Iterate(halve, img, k)) > MaxWidth
      decreases width(out)
    {
      out := halve(out);
      count := count + 1;
    }
  }

  /**
    `get_image`: the selected image, halved while too wide, then resized by `toCanonical`
    (the final resize to width 1200). `None` when no attachment produced an image.
   */
  function GetImage<Img(!new)>(atts: seq<ReadOutcome<Img>>, width: Img -> nat, halve: Img -> Img, toCanonical: Img -> Img)
    : (r: Option<Img>)
    requires Shrinks(width, halve)
    ensures r.None? <==> SelectImage(atts).None?
    ensures r.Some? ==> exists n: nat :: r.value == toCanonical(Iterate(halve, SelectImage(atts).value, n))
                                   && width(Iterate(halve, SelectImage(atts).value, n)) <= MaxWidth
                                   && forall k :: 0 <= k < n ==> width(Iterate(halve, SelectImage(atts).value, k)) > MaxWidth
  {
    match SelectImage(atts)
    case None => None
    case Some(img) =>
      var n := Halvings(width, halve, img);
      Some(toCanonical(Iterate(halve, img, n)))
  }
}

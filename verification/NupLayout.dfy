/**
 Where the images of an n-up page go (generators/src/generator_nup.c,
 calc_nup_image_position), and why they do not run into each other.
 */
module NupLayout {
  import opened NupWord
  import opened NupStrips
  import opened NupDraw

  datatype Rotation = NoRotate | Rotate90 | Rotate180 | Rotate270

  datatype IdNup = Inactive | Active | Finished | Canceled | SdhActive | A3MergeRotate | A3MergeNoRotate

  /** Division by two as C does it. */
  function Half(n: int): int {
    if n >= 0 then n / 2 else 0 - (0 - n) / 2
  }

  /** The fields of nup_image_params_t and of the page that the position depends on. */
  datatype Layout = Layout(pageWidth: nat, pageHeight: nat, imageWidth: nat, imageHeight: nat,
                           rightPadding: int, topPadding: int, wanted: nat, idNup: IdNup, adfScan: bool, portrait: bool)

  datatype Position = Position(x: nat, y: nat, rotate: Rotation)

  function AtLeast0(n: int): nat {
    if n > 0 then n else 0
  }

  /** One of the four cells: middle of the left or right half, of the top or bottom half. */
  function InCell(l: Layout, right: bool, bottom: bool, rotate: Rotation, padding: int): Position {
    Position(AtLeast0(Half(l.pageWidth / 2 - l.imageWidth + padding) + (if right then l.pageWidth / 2 else 0)),
             AtLeast0(Half(l.pageHeight / 2 - l.imageHeight - l.topPadding) + (if bottom then l.pageHeight / 2 else 0)),
             rotate)
  }

  /** calc_nup_image_position, for the page numbers the code accepts. */
  function PositionOf(l: Layout, page: nat): (p: Position)
    requires l.wanted == 4 ==> 1 <= page <= 4
  {
    if l.idNup != Inactive && l.idNup != SdhActive && l.idNup != A3MergeRotate then Position(0, 0, NoRotate)
    else if l.wanted == 1 then
      Position(AtLeast0(Half(l.pageWidth - l.imageHeight + l.topPadding) + l.imageHeight % 32 / 2),
               AtLeast0(Half(l.pageHeight - l.imageWidth + l.rightPadding)), Rotate90)
    else if l.wanted == 2 then
      var below := if page == 2 then l.pageHeight / 2 else 0;
      if l.idNup == SdhActive then
        Position(AtLeast0(Half(l.pageWidth - l.imageWidth + l.topPadding)),
                 AtLeast0(Half(l.pageHeight / 2 - l.imageHeight + l.rightPadding) + below), NoRotate)
      else
        var turned := l.adfScan == l.portrait;
        var sign := if turned then -1 else 1;
        Position(AtLeast0(Half(l.pageWidth - l.imageHeight + sign * l.topPadding) + l.imageHeight % 32 / 2),
                 AtLeast0(Half(l.pageHeight / 2 - l.imageWidth + sign * l.rightPadding) + below),
                 if turned then Rotate270 else Rotate90)
    else if l.wanted == 4 then
      var padding := if l.adfScan then 0 - l.rightPadding else l.rightPadding;
      var rotate := if l.adfScan then Rotate180 else NoRotate;
      if l.portrait then
        match page {
          case 1 => InCell(l, false, false, rotate, padding)
          case 2 => InCell(l, true, false, rotate, padding)
          case 3 => InCell(l, false, true, rotate, padding)
          case _ => InCell(l, true, true, rotate, padding)
        }
      else
        match page {
          case 1 => InCell(l, true, false, rotate, padding)
          case 2 => InCell(l, true, true, rotate, padding)
          case 3 => InCell(l, false, false, rotate, padding)
          case _ => InCell(l, false, true, rotate, padding)
        }
    else Position(0, 0, NoRotate)
  }

  /** Without padding, images that fit their part of the page: four to a page, or two unrotated. */
  predicate Fits(l: Layout) {
    && l.rightPadding == 0 && l.topPadding == 0 && l.imageHeight <= l.pageHeight / 2
    && ((l.wanted == 4 && (l.idNup == Inactive || l.idNup == SdhActive) && l.imageWidth <= l.pageWidth / 2) ||
        (l.wanted == 2 && l.idNup == SdhActive && l.imageWidth <= l.pageWidth))
  }

  // ---- Where each page is. ----

  /** Twice the distance of x from lo is n, but for an odd pixel that is lost; no place is left of the page. */
  predicate Near(x: nat, lo: nat, n: int) {
    if x == 0 then 2 * lo + n <= 1
    else if n >= 0 then 0 <= n - 2 * (x - lo) <= 1
    else 0 <= 2 * (x - lo) - n <= 1
  }

  /** In the middle of the part of that size that starts at lo, to within a pixel, and inside it. */
  predicate Centred(x: nat, width: nat, lo: nat, size: nat) {
    lo <= x && x + width <= lo + size && 0 <= (lo + size - (x + width)) - (x - lo) <= 1
  }

  lemma NearHalf(lo: nat, n: int)
    ensures Near(AtLeast0(Half(n) + lo), lo, n)
  {
  }

  /** The half of the page on which a page number of a four-up sheet lies: right or left, bottom or top. */
  predicate OnRight(l: Layout, page: nat) {
    page in (if l.portrait then {2, 4} else {1, 2})
  }

  predicate AtBottom(l: Layout, page: nat) {
    page in (if l.portrait then {3, 4} else {2, 4})
  }

  /** The layout code looks at the number of images. */
  predicate Counts(l: Layout) {
    l.idNup in {Inactive, SdhActive, A3MergeRotate}
  }

  /** Four to a page: each in the middle of its quarter, but for half of the padding; scans from the feeder are turned round. */
  lemma FourUpPlace(l: Layout, page: nat)
    requires l.wanted == 4 && Counts(l) && 1 <= page <= 4
    ensures var p := PositionOf(l, page);
            && Near(p.x, if OnRight(l, page) then l.pageWidth / 2 else 0,
                    l.pageWidth / 2 - l.imageWidth + (if l.adfScan then -l.rightPadding else l.rightPadding))
            && Near(p.y, if AtBottom(l, page) then l.pageHeight / 2 else 0,
                    l.pageHeight / 2 - l.imageHeight - l.topPadding)
            && p.rotate == (if l.adfScan then Rotate180 else NoRotate)
  {
    hide Near, Half, AtLeast0;
    var padding := if l.adfScan then 0 - l.rightPadding else l.rightPadding;
    NearHalf(0, l.pageWidth / 2 - l.imageWidth + padding);
    NearHalf(l.pageWidth / 2, l.pageWidth / 2 - l.imageWidth + padding);
    NearHalf(0, l.pageHeight / 2 - l.imageHeight - l.topPadding);
    NearHalf(l.pageHeight / 2, l.pageHeight / 2 - l.imageHeight - l.topPadding);
  }

  /** Two to a page, unrotated: across the whole width, in the upper half, then in the lower. */
  lemma TwoUpPlace(l: Layout, page: nat)
    requires l.wanted == 2 && l.idNup == SdhActive
    ensures var p := PositionOf(l, page);
            && Near(p.x, 0, l.pageWidth - l.imageWidth + l.topPadding)
            && Near(p.y, if page == 2 then l.pageHeight / 2 else 0, l.pageHeight / 2 - l.imageHeight + l.rightPadding)
            && p.rotate == NoRotate
  {
    hide Near, Half, AtLeast0;
    NearHalf(0, l.pageWidth - l.imageWidth + l.topPadding);
    NearHalf(0, l.pageHeight / 2 - l.imageHeight + l.rightPadding);
    NearHalf(l.pageHeight / 2, l.pageHeight / 2 - l.imageHeight + l.rightPadding);
  }

  /** Two to a page, rotated: width and height change roles, and x moves on by half of what the height is over whole words. */
  lemma TwoUpTurnedPlace(l: Layout, page: nat)
    requires l.wanted == 2 && l.idNup in {Inactive, A3MergeRotate}
    ensures var p, sign, over := PositionOf(l, page), if l.adfScan == l.portrait then -1 else 1, l.imageHeight % 32 / 2;
            && Near(p.x, over, l.pageWidth - l.imageHeight + sign * l.topPadding)
            && Near(p.y, if page == 2 then l.pageHeight / 2 else 0, l.pageHeight / 2 - l.imageWidth + sign * l.rightPadding)
            && p.rotate == (if l.adfScan == l.portrait then Rotate270 else Rotate90)
  {
    hide Near, Half, AtLeast0;
    var sign := if l.adfScan == l.portrait then -1 else 1;
    NearHalf(l.imageHeight % 32 / 2, l.pageWidth - l.imageHeight + sign * l.topPadding);
    NearHalf(0, l.pageHeight / 2 - l.imageWidth + sign * l.rightPadding);
    NearHalf(l.pageHeight / 2, l.pageHeight / 2 - l.imageWidth + sign * l.rightPadding);
  }

  /** One to a page: rotated by 90 degrees, in the middle of the page. */
  lemma OneUpPlace(l: Layout, page: nat)
    requires l.wanted == 1 && Counts(l)
    ensures var p := PositionOf(l, page);
            && Near(p.x, l.imageHeight % 32 / 2, l.pageWidth - l.imageHeight + l.topPadding)
            && Near(p.y, 0, l.pageHeight - l.imageWidth + l.rightPadding) && p.rotate == Rotate90
  {
    hide Near, Half, AtLeast0;
    NearHalf(l.imageHeight % 32 / 2, l.pageWidth - l.imageHeight + l.topPadding);
    NearHalf(0, l.pageHeight - l.imageWidth + l.rightPadding);
  }

  /** All other images lie on the page as they are, from its corner on. */
  lemma WholePagePlace(l: Layout, page: nat)
    requires !Counts(l) || l.wanted !in {1, 2, 4}
    requires l.wanted == 4 ==> 1 <= page <= 4
    ensures PositionOf(l, page) == Position(0, 0, NoRotate)
  {
  }

  /** The page number lies in the middle of its own part of the sheet, turned round if a feeder scan on a four-up one. */
  predicate AtHome(l: Layout, page: nat)
    requires l.wanted == 4 ==> 1 <= page <= 4
  {
    var p := PositionOf(l, page);
    p.rotate == (if l.wanted == 4 && l.adfScan then Rotate180 else NoRotate) &&
    if l.wanted == 4 then
      && Centred(p.x, l.imageWidth, if OnRight(l, page) then l.pageWidth / 2 else 0, l.pageWidth / 2)
      && Centred(p.y, l.imageHeight, if AtBottom(l, page) then l.pageHeight / 2 else 0, l.pageHeight / 2)
    else
      && Centred(p.x, l.imageWidth, 0, l.pageWidth)
      && Centred(p.y, l.imageHeight, if page == 2 then l.pageHeight / 2 else 0, l.pageHeight / 2)
  }

  lemma NearIsCentred(x: nat, width: nat, lo: nat, size: nat)
    requires width <= size && Near(x, lo, size - width)
    ensures Centred(x, width, lo, size)
  {
  }

  /** What fits its part lies in the middle of it. */
  lemma CellsAtHome(l: Layout, page: nat)
    requires Fits(l) && 1 <= page <= l.wanted
    ensures AtHome(l, page)
  {
    hide PositionOf, Near, Centred, OnRight, AtBottom;
    var p, w, h := PositionOf(l, page), l.pageWidth, l.pageHeight;
    if l.wanted == 4 {
      FourUpPlace(l, page);
      NearIsCentred(p.x, l.imageWidth, if OnRight(l, page) then w / 2 else 0, w / 2);
      NearIsCentred(p.y, l.imageHeight, if AtBottom(l, page) then h / 2 else 0, h / 2);
    } else {
      TwoUpPlace(l, page);
      NearIsCentred(p.x, l.imageWidth, 0, w);
      NearIsCentred(p.y, l.imageHeight, if page == 2 then h / 2 else 0, h / 2);
    }
  }

  /** The rectangles of two images do not overlap. */
  predicate Apart(l: Layout, a: nat, b: nat)
    requires l.wanted == 4 ==> 1 <= a <= 4 && 1 <= b <= 4
  {
    var p, q := PositionOf(l, a), PositionOf(l, b);
    || p.x + l.imageWidth <= q.x || q.x + l.imageWidth <= p.x
    || p.y + l.imageHeight <= q.y || q.y + l.imageHeight <= p.y
  }

  /** Every image lies on the page, and no two of them overlap. */
  lemma CellsApart(l: Layout, a: nat, b: nat)
    requires Fits(l) && 1 <= a <= l.wanted && 1 <= b <= l.wanted && a != b
    ensures PositionOf(l, a).x + l.imageWidth <= l.pageWidth && PositionOf(l, a).y + l.imageHeight <= l.pageHeight
    ensures Apart(l, a, b)
  {
    assert l.wanted == 2 ==> (a == 1 && b == 2) || (a == 2 && b == 1);
  }

  /** The image of page number `page`, drawn where the layout puts it. */
  ghost function Image1(l: Layout, bpp: nat, page: nat, img: Image): Drawing
    requires l.wanted == 4 ==> 1 <= page <= 4
  {
    Drawing(PositionOf(l, page).x * bpp, PositionOf(l, page).y, l.imageWidth * bpp, l.imageHeight, img)
  }

  /** Bit q of row r is in the rectangle of that image. */
  ghost predicate InImage(l: Layout, bpp: nat, page: nat, r: nat, q: nat)
    requires l.wanted == 4 ==> 1 <= page <= 4
  {
    var p := PositionOf(l, page);
    p.y <= r < p.y + l.imageHeight && p.x * bpp <= q < p.x * bpp + l.imageWidth * bpp
  }

  lemma ImagesApart(l: Layout, bpp: nat, a: nat, b: nat, r: nat, q: nat)
    requires Fits(l) && 1 <= a <= l.wanted && 1 <= b <= l.wanted && a != b && InImage(l, bpp, a, r, q)
    ensures !InImage(l, bpp, b, r, q)
  {
    hide PositionOf;
    CellsApart(l, a, b);
    var p, o := PositionOf(l, a), PositionOf(l, b);
    if p.x + l.imageWidth <= o.x {
      Scaled(p.x, l.imageWidth, o.x, bpp);
    } else if o.x + l.imageWidth <= p.x {
      Scaled(o.x, l.imageWidth, p.x, bpp);
    }
  }

  lemma Scaled(x: nat, w: nat, y: nat, bpp: nat)
    requires x + w <= y
    ensures x * bpp + w * bpp <= y * bpp
  {
    assert (x + w) * bpp <= y * bpp;
  }

  lemma MarksInImage(l: Layout, bpp: nat, page: nat, img: Image, r: nat, q: nat)
    requires (l.wanted == 4 ==> 1 <= page <= 4) && HasInk(Image1(l, bpp, page, img)) && Marks(Image1(l, bpp, page, img), r, q)
    ensures InImage(l, bpp, page, r, q)
  {
    hide PositionOf;
    ReachesWithin(PositionOf(l, page).x * bpp, l.imageWidth * bpp, q);
  }

  /** The images of some page numbers, in the order in which they were drawn. */
  ghost function Images(l: Layout, bpp: nat, pages: seq<nat>, imgs: seq<Image>): (ds: seq<Drawing>)
    requires |pages| == |imgs| && forall k :: 0 <= k < |pages| ==> 1 <= pages[k] <= l.wanted
    ensures |ds| == |pages| && forall k :: 0 <= k < |pages| ==> ds[k] == Image1(l, bpp, pages[k], imgs[k])
  {
    seq(|pages|, k requires 0 <= k < |pages| => Image1(l, bpp, pages[k], imgs[k]))
  }

  ghost predicate IsWhite(page: Image, r: nat, q: nat) {
    r < |page| && q < 8 * |page[r]| && !LineBit(page[r], q)
  }

  /** No bleed: on a white page each rectangle ends up with its own image and nothing else. */
  lemma NoBleed(l: Layout, bpp: nat, pages: seq<nat>, imgs: seq<Image>, page: Image, hi: nat, k: nat, r: nat, q: nat)
    requires Fits(l) && |pages| == |imgs| && k < |pages| && IsWhite(page, r, q) && r < hi
    requires forall i :: 0 <= i < |pages| ==> 1 <= pages[i] <= l.wanted
    requires forall i, j :: 0 <= i < j < |pages| ==> pages[i] != pages[j]
    requires AllHaveInk(Images(l, bpp, pages, imgs)) && InImage(l, bpp, pages[k], r, q)
    ensures var ds := Images(l, bpp, pages, imgs);
            LineBit(AllDrawn(page, ds, 0, hi)[r], q) == Marks(ds[k], r, q)
  {
    hide LineBit, PositionOf, Marks, HasInk, AllDrawn, Fits, InImage;
    var ds := Images(l, bpp, pages, imgs);
    DrawnIsOr(page, ds, 0, hi, r, q);
    forall i | 0 <= i < |ds| && i != k
      ensures !Marks(ds[i], r, q)
    {
      ImagesApart(l, bpp, pages[k], pages[i], r, q);
      if Marks(ds[i], r, q) {
        MarksInImage(l, bpp, pages[i], imgs[i], r, q);
      }
    }
  }

  /** And outside the rectangles the page stays white. */
  lemma NothingOutside(l: Layout, bpp: nat, pages: seq<nat>, imgs: seq<Image>, page: Image, hi: nat, r: nat, q: nat)
    requires |pages| == |imgs| && IsWhite(page, r, q)
    requires forall i :: 0 <= i < |pages| ==> 1 <= pages[i] <= l.wanted
    requires AllHaveInk(Images(l, bpp, pages, imgs))
    requires forall i :: 0 <= i < |pages| ==> !InImage(l, bpp, pages[i], r, q)
    ensures IsWhite(AllDrawn(page, Images(l, bpp, pages, imgs), 0, hi), r, q)
  {
    hide LineBit, PositionOf, Marks, HasInk, InImage;
    var ds := Images(l, bpp, pages, imgs);
    DrawnIsOr(page, ds, 0, hi, r, q);
    forall i | 0 <= i < |ds|
      ensures !Marks(ds[i], r, q)
    {
      if Marks(ds[i], r, q) {
        MarksInImage(l, bpp, pages[i], imgs[i], r, q);
      }
    }
  }
}

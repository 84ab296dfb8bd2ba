/**
 A whole n-up sheet (generators/src/generator_nup.c: allocate_nup_memory,
 render_nup_page and the page-end messages of gen_nup_task) for one colour plane:
 white strips are made, every image is rendered into its cell by a call of its
 own, and each cell of the strips then holds its own image.
 */
module NupCells {
  import opened NupWord
  import opened NupStrips
  import opened NupDraw
  import opened NupRender
  import opened NupLayout

  // ---- White strips. ----

  function WhiteLine(width: nat): (line: seq<Word>)
    ensures |line| == width
  {
    seq(width, _ => Byte0())
  }

  function WhitePage(rows: nat, width: nat): (page: Image)
    ensures |page| == rows
  {
    seq(rows, _ => WhiteLine(width))
  }

  lemma {:induction false} FlatWhite(rows: nat, width: nat)
    ensures Flat(WhitePage(rows, width)) == WhiteLine(Start(rows, width))
  {
    if rows > 0 {
      FlatWhite(rows - 1, width);
      assert WhitePage(rows, width)[1..] == WhitePage(rows - 1, width);
      assert WhiteLine(width) + WhiteLine(Start(rows - 1, width)) == WhiteLine(Start(rows, width));
    }
  }

  /** A buffer of white bytes shows white lines, wherever it lies. */
  lemma WhiteShows(s: Strip, rows: nat, width: nat)
    requires s.first + s.numLines <= rows && s.data[..] == WhiteLine(Start(s.numLines, width))
    ensures ShowsStrip(s, WhitePage(rows, width))
  {
    FlatWhite(s.numLines, width);
    assert Band(WhitePage(rows, width), s.first, s.numLines) == WhitePage(s.numLines, width);
  }

  /** Strip i of a white page. */
  method NewStrip(i: nat, lines: nat, width: nat, ghost rows: nat) returns (s: Strip)
    requires i + lines <= rows
    ensures fresh(s) && fresh(s.data) && s.first == i && s.numLines == lines && ShowsStrip(s, WhitePage(rows, width))
  {
    StartIsProduct(lines, width);
    var data := new Word[lines * width](_ => Byte0());
    assert data[..] == WhiteLine(Start(lines, width));
    s := new Strip(data, lines, i);
    WhiteShows(s, rows, width);
  }

  /** The strips so far cut the first `done` rows, all but the last `height` lines each. */
  ghost predicate Cut(out: seq<Strip>, done: nat, rows: nat, height: nat) {
    && (out == [] ==> done == 0) && (out != [] ==> WellFormed(out, done))
    && (forall i :: 0 <= i < |out| ==> out[i].numLines == height || (i == |out| - 1 && done == rows && out[i].numLines < height))
  }

  lemma CutMore(out: seq<Strip>, s: Strip, done: nat, rows: nat, height: nat)
    requires Cut(out, done, rows, height) && done < rows && s.first == done && s.data !in Buffers(out)
    requires s.numLines == (if done + height <= rows then height else rows - done) && 0 < height
    ensures Cut(out + [s], done + s.numLines, rows, height)
  {
    var more := out + [s];
    forall i | 0 <= i < |more| - 1
      ensures Adjoins(more, i)
    {
      assert i < |out| - 1 ==> Adjoins(out, i);
    }
    forall i, j | 0 <= i < j < |more|
      ensures Before(more[i], more[j])
    {
      assert more[i] in out;
      assert j < |out| ==> Before(out[i], out[j]);
    }
  }

  /** allocate_nup_memory for one plane. */
  method AllocateStrips(rows: nat, width: nat, height: nat) returns (out: seq<Strip>)
    requires 0 < rows && 0 < height
    ensures WellFormed(out, rows) && PageStrips(out, height) && Shows(out, WhitePage(rows, width))
    ensures forall b :: b in Buffers(out) ==> fresh(b)
  {
    hide WellFormed, ShowsStrip;
    out := [];
    var i := 0;
    while i < rows
      invariant Cut(out, if i < rows then i else rows, rows, height) && Shows(out, WhitePage(rows, width))
      invariant forall b :: b in Buffers(out) ==> fresh(b)
    {
      var lines := if i + height <= rows then height else rows - i;
      var s := NewStrip(i, lines, width, rows);
      CutMore(out, s, i, rows, height);
      assert Buffers(out + [s]) == Buffers(out) + {s.data};
      out := out + [s];
      i := i + height;
    }
  }

  // ---- One image. ----

  /** The bytes of a line of the image that arrived. */
  function LengthX(l: Layout, bpp: nat): nat {
    l.imageWidth * bpp / 8 + (if l.imageWidth * bpp % 8 != 0 then 1 else 0)
  }

  /** The display list entry that render_nup_page makes for page number `page`. */
  function AsPlaced(l: Layout, bpp: nat, page: nat, plane: seq<Strip>): Placed
    requires l.wanted == 4 ==> 1 <= page <= 4
  {
    var p := PositionOf(l, page);
    Placed(p.x, p.y, 0, 0, plane, LengthX(l, bpp), l.imageWidth, l.imageHeight)
  }

  /** The page is whole bytes wide. */
  ghost predicate WholeBytes(l: Layout, bpp: nat, lineLength: nat) {
    0 < bpp && 8 * lineLength == l.pageWidth * bpp
  }

  /** The least number of bytes that hold a line. */
  lemma LongEnough(l: Layout, bpp: nat)
    ensures l.imageWidth * bpp <= 8 * LengthX(l, bpp) < l.imageWidth * bpp + 8
  {
  }

  /** What fits its part of the page is drawn whole, where the layout puts it. */
  lemma PlacedIsImage(l: Layout, bpp: nat, lineLength: nat, page: nat, plane: seq<Strip>, img: Image)
    requires Fits(l) && 1 <= page <= l.wanted && WholeBytes(l, bpp, lineLength)
    ensures var p := AsPlaced(l, bpp, page, plane);
            && AsDrawing(p, bpp, lineLength, img) == Image1(l, bpp, page, img)
            && BitsOf(p, bpp, lineLength) == l.imageWidth * bpp && RowsOf(p) == l.imageHeight
            && p.x * bpp + l.imageWidth * bpp <= 8 * lineLength
  {
    hide PositionOf, LengthX;
    var p := AsPlaced(l, bpp, page, plane);
    CellsApart(l, page, if page == 1 then 2 else 1);
    hide Fits;
    Scaled(p.x, l.imageWidth, l.pageWidth, bpp);
    MoreBits(lineLength, bpp);
    assert p.xLen * bpp == 0;
  }

  lemma MoreBits(lineLength: nat, bpp: nat)
    requires 0 < bpp
    ensures 8 * lineLength <= lineLength * bpp * 8
  {
    assert lineLength * 1 <= lineLength * bpp;
  }

  /** The strips of an image that has arrived. */
  ghost predicate Arrived(l: Layout, bpp: nat, plane: seq<Strip>, img: Image)
    reads Buffers(plane)
  {
    && WellFormed(plane, |img|) && Rectangular(img, LengthX(l, bpp)) && Shows(plane, img)
    && l.imageHeight <= |img|
  }

  lemma ArrivedIsDrawable(l: Layout, bpp: nat, lineLength: nat, page: nat, plane: seq<Strip>, img: Image)
    requires Fits(l) && 1 <= page <= l.wanted && WholeBytes(l, bpp, lineLength) && Arrived(l, bpp, plane, img)
    ensures Drawable(AsPlaced(l, bpp, page, plane), bpp, lineLength, img)
    ensures HasInk(Image1(l, bpp, page, img))
  {
    hide PositionOf, LengthX, BitsOf, WellFormed, Shows, Fits;
    PlacedIsImage(l, bpp, lineLength, page, plane, img);
    LongEnough(l, bpp);
  }

  /** render_nup_page: one image onto the page, all strips but the last. */
  method RenderPage(l: Layout, bpp: nat, out: seq<Strip>, height: nat, lineLength: nat, page: nat, plane: seq<Strip>,
                    ghost img: Image, ghost cur: Image)
    requires Fits(l) && 1 <= page <= l.wanted && WholeBytes(l, bpp, lineLength) && Arrived(l, bpp, plane, img)
    requires |cur| == l.pageHeight && WellFormed(out, l.pageHeight) && PageStrips(out, height) && 0 < height
    requires Buffers(plane) !! Buffers(out) && Shows(out, cur) && Rectangular(cur, lineLength)
    modifies Buffers(out)
    ensures Arrived(l, bpp, plane, img) && AllHaveInk([Image1(l, bpp, page, img)])
    ensures Shows(out, AllDrawn(cur, [Image1(l, bpp, page, img)], 0, out[|out| - 1].first))
  {
    hide WellFormed, Shows, Drawable, HasInk, AllDrawn, Fits, PositionOf, Rectangular;
    ArrivedIsDrawable(l, bpp, lineLength, page, plane, img);
    PlacedIsImage(l, bpp, lineLength, page, plane, img);
    hide AsPlaced;
    var p := AsPlaced(l, bpp, page, plane);
    assert p.plane == plane;
    Render(out, l.pageHeight, height, lineLength, [p], bpp, cur, [img]);
    assert AsDrawings([p], bpp, lineLength, [img]) == [Image1(l, bpp, page, img)];
  }

  // ---- All images of a sheet. ----

  /** Page numbers of the sheet, each at most once, in any order. */
  ghost predicate Numbered(l: Layout, pages: seq<nat>) {
    && (forall k :: 0 <= k < |pages| ==> 1 <= pages[k] <= l.wanted)
    && (forall i, j :: 0 <= i < j < |pages| ==> pages[i] != pages[j])
  }

  /** All images have arrived, in strips of their own. */
  ghost predicate AllArrived(l: Layout, bpp: nat, planes: seq<seq<Strip>>, imgs: seq<Image>, out: seq<Strip>)
    requires |planes| == |imgs|
    reads set p, s | p in planes && s in p :: s.data
  {
    forall k :: 0 <= k < |planes| ==> Arrived(l, bpp, planes[k], imgs[k]) && Buffers(planes[k]) !! Buffers(out)
  }

  /** Bit q of page row r in the cell of that page number is what the image has there. */
  ghost predicate HoldsOwn(final: Image, l: Layout, bpp: nat, page: nat, img: Image, r: nat, q: nat)
    requires (l.wanted == 4 ==> 1 <= page <= 4) && HasInk(Image1(l, bpp, page, img)) && r < |final|
  {
    InImage(l, bpp, page, r, q) ==> (LineBit(final[r], q) <==> Marks(Image1(l, bpp, page, img), r, q))
  }

  /** No cell has bit q of row r. */
  ghost predicate Uncovered(l: Layout, bpp: nat, pages: seq<nat>, r: nat, q: nat)
    requires Numbered(l, pages)
  {
    forall k :: 0 <= k < |pages| ==> !InImage(l, bpp, pages[k], r, q)
  }

  /** Each cell is in its own part of the sheet and, above row `end`, holds its own image; all else is white. */
  ghost predicate OwnCells(final: Image, l: Layout, bpp: nat, lineLength: nat, pages: seq<nat>, imgs: seq<Image>, end: nat)
    requires |pages| == |imgs| && Numbered(l, pages) && AllHaveInk(Images(l, bpp, pages, imgs))
  {
    && (forall k :: 0 <= k < |pages| ==> AtHome(l, pages[k]))
    && (forall k, r, q :: 0 <= k < |pages| && 0 <= r < |final| && r < end && 0 <= q < 8 * lineLength ==>
          HoldsOwn(final, l, bpp, pages[k], imgs[k], r, q))
    && (forall r, q :: 0 <= r < |final| && 0 <= q < 8 * lineLength && (end <= r || Uncovered(l, bpp, pages, r, q)) ==>
          IsWhite(final, r, q))
  }

  /** In a cell that ends on a byte of the page every bit is the bit of the image. */
  lemma WholeCell(l: Layout, bpp: nat, page: nat, img: Image, r: nat, q: nat)
    requires (l.wanted == 4 ==> 1 <= page <= 4) && HasInk(Image1(l, bpp, page, img)) && InImage(l, bpp, page, r, q)
    requires (PositionOf(l, page).x * bpp + l.imageWidth * bpp) % 8 == 0
    ensures var p := PositionOf(l, page);
            Marks(Image1(l, bpp, page, img), r, q) <==> LineBit(img[r - p.y], q - p.x * bpp)
  {
    hide PositionOf, LineBit;
    ReachesWithin(PositionOf(l, page).x * bpp, l.imageWidth * bpp, q);
  }

  lemma WhiteIsWhite(rows: nat, width: nat, r: nat, q: nat)
    requires r < rows && q < 8 * width
    ensures IsWhite(WhitePage(rows, width), r, q)
  {
    NoBit(q % 8);
  }

  /** What is drawn on a white page is each image in its own cell. */
  lemma DrawnInCells(l: Layout, bpp: nat, lineLength: nat, pages: seq<nat>, imgs: seq<Image>, end: nat)
    requires Fits(l) && |pages| == |imgs| && Numbered(l, pages) && AllHaveInk(Images(l, bpp, pages, imgs))
    ensures OwnCells(AllDrawn(WhitePage(l.pageHeight, lineLength), Images(l, bpp, pages, imgs), 0, end),
                     l, bpp, lineLength, pages, imgs, end)
  {
    hide Fits, InImage, AllDrawn, IsWhite, LineBit, Marks, HasInk, PositionOf, AtHome;
    forall k | 0 <= k < |pages|
      ensures AtHome(l, pages[k])
    {
      CellsAtHome(l, pages[k]);
    }
    var page, ds := WhitePage(l.pageHeight, lineLength), Images(l, bpp, pages, imgs);
    var final := AllDrawn(page, ds, 0, end);
    forall k, r, q | 0 <= k < |pages| && 0 <= r < |final| && r < end && 0 <= q < 8 * lineLength
      ensures HoldsOwn(final, l, bpp, pages[k], imgs[k], r, q)
    {
      WhiteIsWhite(l.pageHeight, lineLength, r, q);
      if InImage(l, bpp, pages[k], r, q) {
        NoBleed(l, bpp, pages, imgs, page, end, k, r, q);
      }
    }
    forall r, q | 0 <= r < |final| && 0 <= q < 8 * lineLength && (end <= r || Uncovered(l, bpp, pages, r, q))
      ensures IsWhite(final, r, q)
    {
      WhiteIsWhite(l.pageHeight, lineLength, r, q);
      if end <= r {
        AllDrawnRow(page, ds, 0, end, r);
        SameLineWhite(page, final, r, q);
      } else {
        NothingOutside(l, bpp, pages, imgs, page, end, r, q);
      }
    }
  }

  lemma SameLineWhite(a: Image, b: Image, r: nat, q: nat)
    requires IsWhite(a, r, q) && r < |b| && b[r] == a[r]
    ensures IsWhite(b, r, q)
  {
  }

  lemma OneMoreImage(l: Layout, bpp: nat, pages: seq<nat>, imgs: seq<Image>, k: nat)
    requires |pages| == |imgs| && Numbered(l, pages) && k < |pages|
    ensures Images(l, bpp, pages[..k + 1], imgs[..k + 1]) ==
            Images(l, bpp, pages[..k], imgs[..k]) + [Image1(l, bpp, pages[k], imgs[k])]
  {
  }

  /**
   The page-end messages of one sheet: each image is rendered onto the strips as it
   arrives. On white strips, each cell above the last strip then holds its own image
   and nothing else, and all that no cell covers is white.
   */
  method RenderPages(l: Layout, bpp: nat, out: seq<Strip>, height: nat, lineLength: nat, pages: seq<nat>,
                     planes: seq<seq<Strip>>, ghost imgs: seq<Image>)
    returns (ghost final: Image)
    requires Fits(l) && WholeBytes(l, bpp, lineLength) && Numbered(l, pages) && |pages| == |planes| == |imgs|
    requires AllArrived(l, bpp, planes, imgs, out)
    requires WellFormed(out, l.pageHeight) && PageStrips(out, height) && 0 < height
    requires Shows(out, WhitePage(l.pageHeight, lineLength))
    modifies Buffers(out)
    ensures AllHaveInk(Images(l, bpp, pages, imgs))
    ensures |final| == l.pageHeight && Rectangular(final, lineLength) && Shows(out, final)
    ensures OwnCells(final, l, bpp, lineLength, pages, imgs, out[|out| - 1].first)
  {
    hide WellFormed, Shows, Arrived, HasInk, AllDrawn, Fits, PositionOf, PageStrips, OwnCells, WholeBytes;
    FirstAndLast(out, l.pageHeight);
    ghost var white, end := WhitePage(l.pageHeight, lineLength), out[|out| - 1].first;
    final := white;
    var k := 0;
    NoImages(white, end);
    assert Images(l, bpp, pages[..0], imgs[..0]) == [];
    while k < |pages|
      invariant 0 <= k <= |pages| && AllArrived(l, bpp, planes, imgs, out)
      invariant AllHaveInk(Images(l, bpp, pages[..k], imgs[..k])) && Rectangular(final, lineLength)
      invariant final == AllDrawn(white, Images(l, bpp, pages[..k], imgs[..k]), 0, end) && Shows(out, final)
    {
      RenderPage(l, bpp, out, height, lineLength, pages[k], planes[k], imgs[k], final);
      OneMoreImage(l, bpp, pages, imgs, k);
      DrawnInTurn(white, Images(l, bpp, pages[..k], imgs[..k]), Image1(l, bpp, pages[k], imgs[k]), 0, end);
      final := AllDrawn(final, [Image1(l, bpp, pages[k], imgs[k])], 0, end);
      k := k + 1;
    }
    assert pages[..|pages|] == pages && imgs[..|imgs|] == imgs;
    DrawnInCells(l, bpp, lineLength, pages, imgs, end);
  }

  lemma NoImages(page: Image, end: nat)
    ensures AllHaveInk([]) && AllDrawn(page, [], 0, end) == page
  {
  }

  /** A whole sheet: fresh strips, and the images on them. */
  method RenderSheet(l: Layout, bpp: nat, height: nat, lineLength: nat, pages: seq<nat>, planes: seq<seq<Strip>>,
                     ghost imgs: seq<Image>)
    returns (out: seq<Strip>, ghost final: Image)
    requires Fits(l) && WholeBytes(l, bpp, lineLength) && Numbered(l, pages) && |pages| == |planes| == |imgs|
    requires AllArrived(l, bpp, planes, imgs, []) && 0 < l.pageHeight && 0 < height
    ensures WellFormed(out, l.pageHeight) && AllHaveInk(Images(l, bpp, pages, imgs))
    ensures |final| == l.pageHeight && Rectangular(final, lineLength) && Shows(out, final)
    ensures OwnCells(final, l, bpp, lineLength, pages, imgs, out[|out| - 1].first)
  {
    out := AllocateStrips(l.pageHeight, lineLength, height);
    assert AllArrived(l, bpp, planes, imgs, out);
    final := RenderPages(l, bpp, out, height, lineLength, pages, planes, imgs);
  }
}

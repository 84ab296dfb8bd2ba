/**
 The n-up compositor (generators/src/generator_nup.c: copy_link_obj,
 link_graphics_renderer, renderer_limited) for one colour plane: strip after
 strip of the page, the objects of a display list are clipped to the strip, found
 in source strips of other heights, shifted, and ORed in.
 */
module NupRender {
  import opened NupWord
  import opened NupStrips
  import opened NupDraw

  /** An entry of the display list and the linked graphic it places; lengths 0 mean the whole object. */
  datatype Placed = Placed(x: nat, y: nat, xLen: nat, yLen: nat, plane: seq<Strip>, lengthX: nat, xDim: nat, yDim: nat)

  /** Rows of the object that are to be drawn. */
  function RowsOf(p: Placed): nat {
    if p.yLen == 0 then p.yDim else p.yLen
  }

  /** Bits of an object line that are to be drawn, cut at the end of the page line. */
  function BitsOf(p: Placed, bpp: nat, lineLength: nat): int {
    var len := if p.xLen * bpp == 0 then p.xDim * bpp else p.xLen * bpp;
    if len + p.x * bpp > lineLength * bpp * 8 then lineLength * 8 - p.x * bpp else len
  }

  function Max0(n: int): nat {
    if n < 0 then 0 else n
  }

  ghost function AsDrawing(p: Placed, bpp: nat, lineLength: nat, img: Image): Drawing {
    Drawing(p.x * bpp, p.y, Max0(BitsOf(p, bpp, lineLength)), RowsOf(p), img)
  }

  /** The object has its data, and what is drawn of it ends within the page line. */
  ghost predicate Drawable(p: Placed, bpp: nat, lineLength: nat, img: Image)
    reads Buffers(p.plane)
  {
    && WellFormed(p.plane, |img|) && Rectangular(img, p.lengthX) && Shows(p.plane, img)
    && RowsOf(p) <= |img| && BitsOf(p, bpp, lineLength) <= 8 * p.lengthX
    && (BitsOf(p, bpp, lineLength) > 0 ==> p.x * bpp + BitsOf(p, bpp, lineLength) <= 8 * lineLength)
  }

  /** The cut keeps the object on the line unless it overhangs by less than the factor bpp by which the test is too lax. */
  lemma CutKeepsLine(p: Placed, bpp: nat, lineLength: nat)
    requires 0 < bpp
    ensures var len := if p.xLen * bpp == 0 then p.xDim * bpp else p.xLen * bpp;
            p.x * bpp + BitsOf(p, bpp, lineLength) <= 8 * lineLength <==>
            !(8 * lineLength < p.x * bpp + len <= lineLength * bpp * 8)
  {
    var len := if p.xLen * bpp == 0 then p.xDim * bpp else p.xLen * bpp;
    if p.x * bpp + len > lineLength * bpp * 8 {
      assert BitsOf(p, bpp, lineLength) == lineLength * 8 - p.x * bpp;
    }
  }

  /** Lengths that are given draw the upper left part of the object, as far as the line goes. */
  lemma LengthsCount(p: Placed, bpp: nat, lineLength: nat, img: Image)
    requires 0 < bpp && p.x * bpp + p.xDim * bpp <= 8 * lineLength && p.xLen <= p.xDim && p.yLen <= p.yDim
    ensures var d := AsDrawing(p, bpp, lineLength, img);
            && d.bits == (if p.xLen > 0 then p.xLen else p.xDim) * bpp
            && d.rows == (if p.yLen > 0 then p.yLen else p.yDim)
            && d.x == p.x * bpp && d.y == p.y
  {
    assert p.xLen * bpp <= p.xDim * bpp;
    assert p.xLen > 0 ==> p.xLen * bpp > 0;
    assert 8 * lineLength <= lineLength * bpp * 8 by {
      assert lineLength * 1 <= lineLength * bpp;
    }
  }

  /** Page row r with the first n bytes of an object line drawn. */
  ghost function RowWith(page: Image, r: nat, obj: seq<Word>, shift: nat, start: nat, n: nat): (out: Image)
    requires r < |page| && shift < 8 && n <= |obj|
    ensures |out| == |page| && forall k :: 0 <= k < |page| ==> |out[k]| == |page[k]|
  {
    page[r := DrawBytes(page[r], obj, shift, start, n)]
  }

  lemma RowWithNone(page: Image, r: nat, obj: seq<Word>, shift: nat, start: nat)
    requires r < |page| && shift < 8
    ensures RowWith(page, r, obj, shift, start, 0) == page
  {
    assert DrawBytes(page[r], obj, shift, start, 0) == page[r];
  }

  /** One more byte, as the byte loop writes it. */
  lemma RowWithMore(page: Image, r: nat, obj: seq<Word>, shift: nat, start: nat, n: nat)
    requires r < |page| && shift < 8 && n < |obj| && start + n < |page[r]|
    ensures var cur := RowWith(page, r, obj, shift, start, n);
            Put(cur, r, start + n, ByteOr(cur[r][start + n], Inked(obj, shift, n))) ==
            RowWith(page, r, obj, shift, start, n + 1)
  {
    DrawOneMore(page[r], obj, shift, start, n);
  }

  /** The byte loop over one line. */
  method CopyLine(out: seq<Strip>, i: nat, line: nat, lineLength: nat, plane: seq<Strip>, si: nat, curY: nat,
                  lengthX: nat, xBits: nat, bits: nat, ghost page: Image, ghost img: Image)
    requires WellFormed(out, |page|) && Shows(out, page) && Rectangular(page, lineLength)
    requires WellFormed(plane, |img|) && Shows(plane, img) && Rectangular(img, lengthX) && Buffers(plane) !! Buffers(out)
    requires i < |out| && line < out[i].numLines && si < |plane| && curY < plane[si].numLines
    requires bits <= 8 * lengthX && xBits + bits <= 8 * lineLength
    modifies out[i].data
    ensures Shows(plane, img) && out[i].first + line < |page| && plane[si].first + curY < |img|
    ensures var r := out[i].first + line;
            Shows(out, page[r := DrawLine(page[r], img[plane[si].first + curY], xBits, bits)])
  {
    hide Shows, WellFormed, Rectangular, DrawBytes, Inked, Residue, ByteOr, ByteShr, Byte0;
    RowOfLine(out, |page|, i, line);
    RowOfLine(plane, |img|, si, curY);
    RowLengths(page, lineLength, img, lengthX, out[i].first + line, plane[si].first + curY);
    ghost var r, obj := out[i].first + line, img[plane[si].first + curY];
    var shift, startByte := xBits % 8, xBits / 8 + line * lineLength;
    var xLen := (bits + shift) / 8;
    StartIsProduct(line, lineLength);
    var residue := Byte0();
    var b := 0;
    RowWithNone(page, r, obj, shift, xBits / 8);
    while b < xLen
      invariant 0 <= b <= xLen && residue == if b == 0 then Byte0() else Residue(obj[b - 1], shift)
      invariant Shows(plane, img) && Shows(out, RowWith(page, r, obj, shift, xBits / 8, b))
    {
      ghost var cur := RowWith(page, r, obj, shift, xBits / 8, b);
      LengthsStay(page, lineLength, cur);
      var old8 := ReadByte(out, i, lineLength, startByte + b, line, xBits / 8 + b, cur);
      var new8 := ReadObject(plane, si, curY, lengthX, b, img);
      RowWithMore(page, r, obj, shift, xBits / 8, b);
      InkedIs(obj, shift, b);
      Store(out, lineLength, i, startByte + b, ByteOr(old8, ByteOr(residue, ByteShr(new8, shift))),
            line, xBits / 8 + b, cur);
      residue := Residue(new8, shift);
      b := b + 1;
    }
  }

  lemma InkedIs(obj: seq<Word>, shift: nat, k: nat)
    requires shift < 8 && k < |obj|
    ensures Inked(obj, shift, k) == ByteOr(if k == 0 then Byte0() else Residue(obj[k - 1], shift), ByteShr(obj[k], shift))
  {
  }

  lemma RowLengths(page: Image, width: nat, img: Image, lengthX: nat, r: nat, o: nat)
    requires Rectangular(page, width) && Rectangular(img, lengthX) && r < |page| && o < |img|
    ensures |page[r]| == width && |img[o]| == lengthX
  {
  }

  lemma LengthsStay(page: Image, width: nat, cur: Image)
    requires Rectangular(page, width) && |cur| == |page| && forall k :: 0 <= k < |page| ==> |cur[k]| == |page[k]|
    ensures Rectangular(cur, width)
  {
  }

  method ReadByte(out: seq<Strip>, i: nat, width: nat, at: nat, ghost l: nat, ghost w: nat, ghost img: Image)
    returns (x: Word)
    requires WellFormed(out, |img|) && Shows(out, img) && Rectangular(img, width)
    requires i < |out| && l < out[i].numLines && w < width && at == Start(l, width) + w
    ensures out[i].first + l < |img| && x == img[out[i].first + l][w]
  {
    LookIn(out, width, img, i, l, w);
    x := out[i].data[at];
  }

  method ReadObject(plane: seq<Strip>, si: nat, curY: nat, lengthX: nat, b: nat, ghost img: Image) returns (x: Word)
    requires WellFormed(plane, |img|) && Shows(plane, img) && Rectangular(img, lengthX)
    requires si < |plane| && curY < plane[si].numLines && b < lengthX
    ensures plane[si].first + curY < |img| && x == img[plane[si].first + curY][b]
  {
    StartIsProduct(curY, lengthX);
    x := ReadByte(plane, si, lengthX, curY * lengthX + b, curY, b, img);
  }

  lemma DrawNothing(line: seq<Word>, obj: seq<Word>, x: nat)
    ensures DrawLine(line, obj, x, 0) == line
  {
  }

  lemma NoneDrawn(page: Image, d: Drawing, r: nat)
    requires HasInk(d)
    ensures OneDrawn(page, d, r, r) == page
  {
  }

  /** One more row of the object. */
  lemma RowMore(page: Image, d: Drawing, lo: nat, r: nat)
    requires HasInk(d) && lo <= r < |page| && d.y <= r < d.y + d.rows
    ensures var cur := OneDrawn(page, d, lo, r);
            OneDrawn(page, d, lo, r + 1) == cur[r := DrawLine(cur[r], d.img[r - d.y], d.x, d.bits)]
  {
  }

  /** Where the object is not, there is nothing to draw. */
  lemma Clipped(page: Image, d: Drawing, lo: nat, hi: nat, from: nat, to: nat)
    requires HasInk(d) && lo <= hi
    requires from == (if d.y < lo then lo else d.y) && to == (if d.y + d.rows < hi then d.y + d.rows else hi)
    ensures OneDrawn(page, d, lo, hi) == OneDrawn(page, d, from, to)
  {
  }

  /** The strip of the source that holds row `offset`, or ends just above it. */
  method SeekStrip(plane: seq<Strip>, offset: nat, ghost rows: nat) returns (si: nat, within: nat)
    requires WellFormed(plane, rows) && offset < rows
    ensures si < |plane| && plane[si].first + within == offset && within <= plane[si].numLines
  {
    si := 0;
    var lineStrip := plane[0].numLines;
    while lineStrip < offset
      invariant 0 <= si < |plane| && lineStrip == plane[si].first + plane[si].numLines && plane[si].first <= offset
      decreases offset - lineStrip
    {
      NextStrip(plane, rows, si);
      si := si + 1;
      lineStrip := lineStrip + plane[si].numLines;
    }
    within := offset - (lineStrip - plane[si].numLines);
  }

  lemma InkThere(p: Placed, bpp: nat, lineLength: nat, img: Image)
    requires Drawable(p, bpp, lineLength, img)
    ensures HasInk(AsDrawing(p, bpp, lineLength, img))
  {
    hide Shows, WellFormed, BitsOf;
  }

  /** One line of the object, its length worked out anew. */
  method CopyObjectLine(out: seq<Strip>, i: nat, line: nat, lineLength: nat, p: Placed, bpp: nat, si: nat, curY: nat,
                        ghost page: Image, ghost img: Image)
    requires WellFormed(out, |page|) && Shows(out, page) && Rectangular(page, lineLength)
    requires Drawable(p, bpp, lineLength, img) && Buffers(p.plane) !! Buffers(out)
    requires i < |out| && line < out[i].numLines && si < |p.plane| && curY < p.plane[si].numLines
    modifies out[i].data
    ensures Shows(p.plane, img) && out[i].first + line < |page| && p.plane[si].first + curY < |img|
    ensures var d, r := AsDrawing(p, bpp, lineLength, img), out[i].first + line;
            && d.bits <= 8 * |img[p.plane[si].first + curY]|
            && Shows(out, page[r := DrawLine(page[r], img[p.plane[si].first + curY], d.x, d.bits)])
  {
    hide Shows, WellFormed, DrawLine;
    RowOfLine(out, |page|, i, line);
    RowOfLine(p.plane, |img|, si, curY);
    ghost var r, obj := out[i].first + line, img[p.plane[si].first + curY];
    var xLength := if p.xLen * bpp == 0 then p.xDim * bpp else p.xLen * bpp;
    if xLength + p.x * bpp > lineLength * bpp * 8 {
      xLength := lineLength * 8 - p.x * bpp;
    }
    assert xLength == BitsOf(p, bpp, lineLength);
    hide BitsOf;
    if xLength <= 0 {
      DrawNothing(page[r], obj, p.x * bpp);
      assert page[r := page[r]] == page;
    }
    while xLength > 0
      invariant xLength <= 0 || (xLength == BitsOf(p, bpp, lineLength) && Shows(out, page))
      invariant xLength <= 0 ==> Shows(out, page[r := DrawLine(page[r], obj, p.x * bpp, Max0(BitsOf(p, bpp, lineLength)))])
      invariant Shows(p.plane, img)
    {
      var xObjLen := xLength;
      CopyLine(out, i, line, lineLength, p.plane, si, curY, p.lengthX, p.x * bpp, xObjLen, page, img);
      xLength := xLength - xObjLen;
    }
  }

  /** copy_link_obj: `length` rows of the object, from its row `offset` on, onto the strip from line `start` on. */
  method CopyObject(out: seq<Strip>, i: nat, start: nat, length: nat, offset: nat, lineLength: nat, p: Placed, bpp: nat,
                    ghost page: Image, ghost img: Image)
    requires WellFormed(out, |page|) && Shows(out, page) && Rectangular(page, lineLength)
    requires Drawable(p, bpp, lineLength, img) && Buffers(p.plane) !! Buffers(out)
    requires i < |out| && start + length <= out[i].numLines && 0 < length
    requires out[i].first + start == p.y + offset && offset + length <= RowsOf(p)
    modifies out[i].data
    ensures Shows(p.plane, img) && HasInk(AsDrawing(p, bpp, lineLength, img))
    ensures var lo := out[i].first + start;
            Shows(out, OneDrawn(page, AsDrawing(p, bpp, lineLength, img), lo, lo + length))
  {
    hide Shows, WellFormed, Rectangular, OneDrawn, DrawLine, HasInk, BitsOf;
    InkThere(p, bpp, lineLength, img);
    ghost var d, lo := AsDrawing(p, bpp, lineLength, img), out[i].first + start;
    var si, within := SeekStrip(p.plane, offset, |img|);
    var lineStrip, stripeCount := 0, within;
    NoneDrawn(page, d, lo);
    var line := start;
    while line < start + length
      invariant start <= line <= start + length && 0 <= si < |p.plane|
      invariant 0 <= stripeCount <= p.plane[si].numLines && p.plane[si].first + stripeCount == offset + (line - start)
      invariant stripeCount == line - start + within - lineStrip
      invariant Shows(p.plane, img) && Shows(out, OneDrawn(page, d, lo, lo + (line - start)))
    {
      if stripeCount >= p.plane[si].numLines {
        NextStrip(p.plane, |img|, si);
        lineStrip := lineStrip + p.plane[si].numLines;
        si, stripeCount := si + 1, 0;
      }
      stripeCount := stripeCount + 1;
      var curY := line - start + within - lineStrip;
      ghost var cur := OneDrawn(page, d, lo, lo + (line - start));
      LengthsStay(page, lineLength, cur);
      CopyObjectLine(out, i, line, lineLength, p, bpp, si, curY, cur, img);
      RowMore(page, d, lo, lo + (line - start));
      line := line + 1;
    }
  }

  /** link_graphics_renderer: the part of one object that lies on one strip. */
  method PlaceObject(out: seq<Strip>, i: nat, curY: nat, lineLength: nat, p: Placed, bpp: nat, ghost page: Image, ghost img: Image)
    requires WellFormed(out, |page|) && Shows(out, page) && Rectangular(page, lineLength)
    requires Drawable(p, bpp, lineLength, img) && Buffers(p.plane) !! Buffers(out)
    requires i < |out| && curY == out[i].first
    modifies out[i].data
    ensures Shows(p.plane, img) && HasInk(AsDrawing(p, bpp, lineLength, img))
    ensures Shows(out, OneDrawn(page, AsDrawing(p, bpp, lineLength, img), out[i].first, out[i].first + out[i].numLines))
  {
    hide Shows, WellFormed, Rectangular, OneDrawn, HasInk, BitsOf;
    InkThere(p, bpp, lineLength, img);
    ghost var d, lo, hi := AsDrawing(p, bpp, lineLength, img), out[i].first, out[i].first + out[i].numLines;
    var stripLen := out[i].numLines;
    if p.lengthX == 0 {
      NoWidth(p, bpp, lineLength, img);
      NothingWide(page, d, lo, hi);
      return;
    }
    if p.y >= curY + stripLen {
      NotHere(page, d, lo, hi);
      return;
    }
    if p.yLen == 0 {
      if p.yDim + p.y <= curY {
        NotHere(page, d, lo, hi);
        return;
      }
    } else if p.yLen + p.y <= curY {
      NotHere(page, d, lo, hi);
      return;
    }
    var startY, offset: int := p.y, 0;
    if startY < curY {
      offset := curY - startY;
      startY := curY;
    }
    var len: int := if p.yLen == 0 then p.yDim - offset else p.yLen - offset;
    if startY + len > curY + stripLen {
      len := curY + stripLen - startY;
    }
    Clipped(page, d, lo, hi, startY, startY + len);
    startY := startY - curY;
    if len <= 0 {
      NoneDrawn(page, d, lo + startY);
      return;
    }
    CopyObject(out, i, startY, len, offset, lineLength, p, bpp, page, img);
  }

  lemma NoWidth(p: Placed, bpp: nat, lineLength: nat, img: Image)
    requires Drawable(p, bpp, lineLength, img) && p.lengthX == 0
    ensures AsDrawing(p, bpp, lineLength, img).bits == 0
  {
  }

  lemma NothingWide(page: Image, d: Drawing, lo: nat, hi: nat)
    requires HasInk(d) && d.bits == 0
    ensures OneDrawn(page, d, lo, hi) == page
  {
    forall r | 0 <= r < |page|
      ensures RowDrawn(page[r], d, r) == page[r]
    {
      if d.y <= r < d.y + d.rows {
        DrawNothing(page[r], d.img[r - d.y], d.x);
      }
    }
  }

  lemma NotHere(page: Image, d: Drawing, lo: nat, hi: nat)
    requires HasInk(d) && (d.y >= hi || d.y + d.rows <= lo)
    ensures OneDrawn(page, d, lo, hi) == page
  {
  }

  /** The display list as drawings. */
  ghost function AsDrawings(ps: seq<Placed>, bpp: nat, lineLength: nat, imgs: seq<Image>): (ds: seq<Drawing>)
    requires |ps| == |imgs|
    ensures |ds| == |ps| && forall k :: 0 <= k < |ps| ==> ds[k] == AsDrawing(ps[k], bpp, lineLength, imgs[k])
  {
    seq(|ps|, k requires 0 <= k < |ps| => AsDrawing(ps[k], bpp, lineLength, imgs[k]))
  }

  /** Every object can be drawn, from buffers that are not the page's. */
  ghost predicate AllDrawable(ps: seq<Placed>, bpp: nat, lineLength: nat, imgs: seq<Image>, out: seq<Strip>)
    requires |ps| == |imgs|
    reads set p, s | p in ps && s in p.plane :: s.data
  {
    forall k :: 0 <= k < |ps| ==> Drawable(ps[k], bpp, lineLength, imgs[k]) && Buffers(ps[k].plane) !! Buffers(out)
  }

  lemma AllInkThere(ps: seq<Placed>, bpp: nat, lineLength: nat, imgs: seq<Image>, out: seq<Strip>)
    requires |ps| == |imgs| && AllDrawable(ps, bpp, lineLength, imgs, out)
    ensures AllHaveInk(AsDrawings(ps, bpp, lineLength, imgs))
  {
    hide Drawable, HasInk, AsDrawing;
    forall k | 0 <= k < |ps|
      ensures HasInk(AsDrawing(ps[k], bpp, lineLength, imgs[k]))
    {
      InkThere(ps[k], bpp, lineLength, imgs[k]);
    }
  }

  /** The first k + 1 objects on some rows. */
  lemma {:induction false} DrawnOneMore(page: Image, ds: seq<Drawing>, lo: nat, hi: nat, k: nat)
    requires AllHaveInk(ds) && k < |ds|
    ensures AllHaveInk(ds[..k]) && AllHaveInk(ds[..k + 1])
    ensures OneDrawn(AllDrawn(page, ds[..k], lo, hi), ds[k], lo, hi) == AllDrawn(page, ds[..k + 1], lo, hi)
    decreases k
  {
    hide OneDrawn, HasInk;
    if k > 0 {
      DrawnOneMore(OneDrawn(page, ds[0], lo, hi), ds[1..], lo, hi, k - 1);
      assert ds[..k][1..] == ds[1..][..k - 1] && ds[..k + 1][1..] == ds[1..][..k];
    } else {
      assert ds[..1] == [ds[0]];
    }
  }

  /** The objects of the display list on one strip. */
  method RenderStrip(out: seq<Strip>, i: nat, curY: nat, lineLength: nat, ps: seq<Placed>, bpp: nat,
                     ghost page: Image, ghost imgs: seq<Image>)
    requires WellFormed(out, |page|) && Shows(out, page) && Rectangular(page, lineLength) && |ps| == |imgs|
    requires AllDrawable(ps, bpp, lineLength, imgs, out) && i < |out| && curY == out[i].first
    modifies out[i].data
    ensures AllDrawable(ps, bpp, lineLength, imgs, out) && AllHaveInk(AsDrawings(ps, bpp, lineLength, imgs))
    ensures Shows(out, AllDrawn(page, AsDrawings(ps, bpp, lineLength, imgs), out[i].first, out[i].first + out[i].numLines))
  {
    hide Shows, WellFormed, Rectangular, OneDrawn, HasInk, AllHaveInk, Drawable, AsDrawing;
    AllInkThere(ps, bpp, lineLength, imgs, out);
    ghost var ds, lo, hi := AsDrawings(ps, bpp, lineLength, imgs), out[i].first, out[i].first + out[i].numLines;
    NoObjects(page, ds, lo, hi);
    var k := 0;
    while k < |ps|
      invariant 0 <= k <= |ps| && AllHaveInk(ds[..k]) && AllDrawable(ps, bpp, lineLength, imgs, out)
      invariant Shows(out, AllDrawn(page, ds[..k], lo, hi))
    {
      LengthsStay(page, lineLength, AllDrawn(page, ds[..k], lo, hi));
      PlaceObject(out, i, curY, lineLength, ps[k], bpp, AllDrawn(page, ds[..k], lo, hi), imgs[k]);
      DrawnOneMore(page, ds, lo, hi, k);
      k := k + 1;
    }
    assert ds[..|ps|] == ds;
  }

  lemma NoObjects(page: Image, ds: seq<Drawing>, lo: nat, hi: nat)
    ensures AllHaveInk(ds[..0]) && AllDrawn(page, ds[..0], lo, hi) == page
  {
  }

  /** Strips as allocate_nup_memory makes them: `height` lines each, but for the last. */
  ghost predicate PageStrips(out: seq<Strip>, height: nat) {
    forall i :: 0 <= i < |out| ==> if i < |out| - 1 then out[i].numLines == height else out[i].numLines <= height
  }

  /** renderer_limited: all objects on all strips but the last, which the loop leaves out. */
  method Render(out: seq<Strip>, rows: nat, height: nat, lineLength: nat, ps: seq<Placed>, bpp: nat,
                ghost page: Image, ghost imgs: seq<Image>)
    requires |page| == rows && WellFormed(out, rows) && Shows(out, page) && Rectangular(page, lineLength)
    requires |ps| == |imgs| && AllDrawable(ps, bpp, lineLength, imgs, out) && PageStrips(out, height) && 0 < height
    modifies Buffers(out)
    ensures AllDrawable(ps, bpp, lineLength, imgs, out) && AllHaveInk(AsDrawings(ps, bpp, lineLength, imgs))
    ensures Shows(out, AllDrawn(page, AsDrawings(ps, bpp, lineLength, imgs), 0, out[|out| - 1].first))
  {
    hide Shows, WellFormed, Rectangular, AllDrawn, AllHaveInk, AllDrawable;
    AllInkThere(ps, bpp, lineLength, imgs, out);
    FirstAndLast(out, rows);
    ghost var ds := AsDrawings(ps, bpp, lineLength, imgs);
    NoRows(page, ds);
    var i, curY := 0, 0;
    while curY < rows
      invariant 0 <= i < |out| && AllDrawable(ps, bpp, lineLength, imgs, out)
      invariant curY < rows ==> curY == out[i].first
      invariant curY >= rows ==> i == |out| - 1
      invariant Shows(out, AllDrawn(page, ds, 0, out[i].first))
    {
      if i + 1 < |out| {
        LengthsStay(page, lineLength, AllDrawn(page, ds, 0, out[i].first));
        RenderStrip(out, i, curY, lineLength, ps, bpp, AllDrawn(page, ds, 0, out[i].first), imgs);
        DrawnInPieces(page, ds, out[i].first, out[i].first + out[i].numLines);
        StripFollows(out, rows, i);
        i := i + 1;
      }
      curY := curY + height;
    }
  }

  lemma NoRows(page: Image, ds: seq<Drawing>)
    requires AllHaveInk(ds)
    ensures AllDrawn(page, ds, 0, 0) == page
  {
    forall r | 0 <= r < |page|
      ensures AllDrawn(page, ds, 0, 0)[r] == page[r]
    {
      AllDrawnRow(page, ds, 0, 0, r);
    }
  }

  lemma StripFollows(ss: seq<Strip>, rows: nat, i: nat)
    requires WellFormed(ss, rows) && i + 1 < |ss|
    ensures ss[i + 1].first == ss[i].first + ss[i].numLines < rows
  {
    assert Adjoins(ss, i);
  }
}

/**
 A page plane cut into strips (generators/src/generator_nup.h, nup_data_strip_t):
 each strip is a buffer of whole lines of 32-bit words, and the lines of all the
 strips, first strip first, are the rows of the image.
 */
module NupStrips {
  import opened NupWord

  /** A strip; `first` is the row of the image its first line shows. */
  class Strip {
    const data: array<Word>
    const numLines: nat
    ghost const first: nat

    constructor (buffer: array<Word>, lines: nat, ghost row: nat)
      ensures data == buffer && numLines == lines && first == row
    {
      data, numLines, first := buffer, lines, row;
    }
  }

  /** Place in a buffer where a line starts: line * width. */
  function Start(line: nat, width: nat): nat {
    if line == 0 then 0 else width + Start(line - 1, width)
  }

  lemma {:induction false} StartIsProduct(line: nat, width: nat)
    ensures Start(line, width) == line * width
  {
    if line > 0 {
      StartIsProduct(line - 1, width);
    }
  }

  lemma {:induction false} LineApart(l: nat, m: nat, width: nat)
    requires l < m
    ensures Start(l, width) + width <= Start(m, width)
    decreases m
  {
    if l + 1 < m {
      LineApart(l, m - 1, width);
    }
  }

  /** A line starts at the ceiling only if it is the one after the last. */
  lemma AtCeiling(l: nat, lines: nat, width: nat)
    requires l <= lines && 0 < width
    ensures Start(l, width) >= Start(lines, width) <==> l == lines
  {
    if l < lines {
      LineApart(l, lines, width);
    }
  }

  /** Rows of words. */
  type Image = seq<seq<Word>>

  ghost predicate Rectangular(img: Image, width: nat) {
    forall r :: 0 <= r < |img| ==> |img[r]| == width
  }

  /** Rows one after the other, as a buffer holds them. */
  function Flat(rows: Image): seq<Word> {
    if rows == [] then [] else rows[0] + Flat(rows[1..])
  }

  function Put(img: Image, r: nat, w: nat, x: Word): (out: Image)
    requires r < |img| && w < |img[r]|
  {
    img[r := img[r][w := x]]
  }

  lemma {:induction false} FlatLength(rows: Image, width: nat)
    requires Rectangular(rows, width)
    ensures |Flat(rows)| == Start(|rows|, width)
  {
    if rows != [] {
      FlatLength(rows[1..], width);
    }
  }

  lemma {:induction false} FlatAt(rows: Image, width: nat, l: nat, w: nat)
    requires Rectangular(rows, width) && l < |rows| && w < width
    ensures Start(l, width) + w < |Flat(rows)| && Flat(rows)[Start(l, width) + w] == rows[l][w]
  {
    if l > 0 {
      FlatAt(rows[1..], width, l - 1, w);
    }
  }

  /** Writing one word of the rows writes one word of the buffer. */
  lemma {:induction false} FlatPut(rows: Image, width: nat, l: nat, w: nat, x: Word)
    requires Rectangular(rows, width) && l < |rows| && w < width
    ensures Start(l, width) + w < |Flat(rows)|
    ensures Flat(Put(rows, l, w, x)) == Flat(rows)[Start(l, width) + w := x]
  {
    FlatAt(rows, width, l, w);
    if l > 0 {
      FlatPut(rows[1..], width, l - 1, w, x);
      assert Put(rows, l, w, x)[1..] == Put(rows[1..], l - 1, w, x);
    } else {
      assert Put(rows, l, w, x)[1..] == rows[1..];
    }
  }

  /** Strip i + 1 goes on where strip i ends. */
  ghost predicate Adjoins(ss: seq<Strip>, i: nat)
    requires i + 1 < |ss|
  {
    ss[i + 1].first == ss[i].first + ss[i].numLines
  }

  /** Strip i lies before strip j and has a buffer of its own. */
  ghost predicate Before(s: Strip, t: Strip) {
    s.data != t.data && s.first + s.numLines <= t.first
  }

  /** A list of strips that cuts an image of `rows` rows. */
  ghost predicate WellFormed(ss: seq<Strip>, rows: nat) {
    && ss != [] && ss[0].first == 0 && ss[|ss| - 1].first + ss[|ss| - 1].numLines == rows
    && (forall i :: 0 <= i < |ss| ==> ss[i].numLines > 0 && ss[i].first + ss[i].numLines <= rows)
    && (forall i :: 0 <= i < |ss| - 1 ==> Adjoins(ss, i))
    && (forall i, j :: 0 <= i < j < |ss| ==> Before(ss[i], ss[j]))
  }

  /** The rows of the image that a strip shows. */
  function Band(img: Image, first: nat, lines: nat): Image
    requires first + lines <= |img|
  {
    img[first..][..lines]
  }

  ghost predicate ShowsStrip(s: Strip, img: Image)
    reads s.data
  {
    s.first + s.numLines <= |img| && s.data[..] == Flat(Band(img, s.first, s.numLines))
  }

  ghost function Buffers(ss: seq<Strip>): set<object> {
    set s | s in ss :: s.data
  }

  /** The strips show the image. */
  ghost predicate Shows(ss: seq<Strip>, img: Image)
    reads Buffers(ss)
  {
    forall i :: 0 <= i < |ss| ==> ShowsStrip(ss[i], img)
  }

  lemma BandOfPut(img: Image, width: nat, first: nat, lines: nat, r: nat, w: nat, x: Word)
    requires Rectangular(img, width) && first + lines <= |img| && r < |img| && w < width
    ensures Rectangular(Band(img, first, lines), width)
    ensures Band(Put(img, r, w, x), first, lines) ==
            if first <= r < first + lines then Put(Band(img, first, lines), r - first, w, x) else Band(img, first, lines)
  {
  }

  /** The image word that a buffer place holds. */
  lemma Look(s: Strip, width: nat, img: Image, l: nat, w: nat)
    requires Rectangular(img, width) && ShowsStrip(s, img) && l < s.numLines && w < width
    ensures Start(l, width) + w < s.data.Length && s.data[Start(l, width) + w] == img[s.first + l][w]
  {
    var rows := Band(img, s.first, s.numLines);
    assert rows[l] == img[s.first + l];
    FlatAt(rows, width, l, w);
    assert s.data[..][Start(l, width) + w] == img[s.first + l][w];
  }

  lemma FirstAndLast(ss: seq<Strip>, rows: nat)
    requires WellFormed(ss, rows)
    ensures ss != [] && 0 < rows && ss[0].first == 0 && ss[|ss| - 1].first + ss[|ss| - 1].numLines == rows
  {
  }

  /** Past the last line of a strip there is a next strip, unless the image ends. */
  lemma NextStrip(ss: seq<Strip>, rows: nat, i: nat)
    requires WellFormed(ss, rows) && i < |ss| && ss[i].first + ss[i].numLines < rows
    ensures i + 1 < |ss| && ss[i + 1].first == ss[i].first + ss[i].numLines && ss[i + 1].numLines > 0
  {
    assert i + 1 < |ss| ==> Adjoins(ss, i);
  }

  lemma RowOfLine(ss: seq<Strip>, rows: nat, i: nat, l: nat)
    requires WellFormed(ss, rows) && i < |ss| && l < ss[i].numLines
    ensures ss[i].first + l < rows
  {
  }

  lemma LookIn(ss: seq<Strip>, width: nat, img: Image, i: nat, l: nat, w: nat)
    requires WellFormed(ss, |img|) && Shows(ss, img) && Rectangular(img, width)
    requires i < |ss| && l < ss[i].numLines && w < width
    ensures ss[i].first + l < |img|
    ensures Start(l, width) + w < ss[i].data.Length && ss[i].data[Start(l, width) + w] == img[ss[i].first + l][w]
  {
    Look(ss[i], width, img, l, w);
  }

  /** Writes one word of one buffer: one word of the image it shows changes. */
  method StoreInStrip(s: Strip, width: nat, at: nat, x: Word, ghost l: nat, ghost w: nat, ghost img: Image)
    requires Rectangular(img, width) && ShowsStrip(s, img)
    requires l < s.numLines && w < width && at == Start(l, width) + w
    modifies s.data
    ensures ShowsStrip(s, Put(img, s.first + l, w, x))
  {
    BandOfPut(img, width, s.first, s.numLines, s.first + l, w, x);
    FlatPut(Band(img, s.first, s.numLines), width, l, w, x);
    assert at < |s.data[..]|;
    s.data[at] := x;
    assert s.data[..] == old(s.data[..])[at := x];
  }

  /** Another strip does not show that word. */
  lemma OtherShows(s: Strip, width: nat, img: Image, r: nat, w: nat, x: Word)
    requires ShowsStrip(s, img) && Rectangular(img, width)
    requires r < |img| && w < width && !(s.first <= r < s.first + s.numLines)
    ensures ShowsStrip(s, Put(img, r, w, x))
  {
    BandOfPut(img, width, s.first, s.numLines, r, w, x);
  }

  /** Writes one word of one strip: one word of the image changes. */
  method Store(ss: seq<Strip>, width: nat, i: nat, at: nat, x: Word, ghost l: nat, ghost w: nat, ghost img: Image)
    requires WellFormed(ss, |img|) && Shows(ss, img) && Rectangular(img, width)
    requires i < |ss| && l < ss[i].numLines && w < width && at == Start(l, width) + w
    modifies ss[i].data
    ensures Shows(ss, Put(img, ss[i].first + l, w, x))
  {
    StoreInStrip(ss[i], width, at, x, l, w, img);
    forall j | 0 <= j < |ss|
      ensures ShowsStrip(ss[j], Put(img, ss[i].first + l, w, x))
    {
      if j != i {
        assert Before(ss[j], ss[i]) || Before(ss[i], ss[j]);
        assert old(ShowsStrip(ss[j], img));
        OtherShows(ss[j], width, img, ss[i].first + l, w, x);
      }
    }
  }

  /** Strips lie in order: a lower row is in an earlier strip, or earlier in the same one. */
  lemma StripOrder(ss: seq<Strip>, rows: nat, i: nat, l: nat, j: nat, m: nat)
    requires WellFormed(ss, rows)
    requires i < |ss| && j < |ss| && l < ss[i].numLines && m < ss[j].numLines
    requires ss[i].first + l < ss[j].first + m
    ensures i <= j && (i == j ==> l < m)
  {
    assert j < i ==> Before(ss[j], ss[i]);
    assert i < j ==> Before(ss[i], ss[j]);
  }

  /** The word of a row that holds its pixel c. */
  function WordOf(c: nat, bpp: nat): nat
    requires IsBpp(bpp)
  {
    c / PerWord(bpp)
  }

  /** The place of pixel c in its word. */
  function PlaceOf(c: nat, bpp: nat): (k: nat)
    requires IsBpp(bpp)
    ensures k < PerWord(bpp)
  {
    c % PerWord(bpp)
  }

  /** Pixel c of row r. */
  function PixelOf(img: Image, bpp: nat, r: nat, c: nat): (p: seq<bool>)
    requires IsBpp(bpp) && r < |img| && WordOf(c, bpp) < |img[r]|
  {
    Px(img[r][WordOf(c, bpp)], bpp, PlaceOf(c, bpp))
  }

  lemma PixelPlace(c: nat, bpp: nat, width: nat)
    requires IsBpp(bpp) && c < Start(width, PerWord(bpp))
    ensures WordOf(c, bpp) < width && c == Start(WordOf(c, bpp), PerWord(bpp)) + PlaceOf(c, bpp)
  {
    hide PerWord, IsBpp;
    var per, d := PerWord(bpp), WordOf(c, bpp);
    QuotientAndRest(c, per);
    StartIsProduct(d, per);
    if width < d {
      LineApart(width, d, per);
    }
  }

  lemma QuotientAndRest(c: nat, per: nat)
    requires 0 < per
    ensures c == c / per * per + c % per
  {
  }

  /** Pixel c counted from the other end. */
  lemma OtherEnd(c: nat, bpp: nat, width: nat)
    requires IsBpp(bpp) && c < Start(width, PerWord(bpp))
    ensures WordOf(c, bpp) < width
    ensures Start(width - 1 - WordOf(c, bpp), PerWord(bpp)) + (PerWord(bpp) - 1 - PlaceOf(c, bpp)) ==
            Start(width, PerWord(bpp)) - 1 - c
  {
    hide WordOf, PlaceOf, PerWord;
    PixelPlace(c, bpp, width);
    StartAdds(WordOf(c, bpp), width - WordOf(c, bpp), PerWord(bpp));
  }

  lemma PlaceIs(c: nat, bpp: nat, word: nat)
    requires IsBpp(bpp) && Start(word, PerWord(bpp)) <= c < Start(word, PerWord(bpp)) + PerWord(bpp)
    ensures WordOf(c, bpp) == word && PlaceOf(c, bpp) == c - Start(word, PerWord(bpp))
  {
    StartIsProduct(word, PerWord(bpp));
    QuotientIs(c, PerWord(bpp), word);
  }

  lemma QuotientIs(c: nat, per: nat, q: nat)
    requires q * per <= c < q * per + per
    ensures c / per == q && c % per == c - q * per
  {
    var d := c / per;
    if d < q {
      ProductApart(d, q, per);
    } else if q < d {
      ProductApart(q, d, per);
    }
  }

  lemma ProductApart(a: nat, b: nat, per: nat)
    requires a < b
    ensures a * per + per <= b * per
  {
    assert (a + 1) * per <= b * per;
  }

  lemma {:induction false} StartAdds(a: nat, b: nat, per: nat)
    ensures Start(a + b, per) == Start(a, per) + Start(b, per)
  {
    if a > 0 {
      StartAdds(a - 1, b, per);
    }
  }
}

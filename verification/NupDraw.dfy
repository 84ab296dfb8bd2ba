/**
 One object ORed onto page lines (generators/src/generator_nup.c, copy_link_obj,
 operation nup_or on one plane), on values: bytes, lines and whole pages.
 A byte is a Word of 8 bits, leftmost pixel first.
 */
module NupDraw {
  import opened NupWord
  import opened NupStrips

  function Byte0(): Word {
    Word(seq(8, _ => false))
  }

  function ByteOr(v: Word, w: Word): (r: Word)
    ensures forall i {:trigger Bit(r, i)} :: 0 <= i < 8 ==> Bit(r, i) == (Bit(v, i) || Bit(w, i))
  {
    Word(seq(8, i => Bit(v, i) || Bit(w, i)))
  }

  function ByteAnd(v: Word, w: Word): (r: Word)
    ensures forall i {:trigger Bit(r, i)} :: 0 <= i < 8 ==> Bit(r, i) == (Bit(v, i) && Bit(w, i))
  {
    Word(seq(8, i => Bit(v, i) && Bit(w, i)))
  }

  function ByteShr(w: Word, n: nat): (r: Word)
    ensures forall i {:trigger Bit(r, i)} :: 0 <= i < 8 ==> Bit(r, i) == (i >= n && Bit(w, i - n))
  {
    Word(seq(8, i => i >= n && Bit(w, i - n)))
  }

  function ByteShl(w: Word, n: nat): (r: Word)
    ensures forall i {:trigger Bit(r, i)} :: 0 <= i < 8 ==> Bit(r, i) == (i + n < 8 && Bit(w, i + n))
  {
    Word(seq(8, i => i + n < 8 && Bit(w, i + n)))
  }

  /** The byte 0xff. */
  function Ones(): Word {
    Word(seq(8, _ => true))
  }

  /** What is left of an object byte for the next page byte. */
  function Residue(obj: Word, shift: nat): (r: Word)
    requires shift < 8
    ensures forall i {:trigger Bit(r, i)} :: 0 <= i < 8 ==> Bit(r, i) == (i < shift && Bit(obj, 8 - shift + i))
  {
    ByteShl(ByteAnd(ByteAnd(obj, ByteShr(Ones(), 0)), ByteShr(Ones(), 8 - shift)), 8 - shift)
  }

  /** Object byte k of a line and what byte k - 1 left, as they fall on one page byte. */
  function Inked(obj: seq<Word>, shift: nat, k: nat): (r: Word)
    requires shift < 8 && k < |obj|
  {
    ByteOr(if k == 0 then Byte0() else Residue(obj[k - 1], shift), ByteShr(obj[k], shift))
  }

  /** Bit q of a line of bytes, from the left; white outside the line. */
  function LineBit(line: seq<Word>, q: int): bool {
    0 <= q && q / 8 < |line| && Bit(line[q / 8], q % 8)
  }

  lemma LineBitAt(line: seq<Word>, k: nat, t: nat)
    requires k < |line| && t < 8
    ensures LineBit(line, 8 * k + t) == Bit(line[k], t)
  {
    assert (8 * k + t) / 8 == k && (8 * k + t) % 8 == t;
  }

  lemma BeforeLine(line: seq<Word>, q: int)
    ensures q < 0 ==> !LineBit(line, q)
  {
  }

  lemma InkedBit(obj: seq<Word>, shift: nat, k: nat, t: nat)
    requires shift < 8 && k < |obj| && t < 8
    ensures Bit(Inked(obj, shift, k), t) == LineBit(obj, 8 * k + t - shift)
  {
    hide LineBit, Bit, Residue;
    BeforeLine(obj, 8 * k + t - shift);
    NoBit(t);
    if t >= shift {
      LineBitAt(obj, k, t - shift);
    } else if k > 0 {
      LineBitAt(obj, k - 1, 8 + t - shift);
    }
  }

  lemma NoBit(t: nat)
    ensures !Bit(Byte0(), t)
  {
  }

  /** A page line with the first n bytes of an object line ORed in from byte `start` on. */
  function DrawBytes(line: seq<Word>, obj: seq<Word>, shift: nat, start: nat, n: nat): (r: seq<Word>)
    requires shift < 8 && n <= |obj|
    ensures |r| == |line|
  {
    seq(|line|, b requires 0 <= b < |line| =>
      if start <= b < start + n then ByteOr(line[b], Inked(obj, shift, b - start)) else line[b])
  }

  lemma DrawOneMore(line: seq<Word>, obj: seq<Word>, shift: nat, start: nat, n: nat)
    requires shift < 8 && n < |obj| && start + n < |line|
    ensures DrawBytes(line, obj, shift, start, n)[start + n] == line[start + n]
    ensures DrawBytes(line, obj, shift, start, n)[start + n := ByteOr(line[start + n], Inked(obj, shift, n))] ==
            DrawBytes(line, obj, shift, start, n + 1)
  {
  }

  /** Whole bytes that `bits` object bits fill when they start at bit x. */
  function FullBytes(x: nat, bits: nat): nat {
    (bits + x % 8) / 8
  }

  /** A page line with an object line drawn at bit x. */
  function DrawLine(line: seq<Word>, obj: seq<Word>, x: nat, bits: nat): (r: seq<Word>)
    requires bits <= 8 * |obj|
    ensures |r| == |line|
  {
    DrawBytes(line, obj, x % 8, x / 8, FullBytes(x, bits))
  }

  /** The bits of the object that reach the page: all but those of a last byte that is not filled. */
  ghost predicate Reaches(x: nat, bits: nat, q: int) {
    x <= q < x / 8 * 8 + 8 * FullBytes(x, bits)
  }

  /** Never more than the object has; all but the bits behind the last full byte of the page, so all when it ends there. */
  lemma ReachesWithin(x: nat, bits: nat, q: int)
    ensures Reaches(x, bits, q) <==> x <= q < x + bits - (x + bits) % 8
    ensures Reaches(x, bits, q) ==> x <= q < x + bits
    ensures (bits + x) % 8 == 0 ==> (Reaches(x, bits, q) <==> x <= q < x + bits)
  {
  }

  /** The bit in its byte. */
  lemma ByteOfBit(line: seq<Word>, q: nat)
    requires q < 8 * |line|
    ensures q / 8 < |line| && LineBit(line, q) == Bit(line[q / 8], q % 8)
  {
  }

  /** Drawing is OR, bit by bit, of the object moved to x. */
  lemma DrawLineBit(line: seq<Word>, obj: seq<Word>, x: nat, bits: nat, q: nat)
    requires bits <= 8 * |obj| && q < 8 * |line|
    ensures LineBit(DrawLine(line, obj, x, bits), q) ==
            (LineBit(line, q) || (Reaches(x, bits, q) && LineBit(obj, q - x)))
  {
    hide LineBit, Bit, Inked;
    var start, b, t := x / 8, q / 8, q % 8;
    ByteOfBit(line, q);
    ByteOfBit(DrawLine(line, obj, x, bits), q);
    if start <= b < start + FullBytes(x, bits) {
      InkedBit(obj, x % 8, b - start, t);
      assert 8 * (b - start) + t - x % 8 == q - x;
      BeforeLine(obj, q - x);
    }
  }

  /** An object placed on a page: bit column x, row y, the bits and rows of it that count. */
  datatype Drawing = Drawing(x: nat, y: nat, bits: nat, rows: nat, img: Image)

  /** The image has all the rows and bits that are to be drawn. */
  ghost predicate HasInk(d: Drawing) {
    d.rows <= |d.img| && forall r :: 0 <= r < |d.img| ==> d.bits <= 8 * |d.img[r]|
  }

  ghost predicate AllHaveInk(ds: seq<Drawing>) {
    forall i :: 0 <= i < |ds| ==> HasInk(ds[i])
  }

  /** Page row r with the object on it. */
  function RowDrawn(line: seq<Word>, d: Drawing, r: nat): (out: seq<Word>)
    requires HasInk(d)
    ensures |out| == |line|
  {
    if d.y <= r < d.y + d.rows then DrawLine(line, d.img[r - d.y], d.x, d.bits) else line
  }

  /** The rows of the page from lo up to hi with the object on them. */
  function OneDrawn(page: Image, d: Drawing, lo: nat, hi: nat): (out: Image)
    requires HasInk(d)
    ensures |out| == |page| && forall r :: 0 <= r < |page| ==> |out[r]| == |page[r]|
  {
    seq(|page|, r requires 0 <= r < |page| => if lo <= r < hi then RowDrawn(page[r], d, r) else page[r])
  }

  /** All objects, one after the other, each on all the rows from lo up to hi. */
  function AllDrawn(page: Image, ds: seq<Drawing>, lo: nat, hi: nat): (out: Image)
    requires AllHaveInk(ds)
    ensures |out| == |page| && forall r :: 0 <= r < |page| ==> |out[r]| == |page[r]|
    decreases |ds|
  {
    if ds == [] then page else AllDrawn(OneDrawn(page, ds[0], lo, hi), ds[1..], lo, hi)
  }

  /** One row under all objects. */
  function RowAllDrawn(line: seq<Word>, ds: seq<Drawing>, r: nat): (out: seq<Word>)
    requires AllHaveInk(ds)
    ensures |out| == |line|
    decreases |ds|
  {
    if ds == [] then line else RowAllDrawn(RowDrawn(line, ds[0], r), ds[1..], r)
  }

  lemma {:induction false} AllDrawnRow(page: Image, ds: seq<Drawing>, lo: nat, hi: nat, r: nat)
    requires AllHaveInk(ds) && r < |page|
    ensures AllDrawn(page, ds, lo, hi)[r] == if lo <= r < hi then RowAllDrawn(page[r], ds, r) else page[r]
    decreases |ds|
  {
    if ds != [] {
      AllDrawnRow(OneDrawn(page, ds[0], lo, hi), ds[1..], lo, hi, r);
    }
  }

  /** The page may be drawn piece by piece: first all objects above `mid`, then all below. */
  lemma DrawnInPieces(page: Image, ds: seq<Drawing>, mid: nat, hi: nat)
    requires AllHaveInk(ds) && mid <= hi
    ensures AllDrawn(AllDrawn(page, ds, 0, mid), ds, mid, hi) == AllDrawn(page, ds, 0, hi)
  {
    forall r | 0 <= r < |page|
      ensures AllDrawn(AllDrawn(page, ds, 0, mid), ds, mid, hi)[r] == AllDrawn(page, ds, 0, hi)[r]
    {
      AllDrawnRow(page, ds, 0, mid, r);
      AllDrawnRow(AllDrawn(page, ds, 0, mid), ds, mid, hi, r);
      AllDrawnRow(page, ds, 0, hi, r);
    }
  }

  /** Rendering one more image onto the page, in a call of its own, is drawing a longer list. */
  lemma {:induction false} DrawnInTurn(page: Image, ds: seq<Drawing>, d: Drawing, lo: nat, hi: nat)
    requires AllHaveInk(ds) && HasInk(d)
    ensures AllHaveInk(ds + [d]) && AllHaveInk([d])
    ensures AllDrawn(AllDrawn(page, ds, lo, hi), [d], lo, hi) == AllDrawn(page, ds + [d], lo, hi)
    decreases |ds|
  {
    hide OneDrawn, HasInk;
    if ds == [] {
      assert ds + [d] == [d];
    } else {
      DrawnInTurn(OneDrawn(page, ds[0], lo, hi), ds[1..], d, lo, hi);
      assert (ds + [d])[1..] == ds[1..] + [d];
    }
  }

  /** The object is black at bit q of page row r. */
  ghost predicate Marks(d: Drawing, r: nat, q: nat)
    requires HasInk(d)
  {
    d.y <= r < d.y + d.rows && Reaches(d.x, d.bits, q) && LineBit(d.img[r - d.y], q - d.x)
  }

  ghost predicate Marked(ds: seq<Drawing>, r: nat, q: nat)
    requires AllHaveInk(ds)
  {
    exists i :: 0 <= i < |ds| && Marks(ds[i], r, q)
  }

  lemma RowDrawnBit(line: seq<Word>, d: Drawing, r: nat, q: nat)
    requires HasInk(d) && q < 8 * |line|
    ensures LineBit(RowDrawn(line, d, r), q) == (LineBit(line, q) || Marks(d, r, q))
  {
    hide LineBit, DrawLine;
    if d.y <= r < d.y + d.rows {
      DrawLineBit(line, d.img[r - d.y], d.x, d.bits, q);
    }
  }

  lemma MarkedFirst(ds: seq<Drawing>, r: nat, q: nat)
    requires AllHaveInk(ds) && ds != []
    ensures Marked(ds, r, q) <==> Marks(ds[0], r, q) || Marked(ds[1..], r, q)
  {
    hide Marks, HasInk;
    if Marked(ds[1..], r, q) {
      var i :| 0 <= i < |ds[1..]| && Marks(ds[1..][i], r, q);
      assert Marks(ds[i + 1], r, q);
    }
    if Marked(ds, r, q) && !Marks(ds[0], r, q) {
      var i :| 0 <= i < |ds| && Marks(ds[i], r, q);
      assert Marks(ds[1..][i - 1], r, q);
    }
  }

  lemma {:induction false} RowAllDrawnBit(line: seq<Word>, ds: seq<Drawing>, r: nat, q: nat)
    requires AllHaveInk(ds) && q < 8 * |line|
    ensures LineBit(RowAllDrawn(line, ds, r), q) == (LineBit(line, q) || Marked(ds, r, q))
    decreases |ds|
  {
    hide LineBit, RowDrawn, Marks, HasInk;
    if ds != [] {
      RowAllDrawnBit(RowDrawn(line, ds[0], r), ds[1..], r, q);
      RowDrawnBit(line, ds[0], r, q);
      MarkedFirst(ds, r, q);
    }
  }

  /** The drawn page is the OR of the page and all the objects, bit by bit. */
  lemma DrawnIsOr(page: Image, ds: seq<Drawing>, lo: nat, hi: nat, r: nat, q: nat)
    requires AllHaveInk(ds) && r < |page| && q < 8 * |page[r]|
    ensures LineBit(AllDrawn(page, ds, lo, hi)[r], q) == (LineBit(page[r], q) || (lo <= r < hi && Marked(ds, r, q)))
  {
    AllDrawnRow(page, ds, lo, hi, r);
    RowAllDrawnBit(page[r], ds, r, q);
  }

  /** So the order of the objects does not matter. */
  lemma OrderDoesNotMatter(page: Image, ds: seq<Drawing>, es: seq<Drawing>, lo: nat, hi: nat, r: nat, q: nat)
    requires AllHaveInk(ds) && AllHaveInk(es) && multiset(ds) == multiset(es) && r < |page| && q < 8 * |page[r]|
    ensures LineBit(AllDrawn(page, ds, lo, hi)[r], q) == LineBit(AllDrawn(page, es, lo, hi)[r], q)
  {
    hide Marks, HasInk, LineBit;
    DrawnIsOr(page, ds, lo, hi, r, q);
    DrawnIsOr(page, es, lo, hi, r, q);
    SameMarks(ds, es, r, q);
    SameMarks(es, ds, r, q);
  }

  lemma SameMarks(ds: seq<Drawing>, es: seq<Drawing>, r: nat, q: nat)
    requires AllHaveInk(ds) && AllHaveInk(es) && multiset(ds) == multiset(es)
    ensures Marked(ds, r, q) ==> Marked(es, r, q)
  {
    hide Marks, HasInk;
    if Marked(ds, r, q) {
      var i :| 0 <= i < |ds| && Marks(ds[i], r, q);
      assert ds[i] in multiset(es);
      var j :| 0 <= j < |es| && es[j] == ds[i];
    }
  }
}

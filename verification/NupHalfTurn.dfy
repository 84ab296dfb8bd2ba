/**
 The 180 degree branch of nup_rotate (generators/src/nup_rotate.c): two
 pointers walk the strips from both ends, exchanging words whose pixels are
 reversed on the way, and whiten the padding at the right of every row.
 */
module NupHalfTurn {
  import opened NupWord
  import opened NupStrips

  /** Word w of a row turned round: its first `used` words reversed, the padding white. */
  function TurnedWord(row: seq<Word>, used: nat, bpp: nat, w: nat): Word
    requires IsBpp(bpp) && used <= |row| && w < |row|
  {
    if w < used then Reversed(row[used - 1 - w], bpp) else Zero()
  }

  function TurnedRow(row: seq<Word>, used: nat, bpp: nat): (r: seq<Word>)
    requires IsBpp(bpp) && used <= |row|
    ensures |r| == |row|
  {
    seq(|row|, w requires 0 <= w < |row| => TurnedWord(row, used, bpp, w))
  }

  /** The image upside down. */
  ghost function HalfTurned(img: Image, used: nat, bpp: nat): (r: Image)
    requires IsBpp(bpp) && forall k :: 0 <= k < |img| ==> used <= |img[k]|
    ensures |r| == |img| && forall k :: 0 <= k < |img| ==> |r[k]| == |img[|img| - 1 - k]|
  {
    seq(|img|, k requires 0 <= k < |img| => TurnedRow(img[|img| - 1 - k], used, bpp))
  }

  /** The first and the last k rows are done. */
  ghost predicate Done(img: Image, cur: Image, width: nat, used: nat, bpp: nat, k: nat)
    requires IsBpp(bpp) && used <= width
  {
    && |cur| == |img| && Rectangular(img, width) && Rectangular(cur, width)
    && (forall r :: 0 <= r < |img| && (r < k || |img| - k <= r) ==>
          cur[r] == TurnedRow(img[|img| - 1 - r], used, bpp))
    && (forall r :: k <= r < |img| - k ==> cur[r] == img[r])
  }

  /** The top row after c exchanges with the bottom row. */
  ghost function TopRow(top: seq<Word>, bottom: seq<Word>, used: nat, bpp: nat, c: nat): (r: seq<Word>)
    requires IsBpp(bpp) && c <= used <= |top| == |bottom|
    ensures |r| == |top|
  {
    TurnedRow(bottom, used, bpp)[..c] + top[c..]
  }

  /** The bottom row after c exchanges, its padding white. */
  ghost function BottomRow(top: seq<Word>, bottom: seq<Word>, used: nat, bpp: nat, c: nat): (r: seq<Word>)
    requires IsBpp(bpp) && c <= used <= |top| == |bottom|
    ensures |r| == |top|
  {
    bottom[..used - c] + TurnedRow(top, used, bpp)[used - c..]
  }

  /** Part way along the top row t and the bottom row b: c words exchanged, padding of b white. */
  ghost predicate Exchanging(before: Image, cur: Image, width: nat, used: nat, bpp: nat, t: nat, b: nat, c: nat)
    requires IsBpp(bpp) && t != b && t < |before| && b < |before| && c <= used <= width && Rectangular(before, width)
  {
    cur == before[t := TopRow(before[t], before[b], used, bpp, c)][b := BottomRow(before[t], before[b], used, bpp, c)]
  }

  /** Word tw of row t and word bw of row b change places, their pixels reversed. */
  ghost function Crossed(img: Image, bpp: nat, t: nat, tw: nat, b: nat, bw: nat): Image
    requires IsBpp(bpp) && t < |img| && b < |img| && tw < |img[t]| && bw < |img[b]|
    requires t == b ==> bw < |img[t]|
  {
    Put(Put(img, t, tw, Reversed(img[b][bw], bpp)), b, bw, Reversed(img[t][tw], bpp))
  }

  /** One more exchange. */
  lemma ExchangeStep(before: Image, cur: Image, width: nat, used: nat, bpp: nat, t: nat, b: nat, c: nat)
    requires IsBpp(bpp) && t != b && t < |before| && b < |before| && c < used <= width && Rectangular(before, width)
    requires Exchanging(before, cur, width, used, bpp, t, b, c)
    ensures Rectangular(cur, width) && |cur| == |before|
    ensures Exchanging(before, Crossed(cur, bpp, t, c, b, used - 1 - c), width, used, bpp, t, b, c + 1)
  {
    TopStep(before[t], before[b], used, bpp, c);
    BottomStep(before[t], before[b], used, bpp, c);
    hide TopRow, BottomRow, Reversed, IsBpp;
  }

  lemma TopStep(top: seq<Word>, bottom: seq<Word>, used: nat, bpp: nat, c: nat)
    requires IsBpp(bpp) && c < used <= |top| == |bottom|
    ensures TopRow(top, bottom, used, bpp, c)[c] == top[c]
    ensures TopRow(top, bottom, used, bpp, c)[c := Reversed(bottom[used - 1 - c], bpp)] ==
            TopRow(top, bottom, used, bpp, c + 1)
  {
    hide Reversed, IsBpp;
    var row, r := TurnedRow(bottom, used, bpp), TopRow(top, bottom, used, bpp, c);
    assert row[..c + 1] == row[..c] + [row[c]];
    assert top[c..] == [top[c]] + top[c + 1..];
  }

  lemma BottomStep(top: seq<Word>, bottom: seq<Word>, used: nat, bpp: nat, c: nat)
    requires IsBpp(bpp) && c < used <= |top| == |bottom|
    ensures BottomRow(top, bottom, used, bpp, c)[used - 1 - c] == bottom[used - 1 - c]
    ensures BottomRow(top, bottom, used, bpp, c)[used - 1 - c := Reversed(top[c], bpp)] ==
            BottomRow(top, bottom, used, bpp, c + 1)
  {
    hide Reversed, IsBpp;
    var row, d := TurnedRow(top, used, bpp), used - 1 - c;
    assert bottom[..d + 1] == bottom[..d] + [bottom[d]];
    assert row[d..] == [row[d]] + row[d + 1..];
  }

  /** All of the row exchanged. */
  lemma ExchangeEnd(top: seq<Word>, bottom: seq<Word>, used: nat, bpp: nat)
    requires IsBpp(bpp) && used <= |top| == |bottom|
    ensures BottomRow(top, bottom, used, bpp, used) == TurnedRow(top, used, bpp)
    ensures Blanked(TopRow(top, bottom, used, bpp, used), used) == TurnedRow(bottom, used, bpp)
  {
  }

  /** A row whose padding has been made white. */
  function Blanked(row: seq<Word>, from: nat): (r: seq<Word>)
    requires from <= |row|
    ensures |r| == |row|
  {
    row[..from] + seq(|row| - from, _ => Zero())
  }

  lemma BlankStep(row: seq<Word>, from: nat)
    requires 0 < from <= |row|
    ensures Blanked(row, from)[from - 1 := Zero()] == Blanked(row, from - 1)
  {
  }

  /** The white-out of the bottom row; the pointer moves down over the padding. */
  method WhitenBottom(ss: seq<Strip>, width: nat, used: nat, i: nat, bottom0: int, ghost l: nat, ghost img: Image)
    returns (bottom: int, ghost cur: Image)
    requires WellFormed(ss, |img|) && Shows(ss, img) && Rectangular(img, width) && used <= width
    requires i < |ss| && l < ss[i].numLines && bottom0 == Start(l, width) + width - 1
    modifies ss[i].data
    ensures bottom == Start(l, width) + used - 1
    ensures var r := ss[i].first + l; cur == img[r := Blanked(img[r], used)]
    ensures Shows(ss, cur)
  {
    hide Shows, WellFormed;
    RowOfLine(ss, |img|, i, l);
    ghost var r := ss[i].first + l;
    bottom, cur := bottom0, img;
    var cidx := 0;
    assert Blanked(img[r], width) == img[r];
    while cidx < width - used
      invariant 0 <= cidx <= width - used && bottom == Start(l, width) + width - cidx - 1
      invariant cur == img[r := Blanked(img[r], width - cidx)] && Shows(ss, cur)
    {
      BlankStep(img[r], width - cidx);
      Store(ss, width, i, bottom, Zero(), l, width - cidx - 1, cur);
      cur := Put(cur, r, width - cidx - 1, Zero());
      bottom := bottom - 1;
      cidx := cidx + 1;
    }
  }

  /** The row with the words from `from` up to `to` white. */
  function BlankedTo(row: seq<Word>, from: nat, to: nat): (r: seq<Word>)
    requires from <= to <= |row|
    ensures |r| == |row|
  {
    row[..from] + seq(to - from, _ => Zero()) + row[to..]
  }

  lemma BlankToStep(row: seq<Word>, from: nat, to: nat)
    requires from <= to < |row|
    ensures BlankedTo(row, from, to)[to := Zero()] == BlankedTo(row, from, to + 1)
  {
  }

  /** The white-out of the top row; the pointer moves up over the padding. */
  method WhitenTop(ss: seq<Strip>, width: nat, used: nat, i: nat, top0: nat, ghost l: nat, ghost img: Image)
    returns (top: nat, ghost cur: Image)
    requires WellFormed(ss, |img|) && Shows(ss, img) && Rectangular(img, width) && used <= width
    requires i < |ss| && l < ss[i].numLines && top0 == Start(l, width) + used
    modifies ss[i].data
    ensures top == Start(l, width) + width
    ensures var r := ss[i].first + l; cur == img[r := Blanked(img[r], used)]
    ensures Shows(ss, cur)
  {
    hide Shows, WellFormed;
    RowOfLine(ss, |img|, i, l);
    ghost var r := ss[i].first + l;
    top, cur := top0, img;
    var cidx := used;
    assert BlankedTo(img[r], used, used) == img[r];
    while cidx < width
      invariant used <= cidx <= width && top == Start(l, width) + cidx
      invariant cur == img[r := BlankedTo(img[r], used, cidx)] && Shows(ss, cur)
    {
      BlankToStep(img[r], used, cidx);
      Store(ss, width, i, top, Zero(), l, cidx, cur);
      cur := Put(cur, r, cidx, Zero());
      top := top + 1;
      cidx := cidx + 1;
    }
    assert BlankedTo(img[r], used, width) == Blanked(img[r], used);
  }

  /** Two words are written. */
  method StoreTwo(ss: seq<Strip>, width: nat, ti: nat, top: nat, x: Word, bi: nat, bottom: nat, y: Word,
                  ghost tl: nat, ghost tw: nat, ghost bl: nat, ghost bw: nat, ghost img: Image)
    requires tw < width && bw < width
    requires WellFormed(ss, |img|) && Shows(ss, img) && Rectangular(img, width)
    requires ti < |ss| && tl < ss[ti].numLines && top == Start(tl, width) + tw
    requires bi < |ss| && bl < ss[bi].numLines && bottom == Start(bl, width) + bw
    modifies ss[ti].data, ss[bi].data
    ensures Shows(ss, Put(Put(img, ss[ti].first + tl, tw, x), ss[bi].first + bl, bw, y))
  {
    Store(ss, width, ti, top, x, tl, tw, img);
    Store(ss, width, bi, bottom, y, bl, bw, Put(img, ss[ti].first + tl, tw, x));
  }

  /** A word of a strip with its pixels reversed. */
  method ReadSwapped(ss: seq<Strip>, width: nat, bpp: nat, i: nat, at: nat, ghost l: nat, ghost w: nat, ghost img: Image)
    returns (x: Word)
    requires IsBpp(bpp) && w < width && WellFormed(ss, |img|) && Shows(ss, img) && Rectangular(img, width)
    requires i < |ss| && l < ss[i].numLines && at == Start(l, width) + w
    ensures Shows(ss, img)
    ensures ss[i].first + l < |img| && |img[ss[i].first + l]| == width && x == Reversed(img[ss[i].first + l][w], bpp)
  {
    LookIn(ss, width, img, i, l, w);
    RowLength(img, width, ss[i].first + l);
    x := PixelSwap(ss[i].data[at], bpp);
  }

  lemma RowLength(img: Image, width: nat, r: nat)
    requires Rectangular(img, width) && r < |img|
    ensures |img[r]| == width
  {
  }

  /** Two words change places, their pixels reversed. */
  method ExchangeWords(ss: seq<Strip>, width: nat, bpp: nat, ti: nat, top: nat, bi: nat, bottom: nat,
                       ghost tl: nat, ghost tw: nat, ghost bl: nat, ghost bw: nat, ghost img: Image)
    requires IsBpp(bpp) && tw < width && bw < width
    requires WellFormed(ss, |img|) && Shows(ss, img) && Rectangular(img, width)
    requires ti < |ss| && tl < ss[ti].numLines && top == Start(tl, width) + tw
    requires bi < |ss| && bl < ss[bi].numLines && bottom == Start(bl, width) + bw
    modifies ss[ti].data, ss[bi].data
    ensures Shows(ss, Crossed(img, bpp, ss[ti].first + tl, tw, ss[bi].first + bl, bw))
  {
    hide Shows, WellFormed, Put, Rectangular, Reversed, IsBpp, Start;
    var tmp1 := ReadSwapped(ss, width, bpp, ti, top, tl, tw, img);
    var tmp2 := ReadSwapped(ss, width, bpp, bi, bottom, bl, bw, img);
    StoreTwo(ss, width, ti, top, tmp2, bi, bottom, tmp1, tl, tw, bl, bw, img);
  }

  /** The image after the first c words of row t were exchanged with the last c used words of row b. */
  ghost function Exchanged(img: Image, width: nat, used: nat, bpp: nat, t: nat, b: nat, c: nat): (r: Image)
    requires IsBpp(bpp) && t < |img| && b < |img| && c <= used <= width && Rectangular(img, width)
    ensures |r| == |img| && Rectangular(r, width)
    decreases c
  {
    if c == 0 then img else Crossed(Exchanged(img, width, used, bpp, t, b, c - 1), bpp, t, c - 1, b, used - c)
  }

  /** The exchange of the words of two rows; its boundary checks never stop it. */
  method ExchangeRows(ss: seq<Strip>, width: nat, used: nat, bpp: nat, ti: nat, top0: nat, ceiling: nat,
                      bi: nat, bottom0: int, ghost tl: nat, ghost bl: nat, ghost img: Image)
    returns (top: nat, bottom: int)
    requires IsBpp(bpp) && used <= width
    requires WellFormed(ss, |img|) && Shows(ss, img) && Rectangular(img, width)
    requires ti < |ss| && tl < ss[ti].numLines && top0 == Start(tl, width) && ceiling == Start(ss[ti].numLines, width)
    requires bi < |ss| && bl < ss[bi].numLines && bottom0 == Start(bl, width) + used - 1
    modifies ss[ti].data, ss[bi].data
    ensures top == Start(tl, width) + used && bottom == Start(bl, width) - 1
    ensures Shows(ss, Exchanged(img, width, used, bpp, ss[ti].first + tl, ss[bi].first + bl, used))
  {
    hide Shows, WellFormed;
    RowOfLine(ss, |img|, ti, tl);
    RowOfLine(ss, |img|, bi, bl);
    ghost var t, b := ss[ti].first + tl, ss[bi].first + bl;
    top, bottom := top0, bottom0;
    var cidx := 0;
    while cidx < used
      invariant 0 <= cidx <= used
      invariant top == Start(tl, width) + cidx && bottom == Start(bl, width) + used - cidx - 1
      invariant Shows(ss, Exchanged(img, width, used, bpp, t, b, cidx))
    {
      LineApart(tl, ss[ti].numLines, width);
      if top >= ceiling || bottom < 0 {
        break;
      }
      ExchangeWords(ss, width, bpp, ti, top, bi, bottom, tl, cidx, bl, used - 1 - cidx,
                    Exchanged(img, width, used, bpp, t, b, cidx));
      top := top + 1;
      bottom := bottom - 1;
      cidx := cidx + 1;
    }
  }

  lemma ExchangeStart(img: Image, width: nat, used: nat, bpp: nat, t: nat, b: nat)
    requires IsBpp(bpp) && t != b && t < |img| && b < |img| && used <= width && Rectangular(img, width)
    requires img[b] == Blanked(img[b], used)
    ensures Exchanging(img, img, width, used, bpp, t, b, 0)
  {
    assert TopRow(img[t], img[b], used, bpp, 0) == img[t];
    assert BottomRow(img[t], img[b], used, bpp, 0) == img[b];
  }

  /** All the words of row t with all those of row b. */
  lemma {:induction false} ExchangedIs(img: Image, width: nat, used: nat, bpp: nat, t: nat, b: nat, c: nat)
    requires IsBpp(bpp) && t != b && t < |img| && b < |img| && c <= used <= width && Rectangular(img, width)
    requires img[b] == Blanked(img[b], used)
    ensures Exchanging(img, Exchanged(img, width, used, bpp, t, b, c), width, used, bpp, t, b, c)
  {
    if c == 0 {
      ExchangeStart(img, width, used, bpp, t, b);
    } else {
      ExchangedIs(img, width, used, bpp, t, b, c - 1);
      ExchangeStep(img, Exchanged(img, width, used, bpp, t, b, c - 1), width, used, bpp, t, b, c - 1);
    }
  }

  /** The image after the exchange of rows t and b and the white-out of both paddings. */
  ghost function RowPass(img: Image, width: nat, used: nat, bpp: nat, t: nat, b: nat): (r: Image)
    requires IsBpp(bpp) && t < |img| && b < |img| && used <= width && Rectangular(img, width)
    ensures |r| == |img| && Rectangular(r, width)
  {
    var done := Exchanged(Blank(img, b, used), width, used, bpp, t, b, used);
    Blank(done, t, used)
  }

  ghost function Blank(img: Image, r: nat, used: nat): (out: Image)
    requires r < |img| && used <= |img[r]|
    ensures |out| == |img| && forall k :: 0 <= k < |img| ==> |out[k]| == |img[k]|
  {
    img[r := Blanked(img[r], used)]
  }

  lemma BlankTwice(row: seq<Word>, used: nat)
    requires used <= |row|
    ensures Blanked(Blanked(row, used), used) == Blanked(row, used)
  {
  }

  lemma TurnedIgnoresPadding(row: seq<Word>, used: nat, bpp: nat)
    requires IsBpp(bpp) && used <= |row|
    ensures TurnedRow(Blanked(row, used), used, bpp) == TurnedRow(row, used, bpp)
    ensures Blanked(TurnedRow(row, used, bpp), used) == TurnedRow(row, used, bpp)
  {
  }

  /** One pass turns two rows into each other. */
  lemma RowPassTurns(img: Image, width: nat, used: nat, bpp: nat, t: nat, b: nat)
    requires IsBpp(bpp) && t != b && t < |img| && b < |img| && used <= width && Rectangular(img, width)
    ensures RowPass(img, width, used, bpp, t, b) ==
            img[t := TurnedRow(img[b], used, bpp)][b := TurnedRow(img[t], used, bpp)]
  {
    var white := Blank(img, b, used);
    BlankTwice(img[b], used);
    ExchangedIs(white, width, used, bpp, t, b, used);
    ExchangeEnd(white[t], white[b], used, bpp);
    TurnedIgnoresPadding(img[b], used, bpp);
  }

  lemma DoneStep(img: Image, cur: Image, width: nat, used: nat, bpp: nat, k: nat)
    requires IsBpp(bpp) && used <= width && 2 * k + 1 < |img| && Done(img, cur, width, used, bpp, k)
    ensures Done(img, RowPass(cur, width, used, bpp, k, |img| - 1 - k), width, used, bpp, k + 1)
  {
    var b := |img| - 1 - k;
    RowPassTurns(cur, width, used, bpp, k, b);
    assert cur[k] == img[k] && cur[b] == img[b];
  }

  /** The image after k passes. */
  ghost function Walked(img: Image, width: nat, used: nat, bpp: nat, k: nat): (r: Image)
    requires IsBpp(bpp) && used <= width && Rectangular(img, width) && k <= |img|
    ensures |r| == |img| && Rectangular(r, width)
    decreases k
  {
    if k == 0 then img else RowPass(Walked(img, width, used, bpp, k - 1), width, used, bpp, k - 1, |img| - k)
  }

  lemma {:induction false} WalkedIsDone(img: Image, width: nat, used: nat, bpp: nat, k: nat)
    requires IsBpp(bpp) && used <= width && Rectangular(img, width) && 2 * k <= |img|
    ensures Done(img, Walked(img, width, used, bpp, k), width, used, bpp, k)
  {
    hide Done, RowPass, IsBpp, Rectangular;
    if k == 0 {
      DoneNone(img, width, used, bpp);
    } else {
      WalkedIsDone(img, width, used, bpp, k - 1);
      DoneStep(img, Walked(img, width, used, bpp, k - 1), width, used, bpp, k - 1);
    }
  }

  lemma DoneNone(img: Image, width: nat, used: nat, bpp: nat)
    requires IsBpp(bpp) && used <= width && Rectangular(img, width)
    ensures Done(img, img, width, used, bpp, 0)
  {
  }

  /** Word w of a row that exchanged its words with itself: all but the centre one went there and back. */
  ghost function SelfWord(row: seq<Word>, used: nat, bpp: nat, c: nat, w: nat): Word
    requires IsBpp(bpp) && used <= |row| && w < |row|
  {
    if w >= used then row[w]
    else
      var d := used - 1 - w;
      if w == d then if c > w then Reversed(row[w], bpp) else row[w]
      else if (c > w) == (c > d) then row[w] else Reversed(row[d], bpp)
  }

  ghost predicate Words32(row: seq<Word>) {
    forall w :: 0 <= w < |row| ==> Is32(row[w])
  }

  ghost function SelfRow(row: seq<Word>, used: nat, bpp: nat, c: nat): (r: seq<Word>)
    requires IsBpp(bpp) && used <= |row|
  {
    seq(|row|, w requires 0 <= w < |row| => SelfWord(row, used, bpp, c, w))
  }

  lemma SelfStep(row: seq<Word>, used: nat, bpp: nat, c: nat)
    requires IsBpp(bpp) && c < used <= |row| && Words32(row)
    ensures var r := SelfRow(row, used, bpp, c);
            r[c := Reversed(r[used - 1 - c], bpp)][used - 1 - c := Reversed(r[c], bpp)] ==
            SelfRow(row, used, bpp, c + 1)
  {
    ReversedTwice(row[c], bpp);
    ReversedTwice(row[used - 1 - c], bpp);
  }

  lemma {:induction false} ExchangedSelf(img: Image, width: nat, used: nat, bpp: nat, m: nat, c: nat)
    requires IsBpp(bpp) && m < |img| && c <= used <= width && Rectangular(img, width) && Words32(img[m])
    ensures Exchanged(img, width, used, bpp, m, m, c) == img[m := SelfRow(img[m], used, bpp, c)]
  {
    if c == 0 {
      assert SelfRow(img[m], used, bpp, 0) == img[m];
    } else {
      ExchangedSelf(img, width, used, bpp, m, c - 1);
      SelfStep(img[m], used, bpp, c - 1);
    }
  }

  /** What becomes of a middle row: its words stay, but the centre one is reversed. */
  function MiddleRow(row: seq<Word>, used: nat, bpp: nat): (r: seq<Word>)
    requires IsBpp(bpp) && used <= |row|
  {
    seq(|row|, w requires 0 <= w < |row| =>
      if w >= used then Zero() else if 2 * w + 1 == used then Reversed(row[w], bpp) else row[w])
  }

  /** The middle row of an odd number of rows comes out as MiddleRow says. */
  lemma MiddlePass(img: Image, width: nat, used: nat, bpp: nat, m: nat)
    requires IsBpp(bpp) && m < |img| && used <= width && Rectangular(img, width) && Words32(img[m])
    ensures RowPass(img, width, used, bpp, m, m) == img[m := MiddleRow(img[m], used, bpp)]
  {
    var white := Blank(img, m, used);
    ExchangedSelf(white, width, used, bpp, m, used);
    assert Blanked(SelfRow(white[m], used, bpp, used), used) == MiddleRow(img[m], used, bpp);
  }

  /** What the 180 degree branch leaves: upside down, but for the middle row of an odd number. */
  ghost function Outcome(img: Image, used: nat, bpp: nat): (r: Image)
    requires IsBpp(bpp) && forall k :: 0 <= k < |img| ==> used <= |img[k]|
    ensures |r| == |img| && forall k :: 0 <= k < |img| ==> |r[k]| == |img[|img| - 1 - k]|
  {
    if |img| % 2 == 0 then HalfTurned(img, used, bpp)
    else HalfTurned(img, used, bpp)[|img| / 2 := MiddleRow(img[|img| / 2], used, bpp)]
  }

  lemma WalkedIsOutcome(img: Image, width: nat, used: nat, bpp: nat)
    requires IsBpp(bpp) && used <= width && Rectangular(img, width)
    requires |img| % 2 == 1 ==> Words32(img[|img| / 2])
    ensures Walked(img, width, used, bpp, (|img| + 1) / 2) == Outcome(img, used, bpp)
  {
    hide Done, Outcome, RowPass;
    var n := |img| / 2;
    WalkedIsDone(img, width, used, bpp, n);
    DoneIsOutcome(img, Walked(img, width, used, bpp, n), width, used, bpp, n);
    if |img| % 2 == 1 {
      assert Walked(img, width, used, bpp, n + 1) == RowPass(Walked(img, width, used, bpp, n), width, used, bpp, n, n);
    }
  }

  lemma DoneIsOutcome(img: Image, cur: Image, width: nat, used: nat, bpp: nat, n: nat)
    requires IsBpp(bpp) && used <= width && n == |img| / 2 && Done(img, cur, width, used, bpp, n)
    requires |img| % 2 == 1 ==> Words32(img[n])
    ensures |img| % 2 == 0 ==> cur == Outcome(img, used, bpp)
    ensures |img| % 2 == 1 ==> RowPass(cur, width, used, bpp, n, n) == Outcome(img, used, bpp)
  {
    hide TurnedRow, MiddleRow, RowPass, IsBpp;
    if |img| % 2 == 1 {
      MiddlePass(cur, width, used, bpp, n);
      OddOutcome(img, cur, width, used, bpp, n);
    }
  }

  lemma OddOutcome(img: Image, cur: Image, width: nat, used: nat, bpp: nat, n: nat)
    requires IsBpp(bpp) && used <= width && n == |img| / 2 && |img| % 2 == 1 && Done(img, cur, width, used, bpp, n)
    ensures cur[n := MiddleRow(cur[n], used, bpp)] == Outcome(img, used, bpp)
  {
    hide TurnedRow, MiddleRow, IsBpp;
    var r := cur[n := MiddleRow(cur[n], used, bpp)];
    assert cur[n] == img[n];
    forall k | 0 <= k < |img|
      ensures r[k] == Outcome(img, used, bpp)[k]
    {
      assert k != n ==> k < n || |img| - n <= k;
    }
  }

  /** The white-out of a row that is finished changes nothing. */
  lemma OutcomeIsWhite(img: Image, width: nat, used: nat, bpp: nat, r: nat)
    requires IsBpp(bpp) && used <= width && Rectangular(img, width) && r < |img| && (|img| % 2 == 1 ==> r != |img| / 2)
    ensures Blank(Outcome(img, used, bpp), r, used) == Outcome(img, used, bpp)
  {
    TurnedIgnoresPadding(img[|img| - 1 - r], used, bpp);
    OutcomeRow(img, used, bpp, r);
    hide Outcome, TurnedRow, Blanked, IsBpp, Rectangular;
    PutBack(Outcome(img, used, bpp), r);
  }

  lemma OutcomeRow(img: Image, used: nat, bpp: nat, r: nat)
    requires IsBpp(bpp) && (forall k :: 0 <= k < |img| ==> used <= |img[k]|)
    requires r < |img| && (|img| % 2 == 1 ==> r != |img| / 2)
    ensures Outcome(img, used, bpp)[r] == TurnedRow(img[|img| - 1 - r], used, bpp)
  {
    hide TurnedRow, MiddleRow, IsBpp;
  }

  lemma PutBack(img: Image, r: nat)
    requires r < |img|
    ensures img[r := img[r]] == img
  {
  }

  /** With an even number of rows, or a single word to a row, the image is upside down ... */
  lemma OutcomeTurns(img: Image, width: nat, used: nat, bpp: nat)
    requires IsBpp(bpp) && used <= width && Rectangular(img, width) && (|img| % 2 == 0 || used <= 1)
    ensures Outcome(img, used, bpp) == HalfTurned(img, used, bpp)
  {
    if |img| % 2 == 1 {
      assert MiddleRow(img[|img| / 2], used, bpp) == TurnedRow(img[|img| / 2], used, bpp);
    }
  }

  /** The first word of the middle row stays where it was, ... */
  lemma MiddleFirst(row: seq<Word>, used: nat, bpp: nat)
    requires IsBpp(bpp) && 1 < used <= |row|
    ensures MiddleRow(row, used, bpp)[0] == row[0]
  {
    hide Reversed, IsBpp;
  }

  /** ... where the last one should be. */
  lemma TurnedFirst(row: seq<Word>, used: nat, bpp: nat)
    requires IsBpp(bpp) && 0 < used <= |row|
    ensures TurnedRow(row, used, bpp)[0] == Reversed(row[used - 1], bpp)
  {
    hide Reversed, IsBpp;
  }

  lemma NotBlack(bpp: nat)
    requires IsBpp(bpp)
    ensures Reversed(Zero(), bpp) != Word(seq(32, _ => true))
  {
    assert !Bit(Reversed(Zero(), bpp), 0);
    assert Bit(Word(seq(32, _ => true)), 0);
  }

  /** ... and otherwise some image is not: one black word at the left of its middle row stays there. */
  lemma OutcomeMisses(rows: nat, width: nat, used: nat, bpp: nat)
    returns (img: Image)
    requires IsBpp(bpp) && 1 < used <= width && rows % 2 == 1
    ensures |img| == rows && Rectangular(img, width) && forall r :: 0 <= r < rows ==> Words32(img[r])
    ensures Outcome(img, used, bpp) != HalfTurned(img, used, bpp)
  {
    hide TurnedRow, MiddleRow, Reversed, IsBpp;
    var black := Word(seq(32, _ => true));
    var row := [black] + seq(width - 1, _ => Zero());
    img := seq(rows, _ => row);
    MiddleFirst(row, used, bpp);
    TurnedFirst(row, used, bpp);
    NotBlack(bpp);
    assert Outcome(img, used, bpp)[rows / 2][0] == black;
    assert HalfTurned(img, used, bpp)[rows / 2][0] == Reversed(Zero(), bpp);
  }

  /** Before the first line of a strip there is a previous strip, unless the image starts. */
  lemma PreviousStrip(ss: seq<Strip>, rows: nat, i: nat)
    requires WellFormed(ss, rows) && i < |ss| && ss[i].first > 0
    ensures i > 0 && ss[i - 1].first + ss[i - 1].numLines == ss[i].first && ss[i - 1].numLines > 0
  {
    assert i > 0 ==> Adjoins(ss, i - 1);
  }

  lemma StripBetween(ss: seq<Strip>, rows: nat, i: nat, j: nat)
    requires WellFormed(ss, rows) && i + 1 < j < |ss|
    ensures ss[i].first + ss[i].numLines < ss[j].first
  {
    assert Adjoins(ss, i) && Before(ss[i + 1], ss[j]);
  }

  /** The middle row of an odd number is not alone in its strip. */
  ghost predicate MiddleHasCompany(ss: seq<Strip>, rows: nat) {
    rows % 2 == 1 ==> forall s :: s in ss && s.first == rows / 2 ==> s.numLines > 1
  }

  /** While rows are left the test that ends the walk is false. */
  lemma PointersApart(ss: seq<Strip>, rows: nat, width: nat, used: nat, k: nat, ti: nat, tl: nat, bi: nat, bl: nat)
    requires WellFormed(ss, rows) && 0 < used <= width && k < (rows + 1) / 2
    requires ti < |ss| && tl < ss[ti].numLines && ss[ti].first + tl == k
    requires bi < |ss| && bl < ss[bi].numLines && ss[bi].first + bl == rows - 1 - k
    ensures !(ti == bi && Start(tl, width) > Start(bl, width) + used - 1) && bi != ti - 1
  {
    if k < rows - 1 - k {
      StripOrder(ss, rows, ti, tl, bi, bl);
      if ti == bi {
        LineApart(tl, bl, width);
      }
    } else {
      StripOfRow(ss, rows, ti, tl, bi, bl);
    }
  }

  lemma StripOfRow(ss: seq<Strip>, rows: nat, i: nat, l: nat, j: nat, m: nat)
    requires WellFormed(ss, rows) && i < |ss| && j < |ss| && l < ss[i].numLines && m < ss[j].numLines
    requires ss[i].first + l == ss[j].first + m
    ensures i == j && l == m
  {
    if i < j {
      StripsInOrder(ss, rows, i, j);
    } else if j < i {
      StripsInOrder(ss, rows, j, i);
    }
  }

  lemma StripsInOrder(ss: seq<Strip>, rows: nat, i: nat, j: nat)
    requires WellFormed(ss, rows) && i < j < |ss|
    ensures ss[i].first + ss[i].numLines <= ss[j].first
  {
    assert Before(ss[i], ss[j]);
  }

  /** The strip of row r is the only one that may start there. */
  lemma OnlyStartHere(ss: seq<Strip>, rows: nat, i: nat, r: nat)
    requires WellFormed(ss, rows) && i < |ss| && ss[i].first <= r < ss[i].first + ss[i].numLines
    ensures forall s :: s in ss && s.first == r ==> s == ss[i]
  {
    forall j | 0 <= j < |ss| && ss[j].first == r
      ensures j == i
    {
      StripOfRow(ss, rows, i, r - ss[i].first, j, 0);
    }
  }

  /** When none is left it is true, unless a middle row is alone in its strip: the pointers then pass unseen. */
  lemma PointersCrossed(ss: seq<Strip>, rows: nat, width: nat, used: nat, k: nat, ti: nat, tl: nat, bi: nat, bl: nat)
    requires WellFormed(ss, rows) && 0 < used <= width && k == (rows + 1) / 2 < rows
    requires ti < |ss| && tl < ss[ti].numLines && ss[ti].first + tl == k
    requires bi < |ss| && bl < ss[bi].numLines && ss[bi].first + bl == rows - 1 - k
    ensures ((ti == bi && Start(tl, width) > Start(bl, width) + used - 1) || bi == ti - 1) <==> MiddleHasCompany(ss, rows)
  {
    StripOrder(ss, rows, bi, bl, ti, tl);
    if ti == bi {
      LineApart(bl, tl, width);
      if rows % 2 == 1 {
        OnlyStartHere(ss, rows, ti, rows / 2);
      }
    } else if bi + 1 == ti {
      NextStrip(ss, rows, bi);
      if rows % 2 == 1 {
        OnlyStartHere(ss, rows, if ss[ti].first == rows / 2 then ti else bi, rows / 2);
      }
    } else {
      StripBetween(ss, rows, bi, ti);
      if rows % 2 == 1 {
        NextStrip(ss, rows, bi);
        assert Before(ss[bi + 1], ss[ti]);
        assert ss[bi + 1] in ss && ss[bi + 1].first == rows / 2 && ss[bi + 1].numLines == 1;
      }
    }
  }

  /** One row from each end: exchange and white-out. */
  method TurnRows(ss: seq<Strip>, width: nat, used: nat, bpp: nat, ti: nat, top0: nat, ceiling: nat,
                  bi: nat, bottom0: int, ghost tl: nat, ghost bl: nat, ghost img: Image, ghost cur: Image)
    returns (top: nat, bottom: int)
    requires IsBpp(bpp) && used <= width
    requires WellFormed(ss, |img|) && Rectangular(img, width)
    requires ti < |ss| && tl < ss[ti].numLines && top0 == Start(tl, width) && ceiling == Start(ss[ti].numLines, width)
    requires bi < |ss| && bl < ss[bi].numLines && bottom0 == Start(bl, width) + used - 1
    requires ss[bi].first + bl < |img| && cur == Blank(img, ss[bi].first + bl, used) && Shows(ss, cur)
    modifies Buffers(ss)
    ensures top == Start(tl + 1, width) && bottom == Start(bl, width) - 1
    ensures ss[ti].first + tl < |img|
    ensures Shows(ss, RowPass(img, width, used, bpp, ss[ti].first + tl, ss[bi].first + bl))
  {
    hide Shows, WellFormed;
    RowOfLine(ss, |img|, ti, tl);
    top, bottom := ExchangeRows(ss, width, used, bpp, ti, top0, ceiling, bi, bottom0, tl, bl, cur);
    ghost var done := Exchanged(cur, width, used, bpp, ss[ti].first + tl, ss[bi].first + bl, used);
    ghost var last;
    top, last := WhitenTop(ss, width, used, ti, top, tl, done);
  }

  /** The top pointer goes on to the next strip when it has reached the end of its own. */
  method NextTop(ss: seq<Strip>, rows: nat, width: nat, ti0: nat, top0: nat, ceiling0: nat, lastTop0: int, ghost tl0: nat)
    returns (ti: nat, top: nat, ceiling: nat, lastTop: int, ghost tl: nat)
    requires WellFormed(ss, rows) && 0 < width && ti0 < |ss| && lastTop0 == ti0 - 1
    requires tl0 <= ss[ti0].numLines && ss[ti0].first + tl0 < rows
    requires top0 == Start(tl0, width) && ceiling0 == Start(ss[ti0].numLines, width)
    ensures ti < |ss| && lastTop == ti - 1
    ensures tl < ss[ti].numLines && ss[ti].first + tl == ss[ti0].first + tl0
    ensures top == Start(tl, width) && ceiling == Start(ss[ti].numLines, width)
  {
    ti, top, ceiling, lastTop, tl := ti0, top0, ceiling0, lastTop0, tl0;
    AtCeiling(tl, ss[ti].numLines, width);
    if top >= ceiling {
      NextStrip(ss, rows, ti);
      lastTop, ti, top, tl := ti, ti + 1, 0, 0;
      ceiling := width * ss[ti].numLines;
      StartIsProduct(ss[ti].numLines, width);
    }
  }

  /** The bottom pointer goes back to the previous strip when it has left its own. */
  method NextBottom(ss: seq<Strip>, rows: nat, width: nat, bi0: nat, bottom0: int, ghost bl0: nat)
    returns (bi: nat, bottom: int, ghost bl: nat)
    requires WellFormed(ss, rows) && 0 < width && bi0 < |ss|
    requires bl0 <= ss[bi0].numLines && 0 < ss[bi0].first + bl0 && bottom0 == Start(bl0, width) - 1
    ensures bi < |ss| && bl < ss[bi].numLines && ss[bi].first + bl == ss[bi0].first + bl0 - 1
    ensures bottom == Start(bl, width) + width - 1
  {
    bi, bottom, bl := bi0, bottom0, bl0;
    AtCeiling(0, bl, width);
    if bottom < 0 {
      PreviousStrip(ss, rows, bi);
      bi := bi - 1;
      bottom, bl := width * ss[bi].numLines - 1, ss[bi].numLines;
      StartIsProduct(bl, width);
    }
    bl := bl - 1;
  }

  /** The pointers after k passes: just past row k - 1 from above, just before row rows - k from below. */
  ghost predicate Pointing(ss: seq<Strip>, rows: nat, width: nat, k: nat, ti: nat, top: nat, ceiling: nat, lastTop: int,
                           bi: nat, bottom: int, tl: nat, bl: nat) {
    && ti < |ss| && bi < |ss| && lastTop == ti - 1
    && tl <= ss[ti].numLines && ss[ti].first + tl == k && bl <= ss[bi].numLines && ss[bi].first + bl == rows - k
    && top == Start(tl, width) && ceiling == Start(ss[ti].numLines, width) && bottom == Start(bl, width) - 1
  }

  /** One turn of the loop: on to the next rows, white-out, test, exchange. */
  method Pass(ss: seq<Strip>, rows: nat, width: nat, used: nat, bpp: nat, ghost k: nat, ti0: nat, top0: nat, ceiling0: nat,
              lastTop0: int, bi0: nat, bottom0: int, ghost tl0: nat, ghost bl0: nat, ghost img: Image)
    returns (done: bool, ti: nat, top: nat, ceiling: nat, lastTop: int, bi: nat, bottom: int, ghost tl: nat, ghost bl: nat)
    requires IsBpp(bpp) && |img| == rows && 0 < used <= width && k <= (rows + 1) / 2 < rows
    requires WellFormed(ss, rows) && Rectangular(img, width) && MiddleHasCompany(ss, rows)
    requires rows % 2 == 1 ==> Words32(img[rows / 2])
    requires Pointing(ss, rows, width, k, ti0, top0, ceiling0, lastTop0, bi0, bottom0, tl0, bl0)
    requires Shows(ss, Walked(img, width, used, bpp, k))
    modifies Buffers(ss)
    ensures done ==> Shows(ss, Outcome(img, used, bpp))
    ensures !done ==> k < (rows + 1) / 2 && Shows(ss, Walked(img, width, used, bpp, k + 1)) &&
                      Pointing(ss, rows, width, k + 1, ti, top, ceiling, lastTop, bi, bottom, tl, bl)
  {
    hide Shows, WellFormed, Rectangular, RowPass, MiddleHasCompany, Outcome, Start, Blanked, IsBpp, Words32;
    ti, top, ceiling, lastTop, tl := NextTop(ss, rows, width, ti0, top0, ceiling0, lastTop0, tl0);
    bi, bottom, bl := NextBottom(ss, rows, width, bi0, bottom0, bl0);
    ghost var cur, white := Walked(img, width, used, bpp, k), [];
    bottom, white := WhitenBottom(ss, width, used, bi, bottom, bl, cur);
    WalkStops(ss, rows, width, used, k, ti, tl, bi, bl);
    done := (ti == bi && top > bottom) || bi == lastTop;
    if done {
      WalkedIsOutcome(img, width, used, bpp);
      OutcomeIsWhite(img, width, used, bpp, rows - 1 - k);
    } else {
      top, bottom := TurnRows(ss, width, used, bpp, ti, top, ceiling, bi, bottom, tl, bl, cur, white);
      tl := tl + 1;
    }
  }

  lemma PointingAtStart(ss: seq<Strip>, rows: nat, width: nat)
    requires WellFormed(ss, rows)
    ensures ss != []
    ensures var last := |ss| - 1;
            Pointing(ss, rows, width, 0, 0, 0, width * ss[0].numLines, -1, last, width * ss[last].numLines - 1,
                     0, ss[last].numLines)
  {
    FirstAndLast(ss, rows);
    StartIsProduct(ss[0].numLines, width);
    StartIsProduct(ss[|ss| - 1].numLines, width);
  }

  /** The words of a row that hold image data. */
  method WordsUsed(unpaddedBytes: nat, width: nat) returns (used: nat)
    requires 0 < unpaddedBytes <= 4 * width
    ensures used == (unpaddedBytes + 3) / 4 && 0 < used <= width
  {
    used := unpaddedBytes / 4;
    if unpaddedBytes % 4 != 0 {
      used := used + 1;
    }
  }

  /** The 180 degree branch. */
  method Rotate180(ss: seq<Strip>, rows: nat, width: nat, unpaddedBytes: nat, bpp: nat, ghost img: Image)
    requires IsBpp(bpp) && |img| == rows > 0 && 0 < unpaddedBytes <= 4 * width
    requires WellFormed(ss, rows) && Rectangular(img, width) && Shows(ss, img)
    requires MiddleHasCompany(ss, rows) && (rows % 2 == 1 ==> Words32(img[rows / 2]))
    modifies Buffers(ss)
    ensures Shows(ss, Outcome(img, (unpaddedBytes + 3) / 4, bpp))
  {
    PointingAtStart(ss, rows, width);
    ManyRows(ss, rows);
    hide Shows, WellFormed, Rectangular, MiddleHasCompany, Outcome, Pointing, IsBpp, Words32;
    var used := WordsUsed(unpaddedBytes, width);
    assert Walked(img, width, used, bpp, 0) == img;
    hide Walked;
    var ti, top, lastTop := 0, 0, -1;
    var ceiling := width * ss[0].numLines;
    var bi := |ss| - 1;
    var bottom := width * ss[bi].numLines - 1;
    ghost var tl: nat, bl: nat := 0, ss[bi].numLines;
    var ridx := 0;
    while ridx <= rows
      invariant 0 <= ridx <= (rows + 1) / 2 && ti >= 0 && top >= 0 && ceiling >= 0 && bi >= 0
      invariant Pointing(ss, rows, width, ridx, ti, top, ceiling, lastTop, bi, bottom, tl, bl)
      invariant Shows(ss, Walked(img, width, used, bpp, ridx))
    {
      var done;
      done, ti, top, ceiling, lastTop, bi, bottom, tl, bl :=
        Pass(ss, rows, width, used, bpp, ridx, ti, top, ceiling, lastTop, bi, bottom, tl, bl, img);
      if done {
        break;
      }
      ridx := ridx + 1;
    }
  }

  /** The walk stops after the last pass, and not before. */
  lemma WalkStops(ss: seq<Strip>, rows: nat, width: nat, used: nat, k: nat, ti: nat, tl: nat, bi: nat, bl: nat)
    requires WellFormed(ss, rows) && 0 < used <= width && k <= (rows + 1) / 2 < rows && MiddleHasCompany(ss, rows)
    requires ti < |ss| && tl < ss[ti].numLines && ss[ti].first + tl == k
    requires bi < |ss| && bl < ss[bi].numLines && ss[bi].first + bl == rows - 1 - k
    ensures ((ti == bi && Start(tl, width) > Start(bl, width) + used - 1) || bi == ti - 1) <==> k == (rows + 1) / 2
  {
    if k < (rows + 1) / 2 {
      PointersApart(ss, rows, width, used, k, ti, tl, bi, bl);
    } else {
      PointersCrossed(ss, rows, width, used, k, ti, tl, bi, bl);
    }
  }

  lemma ManyRows(ss: seq<Strip>, rows: nat)
    requires WellFormed(ss, rows) && rows > 0 && MiddleHasCompany(ss, rows)
    ensures rows > 1
  {
    assert ss[0] in ss;
  }

  // ---- When the walk ends, and what it leaves. ----

  /** A pointer is on line l of strip i, which is row r. */
  ghost predicate OnRow(ss: seq<Strip>, i: nat, l: nat, r: int) {
    i < |ss| && l < ss[i].numLines && ss[i].first + l == r
  }

  /** The test that ends the walk. */
  ghost predicate Crossing(width: nat, used: nat, ti: nat, tl: nat, bi: nat, bl: nat) {
    (ti == bi && Start(tl, width) > Start(bl, width) + used - 1) || bi == ti - 1
  }

  /** The test is true after k passes, with the pointers on rows k and rows - 1 - k. */
  ghost predicate StopsAt(ss: seq<Strip>, rows: nat, width: nat, used: nat, k: nat) {
    exists ti, tl, bi, bl ::
      OnRow(ss, ti, tl, k) && OnRow(ss, bi, bl, rows - 1 - k) && Crossing(width, used, ti, tl, bi, bl)
  }

  /** The walk ends after k passes. */
  ghost predicate Ends(ss: seq<Strip>, rows: nat, width: nat, used: nat, k: nat) {
    k < rows && StopsAt(ss, rows, width, used, k) && forall j :: 0 <= j < k ==> !StopsAt(ss, rows, width, used, j)
  }

  /** Every row is on some line of some strip. */
  lemma {:induction false} RowSomewhere(ss: seq<Strip>, rows: nat, r: nat, i: nat) returns (at: nat, l: nat)
    requires WellFormed(ss, rows) && r < rows && i < |ss| && ss[i].first <= r
    ensures OnRow(ss, at, l, r)
    decreases |ss| - i
  {
    if r < ss[i].first + ss[i].numLines {
      at, l := i, r - ss[i].first;
    } else {
      NextStrip(ss, rows, i);
      at, l := RowSomewhere(ss, rows, r, i + 1);
    }
  }

  /** A middle row alone in its strip keeps the pointers apart for good. */
  lemma NeverCrossing(ss: seq<Strip>, rows: nat, width: nat, used: nat, k: nat, ti: nat, tl: nat, bi: nat, bl: nat)
    requires WellFormed(ss, rows) && (rows + 1) / 2 <= k < rows && !MiddleHasCompany(ss, rows)
    requires OnRow(ss, ti, tl, k) && OnRow(ss, bi, bl, rows - 1 - k)
    ensures !Crossing(width, used, ti, tl, bi, bl)
  {
    var s :| s in ss && s.first == rows / 2 && s.numLines <= 1;
    var m :| 0 <= m < |ss| && ss[m] == s;
    StripOrder(ss, rows, bi, bl, m, 0);
    StripOrder(ss, rows, m, 0, ti, tl);
  }

  lemma NotBefore(ss: seq<Strip>, rows: nat, width: nat, used: nat, k: nat)
    requires WellFormed(ss, rows) && 0 < used <= width && k < (rows + 1) / 2
    ensures !StopsAt(ss, rows, width, used, k)
  {
    hide WellFormed;
    if StopsAt(ss, rows, width, used, k) {
      var ti, tl, bi, bl :|
        OnRow(ss, ti, tl, k) && OnRow(ss, bi, bl, rows - 1 - k) && Crossing(width, used, ti, tl, bi, bl);
      PointersApart(ss, rows, width, used, k, ti, tl, bi, bl);
    }
  }

  /** The walk ends exactly when the middle row has company, and then after half of the rows. */
  lemma EndsExactly(ss: seq<Strip>, rows: nat, width: nat, used: nat, k: nat)
    requires WellFormed(ss, rows) && 0 < used <= width && k < rows
    ensures Ends(ss, rows, width, used, k) <==> MiddleHasCompany(ss, rows) && k == (rows + 1) / 2
  {
    hide WellFormed, StopsAt, MiddleHasCompany;
    forall j | 0 <= j < (rows + 1) / 2
      ensures !StopsAt(ss, rows, width, used, j)
    {
      NotBefore(ss, rows, width, used, j);
    }
    if MiddleHasCompany(ss, rows) {
      StopsInTheMiddle(ss, rows, width, used);
    } else if k >= (rows + 1) / 2 {
      NeverStops(ss, rows, width, used, k);
    }
  }

  lemma NeverStops(ss: seq<Strip>, rows: nat, width: nat, used: nat, k: nat)
    requires WellFormed(ss, rows) && (rows + 1) / 2 <= k < rows && !MiddleHasCompany(ss, rows)
    ensures !StopsAt(ss, rows, width, used, k)
  {
    hide WellFormed, MiddleHasCompany;
    if StopsAt(ss, rows, width, used, k) {
      var ti, tl, bi, bl :|
        OnRow(ss, ti, tl, k) && OnRow(ss, bi, bl, rows - 1 - k) && Crossing(width, used, ti, tl, bi, bl);
      NeverCrossing(ss, rows, width, used, k, ti, tl, bi, bl);
    }
  }

  lemma StopsInTheMiddle(ss: seq<Strip>, rows: nat, width: nat, used: nat)
    requires WellFormed(ss, rows) && 0 < used <= width && MiddleHasCompany(ss, rows)
    ensures (rows + 1) / 2 < rows && StopsAt(ss, rows, width, used, (rows + 1) / 2)
  {
    FirstAndLast(ss, rows);
    ManyRows(ss, rows);
    hide WellFormed, MiddleHasCompany;
    var k := (rows + 1) / 2;
    var ti, tl := RowSomewhere(ss, rows, k, 0);
    var bi, bl := RowSomewhere(ss, rows, rows - 1 - k, 0);
    PointersCrossed(ss, rows, width, used, k, ti, tl, bi, bl);
    assert Crossing(width, used, ti, tl, bi, bl);
  }

  ghost predicate Page32(img: Image, rows: nat, width: nat) {
    |img| == rows && Rectangular(img, width) && forall r :: 0 <= r < |img| ==> Words32(img[r])
  }

  /** What the branch leaves when it ends after k passes: the test comes after the white-out of the bottom row. */
  ghost function Left(img: Image, width: nat, used: nat, bpp: nat, k: nat): Image
    requires IsBpp(bpp) && used <= width && Rectangular(img, width) && k < |img|
  {
    Blank(Walked(img, width, used, bpp, k), |img| - 1 - k, used)
  }

  ghost predicate TurnsAll(rows: nat, width: nat, used: nat, bpp: nat, k: nat)
    requires IsBpp(bpp) && used <= width && k < rows
  {
    forall img: Image :: Page32(img, rows, width) ==> Left(img, width, used, bpp, k) == HalfTurned(img, used, bpp)
  }

  lemma LeftIsOutcome(img: Image, rows: nat, width: nat, used: nat, bpp: nat)
    requires IsBpp(bpp) && used <= width && Page32(img, rows, width) && (rows + 1) / 2 < rows
    ensures Left(img, width, used, bpp, (rows + 1) / 2) == Outcome(img, used, bpp)
  {
    hide Rectangular, Words32, Outcome, Blank, Walked;
    WalkedIsOutcome(img, width, used, bpp);
    OutcomeIsWhite(img, width, used, bpp, rows - 1 - (rows + 1) / 2);
  }

  /**
   The 180 degree branch ends, with every image upside down, if and only if the middle
   row of an odd number is not alone in its strip and is at most one word long.
   */
  lemma UpsideDownExactly(ss: seq<Strip>, rows: nat, width: nat, used: nat, bpp: nat)
    requires IsBpp(bpp) && WellFormed(ss, rows) && 0 < used <= width
    ensures (exists k: nat :: Ends(ss, rows, width, used, k) && TurnsAll(rows, width, used, bpp, k)) <==>
            MiddleHasCompany(ss, rows) && (rows % 2 == 0 || used == 1)
  {
    hide WellFormed, Ends, MiddleHasCompany, TurnsAll, IsBpp;
    forall k | 0 <= k < rows
      ensures Ends(ss, rows, width, used, k) <==> MiddleHasCompany(ss, rows) && k == (rows + 1) / 2
    {
      EndsExactly(ss, rows, width, used, k);
    }
    EndsInTime(ss, rows, width, used);
    if MiddleHasCompany(ss, rows) {
      StopsInTheMiddle(ss, rows, width, used);
      TurnsAllExactly(rows, width, used, bpp);
    }
  }

  lemma EndsInTime(ss: seq<Strip>, rows: nat, width: nat, used: nat)
    ensures forall k: nat :: Ends(ss, rows, width, used, k) ==> k < rows
  {
  }

  lemma TurnsAllExactly(rows: nat, width: nat, used: nat, bpp: nat)
    requires IsBpp(bpp) && 0 < used <= width && (rows + 1) / 2 < rows
    ensures TurnsAll(rows, width, used, bpp, (rows + 1) / 2) <==> rows % 2 == 0 || used == 1
  {
    hide IsBpp, Left, HalfTurned, Outcome;
    if rows % 2 == 0 || used == 1 {
      forall img: Image | Page32(img, rows, width)
        ensures Left(img, width, used, bpp, (rows + 1) / 2) == HalfTurned(img, used, bpp)
      {
        LeftIsOutcome(img, rows, width, used, bpp);
        OutcomeTurns(img, width, used, bpp);
      }
    } else {
      var img := OutcomeMisses(rows, width, used, bpp);
      assert Page32(img, rows, width);
      LeftIsOutcome(img, rows, width, used, bpp);
    }
  }

  // ---- A middle row alone in its strip. ----

  lemma TurnedTwice(row: seq<Word>, used: nat, bpp: nat)
    requires IsBpp(bpp) && used <= |row| && Words32(row)
    ensures TurnedRow(TurnedRow(row, used, bpp), used, bpp) == Blanked(row, used)
  {
    hide IsBpp, Reversed, Is32;
    forall w | 0 <= w < |row|
      ensures TurnedRow(TurnedRow(row, used, bpp), used, bpp)[w] == Blanked(row, used)[w]
    {
      if w < used {
        assert Is32(row[w]);
        ReversedTwice(row[w], bpp);
      }
    }
  }

  /** Row r of the image after k passes, k past the middle: rows passed twice are as they were, their padding white. */
  ghost function AgainRow(img: Image, used: nat, bpp: nat, k: nat, r: nat): seq<Word>
    requires IsBpp(bpp) && |img| % 2 == 1 && r < |img| && forall j :: 0 <= j < |img| ==> used <= |img[j]|
  {
    if r == |img| / 2 then MiddleRow(img[r], used, bpp)
    else if |img| - k <= r < k then Blanked(img[r], used)
    else TurnedRow(img[|img| - 1 - r], used, bpp)
  }

  ghost predicate Again(img: Image, cur: Image, width: nat, used: nat, bpp: nat, k: nat)
    requires IsBpp(bpp) && |img| % 2 == 1 && used <= width && Rectangular(img, width)
  {
    |cur| == |img| && forall r :: 0 <= r < |img| ==> cur[r] == AgainRow(img, used, bpp, k, r)
  }

  lemma AgainStep(img: Image, cur: Image, width: nat, used: nat, bpp: nat, k: nat)
    requires IsBpp(bpp) && |img| % 2 == 1 && used <= width && Page32(img, |img|, width) && Rectangular(cur, width)
    requires |img| / 2 < k < |img| && Again(img, cur, width, used, bpp, k)
    ensures Again(img, RowPass(cur, width, used, bpp, k, |img| - 1 - k), width, used, bpp, k + 1)
  {
    hide IsBpp, TurnedRow, Blanked, MiddleRow, RowPass, Words32;
    var b := |img| - 1 - k;
    RowPassTurns(cur, width, used, bpp, k, b);
    assert cur[k] == AgainRow(img, used, bpp, k, k) && cur[b] == AgainRow(img, used, bpp, k, b);
    TurnedTwice(img[k], used, bpp);
    TurnedTwice(img[b], used, bpp);
  }

  lemma {:induction false} WalkedAgain(img: Image, width: nat, used: nat, bpp: nat, k: nat)
    requires IsBpp(bpp) && |img| % 2 == 1 && used <= width && Page32(img, |img|, width) && |img| / 2 < k <= |img|
    ensures Again(img, Walked(img, width, used, bpp, k), width, used, bpp, k)
    decreases k
  {
    hide IsBpp, RowPass, Words32, TurnedRow, MiddleRow, Blanked;
    if k == |img| / 2 + 1 {
      WalkedIsOutcome(img, width, used, bpp);
    } else {
      WalkedAgain(img, width, used, bpp, k - 1);
      AgainStep(img, Walked(img, width, used, bpp, k - 1), width, used, bpp, k - 1);
    }
  }

  /**
   If the middle row is alone in its strip the walk does not end where it should: it
   passes over all rows a second time, which puts them back, until the strips run out.
   */
  lemma AloneUndoes(ss: seq<Strip>, img: Image, width: nat, used: nat, bpp: nat, k: nat)
    requires IsBpp(bpp) && WellFormed(ss, |img|) && 0 < used <= width && Page32(img, |img|, width)
    requires !MiddleHasCompany(ss, |img|)
    ensures k < |img| ==> !Ends(ss, |img|, width, used, k)
    ensures forall r :: 0 <= r < |img| && r != |img| / 2 ==>
              Walked(img, width, used, bpp, |img|)[r] == Blanked(img[r], used)
  {
    if k < |img| {
      EndsExactly(ss, |img|, width, used, k);
    }
    hide Ends;
    WalkedAgain(img, width, used, bpp, |img|);
    forall r | 0 <= r < |img| && r != |img| / 2
      ensures Walked(img, width, used, bpp, |img|)[r] == Blanked(img[r], used)
    {
      assert Walked(img, width, used, bpp, |img|)[r] == AgainRow(img, used, bpp, |img|, r);
    }
  }
}

/**
 What the two rotations of generators/src/nup_rotate.c mean for single pixels,
 and how they agree: a quarter turn taken twice is a half turn.
 */
module NupTurns {
  import opened NupWord
  import opened NupStrips
  import opened NupHalfTurn
  import opened NupQuarterTurn

  /** Every word of the image has its 32 bits. */
  ghost predicate Image32(img: Image) {
    forall r, w :: 0 <= r < |img| && 0 <= w < |img[r]| ==> Is32(img[r][w])
  }

  /** An unpadded image upside down: pixel c of row r comes from the opposite place. */
  lemma HalfTurnPixel(img: Image, bpp: nat, width: nat, r: nat, c: nat)
    requires IsBpp(bpp) && Rectangular(img, width) && r < |img| && c < Start(width, PerWord(bpp))
    ensures WordOf(c, bpp) < width && WordOf(Start(width, PerWord(bpp)) - 1 - c, bpp) < width
    ensures PixelOf(HalfTurned(img, width, bpp), bpp, r, c) ==
            PixelOf(img, bpp, |img| - 1 - r, Start(width, PerWord(bpp)) - 1 - c)
  {
    hide WordOf, PlaceOf, PerWord, IsBpp, Px, Start, Reversed;
    var opposite := Start(width, PerWord(bpp)) - 1 - c;
    PixelPlace(c, bpp, width);
    PixelPlace(opposite, bpp, width);
    OtherEnd(c, bpp, width);
    PlaceIs(opposite, bpp, width - 1 - WordOf(c, bpp));
    ReversedPixels(img[|img| - 1 - r][width - 1 - WordOf(c, bpp)], bpp, PlaceOf(c, bpp));
  }

  lemma TurnedRow32(row: seq<Word>, used: nat, bpp: nat, w: nat)
    requires IsBpp(bpp) && used <= |row| && w < |row|
    ensures Is32(TurnedRow(row, used, bpp)[w])
  {
    hide IsBpp;
  }

  /** Row r of the image upside down. */
  lemma HalfTurnRow(img: Image, bpp: nat, width: nat, r: nat)
    requires IsBpp(bpp) && Rectangular(img, width) && r < |img|
    ensures Rectangular(HalfTurned(img, width, bpp), width)
    ensures HalfTurned(img, width, bpp)[r] == TurnedRow(img[|img| - 1 - r], width, bpp)
  {
    hide IsBpp, TurnedRow;
  }

  lemma HalfTurn32(img: Image, bpp: nat, width: nat)
    requires IsBpp(bpp) && Rectangular(img, width)
    ensures Image32(HalfTurned(img, width, bpp))
  {
    hide IsBpp, TurnedRow, HalfTurned, Is32;
    var half := HalfTurned(img, width, bpp);
    forall r, w | 0 <= r < |half| && 0 <= w < |half[r]|
      ensures Is32(half[r][w])
    {
      HalfTurnRow(img, bpp, width, r);
      TurnedRow32(img[|img| - 1 - r], width, bpp, w);
    }
  }

  lemma RowTwice(row: seq<Word>, bpp: nat)
    requires IsBpp(bpp) && forall w :: 0 <= w < |row| ==> Is32(row[w])
    ensures TurnedRow(TurnedRow(row, |row|, bpp), |row|, bpp) == row
  {
    hide IsBpp, Reversed, Is32;
    forall w | 0 <= w < |row|
      ensures TurnedRow(TurnedRow(row, |row|, bpp), |row|, bpp)[w] == row[w]
    {
      ReversedTwice(row[w], bpp);
    }
  }

  /** Turning an unpadded image upside down twice gives it back. */
  lemma HalfTurnTwice(img: Image, bpp: nat, width: nat)
    requires IsBpp(bpp) && Rectangular(img, width) && Image32(img)
    ensures HalfTurned(HalfTurned(img, width, bpp), width, bpp) == img
  {
    hide IsBpp, TurnedRow, Is32, HalfTurned;
    var half := HalfTurned(img, width, bpp);
    forall r | 0 <= r < |img|
      ensures HalfTurned(half, width, bpp)[r] == img[r]
    {
      HalfTurnRow(img, bpp, width, |img| - 1 - r);
      HalfTurnRow(half, bpp, width, r);
      RowTwice(img[r], bpp);
    }
  }

  ghost predicate SamePixel(a: Image, b: Image, bpp: nat, r: nat, c: nat)
    requires IsBpp(bpp)
  {
    && r < |a| && r < |b| && WordOf(c, bpp) < |a[r]| && WordOf(c, bpp) < |b[r]|
    && PixelOf(a, bpp, r, c) == PixelOf(b, bpp, r, c)
  }

  lemma SameWord(a: Image, b: Image, bpp: nat, width: nat, r: nat, w: nat)
    requires IsBpp(bpp) && Rectangular(a, width) && Rectangular(b, width) && |a| == |b| && Image32(a) && Image32(b)
    requires r < |a| && w < width
    requires forall c :: 0 <= c < Start(width, PerWord(bpp)) ==> SamePixel(a, b, bpp, r, c)
    ensures a[r][w] == b[r][w]
  {
    hide Px, WordOf, PlaceOf, PerWord, Start, IsBpp;
    forall k | 0 <= k < PerWord(bpp)
      ensures Px(a[r][w], bpp, k) == Px(b[r][w], bpp, k)
    {
      var c := Start(w, PerWord(bpp)) + k;
      LineApart(w, width, PerWord(bpp));
      PlaceIs(c, bpp, w);
      assert SamePixel(a, b, bpp, r, c);
    }
    WordIsPixels(a[r][w], b[r][w], bpp);
  }

  /** Images with the same pixels are the same. */
  lemma ImageIsPixels(a: Image, b: Image, bpp: nat, width: nat)
    requires IsBpp(bpp) && Rectangular(a, width) && Rectangular(b, width) && |a| == |b| && Image32(a) && Image32(b)
    requires forall r, c :: 0 <= r < |a| && 0 <= c < Start(width, PerWord(bpp)) ==> SamePixel(a, b, bpp, r, c)
    ensures a == b
  {
    hide SamePixel, PerWord, IsBpp, Start;
    forall r | 0 <= r < |a|
      ensures a[r] == b[r]
    {
      forall w | 0 <= w < width
        ensures a[r][w] == b[r][w]
      {
        SameWord(a, b, bpp, width, r, w);
      }
    }
  }

  /** A pixel after two quarter turns. */
  lemma TwicePixel(img: Image, bpp: nat, width: nat, height: nat, out: Image, once: Image, out2: Image, twice: Image,
                   r: nat, c: nat)
    requires IsBpp(bpp) && Rectangular(img, width) && |img| == Start(height, PerWord(bpp)) <= |out2|
    requires QuarterTurned(img, bpp, Start(width, PerWord(bpp)), height, out, once)
    requires Start(width, PerWord(bpp)) <= |out|
    requires QuarterTurned(once[..Start(width, PerWord(bpp))], bpp, |img|, width, out2, twice)
    requires r < |img| && c < Start(width, PerWord(bpp))
    ensures SamePixel(twice, HalfTurned(img, width, bpp), bpp, r, c)
  {
    hide WordOf, PlaceOf, PerWord, IsBpp, PixelOf, Start, HalfTurned;
    var horz := Start(width, PerWord(bpp));
    PixelPlace(c, bpp, width);
    assert PixelTurned(once[..horz], bpp, twice, r, c);
    assert PixelTurned(img, bpp, once, horz - 1 - c, r);
    PixelOfRow(once, horz, bpp, horz - 1 - c, r);
    HalfTurnPixel(img, bpp, width, r, c);
  }

  lemma PixelOfRow(img: Image, n: nat, bpp: nat, r: nat, c: nat)
    requires IsBpp(bpp) && n <= |img| && r < n && WordOf(c, bpp) < |img[r]|
    ensures PixelOf(img[..n], bpp, r, c) == PixelOf(img, bpp, r, c)
  {
  }

  /** The 90 degree rotation, taken twice, is the 180 degree rotation. */
  lemma QuarterTwiceIsHalf(img: Image, bpp: nat, width: nat, height: nat, out: Image, once: Image, out2: Image, twice: Image)
    requires IsBpp(bpp) && Rectangular(img, width) && Image32(img) && |img| == Start(height, PerWord(bpp)) <= |out2|
    requires QuarterTurned(img, bpp, Start(width, PerWord(bpp)), height, out, once)
    requires Start(width, PerWord(bpp)) <= |out|
    requires QuarterTurned(once[..Start(width, PerWord(bpp))], bpp, |img|, width, out2, twice)
    ensures twice[..|img|] == Outcome(img, width, bpp)
  {
    hide WordOf, PlaceOf, PerWord, IsBpp, PixelOf, Start, Outcome, PixelTurned;
    var half, all := HalfTurned(img, width, bpp), twice[..|img|];
    forall r, c | 0 <= r < |img| && 0 <= c < Start(width, PerWord(bpp))
      ensures SamePixel(all, half, bpp, r, c)
    {
      TwicePixel(img, bpp, width, height, out, once, out2, twice, r, c);
      PixelOfRow(twice, |img|, bpp, r, c);
    }
    HalfTurn32(img, bpp, width);
    ImageIsPixels(all, half, bpp, width);
    EvenRows(bpp, height);
    OutcomeTurns(img, width, width, bpp);
  }

  /** Whole words of pixels are an even number. */
  lemma {:induction false} EvenRows(bpp: nat, height: nat)
    requires IsBpp(bpp)
    ensures Start(height, PerWord(bpp)) % 2 == 0
  {
    if height > 0 {
      EvenRows(bpp, height - 1);
    }
  }
}

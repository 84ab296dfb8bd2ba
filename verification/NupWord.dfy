/**
 32-bit words of image data as the rotation code sees them (generators/src/
 nup_rotate.c): bits most significant first, `bpp` bits to a pixel, so that
 pixel 0 is the leftmost on the page.
 */
module NupWord {

  /** A word of an image buffer; `Is32` says that it has its 32 bits. */
  datatype Word = Word(bits: seq<bool>)

  predicate Is32(w: Word) {
    |w.bits| == 32
  }

  function Bit(w: Word, i: int): bool {
    0 <= i < |w.bits| && w.bits[i]
  }

  function Zero(): (w: Word)
    ensures Is32(w) && forall i :: 0 <= i < 32 ==> !Bit(w, i)
  {
    Word(seq(32, _ => false))
  }

  function Shl(w: Word, n: nat): (r: Word)
    ensures Is32(r) && forall i {:trigger Bit(r, i)} :: 0 <= i < 32 ==> Bit(r, i) == (i + n < 32 && Bit(w, i + n))
  {
    Word(seq(32, i => i + n < 32 && Bit(w, i + n)))
  }

  function Shr(w: Word, n: nat): (r: Word)
    ensures Is32(r) && forall i {:trigger Bit(r, i)} :: 0 <= i < 32 ==> Bit(r, i) == (i >= n && Bit(w, i - n))
  {
    Word(seq(32, i => i >= n && Bit(w, i - n)))
  }

  function And(v: Word, w: Word): (r: Word)
    ensures Is32(r) && forall i {:trigger Bit(r, i)} :: 0 <= i < 32 ==> Bit(r, i) == (Bit(v, i) && Bit(w, i))
  {
    Word(seq(32, i => Bit(v, i) && Bit(w, i)))
  }

  function Or(v: Word, w: Word): (r: Word)
    ensures Is32(r) && forall i {:trigger Bit(r, i)} :: 0 <= i < 32 ==> Bit(r, i) == (Bit(v, i) || Bit(w, i))
  {
    Word(seq(32, i => Bit(v, i) || Bit(w, i)))
  }

  predicate IsBpp(bpp: nat) {
    bpp == 1 || bpp == 2 || bpp == 4 || bpp == 8
  }

  /** The mask of the leftmost pixel: 0x80000000, 0xc0000000, 0xf0000000, 0xff000000. */
  function Mask(bpp: nat): (r: Word)
    ensures Is32(r) && forall i {:trigger Bit(r, i)} :: 0 <= i < 32 ==> Bit(r, i) == (i < bpp)
  {
    Word(seq(32, i => i < bpp))
  }

  /** Pixels to a word. */
  function PerWord(bpp: nat): (n: nat)
    requires IsBpp(bpp)
    ensures n * bpp == 32
  {
    32 / bpp
  }

  /** Where pixel k starts, from either end of the word. */
  lemma PixelFits(bpp: nat, k: nat)
    requires IsBpp(bpp) && k < PerWord(bpp)
    ensures k * bpp + bpp <= 32
    ensures (PerWord(bpp) - 1 - k) * bpp == 32 - bpp - k * bpp
  {
    if bpp == 1 {
    } else if bpp == 2 {
    } else if bpp == 4 {
    } else {
      assert bpp == 8;
    }
  }

  lemma PixelsApart(bpp: nat, j: nat, k: nat)
    requires j < k
    ensures j * bpp + bpp <= k * bpp
  {
    assert (j + 1) * bpp <= k * bpp;
  }

  /** The bits from `at` on that make one pixel. */
  function PxAt(w: Word, bpp: nat, at: nat): (p: seq<bool>)
    ensures |p| == bpp && forall t :: 0 <= t < bpp ==> p[t] == Bit(w, at + t)
  {
    seq(bpp, t => Bit(w, at + t))
  }

  /** Pixel k, counted from the left. */
  function Px(w: Word, bpp: nat, k: nat): (p: seq<bool>)
    ensures |p| == bpp
  {
    PxAt(w, bpp, k * bpp)
  }

  function White(bpp: nat): seq<bool> {
    seq(bpp, _ => false)
  }

  /** A word is its pixels. */
  lemma WordIsPixels(v: Word, w: Word, bpp: nat)
    requires IsBpp(bpp) && Is32(v) && Is32(w)
    requires forall k :: 0 <= k < PerWord(bpp) ==> Px(v, bpp, k) == Px(w, bpp, k)
    ensures v == w
  {
    forall i | 0 <= i < 32
      ensures v.bits[i] == w.bits[i]
    {
      BitInPixel(bpp, i);
      var at, t := (i / bpp) * bpp, i % bpp;
      assert Px(v, bpp, i / bpp) == Px(w, bpp, i / bpp);
      assert PxAt(v, bpp, at)[t] == Bit(v, at + t);
      assert PxAt(w, bpp, at)[t] == Bit(w, at + t);
    }
    assert v.bits == w.bits;
  }

  lemma BitInPixel(bpp: nat, i: nat)
    requires IsBpp(bpp) && i < 32
    ensures i / bpp < PerWord(bpp) && i == (i / bpp) * bpp + i % bpp
    ensures 0 <= 32 - bpp - i + 2 * (i % bpp) < 32
  {
    if bpp == 1 {
    } else if bpp == 2 {
    } else if bpp == 4 {
    } else {
      assert bpp == 8;
    }
  }

  /** Both loops of the rotation code move one pixel with these shifts. */
  function MoveBits(into: Word, from: Word, bpp: nat, n: nat, bit: nat): (r: Word)
    requires bit + bpp <= 32
    ensures Is32(r)
  {
    Or(into, Shr(And(Shl(from, n), Mask(bpp)), 32 - bpp - bit))
  }

  lemma MoveBitsMeans(into: Word, from: Word, bpp: nat, n: nat, bit: nat, at: nat)
    requires n + bpp <= 32 && at + bpp + bit == 32
    requires PxAt(into, bpp, at) == White(bpp)
    ensures var r := MoveBits(into, from, bpp, n, bit);
            && PxAt(r, bpp, at) == PxAt(from, bpp, n)
            && forall i :: 0 <= i < 32 && !(at <= i < at + bpp) ==> Bit(r, i) == Bit(into, i)
  {
    forall i | at <= i < at + bpp
      ensures !Bit(into, i)
    {
      assert PxAt(into, bpp, at)[i - at] == White(bpp)[i - at];
    }
    assert PxAt(MoveBits(into, from, bpp, n, bit), bpp, at) == PxAt(from, bpp, n);
  }

  /** Pixel n of `from` lands in the c-th place from the right; the others stay. */
  lemma MovePixelMeans(into: Word, from: Word, bpp: nat, n: nat, c: nat)
    requires IsBpp(bpp) && n < PerWord(bpp) && c < PerWord(bpp)
    requires Px(into, bpp, PerWord(bpp) - 1 - c) == White(bpp)
    ensures c * bpp + bpp <= 32
    ensures var r := MoveBits(into, from, bpp, n * bpp, c * bpp);
            && Px(r, bpp, PerWord(bpp) - 1 - c) == Px(from, bpp, n)
            && forall k :: 0 <= k < PerWord(bpp) && k != PerWord(bpp) - 1 - c ==> Px(r, bpp, k) == Px(into, bpp, k)
  {
    PixelFits(bpp, n);
    PixelFits(bpp, c);
    var r := MoveBits(into, from, bpp, n * bpp, c * bpp);
    var m := PerWord(bpp) - 1 - c;
    MoveBitsMeans(into, from, bpp, n * bpp, c * bpp, m * bpp);
    forall k | 0 <= k < PerWord(bpp) && k != m
      ensures Px(r, bpp, k) == Px(into, bpp, k)
    {
      OtherPixel(into, r, bpp, k, m);
    }
  }

  lemma OtherPixel(v: Word, w: Word, bpp: nat, k: nat, m: nat)
    requires IsBpp(bpp) && k < PerWord(bpp) && m < PerWord(bpp) && k != m
    requires forall i :: 0 <= i < 32 && !(m * bpp <= i < m * bpp + bpp) ==> Bit(w, i) == Bit(v, i)
    ensures Px(w, bpp, k) == Px(v, bpp, k)
  {
    PixelFits(bpp, k);
    if k < m {
      PixelsApart(bpp, k, m);
    } else {
      PixelsApart(bpp, m, k);
    }
  }

  lemma ZeroIsWhite(bpp: nat, k: nat)
    requires IsBpp(bpp) && k < PerWord(bpp)
    ensures Px(Zero(), bpp, k) == White(bpp)
  {
    PixelFits(bpp, k);
  }

  /** The same bit of the opposite pixel. */
  function Opposite(bpp: nat, i: nat): (j: nat)
    requires IsBpp(bpp) && i < 32
    ensures j < 32
  {
    BitInPixel(bpp, i);
    32 - bpp - i + 2 * (i % bpp)
  }

  /** The word with its pixels in the opposite order, the bits of each pixel in theirs. */
  function Reversed(w: Word, bpp: nat): (r: Word)
    requires IsBpp(bpp)
    ensures Is32(r) && forall i {:trigger Bit(r, i)} :: 0 <= i < 32 ==> Bit(r, i) == Bit(w, Opposite(bpp, i))
  {
    Word(seq(32, i requires 0 <= i < 32 => Bit(w, Opposite(bpp, i))))
  }

  lemma ReversedBit(w: Word, bpp: nat, at: nat, to: nat, t: nat)
    requires IsBpp(bpp) && t < bpp && (at + t) % bpp == t && at + bpp + to == 32
    ensures Bit(Reversed(w, bpp), at + t) == Bit(w, to + t)
  {
  }

  lemma ReversedPixels(w: Word, bpp: nat, k: nat)
    requires IsBpp(bpp) && k < PerWord(bpp)
    ensures Px(Reversed(w, bpp), bpp, k) == Px(w, bpp, PerWord(bpp) - 1 - k)
  {
    PixelFits(bpp, k);
    var m := PerWord(bpp) - 1 - k;
    var at, to := k * bpp, m * bpp;
    forall t | 0 <= t < bpp
      ensures Px(Reversed(w, bpp), bpp, k)[t] == Px(w, bpp, m)[t]
    {
      BitOfPixel(bpp, k, t);
      ReversedBit(w, bpp, at, to, t);
      assert PxAt(Reversed(w, bpp), bpp, at)[t] == Bit(Reversed(w, bpp), at + t);
      assert PxAt(w, bpp, to)[t] == Bit(w, to + t);
    }
  }

  lemma BitOfPixel(bpp: nat, k: nat, t: nat)
    requires IsBpp(bpp) && k < PerWord(bpp) && t < bpp
    ensures (k * bpp + t) % bpp == t
  {
    if bpp == 1 {
    } else if bpp == 2 {
    } else if bpp == 4 {
    } else {
      assert bpp == 8;
    }
  }

  /** Reversing twice gives the word back. */
  lemma ReversedTwice(w: Word, bpp: nat)
    requires IsBpp(bpp) && Is32(w)
    ensures Reversed(Reversed(w, bpp), bpp) == w
  {
    forall k | 0 <= k < PerWord(bpp)
      ensures Px(Reversed(Reversed(w, bpp), bpp), bpp, k) == Px(w, bpp, k)
    {
      ReversedPixels(Reversed(w, bpp), bpp, k);
      ReversedPixels(w, bpp, PerWord(bpp) - 1 - k);
    }
    WordIsPixels(Reversed(Reversed(w, bpp), bpp), w, bpp);
  }

  /** The first k pixels of p have been moved to the other end of v. */
  predicate Swapped(v: Word, p: Word, bpp: nat, k: nat)
    requires IsBpp(bpp) && k <= PerWord(bpp)
  {
    forall j :: 0 <= j < PerWord(bpp) ==>
      Px(v, bpp, j) == if j >= PerWord(bpp) - k then Px(p, bpp, PerWord(bpp) - 1 - j) else White(bpp)
  }

  lemma SwappedNone(p: Word, bpp: nat)
    requires IsBpp(bpp)
    ensures Swapped(Zero(), p, bpp, 0)
  {
    forall j | 0 <= j < PerWord(bpp)
      ensures Px(Zero(), bpp, j) == White(bpp)
    {
      ZeroIsWhite(bpp, j);
    }
  }

  lemma SwapStep(v: Word, p: Word, bpp: nat, k: nat)
    requires IsBpp(bpp) && k < PerWord(bpp) && Swapped(v, p, bpp, k)
    ensures k * bpp + bpp <= 32 && (k + 1) * bpp == k * bpp + bpp
    ensures Swapped(MoveBits(v, p, bpp, k * bpp, k * bpp), p, bpp, k + 1)
  {
    PixelFits(bpp, k);
    MovePixelMeans(v, p, bpp, k, k);
    hide Px, White, MoveBits, IsBpp, PerWord;
    var r := MoveBits(v, p, bpp, k * bpp, k * bpp);
    forall j | 0 <= j < PerWord(bpp)
      ensures Px(r, bpp, j) == if j >= PerWord(bpp) - k - 1 then Px(p, bpp, PerWord(bpp) - 1 - j) else White(bpp)
    {
      assert j != PerWord(bpp) - 1 - k ==> Px(r, bpp, j) == Px(v, bpp, j);
    }
  }

  /** The loop runs exactly while there are pixels left. */
  lemma BitsLeft(bpp: nat, k: nat)
    requires IsBpp(bpp) && k <= PerWord(bpp)
    ensures k * bpp < 32 <==> k < PerWord(bpp)
  {
    if k < PerWord(bpp) {
      PixelFits(bpp, k);
    }
  }

  lemma SwappedAll(v: Word, p: Word, bpp: nat)
    requires IsBpp(bpp) && Is32(v) && Swapped(v, p, bpp, PerWord(bpp))
    ensures v == Reversed(p, bpp)
  {
    forall j | 0 <= j < PerWord(bpp)
      ensures Px(v, bpp, j) == Px(Reversed(p, bpp), bpp, j)
    {
      ReversedPixels(p, bpp, j);
    }
    WordIsPixels(v, Reversed(p, bpp), bpp);
  }

  /** nup_pixel_swap. */
  method PixelSwap(p: Word, bpp: nat) returns (v: Word)
    requires IsBpp(bpp)
    ensures v == Reversed(p, bpp)
  {
    hide Swapped, Reversed, PerWord, MoveBits, IsBpp;
    v := Zero();
    var ii := 0;
    ghost var k := 0;
    SwappedNone(p, bpp);
    while ii < 32
      invariant 0 <= k <= PerWord(bpp) && ii == k * bpp
      invariant Is32(v) && Swapped(v, p, bpp, k)
      decreases 32 - ii
    {
      BitsLeft(bpp, k);
      SwapStep(v, p, bpp, k);
      v := MoveBits(v, p, bpp, ii, ii);
      ii := ii + bpp;
      k := k + 1;
    }
    BitsLeft(bpp, k);
    SwappedAll(v, p, bpp);
  }
}

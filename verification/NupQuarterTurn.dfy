/**
 The 90 degree branch of nup_rotate (generators/src/nup_rotate.c): the source is
 read down its columns of words, 32 / bpp pixel columns at a time; their pixels
 are gathered in as many output words, which are written to the destination
 strips from the right end of their rows to the left.
 */
module NupQuarterTurn {
  import opened NupWord
  import opened NupStrips

  /** Every row has a word number `col`. */
  ghost predicate HasWord(img: Image, col: nat) {
    forall r :: 0 <= r < |img| ==> col < |img[r]|
  }

  lemma RowsHaveWord(img: Image, width: nat, col: nat)
    requires Rectangular(img, width) && col < width
    ensures HasWord(img, col)
  {
  }

  /** Output word n of a column of words after `count` source rows from `first` on. */
  ghost function Gather(img: Image, bpp: nat, col: nat, n: nat, first: nat, count: nat): (w: Word)
    requires IsBpp(bpp) && n < PerWord(bpp) && count <= PerWord(bpp)
    requires first + count <= |img| && HasWord(img, col)
    ensures Is32(w)
    decreases count
  {
    if count == 0 then Zero()
    else
      PixelFits(bpp, count - 1);
      MoveBits(Gather(img, bpp, col, n, first, count - 1), img[first + count - 1][col], bpp, n * bpp, (count - 1) * bpp)
  }

  /** The whole output buffer. */
  ghost function Gathered(img: Image, bpp: nat, col: nat, first: nat, count: nat): (ws: seq<Word>)
    requires IsBpp(bpp) && count <= PerWord(bpp)
    requires first + count <= |img| && HasWord(img, col)
    ensures |ws| == PerWord(bpp)
  {
    seq(PerWord(bpp), n requires 0 <= n < PerWord(bpp) => Gather(img, bpp, col, n, first, count))
  }

  lemma GatheredAt(img: Image, bpp: nat, col: nat, first: nat, count: nat, n: nat)
    requires IsBpp(bpp) && count <= PerWord(bpp) && first + count <= |img| && HasWord(img, col) && n < PerWord(bpp)
    ensures Gathered(img, bpp, col, first, count)[n] == Gather(img, bpp, col, n, first, count)
  {
  }

  /** Source pixels fill the word from the right. */
  lemma {:induction false} GatherMeans(img: Image, bpp: nat, col: nat, n: nat, first: nat, count: nat, k: nat)
    requires IsBpp(bpp) && n < PerWord(bpp) && count <= PerWord(bpp) && k < PerWord(bpp)
    requires first + count <= |img| && HasWord(img, col)
    ensures Px(Gather(img, bpp, col, n, first, count), bpp, PerWord(bpp) - 1 - k) ==
            if k < count then Px(img[first + k][col], bpp, n) else White(bpp)
    decreases count
  {
    hide MoveBits, Px, White, IsBpp, PerWord, Zero, Is32;
    if count == 0 {
      ZeroIsWhite(bpp, PerWord(bpp) - 1 - k);
    } else {
      GatherMeans(img, bpp, col, n, first, count - 1, k);
      GatherMeans(img, bpp, col, n, first, count - 1, count - 1);
      MovePixelMeans(Gather(img, bpp, col, n, first, count - 1), img[first + count - 1][col], bpp, n, count - 1);
    }
  }

  /** Every output word takes its pixel of one source word. */
  function Moved(words: seq<Word>, data: Word, bpp: nat, bit: nat): (ws: seq<Word>)
    requires bit + bpp <= 32
    ensures |ws| == |words|
  {
    seq(|words|, n requires 0 <= n < |words| => MoveBits(words[n], data, bpp, n * bpp, bit))
  }

  /** The inner loop. */
  method MoveRow(output: array<Word>, data: Word, bpp: nat, bit: nat)
    requires IsBpp(bpp) && output.Length == PerWord(bpp) && bit + bpp <= 32
    modifies output
    ensures output[..] == Moved(old(output[..]), data, bpp, bit)
  {
    hide Or, Shr, And, Shl, Mask;
    var n := 0;
    while n < 32 / bpp
      invariant 0 <= n <= output.Length
      invariant forall k :: 0 <= k < n ==> output[k] == MoveBits(old(output[k]), data, bpp, k * bpp, bit)
      invariant forall k :: n <= k < output.Length ==> output[k] == old(output[k])
    {
      output[n] := Or(output[n], Shr(And(Shl(data, n * bpp), Mask(bpp)), 32 - bpp - bit));
      n := n + 1;
    }
  }

  /** One source row after the other gathers a column. */
  lemma GatherStep(img: Image, bpp: nat, col: nat, first: nat, count: nat)
    requires IsBpp(bpp) && count < PerWord(bpp)
    requires first + count < |img| && HasWord(img, col)
    ensures count * bpp + bpp <= 32 && (count + 1) * bpp == count * bpp + bpp
    ensures Moved(Gathered(img, bpp, col, first, count), img[first + count][col], bpp, count * bpp) ==
            Gathered(img, bpp, col, first, count + 1)
  {
    hide MoveBits;
    PixelFits(bpp, count);
  }

  /** The words of one column of the destination, from row g down, the first n of them written. */
  function PutColumn(out: Image, g: nat, w: nat, words: seq<Word>, n: nat, width: nat): (r: Image)
    requires n <= |words| && g + n <= |out| && w < width && Rectangular(out, width)
    ensures |r| == |out| && Rectangular(r, width)
    decreases n
  {
    if n == 0 then out else Put(PutColumn(out, g, w, words, n - 1, width), g + n - 1, w, words[n - 1])
  }

  lemma {:induction false} PutColumnAt(out: Image, g: nat, w: nat, words: seq<Word>, n: nat, width: nat, r: nat, v: nat)
    requires n <= |words| && g + n <= |out| && w < width && Rectangular(out, width) && r < |out| && v < width
    ensures PutColumn(out, g, w, words, n, width)[r][v] ==
            if v == w && g <= r < g + n then words[r - g] else out[r][v]
    decreases n
  {
    if n > 0 {
      PutColumnAt(out, g, w, words, n - 1, width, r, v);
    }
  }

  /** Strips of the same height, as link_graphics_renderer allocates them for a rotation. */
  ghost predicate SameHeight(ss: seq<Strip>, height: nat) {
    forall s :: s in ss ==> s.numLines == height
  }

  lemma HeightAt(ss: seq<Strip>, height: nat, i: nat)
    requires SameHeight(ss, height) && i < |ss|
    ensures ss[i].numLines == height
  {
    assert ss[i] in ss;
  }

  function Blank(n: nat): (ws: seq<Word>)
    ensures |ws| == n
  {
    seq(n, _ => Zero())
  }

  lemma ModOnce(n: nat, height: nat)
    requires n < 2 * height
    ensures n % height == if n < height then n else n - height
  {
    if n >= height {
      assert (n - height) % height == n - height;
      assert n == height + (n - height);
      assert (height + (n - height)) % height == (n - height) % height;
    }
  }

  /** Writes one word at line (line % height) of this strip or the next. */
  method WriteWord(dst: seq<Strip>, oi: nat, strip: nat, line: nat, width: nat, w: nat, x: Word,
                   ghost height: nat, ghost out: Image)
    requires WellFormed(dst, |out|) && Shows(dst, out) && Rectangular(out, width) && w < width
    requires oi < |dst| && SameHeight(dst, height) && line < 2 * height && dst[oi].first + line < |out|
    requires strip == if line < height then oi else oi + 1
    modifies Buffers(dst)
    ensures Shows(dst, Put(out, dst[oi].first + line, w, x))
  {
    hide Shows;
    HeightAt(dst, height, oi);
    ModOnce(line, height);
    if line >= height {
      NextStrip(dst, |out|, oi);
      HeightAt(dst, height, oi + 1);
    }
    var at := (line % dst[oi].numLines) * width + w;
    StartIsProduct(line % height, width);
    Store(dst, width, strip, at, x, line % height, w, out);
  }

  /** The write-out of a full output buffer, which may run over into the next strip. */
  method WriteOut(dst: seq<Strip>, output: array<Word>, oi: nat, orc: nat, horz: nat, width: nat, w: nat,
                  ghost height: nat, ghost out: Image)
    requires WellFormed(dst, |out|) && Shows(dst, out) && Rectangular(out, width) && output !in Buffers(dst)
    requires oi < |dst| && SameHeight(dst, height) && orc <= height && output.Length <= height && w < width
    requires dst[oi].first + orc + output.Length <= horz <= |out|
    modifies output, Buffers(dst)
    ensures output[..] == Blank(output.Length)
    ensures Shows(dst, PutColumn(out, dst[oi].first + orc, w, old(output[..]), output.Length, width))
  {
    hide Shows, WellFormed, Rectangular, SameHeight;
    HeightAt(dst, height, oi);
    ghost var g, words := dst[oi].first + orc, output[..];
    var next := -1;
    var n := 0;
    while n < output.Length
      invariant 0 <= n <= output.Length && next == (if n == 0 || n - 1 + orc < height then -1 else oi + 1)
      invariant forall k :: 0 <= k < n ==> output[k] == Zero()
      invariant output[n..] == words[n..]
      invariant Shows(dst, PutColumn(out, g, w, words, n, width))
    {
      if n + orc >= dst[oi].numLines && next == -1 {
        next := oi + 1;
      }
      if n + orc >= horz {
        break;
      }
      var strip := if next == -1 then oi else next;
      ghost var cur := PutColumn(out, g, w, words, n, width);
      WriteWord(dst, oi, strip, n + orc, width, w, output[n], height, cur);
      output[n] := Zero();
      n := n + 1;
    }
  }

  /** The destination after j words to a row have been gathered and written, from the right. */
  ghost function Columns(out: Image, img: Image, bpp: nat, col: nat, g: nat, width: nat, j: nat): (r: Image)
    requires IsBpp(bpp) && j <= width && g + PerWord(bpp) <= |out| && Rectangular(out, width)
    requires Start(width, PerWord(bpp)) == |img| && HasWord(img, col)
    ensures |r| == |out| && Rectangular(r, width)
    decreases j
  {
    if j == 0 then out
    else
      RowsBelow(j - 1, width, PerWord(bpp));
      var words := Gathered(img, bpp, col, Start(j - 1, PerWord(bpp)), PerWord(bpp));
      PutColumn(Columns(out, img, bpp, col, g, width, j - 1), g, width - j, words, PerWord(bpp), width)
  }

  lemma RowsBelow(j: nat, width: nat, per: nat)
    requires j < width
    ensures Start(j, per) + per <= Start(width, per)
  {
    LineApart(j, width, per);
  }

  lemma GatheredNone(img: Image, bpp: nat, col: nat, first: nat)
    requires IsBpp(bpp) && first <= |img| && HasWord(img, col)
    ensures Gathered(img, bpp, col, first, 0) == Blank(PerWord(bpp))
  {
  }

  /** The word of the source at a column of words, found through the byte address. */
  method ReadWord(src: seq<Strip>, si: nat, il: nat, srcWidth: nat, colCount: nat, bpp: nat, ghost cb: nat, ghost img: Image)
    returns (data: Word)
    requires IsBpp(bpp) && WellFormed(src, |img|) && Shows(src, img) && Rectangular(img, srcWidth)
    requires si < |src| && il < src[si].numLines && cb < srcWidth && colCount == Start(cb, PerWord(bpp))
    ensures src[si].first + il < |img| && data == img[src[si].first + il][cb]
  {
    hide Shows, WellFormed, Rectangular, PerWord;
    LookIn(src, srcWidth, img, si, il, cb);
    BlockWord(cb, bpp);
    WordAddress(il, srcWidth, cb);
    var byteWidth := 4 * srcWidth;
    var address := il * byteWidth + (colCount * bpp) / 8;
    data := src[si].data[address / 4];
  }

  lemma WordAddress(line: nat, width: nat, word: nat)
    ensures line * (4 * width) + (32 * word) / 8 == 4 * (Start(line, width) + word)
  {
    StartIsProduct(line, width);
    assert line * (4 * width) == 4 * (line * width);
  }

  lemma {:induction false} BlockWord(cb: nat, bpp: nat)
    requires IsBpp(bpp)
    ensures Start(cb, PerWord(bpp)) * bpp == 32 * cb
  {
    if cb > 0 {
      BlockWord(cb - 1, bpp);
      assert (PerWord(bpp) + Start(cb - 1, PerWord(bpp))) * bpp == PerWord(bpp) * bpp + Start(cb - 1, PerWord(bpp)) * bpp;
    }
  }

  /** The reader goes on to the next source strip at the end of one. */
  method NextSource(src: seq<Strip>, ghost rows: nat, si0: nat, il0: nat) returns (si: nat, il: nat)
    requires WellFormed(src, rows) && si0 < |src| && il0 <= src[si0].numLines && src[si0].first + il0 < rows
    ensures si < |src| && il < src[si].numLines && src[si].first + il == src[si0].first + il0
  {
    si, il := si0, il0;
    if il >= src[si].numLines {
      NextStrip(src, rows, si);
      si, il := si + 1, 0;
    }
  }

  /** One source word: read, and its pixels moved into the output buffer. */
  method TakeRow(src: seq<Strip>, output: array<Word>, si: nat, il: nat, srcWidth: nat, colCount: nat, bpp: nat, bit: nat,
                 ghost cb: nat, ghost first: nat, ghost count: nat, ghost img: Image)
    requires IsBpp(bpp) && WellFormed(src, |img|) && Shows(src, img) && Rectangular(img, srcWidth) && output !in Buffers(src)
    requires si < |src| && il < src[si].numLines && cb < srcWidth && colCount == Start(cb, PerWord(bpp))
    requires count < PerWord(bpp) && bit == count * bpp && src[si].first + il == first + count < |img| && HasWord(img, cb)
    requires output[..] == Gathered(img, bpp, cb, first, count)
    modifies output
    ensures output[..] == Gathered(img, bpp, cb, first, count + 1)
  {
    hide Shows, WellFormed, PerWord;
    var data := ReadWord(src, si, il, srcWidth, colCount, bpp, cb, img);
    GatherStep(img, bpp, cb, first, count);
    assert |output[..]| == output.Length;
    MoveRow(output, data, bpp, bit);
  }

  lemma FullWord(bpp: nat, count: nat)
    requires IsBpp(bpp) && count < PerWord(bpp)
    ensures count * bpp + bpp == (count + 1) * bpp && (count * bpp + bpp == 32 <==> count + 1 == PerWord(bpp))
  {
    PixelFits(bpp, count);
  }

  /** One column of source words: rows of pixels of the destination from row g on. */
  method ColumnBlock(src: seq<Strip>, dst: seq<Strip>, output: array<Word>, numRows: nat, srcWidth: nat, width: nat,
                     horz: nat, bpp: nat, colCount: nat, oi: nat, orc: nat,
                     ghost height: nat, ghost cb: nat, ghost img: Image, ghost out: Image)
    requires IsBpp(bpp) && |img| == numRows == Start(width, PerWord(bpp)) && 0 < width
    requires WellFormed(src, |img|) && Shows(src, img) && Rectangular(img, srcWidth)
    requires WellFormed(dst, |out|) && Shows(dst, out) && Rectangular(out, width)
    requires Buffers(src) !! Buffers(dst) && output !in Buffers(src) && output !in Buffers(dst)
    requires cb < srcWidth && colCount == Start(cb, PerWord(bpp)) && output.Length == PerWord(bpp)
    requires oi < |dst| && SameHeight(dst, height) && orc <= height && PerWord(bpp) <= height
    requires dst[oi].first + orc + PerWord(bpp) <= horz <= |out|
    modifies output, Buffers(dst)
    ensures Shows(src, img) && Shows(dst, Columns(out, img, bpp, cb, dst[oi].first + orc, width, width))
  {
    hide Shows, WellFormed, Rectangular, SameHeight, PerWord, HasWord, Gathered, PutColumn;
    RowsHaveWord(img, srcWidth, cb);
    RowsBelow(0, width, PerWord(bpp));
    ghost var g, per := dst[oi].first + orc, PerWord(bpp);
    ClearOutput(output);
    ghost var j: nat, count: nat := 0, 0;
    var si, il, bit, w, row := 0, 0, 0, width - 1, 0;
    FirstStrip(src, numRows);
    GatheredNone(img, bpp, cb, 0);
    while row < numRows
      invariant 0 <= row && 0 <= si < |src| && 0 <= il <= src[si].numLines && src[si].first + il == row
      invariant Start(j, per) + per <= numRows
      invariant 0 <= j < width && w == width - 1 - j && count < per && bit == count * bpp && row == Start(j, per) + count
      invariant output[..] == Gathered(img, bpp, cb, Start(j, per), count)
      invariant Shows(src, img) && Shows(dst, Columns(out, img, bpp, cb, g, width, j))
    {
      si, il := NextSource(src, numRows, si, il);
      TakeRow(src, output, si, il, srcWidth, colCount, bpp, bit, cb, Start(j, per), count, img);
      FullWord(bpp, count);
      bit := bit + bpp;
      count := count + 1;
      if bit == 32 {
        WriteOut(dst, output, oi, orc, horz, width, w, height, Columns(out, img, bpp, cb, g, width, j));
        j, count := j + 1, 0;
        bit := 0;
        w := w - 1;
        if w < 0 {
          break;
        }
        RowsBelow(j, width, per);
        GatheredNone(img, bpp, cb, Start(j, per));
      }
      il := il + 1;
      row := row + 1;
    }
  }

  method ClearOutput(output: array<Word>)
    modifies output
    ensures output[..] == Blank(output.Length)
  {
    var row := 0;
    while row < output.Length
      invariant 0 <= row <= output.Length && forall k :: 0 <= k < row ==> output[k] == Zero()
    {
      output[row] := Zero();
      row := row + 1;
    }
  }

  lemma FirstStrip(ss: seq<Strip>, rows: nat)
    requires WellFormed(ss, rows)
    ensures ss != [] && ss[0].first == 0
  {
  }

  /** The destination after cb columns of source words. */
  ghost function Blocks(out: Image, img: Image, bpp: nat, srcWidth: nat, width: nat, cb: nat): (r: Image)
    requires IsBpp(bpp) && cb <= srcWidth && Rectangular(img, srcWidth) && Rectangular(out, width)
    requires Start(width, PerWord(bpp)) == |img| && Start(cb, PerWord(bpp)) <= |out|
    ensures |r| == |out| && Rectangular(r, width)
    decreases cb
  {
    if cb == 0 then out
    else
      RowsHaveWord(img, srcWidth, cb - 1);
      Columns(Blocks(out, img, bpp, srcWidth, width, cb - 1), img, bpp, cb - 1, Start(cb - 1, PerWord(bpp)), width, width)
  }

  lemma {:induction false} ColumnsAt(out: Image, img: Image, bpp: nat, col: nat, g: nat, width: nat, j: nat, r: nat, v: nat)
    requires IsBpp(bpp) && j <= width && g + PerWord(bpp) <= |out| && Rectangular(out, width)
    requires Start(width, PerWord(bpp)) == |img| && HasWord(img, col) && r < |out| && v < width
    ensures Start(width - 1 - v, PerWord(bpp)) + PerWord(bpp) <= |img|
    ensures Columns(out, img, bpp, col, g, width, j)[r][v] ==
            if g <= r < g + PerWord(bpp) && width - j <= v
            then Gather(img, bpp, col, r - g, Start(width - 1 - v, PerWord(bpp)), PerWord(bpp)) else out[r][v]
    decreases j
  {
    hide Gather, Gathered, PerWord, HasWord, PutColumn;
    RowsBelow(width - 1 - v, width, PerWord(bpp));
    if j > 0 {
      ColumnsAt(out, img, bpp, col, g, width, j - 1, r, v);
      RowsBelow(j - 1, width, PerWord(bpp));
      var words := Gathered(img, bpp, col, Start(j - 1, PerWord(bpp)), PerWord(bpp));
      PutColumnAt(Columns(out, img, bpp, col, g, width, j - 1), g, width - j, words, PerWord(bpp), width, r, v);
      if g <= r < g + PerWord(bpp) {
        GatheredAt(img, bpp, col, Start(j - 1, PerWord(bpp)), PerWord(bpp), r - g);
      }
    }
  }

  /** The word that belongs at word v of row r of the turned image. */
  ghost function TurnedAt(img: Image, bpp: nat, width: nat, r: nat, v: nat): (w: Word)
    requires IsBpp(bpp) && Start(width, PerWord(bpp)) == |img| && v < width && HasWord(img, WordOf(r, bpp))
    ensures Is32(w)
  {
    RowsBelow(width - 1 - v, width, PerWord(bpp));
    Gather(img, bpp, WordOf(r, bpp), PlaceOf(r, bpp), Start(width - 1 - v, PerWord(bpp)), PerWord(bpp))
  }

  lemma {:induction false} BlocksAt(out: Image, img: Image, bpp: nat, srcWidth: nat, width: nat, cb: nat, r: nat, v: nat)
    requires IsBpp(bpp) && cb <= srcWidth && Rectangular(img, srcWidth) && Rectangular(out, width)
    requires Start(width, PerWord(bpp)) == |img| && Start(cb, PerWord(bpp)) <= |out| && r < |out| && v < width
    ensures r < Start(cb, PerWord(bpp)) ==> HasWord(img, WordOf(r, bpp))
    ensures Blocks(out, img, bpp, srcWidth, width, cb)[r][v] ==
            if r < Start(cb, PerWord(bpp)) then TurnedAt(img, bpp, width, r, v) else out[r][v]
    decreases cb
  {
    hide Gather, PerWord, Columns, WordOf, PlaceOf;
    if cb > 0 {
      BlocksAt(out, img, bpp, srcWidth, width, cb - 1, r, v);
      var g := Start(cb - 1, PerWord(bpp));
      RowsHaveWord(img, srcWidth, cb - 1);
      ColumnsAt(Blocks(out, img, bpp, srcWidth, width, cb - 1), img, bpp, cb - 1, g, width, width, r, v);
      if g <= r < g + PerWord(bpp) {
        PlaceIs(r, bpp, cb - 1);
      }
    }
  }

  /** The first `horz` rows of the result are the source turned a quarter; the others are as before. */
  ghost predicate QuarterTurned(img: Image, bpp: nat, horz: nat, width: nat, out: Image, turned: Image)
    requires IsBpp(bpp)
  {
    && |turned| == |out| && Rectangular(turned, width) && |img| == Start(width, PerWord(bpp))
    && (forall r :: horz <= r < |out| ==> turned[r] == out[r])
    && (forall r, v :: 0 <= r < horz <= |out| && 0 <= v < width ==> Is32(turned[r][v]))
    && (forall r, c :: 0 <= r < horz <= |out| && 0 <= c < |img| ==> PixelTurned(img, bpp, turned, r, c))
  }

  /** Pixel c of row r of the result is pixel r of row (rows - 1 - c) of the source. */
  ghost predicate PixelTurned(img: Image, bpp: nat, turned: Image, r: nat, c: nat)
    requires IsBpp(bpp)
  {
    && r < |turned| && c < |img| && WordOf(c, bpp) < |turned[r]| && WordOf(r, bpp) < |img[|img| - 1 - c]|
    && PixelOf(turned, bpp, r, c) == PixelOf(img, bpp, |img| - 1 - c, r)
  }

  lemma TurnedAtMeans(img: Image, bpp: nat, srcWidth: nat, width: nat, r: nat, c: nat)
    requires IsBpp(bpp) && Start(width, PerWord(bpp)) == |img| && c < |img|
    requires Rectangular(img, srcWidth) && r < Start(srcWidth, PerWord(bpp))
    ensures WordOf(c, bpp) < width && WordOf(r, bpp) < srcWidth && HasWord(img, WordOf(r, bpp))
    ensures Px(TurnedAt(img, bpp, width, r, WordOf(c, bpp)), bpp, PlaceOf(c, bpp)) ==
            PixelOf(img, bpp, |img| - 1 - c, r)
  {
    hide Gather, Px, IsBpp, PerWord, Start, HasWord, White, WordOf, PlaceOf;
    var per := PerWord(bpp);
    PixelPlace(c, bpp, width);
    PixelPlace(r, bpp, srcWidth);
    RowsHaveWord(img, srcWidth, WordOf(r, bpp));
    OtherEnd(c, bpp, width);
    RowsBelow(width - 1 - WordOf(c, bpp), width, per);
    GatherMeans(img, bpp, WordOf(r, bpp), PlaceOf(r, bpp), Start(width - 1 - WordOf(c, bpp), per), per, per - 1 - PlaceOf(c, bpp));
  }

  lemma PixelIs(img: Image, bpp: nat, r: nat, c: nat)
    requires IsBpp(bpp) && r < |img| && WordOf(c, bpp) < |img[r]|
    ensures PixelOf(img, bpp, r, c) == Px(img[r][WordOf(c, bpp)], bpp, PlaceOf(c, bpp))
  {
  }

  lemma BlocksTurnPixel(out: Image, img: Image, bpp: nat, srcWidth: nat, width: nat, r: nat, c: nat)
    requires IsBpp(bpp) && Rectangular(img, srcWidth) && Rectangular(out, width)
    requires Start(width, PerWord(bpp)) == |img| && Start(srcWidth, PerWord(bpp)) <= |out|
    requires r < Start(srcWidth, PerWord(bpp)) && c < |img| && WordOf(c, bpp) < width
    ensures PixelTurned(img, bpp, Blocks(out, img, bpp, srcWidth, width, srcWidth), r, c)
  {
    hide Gather, Px, Blocks, PerWord, IsBpp, TurnedAt, HasWord, Start, PixelOf, WordOf, PlaceOf;
    PixelIs(Blocks(out, img, bpp, srcWidth, width, srcWidth), bpp, r, c);
    TurnedAtMeans(img, bpp, srcWidth, width, r, c);
    BlocksAt(out, img, bpp, srcWidth, width, srcWidth, r, WordOf(c, bpp));
  }

  lemma BlocksTurn(out: Image, img: Image, bpp: nat, srcWidth: nat, width: nat)
    requires IsBpp(bpp) && Rectangular(img, srcWidth) && Rectangular(out, width)
    requires Start(width, PerWord(bpp)) == |img| && Start(srcWidth, PerWord(bpp)) <= |out|
    ensures QuarterTurned(img, bpp, Start(srcWidth, PerWord(bpp)), width, out,
                          Blocks(out, img, bpp, srcWidth, width, srcWidth))
  {
    hide Gather, Px, Blocks, PerWord, IsBpp, Is32, TurnedAt, HasWord, PixelTurned, Start, WordOf, PlaceOf;
    var turned, per := Blocks(out, img, bpp, srcWidth, width, srcWidth), PerWord(bpp);
    forall r, v | 0 <= r < |out| && 0 <= v < width
      ensures if r < Start(srcWidth, per) then Is32(turned[r][v]) else turned[r][v] == out[r][v]
    {
      BlocksAt(out, img, bpp, srcWidth, width, srcWidth, r, v);
    }
    forall r, c | 0 <= r < Start(srcWidth, per) && 0 <= c < |img|
      ensures PixelTurned(img, bpp, turned, r, c)
    {
      PixelPlace(c, bpp, width);
      BlocksTurnPixel(out, img, bpp, srcWidth, width, r, c);
    }
  }

  lemma WholeWords(n: nat, bpp: nat)
    requires IsBpp(bpp) && n * bpp % 32 == 0
    ensures n == Start(n * bpp / 32, PerWord(bpp))
  {
    StartIsProduct(n * bpp / 32, PerWord(bpp));
    assert n * bpp == n * bpp / 32 * 32;
    if bpp == 1 {
    } else if bpp == 2 {
    } else if bpp == 4 {
    } else {
      assert bpp == 8;
    }
  }

  /** The writer goes on to the next destination strip when it has run past the end of its own. */
  method NextOutput(dst: seq<Strip>, ghost rows: nat, oi0: nat, orc0: nat, ghost height: nat) returns (oi: nat, orc: nat)
    requires WellFormed(dst, rows) && SameHeight(dst, height) && oi0 < |dst|
    requires orc0 <= 2 * height && dst[oi0].first + orc0 <= rows
    ensures oi < |dst| && orc <= height && dst[oi].first + orc == dst[oi0].first + orc0
  {
    oi, orc := oi0, orc0;
    HeightAt(dst, height, oi);
    if orc > dst[oi].numLines {
      orc := orc - dst[oi].numLines;
      NextStrip(dst, rows, oi);
      oi := oi + 1;
    }
  }

  /** The 90 degree branch, for whole words in both directions. */
  method Rotate90(src: seq<Strip>, dst: seq<Strip>, horz: nat, rows: nat, bpp: nat,
                  ghost height: nat, ghost img: Image, ghost out: Image)
    returns (ghost turned: Image)
    requires IsBpp(bpp) && |img| == rows > 0 && rows * bpp % 32 == 0 && horz * bpp % 32 == 0
    requires WellFormed(src, |img|) && Shows(src, img) && Rectangular(img, horz * bpp / 32)
    requires WellFormed(dst, |out|) && Shows(dst, out) && Rectangular(out, rows * bpp / 32) && horz <= |out|
    requires SameHeight(dst, height) && PerWord(bpp) <= height && Buffers(src) !! Buffers(dst)
    modifies Buffers(dst)
    ensures Shows(src, img) && Shows(dst, turned) && QuarterTurned(img, bpp, horz, rows * bpp / 32, out, turned)
  {
    hide Shows, WellFormed, Rectangular, SameHeight, PerWord, Columns, QuarterTurned;
    ghost var per := PerWord(bpp);
    var srcWidth, width := horz * bpp / 8 / 4, rows * bpp / 8 / 4;
    WholeWords(horz, bpp);
    WholeWords(rows, bpp);
    var output := new Word[32 / bpp];
    FirstStrip(dst, |out|);
    ghost var cb: nat := 0;
    var colCount, oi, orc := 0, 0, 0;
    while colCount < horz
      invariant 0 <= cb <= srcWidth && colCount == Start(cb, per) && 0 <= oi < |dst| && 0 <= orc <= height
      invariant colCount <= horz && dst[oi].first + orc == colCount && output.Length == per
      invariant Shows(src, img) && Shows(dst, Blocks(out, img, bpp, srcWidth, width, cb))
    {
      RowsBelow(cb, srcWidth, per);
      ColumnBlock(src, dst, output, rows, srcWidth, width, horz, bpp, colCount, oi, orc, height, cb, img,
                  Blocks(out, img, bpp, srcWidth, width, cb));
      cb, colCount, orc := cb + 1, colCount + 32 / bpp, orc + 32 / bpp;
      oi, orc := NextOutput(dst, |out|, oi, orc, height);
    }
    assert cb == srcWidth by {
      AtCeiling(cb, srcWidth, per);
    }
    turned := Blocks(out, img, bpp, srcWidth, width, cb);
    BlocksTurn(out, img, bpp, srcWidth, width);
  }
}

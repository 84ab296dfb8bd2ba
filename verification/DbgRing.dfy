/**
 The ring of debug output characters (debug/src/dbg_outbuf.c): the two critical
 sections under _outbuf_lock, one that adds a character and one that empties the
 ring into the 512-byte buffer of the output thread.
 */
module DbgRing {
  import opened SeqFacts

  const LF := '\n'
  const CR := '\r'

  /** The size of the buffer of the output thread, and the fill at which its drain loop stops. */
  const BUF := 512
  const LIMIT := 510

  /** Characters from 0x20 up to 0x7f, backspace, tab and line feed are let in. */
  predicate Accepted(c: char) {
    c as int <= 0x7f && (c as int >= 0x20 || c as int == 8 || c == '\t' || c == LF)
  }

  /** Of the control characters only backspace, tab and line feed come out, and nothing above 0x7f; all others do. */
  lemma AcceptedAre(c: char)
    ensures c < ' ' ==> (Accepted(c) <==> c in ['\U{0008}', '\t', '\n'])
    ensures c >= ' ' ==> (Accepted(c) <==> c <= '\U{007F}')
  {
  }

  /** One character as it goes out. */
  function Out(c: char): string {
    if c == LF then [CR, LF] else [c]
  }

  /** Characters as they go out: each line feed follows a carriage return. */
  function Expand(cs: string): (out: string) {
    if cs == [] then [] else Out(cs[0]) + Expand(cs[1..])
  }

  lemma {:induction false} ExpandJoins(a: string, b: string)
    ensures Expand(a + b) == Expand(a) + Expand(b)
  {
    if a == [] {
      assert a + b == b;
    } else {
      ExpandJoins(a[1..], b);
      TailOfJoin(a, b);
      JoinInThree(Out(a[0]), Expand(a[1..]), Expand(b));
    }
  }

  lemma ExpandMore(cs: string, k: nat)
    requires k < |cs|
    ensures Expand(cs[..k + 1]) == Expand(cs[..k]) + Out(cs[k])
  {
    ExpandJoins(cs[..k], [cs[k]]);
    assert cs[..k + 1] == cs[..k] + [cs[k]];
    assert Expand([cs[k]]) == Out(cs[k]) + Expand([cs[k]][1..]);
  }

  /** Nothing that is let in is a carriage return, so a reader can undo the expansion by dropping them. */
  function Unexpand(out: string): string {
    if out == [] then []
    else if out[0] == CR then Unexpand(out[1..]) else [out[0]] + Unexpand(out[1..])
  }

  lemma UnexpandOut(c: char, rest: string)
    requires c != CR
    ensures Unexpand(Out(c) + rest) == [c] + Unexpand(rest)
  {
    if c == LF {
      assert ([CR, LF] + rest)[1..] == [LF] + rest;
      assert ([LF] + rest)[1..] == rest;
      assert Unexpand([LF] + rest) == [LF] + Unexpand(rest);
    } else {
      assert ([c] + rest)[1..] == rest;
    }
  }

  lemma {:induction false} ExpansionIsReadable(cs: string)
    requires AllAccepted(cs)
    ensures Unexpand(Expand(cs)) == cs
  {
    if cs != [] {
      ExpansionIsReadable(cs[1..]);
      UnexpandOut(cs[0], Expand(cs[1..]));
    }
  }

  lemma {:induction false} UnexpandJoins(a: string, b: string)
    ensures Unexpand(a + b) == Unexpand(a) + Unexpand(b)
  {
    if a == [] {
      assert a + b == b;
    } else {
      TailOfJoin(a, b);
      UnexpandJoins(a[1..], b);
      JoinInThree([a[0]], Unexpand(a[1..]), Unexpand(b));
    }
  }

  /** Line ends as terminals want them: a line feed right behind each carriage return, and nowhere else. */
  predicate Paired(out: string) {
    && (forall k :: 0 <= k < |out| && out[k] == LF ==> 0 < k && out[k - 1] == CR)
    && (forall k :: 0 <= k < |out| && out[k] == CR ==> k + 1 < |out| && out[k + 1] == LF)
  }

  lemma PairedJoins(a: string, b: string)
    requires Paired(a) && Paired(b)
    ensures Paired(a + b)
  {
    var out := a + b;
    forall k | 0 <= k < |out| && out[k] == LF
      ensures 0 < k && out[k - 1] == CR
    {
      assert out[k] == if k < |a| then a[k] else b[k - |a|];
    }
    forall k | 0 <= k < |out| && out[k] == CR
      ensures k + 1 < |out| && out[k + 1] == LF
    {
      assert out[k] == if k < |a| then a[k] else b[k - |a|];
      assert k + 1 < |out| ==> out[k + 1] == if k + 1 < |a| then a[k + 1] else b[k + 1 - |a|];
    }
  }

  predicate AllAccepted(cs: string) {
    forall k :: 0 <= k < |cs| ==> Accepted(cs[k])
  }

  /** Each line feed goes out right behind a carriage return, which nothing else does. */
  lemma {:induction false} ExpansionIsPaired(cs: string)
    requires AllAccepted(cs)
    ensures Paired(Expand(cs))
  {
    if cs != [] {
      assert Paired(Out(cs[0]));
      hide Out, Paired;
      ExpansionIsPaired(cs[1..]);
      PairedJoins(Out(cs[0]), Expand(cs[1..]));
    }
  }

  /** How many characters the drain loop takes when `pos` bytes of its buffer are used. */
  function Taken(cs: string, pos: nat): (k: nat)
    ensures k <= |cs|
    decreases |cs|
  {
    if cs == [] then 0
    else if pos + |Out(cs[0])| < LIMIT then 1 + Taken(cs[1..], pos + |Out(cs[0])|) else 1
  }

  /** The loop stops at the end of the ring, or when the buffer is nearly full; it never overruns it. */
  lemma {:induction false} TakenFits(cs: string, pos: nat)
    requires pos < 510
    ensures pos + |Expand(cs[..Taken(cs, pos)])| < 512
    ensures Taken(cs, pos) == |cs| || 510 <= pos + |Expand(cs[..Taken(cs, pos)])|
    ensures cs != [] ==> Taken(cs, pos) > 0
    decreases |cs|
  {
    if cs != [] {
      var used, k := pos + |Out(cs[0])|, Taken(cs, pos);
      assert cs[..k][1..] == cs[1..][..k - 1];
      if used < LIMIT {
        TakenFits(cs[1..], used);
      }
    }
  }

  /** Place k behind the read position. */
  function Slot(outpos: nat, k: nat, size: nat): (s: nat)
    requires outpos < size && k < size
    ensures s < size
  {
    if outpos + 1 + k < size then outpos + 1 + k else outpos + 1 + k - size
  }

  class OutBuffer {
    const buffer: array<char>
    var inpos: nat
    var outpos: nat
    var overflow: bool
    var shutdown: bool
    /** The characters that wait, oldest first. */
    ghost var waiting: string

    ghost predicate Valid()
      reads this, buffer
    {
      && 1 < buffer.Length && inpos < buffer.Length && outpos < buffer.Length && |waiting| < buffer.Length
      && inpos == (if waiting == [] then outpos else Slot(outpos, |waiting| - 1, buffer.Length))
      && (forall k :: 0 <= k < |waiting| ==> waiting[k] == buffer[Slot(outpos, k, buffer.Length)])
    }

    constructor (size: nat)
      requires 1 < size
      ensures Valid() && waiting == [] && !overflow && !shutdown && buffer.Length == size && fresh(buffer)
    {
      buffer := new char[size];
      inpos, outpos, overflow, shutdown, waiting := 0, 0, false, false, [];
    }

    /** dbg_outbuf_add_char up to the signal; `signal` says whether it comes to that. */
    method AddChar(c: char) returns (signal: bool)
      requires Valid()
      modifies this`inpos, this`overflow, this`waiting, buffer
      ensures Valid() && signal == (!shutdown && Accepted(c))
      ensures var room := |old(waiting)| + 1 < buffer.Length;
              && waiting == (if signal && room then old(waiting) + [c] else old(waiting))
              && overflow == (old(overflow) || (signal && !room))
    {
      if shutdown {
        return false;
      }
      if c as int > 0x7f || (c as int < 0x20 && c as int != 8 && c != '\t' && c != LF) {
        return false;
      }
      var nextpos := if inpos + 1 == buffer.Length then 0 else inpos + 1;
      if nextpos != outpos {
        inpos := nextpos;
        buffer[inpos] := c;
        waiting := waiting + [c];
      } else {
        overflow := true;
      }
      signal := true;
    }

    /** Takes the oldest character. */
    method TakeOne() returns (c: char)
      requires Valid() && outpos != inpos
      modifies this`outpos, this`waiting
      ensures Valid() && old(waiting) != [] && c == old(waiting)[0] && waiting == old(waiting)[1..]
    {
      ghost var was := outpos;
      outpos := if outpos + 1 == buffer.Length then 0 else outpos + 1;
      c := buffer[outpos];
      waiting := waiting[1..];
      assert forall k :: 0 <= k < |waiting| ==> Slot(outpos, k, buffer.Length) == Slot(was, k + 1, buffer.Length);
    }

    /** The ring is empty when its positions meet. */
    lemma PositionsMeet()
      requires Valid()
      ensures outpos == inpos <==> waiting == []
    {
    }

    /** The drain loop of the output thread. */
    method Drain(buf: array<char>) returns (pos: nat, dropped: bool)
      requires Valid() && buf.Length == BUF && buf != buffer
      modifies this`outpos, this`overflow, this`waiting, buf
      ensures Valid() && pos < BUF
      ensures buf[..pos] == Expand(old(waiting)[..Taken(old(waiting), 0)])
      ensures waiting == old(waiting)[Taken(old(waiting), 0)..]
      ensures dropped == (old(overflow) && pos < LIMIT) && overflow == (old(overflow) && !dropped)
    {
      hide Valid, Out, Expand, Taken;
      pos, dropped := 0, false;
      ghost var all, k: nat := waiting, 0;
      assert all[..0] == [] && all[0..] == all;
      NothingExpands();
      var more := true;
      while more
        invariant Valid() && pos < BUF && (more ==> pos < LIMIT) && k <= |all|
        invariant waiting == all[k..] && buf[..pos] == Expand(all[..k])
        invariant Taken(all, 0) == if more then k + Taken(all[k..], pos) else k
        invariant dropped == (old(overflow) && !more && pos < LIMIT) && overflow == (old(overflow) && !dropped)
        decreases more, |waiting|
      {
        PositionsMeet();
        TakenStep(all, k, pos);
        if outpos != inpos {
          var c := TakeOne();
          ExpandMore(all, k);
          pos := PutOut(buf, pos, c);
          k := k + 1;
          more := pos < BUF - 2;
        } else {
          if overflow {
            DropNotice();
            dropped := true;
          }
          more := false;
        }
      }
    }

    /** The note of an overflow is taken. */
    method DropNotice()
      requires Valid()
      modifies this`overflow
      ensures Valid() && !overflow
    {
      overflow := false;
    }
  }

  /** One character into the buffer of the output thread. */
  method PutOut(buf: array<char>, pos0: nat, c: char) returns (pos: nat)
    requires pos0 + 2 <= buf.Length
    modifies buf
    ensures pos == pos0 + |Out(c)| && pos <= pos0 + 2 && buf[..pos] == old(buf[..pos0]) + Out(c)
  {
    pos := pos0;
    if c == LF {
      buf[pos] := CR;
      pos := pos + 1;
    }
    buf[pos] := c;
    pos := pos + 1;
  }

  lemma TakenStep(all: string, k: nat, pos: nat)
    requires k <= |all|
    ensures k == |all| ==> Taken(all[k..], pos) == 0 && all[k..] == []
    ensures k < |all| ==> all[k..] != [] && all[k..][0] == all[k] && all[k..][1..] == all[k + 1..]
    ensures k < |all| ==> Taken(all[k..], pos) == 1 + (if pos + |Out(all[k])| < LIMIT then Taken(all[k + 1..], pos + |Out(all[k])|) else 0)
  {
    if k < |all| {
      assert all[k..][1..] == all[k + 1..];
    }
  }

  lemma NothingExpands()
    ensures Expand([]) == []
  {
  }
}

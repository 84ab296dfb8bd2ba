/**
 The way a command's output reaches the caller of cmd_wrapper_run
 (cmd/src/cmd_wrapper.c): a 256-byte staging buffer in front of a ring over the
 caller's string, and an in-place rotation that straightens the ring at the end.
 */
module CmdOutput {

  const STAGING: nat := 256

  // ---------------------------------------------------------------- rotation

  /** The element k moves to the front. */
  function Turned<T>(a: seq<T>, k: nat): (r: seq<T>)
    requires k <= |a|
    ensures |r| == |a|
  {
    a[k..] + a[..k]
  }

  /** Rotated right by s places, or left by -s. */
  function Rotated<T>(a: seq<T>, s: int): (r: seq<T>)
    requires 0 - |a| <= s <= |a|
    ensures |r| == |a|
  {
    if s >= 0 then Turned(a, |a| - s) else Turned(a, -s)
  }

  /** Right by s is left by the rest. */
  lemma Flip<T>(a: seq<T>, s: int)
    requires 0 <= s <= |a|
    ensures Rotated(a, s) == Rotated(a, s - |a|)
  {
    if s == |a| {
      assert Turned(a, 0) == a && Turned(a, |a|) == a;
    }
  }

  /** The first k elements exchanged with the last k. */
  function EndsSwapped<T>(a: seq<T>, k: nat): (r: seq<T>)
    requires 2 * k <= |a|
    ensures |r| == |a|
  {
    a[|a| - k..] + a[k..|a| - k] + a[..k]
  }

  /** Rotating right: the swap puts the first k in place, the rest still turns by k. */
  lemma SwapForRight<T>(a: seq<T>, k: nat)
    requires 2 * k <= |a|
    ensures var b := EndsSwapped(a, k); Rotated(a, k) == b[..k] + Rotated(b[k..], k)
  {
    var x, y, z := a[..k], a[k..|a| - k], a[|a| - k..];
    assert a[..|a| - k] == x + y;
    var b := EndsSwapped(a, k);
    assert b[..k] == z && b[k..] == y + x;
    assert (y + x)[..|y|] == y && (y + x)[|y|..] == x;
  }

  /** Rotating left: the swap puts the last k in place. */
  lemma SwapForLeft<T>(a: seq<T>, k: nat)
    requires 0 < k && 2 * k <= |a|
    ensures var b := EndsSwapped(a, k); Rotated(a, 0 - k) == Rotated(b[..|a| - k], 0 - k) + b[|a| - k..]
  {
    var x, y, z := a[..k], a[k..|a| - k], a[|a| - k..];
    assert a[k..] == y + z;
    var b := EndsSwapped(a, k);
    assert b[|a| - k..] == x && b[..|a| - k] == z + y;
    assert (z + y)[k..] == y && (z + y)[..k] == z;
  }

  /** The inner loop of _rotate_r, on the part of the array between p and q. */
  method SwapEnds(arr: array<char>, k: nat, ghost p: seq<char>, ghost mid: seq<char>, ghost q: seq<char>,
                  a: nat, l: nat)
    requires arr[..] == p + mid + q && a == |p| && l == |mid| && 2 * k <= l
    modifies arr
    ensures arr[..] == p + EndsSwapped(mid, k) + q
  {
    var b := a + l - k;
    var i := 0;
    ghost var before := arr[..];
    while i < k
      invariant 0 <= i <= k
      invariant forall m :: a <= m < a + i ==> arr[m] == before[m + (l - k)]
      invariant forall m :: b <= m < b + i ==> arr[m] == before[m - (l - k)]
      invariant forall m :: 0 <= m < arr.Length && !(a <= m < a + i) && !(b <= m < b + i) ==> arr[m] == before[m]
    {
      arr[a + i], arr[b + i] := arr[b + i], arr[a + i];
      i := i + 1;
    }
    SwappedAt(p, mid, q, k, arr[..]);
  }

  /** The exchange of the two ends, place by place. */
  lemma SwappedAt(p: seq<char>, mid: seq<char>, q: seq<char>, k: nat, r: seq<char>)
    requires 2 * k <= |mid| && |r| == |p + mid + q|
    requires var w, a, l := p + mid + q, |p|, |mid|;
             && (forall m :: a <= m < a + k ==> r[m] == w[m + (l - k)])
             && (forall m :: a + l - k <= m < a + l ==> r[m] == w[m - (l - k)])
             && (forall m :: 0 <= m < |r| && !(a <= m < a + k) && !(a + l - k <= m < a + l) ==> r[m] == w[m])
    ensures r == p + EndsSwapped(mid, k) + q
  {
    hide EndsSwapped;
    var w, e := p + mid + q, p + EndsSwapped(mid, k) + q;
    forall m | 0 <= m < |r|
      ensures r[m] == e[m]
    {
      InMiddle(p, EndsSwapped(mid, k), q, m);
      InMiddle(p, mid, q, m);
      if |p| <= m < |p| + |mid| {
        var j := m - |p|;
        SwappedPlace(mid, k, j);
        InMiddle(p, mid, q, if j < k then m + (|mid| - k) else if j < |mid| - k then m else m - (|mid| - k));
      }
    }
  }

  lemma InMiddle(p: seq<char>, x: seq<char>, q: seq<char>, m: nat)
    requires m < |p + x + q|
    ensures (p + x + q)[m] == if m < |p| then p[m] else if m < |p| + |x| then x[m - |p|] else q[m - |p| - |x|]
  {
  }

  lemma SwappedPlace(a: seq<char>, k: nat, j: nat)
    requires 2 * k <= |a| && j < |a|
    ensures EndsSwapped(a, k)[j] == a[if j < k then j + (|a| - k) else if j < |a| - k then j else j - (|a| - k)]
  {
  }

  /** The part between p and q has still to be turned by s; the whole then is `goal`. */
  ghost predicate Turning(w: seq<char>, p: seq<char>, mid: seq<char>, q: seq<char>, s: int, goal: seq<char>) {
    && 0 - |mid| <= s <= |mid| && w == p + mid + q && p + Rotated(mid, s) + q == goal
  }

  lemma TurnStarts(w: seq<char>, l: nat, s: int)
    requires l <= |w| && 0 - l <= s <= l
    ensures Turning(w, [], w[..l], w[l..], s, Rotated(w[..l], s) + w[l..])
  {
    hide Rotated;
  }

  lemma TurnFlips(w: seq<char>, p: seq<char>, mid: seq<char>, q: seq<char>, s: int, goal: seq<char>)
    requires Turning(w, p, mid, q, s, goal)
    ensures Turning(w, p, mid, q, if s > 0 then s - |mid| else s + |mid|, goal)
  {
    Flip(mid, if s > 0 then s else s + |mid|);
    hide Rotated;
  }

  /** Nothing is left to turn. */
  lemma TurnEnds(w: seq<char>, p: seq<char>, mid: seq<char>, q: seq<char>, s: int, goal: seq<char>)
    requires Turning(w, p, mid, q, s, goal) && (s == 0 || |mid| < 2)
    ensures w == goal
  {
    assert Rotated(mid, s) == mid;
  }

  /** _rotate_r: block swaps, turning right and left by whichever is shorter. */
  method RotateR(arr: array<char>, l0: nat, s0: int)
    requires l0 <= arr.Length && 0 - l0 <= s0 <= l0
    modifies arr
    ensures arr[..] == Rotated(old(arr[..l0]), s0) + old(arr[l0..])
  {
    hide Rotated, EndsSwapped, Turning;
    var a: nat, l: nat, s: int := 0, l0, s0;
    ghost var p, mid, q := [], arr[..l0], arr[l0..];
    ghost var goal := Rotated(mid, s) + q;
    Slices(arr, l);
    TurnStarts(arr[..], l, s);
    while s != 0 && l >= 2
      invariant |p| == a && |mid| == l && 0 - l <= s <= l
      invariant Turning(arr[..], p, mid, q, s, goal)
      decreases l, if 2 * s > l || -2 * s > l then 1 else 0
    {
      if 2 * s > l {
        TurnFlips(arr[..], p, mid, q, s, goal);
        s := -(l - s);
      } else if -2 * s > l {
        TurnFlips(arr[..], p, mid, q, s, goal);
        s := l + s;
      } else {
        a, l, p, mid, q := SwapStep(arr, a, l, s, p, mid, q, goal);
      }
    }
    TurnEnds(arr[..], p, mid, q, s, goal);
  }

  lemma Slices(arr: array<char>, l: nat)
    requires l <= arr.Length
    ensures arr[..l] == arr[..][..l] && arr[l..] == arr[..][l..]
  {
  }

  /** One block swap: the ends change places, and what is left still turns by s. */
  method SwapStep(arr: array<char>, a0: nat, l0: nat, s: int, ghost p0: seq<char>, ghost mid0: seq<char>,
                  ghost q0: seq<char>, ghost goal: seq<char>)
    returns (a: nat, l: nat, ghost p: seq<char>, ghost mid: seq<char>, ghost q: seq<char>)
    requires s != 0 && 2 * s <= l0 && -2 * s <= l0 && |p0| == a0 && |mid0| == l0
    requires Turning(arr[..], p0, mid0, q0, s, goal)
    modifies arr
    ensures |p| == a && |mid| == l < l0 && 0 - l <= s <= l
    ensures Turning(arr[..], p, mid, q, s, goal)
  {
    hide Rotated, EndsSwapped;
    var k: nat := if s > 0 then s else -s;
    SwapEnds(arr, k, p0, mid0, q0, a0, l0);
    a, p, mid, q := a0, p0, mid0, q0;
    if s > 0 {
      p, mid := RightStep(p0, mid0, q0, k);
      a := a0 + k;
    } else {
      mid, q := LeftStep(p0, mid0, q0, k);
    }
    l := l0 - k;
  }

  lemma RightStep(p: seq<char>, mid: seq<char>, q: seq<char>, k: nat) returns (p': seq<char>, mid': seq<char>)
    requires 0 < k && 2 * k <= |mid|
    ensures |p'| == |p| + k && |mid'| == |mid| - k
    ensures p' + mid' + q == p + EndsSwapped(mid, k) + q
    ensures p' + Rotated(mid', k) + q == p + Rotated(mid, k) + q
  {
    SwapForRight(mid, k);
    hide Rotated, EndsSwapped;
    var b := EndsSwapped(mid, k);
    p', mid' := p + b[..k], b[k..];
    InTwo(b, k);
    Regroup(p, b[..k], b[k..], q);
    Regroup(p, b[..k], Rotated(b[k..], k), q);
  }

  lemma LeftStep(p: seq<char>, mid: seq<char>, q: seq<char>, k: nat) returns (mid': seq<char>, q': seq<char>)
    requires 0 < k && 2 * k <= |mid|
    ensures |mid'| == |mid| - k
    ensures p + mid' + q' == p + EndsSwapped(mid, k) + q
    ensures p + Rotated(mid', 0 - k) + q' == p + Rotated(mid, 0 - k) + q
  {
    SwapForLeft(mid, k);
    hide Rotated, EndsSwapped;
    var b := EndsSwapped(mid, k);
    mid', q' := b[..|mid| - k], b[|mid| - k..] + q;
    InTwo(b, |mid| - k);
    Regroup(p, b[..|mid| - k], b[|mid| - k..], q);
    Regroup(p, Rotated(b[..|mid| - k], 0 - k), b[|mid| - k..], q);
  }

  lemma InTwo(b: seq<char>, k: nat)
    requires k <= |b|
    ensures b == b[..k] + b[k..]
  {
  }

  lemma Regroup(p: seq<char>, x: seq<char>, y: seq<char>, q: seq<char>)
    ensures p + (x + y) + q == (p + x) + y + q && p + (x + y) + q == p + x + (y + q)
  {
  }

  // ---------------------------------------------------------------- the ring

  /** The last n characters of a text, or all of it. */
  function Last(text: seq<char>, n: nat): seq<char> {
    if |text| <= n then text else text[|text| - n..]
  }

  /** The string s, next to be written at cur, is a ring over everything seen. */
  ghost predicate Holds(s: seq<char>, cur: nat, lap: bool, seen: seq<char>, orig: seq<char>)
    requires cur < |s|
  {
    && |orig| == |s|
    && (lap <==> |seen| >= |s|)
    && (if lap then s[cur..] + s[..cur] == seen[|seen| - |s|..]
        else cur == |seen| && s == seen + orig[cur..])
  }

  lemma LastMore(seen: seq<char>, n: nat, c: char)
    requires 0 < n <= |seen|
    ensures (seen + [c])[|seen| + 1 - n..] == seen[|seen| - n..][1..] + [c]
  {
  }

  lemma RingTail(s: seq<char>, cur: nat)
    requires cur < |s|
    ensures (s[cur..] + s[..cur])[1..] == s[cur + 1..] + s[..cur]
  {
  }

  lemma RingPut(s: seq<char>, cur: nat, c: char)
    requires cur < |s|
    ensures s[cur := c][cur + 1..] == s[cur + 1..] && s[cur := c][..cur + 1] == s[..cur] + [c]
  {
  }

  lemma Joined(x: seq<char>, y: seq<char>, z: seq<char>)
    ensures x + (y + z) == x + y + z
  {
  }

  /** One more character in a ring that has wrapped ... */
  lemma WrappedMore(s: seq<char>, cur: nat, seen: seq<char>, c: char)
    requires cur < |s| <= |seen| && s[cur..] + s[..cur] == seen[|seen| - |s|..]
    ensures s[cur := c][cur + 1..] + s[cur := c][..cur + 1] == (seen + [c])[|seen| + 1 - |s|..]
  {
    LastMore(seen, |s|, c);
    RingTail(s, cur);
    RingPut(s, cur, c);
    Joined(s[cur + 1..], s[..cur], [c]);
  }

  /** ... and in one that has not. */
  lemma UnwrappedMore(s: seq<char>, seen: seq<char>, orig: seq<char>, c: char)
    requires |seen| < |s| == |orig| && s == seen + orig[|seen|..]
    ensures s[|seen| := c] == seen + [c] + orig[|seen| + 1..]
  {
  }

  lemma WrappedHolds(s: seq<char>, cur: nat, seen: seq<char>, orig: seq<char>, c: char)
    requires cur < |s| && Holds(s, cur, true, seen, orig)
    ensures cur + 1 < |s| ==> Holds(s[cur := c], cur + 1, true, seen + [c], orig)
    ensures cur + 1 == |s| ==> Holds(s[cur := c], 0, true, seen + [c], orig)
  {
    WrappedMore(s, cur, seen, c);
    var t := s[cur := c];
    if cur + 1 == |s| {
      assert t[|t|..] == [] == t[..0] && t[..|t|] == t == t[0..];
    }
  }

  /** The ring wraps when its last place is filled. */
  lemma FillsUp(s: seq<char>, seen: seq<char>, orig: seq<char>, c: char)
    requires |seen| + 1 == |s| == |orig| && s == seen + orig[|seen|..]
    ensures s[|seen| := c] == seen + [c]
  {
  }

  lemma UnwrappedHolds(s: seq<char>, cur: nat, seen: seq<char>, orig: seq<char>, c: char)
    requires cur < |s| && Holds(s, cur, false, seen, orig)
    ensures cur + 1 < |s| ==> Holds(s[cur := c], cur + 1, false, seen + [c], orig)
    ensures cur + 1 == |s| ==> Holds(s[cur := c], 0, true, seen + [c], orig)
  {
    if cur + 1 < |s| {
      UnwrappedMore(s, seen, orig, c);
    } else {
      FillsUp(s, seen, orig, c);
      var t := s[cur := c];
      assert t[..0] == [] && t[0..] == t;
    }
  }

  lemma HoldsMore(s: seq<char>, cur: nat, lap: bool, seen: seq<char>, orig: seq<char>, c: char)
    requires cur < |s| && Holds(s, cur, lap, seen, orig)
    ensures var t := s[cur := c];
            if cur + 1 == |s| then Holds(t, 0, true, seen + [c], orig) else Holds(t, cur + 1, lap, seen + [c], orig)
  {
    hide Holds;
    if lap {
      WrappedHolds(s, cur, seen, orig, c);
    } else {
      UnwrappedHolds(s, cur, seen, orig, c);
    }
  }

  /** _buf_t: a ring over the caller's string; `orig` is what the string held before. */
  class Ring {
    const ptr: array<char>
    var cur: nat
    var lap: bool
    ghost var seen: seq<char>
    ghost const orig: seq<char>

    ghost predicate Valid()
      reads this, ptr
    {
      && cur < ptr.Length && Holds(ptr[..], cur, lap, seen, orig)
    }

    constructor (outstr: array<char>)
      requires outstr.Length >= 1
      ensures Valid() && ptr == outstr && seen == [] && orig == outstr[..] && fresh(this)
    {
      ptr, cur, lap, seen, orig := outstr, 0, false, [], outstr[..];
    }

    /** _strout. */
    method StrOut(data: seq<char>)
      requires Valid()
      modifies this, ptr
      ensures Valid() && seen == old(seen) + data
    {
      for i := 0 to |data|
        invariant Valid() && seen == old(seen) + data[..i]
      {
        PutChar(data[i]);
      }
    }

    method PutChar(c: char)
      requires Valid()
      modifies this, ptr
      ensures Valid() && seen == old(seen) + [c]
    {
      HoldsMore(ptr[..], cur, lap, seen, orig, c);
      ptr[cur] := c;
      cur := cur + 1;
      if cur >= ptr.Length {
        cur := 0;
        lap := true;
      }
      seen := seen + [c];
    }

    /** The end of cmd_wrapper_run: turn a wrapped ring so that it reads from the front. */
    method Straighten()
      requires Valid()
      modifies ptr
      ensures var kept := Last(seen, ptr.Length); ptr[..] == kept + orig[|kept|..]
    {
      ghost var s := ptr[..];
      if lap && cur != 0 {
        assert s[..ptr.Length] == s;
        RotateR(ptr, ptr.Length, ptr.Length - cur);
        assert ptr[..] == Turned(s, cur);
      } else if lap {
        assert s == Turned(s, 0);
      }
    }
  }

  // ---------------------------------------------------------------- the staging buffer

  /** What of a formatted stream is text: a NUL only flushes. */
  function Text(stream: seq<char>): seq<char> {
    if stream == [] then []
    else (if stream[0] == '\0' then [] else [stream[0]]) + Text(stream[1..])
  }

  lemma {:induction false} TextAppend(s: seq<char>, c: char)
    ensures Text(s + [c]) == Text(s) + if c == '\0' then [] else [c]
  {
    if s == [] {
    } else {
      TextAppend(s[1..], c);
      assert (s + [c])[1..] == s[1..] + [c];
    }
  }

  /** The output side of a wrapper whose client handler is _strout. */
  class Wrapper {
    const outBuf: array<char>
    var outN: nat
    const ring: Ring

    ghost predicate Valid()
      reads this, outBuf, ring, ring.ptr
    {
      && outBuf.Length == STAGING && outN < STAGING
      && ring.Valid() && ring.ptr != outBuf
    }

    /** Everything put out so far, delivered or still staged. */
    ghost function Sent(): seq<char>
      requires Valid()
      reads this, outBuf, ring, ring.ptr
    {
      ring.seen + outBuf[..outN]
    }

    constructor (r: Ring)
      requires r.Valid()
      ensures Valid() && ring == r && Sent() == r.seen && fresh(this) && fresh(outBuf)
    {
      outBuf := new char[STAGING];
      outN := 0;
      ring := r;
    }

    /** _wrapper_outch. */
    method OutCh(c: char)
      requires Valid()
      modifies this, outBuf, ring, ring.ptr
      ensures Valid() && Sent() == old(Sent()) + (if c == '\0' then [] else [c])
      ensures c == '\0' ==> outN == 0
    {
      var flush := c == '\0';
      if !flush {
        outBuf[outN] := c;
        outN := outN + 1;
        flush := outN == STAGING;
      }
      if flush && outN != 0 {
        ring.StrOut(outBuf[..outN]);
        outN := 0;
      }
    }

    /** The stream of one command, and the flush that ends it. */
    method Emit(stream: seq<char>)
      requires Valid()
      modifies this, outBuf, ring, ring.ptr
      ensures Valid() && outN == 0 && ring.seen == old(Sent()) + Text(stream)
    {
      for i := 0 to |stream|
        invariant Valid() && Sent() == old(Sent()) + Text(stream[..i])
      {
        OutCh(stream[i]);
        TextAppend(stream[..i], stream[i]);
        assert stream[..i + 1] == stream[..i] + [stream[i]];
      }
      assert stream[..|stream|] == stream;
      OutCh('\0');
      assert Sent() == ring.seen;
    }
  }

  /**
   cmd_wrapper_run, for a command that prints `stream`: the caller's string ends
   up with the end of the text and its NUL, as much as fits, in order.
   */
  method Run(stream: seq<char>, outstr: array<char>)
    requires outstr.Length >= 1
    modifies outstr
    ensures var all := Text(stream) + ['\0'];
            var kept := Last(all, outstr.Length);
            outstr[..] == kept + old(outstr[..])[|kept|..]
  {
    var ring := new Ring(outstr);
    var wrapper := new Wrapper(ring);
    assert wrapper.Sent() == [];
    wrapper.Emit(stream);
    assert ring.seen == Text(stream);
    ring.StrOut(['\0']);
    ring.Straighten();
  }
}

/**
 What the two scanners of cardreader/src/jsmn.c find, said without them: a string ends
 at the first quote that is not escaped, a primitive at the first delimiter.
 */
module JsmnText {
  import opened Jsmn

  /** The characters that end a primitive, and those that may follow a backslash. */
  const DELIMITERS := ":\t\r\n ,]}"
  const ESCAPES := "\"\\/bfnrtu"

  /** How many backslashes stand right before k, from `from` on. */
  ghost function Backslashes(js: string, from: nat, k: nat): (n: nat)
    requires from <= k <= |js|
    ensures n <= k - from
  {
    if k == from || js[k - 1] != '\\' then 0 else 1 + Backslashes(js, from, k - 1)
  }

  /** An odd number of backslashes before k: the last of them escapes it. */
  ghost predicate Escaped(js: string, from: nat, k: nat)
    requires from <= k <= |js|
  {
    Backslashes(js, from, k) % 2 == 1
  }

  /** A character that a string goes on past: no NUL, no bare quote, no bad escape. */
  ghost predicate Inside(js: string, from: nat, k: nat)
    requires from <= k <= |js|
  {
    && k < |js| && js[k] != '\0'
    && (if Escaped(js, from, k) then js[k] in ESCAPES else js[k] != '\"')
  }

  ghost predicate AllInside(js: string, from: nat, to: nat)
    requires from <= to <= |js|
  {
    forall k :: from <= k < to ==> Inside(js, from, k)
  }

  /** The string whose contents start at `from` has its closing quote at q. */
  ghost predicate ClosesAt(js: string, from: nat, q: nat) {
    from <= q < |js| && js[q] == '\"' && !Escaped(js, from, q) && AllInside(js, from, q)
  }

  /** A backslash before k that escapes what may not be escaped, the end of the text included. */
  ghost predicate BadEscapeAt(js: string, from: nat, k: nat) {
    from <= k <= |js| && Escaped(js, from, k) && At(js, k) !in ESCAPES && AllInside(js, from, k)
  }

  /** The text ends at k, inside the string. */
  ghost predicate EndsInsideAt(js: string, from: nat, k: nat) {
    from <= k <= |js| && At(js, k) == '\0' && !Escaped(js, from, k) && AllInside(js, from, k)
  }

  ghost predicate Judged(js: string, from: nat, r: Scan) {
    match r
    case Found(q) => ClosesAt(js, from, q)
    case Bad => exists k: nat :: BadEscapeAt(js, from, k)
    case Short => exists k: nat :: EndsInsideAt(js, from, k)
  }

  /** A bare backslash escapes what follows, and that escapes nothing. */
  lemma AfterBackslash(js: string, from: nat, p: nat)
    requires from <= p < |js| && js[p] == '\\'
    ensures Escaped(js, from, p + 1) <==> !Escaped(js, from, p)
  {
  }

  lemma AfterOther(js: string, from: nat, p: nat)
    requires from <= p < |js| && js[p] != '\\'
    ensures !Escaped(js, from, p + 1)
  {
  }

  lemma InsideMore(js: string, from: nat, p: nat)
    requires from <= p < |js| && AllInside(js, from, p) && Inside(js, from, p)
    ensures AllInside(js, from, p + 1)
  {
  }

  lemma EscapesAre(c: char)
    ensures Escapable(c) <==> c in ESCAPES
  {
    assert ESCAPES == ['\"', '\\', '/', 'b', 'f', 'n', 'r', 't', 'u'];
  }

  lemma DelimitersAre(c: char)
    ensures EndsPrimitive(c) <==> c in DELIMITERS
  {
    assert DELIMITERS == [':', '\t', '\r', '\n', ' ', ',', ']', '}'];
  }

  lemma {:induction false} ScanJudges(js: string, from: nat, p: nat)
    requires from <= p <= |js| && !Escaped(js, from, p) && AllInside(js, from, p)
    ensures Judged(js, from, ScanString(js, p))
    decreases |js| - p
  {
    hide Escaped, AllInside;
    var c := At(js, p);
    if c == '\0' {
      assert EndsInsideAt(js, from, p);
    } else if c == '\"' {
      assert ClosesAt(js, from, p);
    } else if c == '\\' {
      AfterBackslash(js, from, p);
      InsideMore(js, from, p);
      EscapesAre(At(js, p + 1));
      if Escapable(At(js, p + 1)) {
        InsideMore(js, from, p + 1);
        if js[p + 1] == '\\' {
          AfterBackslash(js, from, p + 1);
        } else {
          AfterOther(js, from, p + 1);
        }
        ScanJudges(js, from, p + 2);
      } else {
        assert BadEscapeAt(js, from, p + 1);
      }
    } else {
      AfterOther(js, from, p);
      InsideMore(js, from, p);
      ScanJudges(js, from, p + 1);
    }
  }

  /** The place where the string stops is one only. */
  lemma OneStop(js: string, from: nat, k: nat, m: nat)
    requires from <= k <= |js| && from <= m <= |js| && AllInside(js, from, k) && AllInside(js, from, m)
    requires !Inside(js, from, k) && !Inside(js, from, m)
    ensures k == m
  {
  }

  /**
   The string scan finds q if and only if q is the first quote from p on that an even
   run of backslashes precedes, with only legal escapes and no NUL before it; it calls
   the string bad at the first illegal escape, and short when the text ends first.
   */
  lemma ScanStringMeans(js: string, p: nat)
    requires p <= |js|
    ensures forall q: nat :: ScanString(js, p) == Found(q) <==> ClosesAt(js, p, q)
    ensures ScanString(js, p) == Bad <==> exists k: nat :: BadEscapeAt(js, p, k)
    ensures ScanString(js, p) == Short <==> exists k: nat :: EndsInsideAt(js, p, k)
  {
    ScanJudges(js, p, p);
    hide ScanString;
    forall k: nat, m: nat | Stops(js, p, k) && Stops(js, p, m)
      ensures k == m
    {
      OneStop(js, p, k, m);
    }
    assert forall q: nat :: ClosesAt(js, p, q) ==> Stops(js, p, q);
    assert forall k: nat :: BadEscapeAt(js, p, k) ==> Stops(js, p, k);
    assert forall k: nat :: EndsInsideAt(js, p, k) ==> Stops(js, p, k);
  }

  ghost predicate Stops(js: string, from: nat, k: nat) {
    from <= k <= |js| && AllInside(js, from, k) && !Inside(js, from, k)
  }

  // ---- Primitives. ----

  /** A character of a primitive. */
  ghost predicate Solid(c: char) {
    c !in DELIMITERS && 32 as char <= c < 127 as char
  }

  ghost predicate AllSolid(js: string, from: nat, to: nat)
    requires from <= to <= |js|
  {
    forall k :: from <= k < to ==> Solid(js[k])
  }

  /** The primitive that starts at `from` ends at q. */
  ghost predicate PrimitiveEndsAt(js: string, from: nat, q: nat) {
    from <= q <= |js| && AllSolid(js, from, q) && (At(js, q) == '\0' || At(js, q) in DELIMITERS)
  }

  /** A character at k that belongs in no primitive and ends none. */
  ghost predicate UnprintableAt(js: string, from: nat, k: nat) {
    from <= k < |js| && AllSolid(js, from, k) && js[k] != '\0' && !Solid(js[k]) && js[k] !in DELIMITERS
  }

  lemma {:induction false} ScanJudgesPrimitive(js: string, from: nat, p: nat)
    requires from <= p <= |js| && AllSolid(js, from, p)
    ensures match ScanPrimitive(js, p)
            case Found(q) => PrimitiveEndsAt(js, from, q)
            case Bad => exists k: nat :: UnprintableAt(js, from, k)
            case Short => false
    decreases |js| - p
  {
    DelimitersAre(At(js, p));
    hide EndsPrimitive;
    if At(js, p) == '\0' || At(js, p) in DELIMITERS {
      assert PrimitiveEndsAt(js, from, p);
    } else if !Solid(At(js, p)) {
      assert UnprintableAt(js, from, p);
    } else {
      ScanJudgesPrimitive(js, from, p + 1);
    }
  }

  /** The primitive scan stops at the first delimiter or the end, and at an unprintable character before it. */
  lemma ScanPrimitiveMeans(js: string, p: nat)
    requires p <= |js|
    ensures forall q: nat :: ScanPrimitive(js, p) == Found(q) <==> PrimitiveEndsAt(js, p, q)
    ensures ScanPrimitive(js, p) == Bad <==> exists k: nat :: UnprintableAt(js, p, k)
    ensures ScanPrimitive(js, p) != Short
  {
    ScanJudgesPrimitive(js, p, p);
    hide ScanPrimitive;
    forall k: nat, m: nat | Breaks(js, p, k) && Breaks(js, p, m)
      ensures k == m
    {
      OneBreak(js, p, k, m);
    }
    NulIsNotSolid();
    assert forall q: nat :: PrimitiveEndsAt(js, p, q) ==> Breaks(js, p, q);
    assert forall k: nat :: UnprintableAt(js, p, k) ==> Breaks(js, p, k);
  }

  lemma OneBreak(js: string, from: nat, k: nat, m: nat)
    requires Breaks(js, from, k) && Breaks(js, from, m)
    ensures k == m
  {
  }

  lemma NulIsNotSolid()
    ensures !Solid('\0') && '\0' !in DELIMITERS
  {
  }

  ghost predicate Breaks(js: string, from: nat, k: nat) {
    from <= k <= |js| && AllSolid(js, from, k) && (k < |js| ==> !Solid(js[k]))
  }
}

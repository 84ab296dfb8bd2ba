/**
 Two ways to read a call of the tokenizer without its token array: a call that
 ran out of tokens goes on where it stopped, and its answer is the answer of a
 pushdown machine that keeps a stack of open brackets instead of scanning back
 through the tokens.
 */
module JsmnResume {
  import opened Jsmn

  /** The same parser over a longer array whose first entries are kept. */
  function Grown(s: State, more: seq<Token>): State {
    s.(toks := s.toks + more)
  }

  lemma {:induction false} LastOpenGrown(toks: seq<Token>, more: seq<Token>, k: nat)
    requires k <= |toks|
    ensures LastOpen(toks + more, k) == LastOpen(toks, k)
  {
    if k > 0 {
      LastOpenGrown(toks, more, k - 1);
    }
  }

  lemma CloseGrown(s: State, more: seq<Token>, kind: Kind)
    requires s.next <= |s.toks|
    ensures match CloseContainer(s, kind)
            case Continue(t) => CloseContainer(Grown(s, more), kind) == Continue(Grown(t, more))
            case Stop(status) => CloseContainer(Grown(s, more), kind) == Stop(status)
  {
    LastOpenGrown(s.toks, more, s.next);
    var i := LastOpen(s.toks, s.next);
    if i != -1 {
      var closed := s.toks[i].(end := s.pos + 1);
      assert (s.toks + more)[i := closed] == s.toks[i := closed] + more;
      LastOpenGrown(s.toks[i := closed], more, i);
    }
  }

  lemma NewTokenGrown(s: State, more: seq<Token>, t: Token)
    requires -1 <= s.super < s.next <= |s.toks|
    ensures s.next < |s.toks| ==>
              && Bump((s.toks + more)[s.next := t], s.super) == Bump(s.toks[s.next := t], s.super) + more
              && Bump(s.toks + more, s.super)[s.next := t] == Bump(s.toks, s.super)[s.next := t] + more
  {
    if s.next < |s.toks| {
      assert (s.toks + more)[s.next := t] == s.toks[s.next := t] + more;
    }
  }

  /** A turn of the loop does not see how long the array is, unless it is full. */
  /** A turn that starts with an opening bracket, a closing one, or neither. */
  lemma OpenGrown(js: string, s: State, more: seq<Token>)
    requires Wf(js, s) && At(js, s.pos) in {'{', '['} && s.next < |s.toks|
    ensures Step(js, s).Continue? && Step(js, Grown(s, more)) == Continue(Grown(Step(js, s).s, more))
  {
    hide CloseContainer, ScanString, ScanPrimitive, LastOpen;
    NewTokenGrown(s, more, Token(if At(js, s.pos) == '{' then Object else Array, s.pos, -1, 0));
  }

  lemma ClosingGrown(js: string, s: State, more: seq<Token>)
    requires Wf(js, s) && At(js, s.pos) in {'}', ']'}
    ensures match Step(js, s)
            case Continue(t) => Step(js, Grown(s, more)) == Continue(Grown(t, more))
            case Stop(status) => Step(js, Grown(s, more)) == Stop(status)
  {
    hide CloseContainer, ScanString, ScanPrimitive;
    CloseGrown(s, more, if At(js, s.pos) == '}' then Object else Array);
  }

  lemma LeafGrown(s: State, more: seq<Token>, kind: Kind, start: nat, end: nat, pos: nat)
    requires -1 <= s.super < s.next < |s.toks|
    ensures AddLeaf(s, kind, start, end, pos).Continue?
    ensures AddLeaf(Grown(s, more), kind, start, end, pos) == Continue(Grown(AddLeaf(s, kind, start, end, pos).s, more))
  {
    NewTokenGrown(s, more, Token(kind, start, end, 0));
  }

  lemma OtherGrown(js: string, s: State, more: seq<Token>)
    requires Wf(js, s) && At(js, s.pos) !in {'\0', '{', '[', '}', ']'} && s.next < |s.toks|
    ensures match Step(js, s)
            case Continue(t) => Step(js, Grown(s, more)) == Continue(Grown(t, more))
            case Stop(status) => Step(js, Grown(s, more)) == Stop(status)
  {
    hide CloseContainer, ScanString, ScanPrimitive, AddLeaf;
    if At(js, s.pos) == '\"' && ScanString(js, s.pos + 1).Found? {
      var q := ScanString(js, s.pos + 1).at;
      LeafGrown(s, more, String, s.pos + 1, q, q + 1);
    } else if ScanPrimitive(js, s.pos).Found? {
      var q := ScanPrimitive(js, s.pos).at;
      LeafGrown(s, more, Primitive, s.pos, q, q);
    }
  }

  /** Without room for a token. */
  lemma FullGrown(js: string, s: State, more: seq<Token>)
    requires Wf(js, s) && At(js, s.pos) !in {'\0', '}', ']'} && s.next == |s.toks|
    ensures match Step(js, s)
            case Continue(t) => Step(js, Grown(s, more)) == Continue(Grown(t, more))
            case Stop(status) => status != NoMem ==> Step(js, Grown(s, more)) == Stop(status)
  {
    hide CloseContainer, ScanString, ScanPrimitive;
  }

  lemma StepGrown(js: string, s: State, more: seq<Token>)
    requires Wf(js, s) && At(js, s.pos) != '\0'
    ensures match Step(js, s)
            case Continue(t) => Step(js, Grown(s, more)) == Continue(Grown(t, more))
            case Stop(status) => status != NoMem ==> Step(js, Grown(s, more)) == Stop(status)
  {
    hide Step;
    if At(js, s.pos) in {'}', ']'} {
      ClosingGrown(js, s, more);
    } else if s.next == |s.toks| {
      FullGrown(js, s, more);
    } else if At(js, s.pos) in {'{', '['} {
      OpenGrown(js, s, more);
    } else {
      OtherGrown(js, s, more);
    }
  }

  /**
   A call that answers NoMem can be repeated on the same parser with a longer
   array: the second call ends as one call with the longer array would have.
   */
  lemma {:induction false} Resumable(js: string, s: State, more: seq<Token>)
    requires Wf(js, s) && Run(js, s).0 == NoMem
    ensures Run(js, Grown(Run(js, s).1, more)) == Run(js, Grown(s, more))
    decreases |js| - s.pos
  {
    match Step(js, s)
    case Continue(t) =>
      StepGrown(js, s, more);
      Resumable(js, t, more);
    case Stop(_) =>
  }

  /** Any other answer does not depend on the room left over. */
  lemma {:induction false} SpareTokensDoNotMatter(js: string, s: State, more: seq<Token>)
    requires Wf(js, s) && Run(js, s).0 != NoMem
    ensures Run(js, Grown(s, more)) == (Run(js, s).0, Grown(Run(js, s).1, more))
    decreases |js| - s.pos
  {
    if At(js, s.pos) == '\0' {
      LastOpenGrown(s.toks, more, s.next);
    } else {
      StepGrown(js, s, more);
      if Step(js, s).Continue? {
        SpareTokensDoNotMatter(js, Step(js, s).s, more);
      }
    }
  }

  // ---------------------------------------------------------------- the pushdown machine

  /** Answer and number of tokens used, from p on, with these containers open. */
  function Recognize(js: string, p: nat, open: seq<Kind>): (r: (Status, nat))
    requires p <= |js|
    ensures r.0 != NoMem
    decreases |js| - p
  {
    var c := At(js, p);
    if c == '\0' then (if open == [] then Success else Part, 0)
    else if c == '{' || c == '[' then
      var r := Recognize(js, p + 1, open + [if c == '{' then Object else Array]);
      (r.0, r.1 + 1)
    else if c == '}' || c == ']' then
      if open == [] || open[|open| - 1] != (if c == '}' then Object else Array) then (Inval, 0)
      else Recognize(js, p + 1, open[..|open| - 1])
    else if c == '\"' then
      match ScanString(js, p + 1)
      case Found(q) => var r := Recognize(js, q + 1, open); (r.0, r.1 + 1)
      case Bad => (Inval, 0)
      case Short => (Part, 0)
    else if c in {'\t', '\r', '\n', ':', ',', ' '} then Recognize(js, p + 1, open)
    else
      match ScanPrimitive(js, p)
      case Found(q) => var r := Recognize(js, q, open); (r.0, r.1 + 1)
      case _ => (Inval, 0)
  }

  /** Kinds of the open tokens below k, outermost first. */
  function OpenKinds(toks: seq<Token>, k: nat): seq<Kind>
    requires k <= |toks|
  {
    if k == 0 then []
    else OpenKinds(toks, k - 1) + if IsOpen(toks[k - 1]) then [toks[k - 1].kind] else []
  }

  lemma {:induction false} OpenKindsFrame(a: seq<Token>, b: seq<Token>, k: nat)
    requires k <= |a| && k <= |b|
    requires forall i :: 0 <= i < k ==> IsOpen(a[i]) == IsOpen(b[i]) && a[i].kind == b[i].kind
    ensures OpenKinds(a, k) == OpenKinds(b, k)
  {
    if k > 0 {
      OpenKindsFrame(a, b, k - 1);
    }
  }

  /** The last open token is the top of the stack. */
  lemma {:induction false} TopIsLastOpen(toks: seq<Token>, k: nat)
    requires k <= |toks|
    ensures var i := LastOpen(toks, k);
            OpenKinds(toks, k) == if i == -1 then [] else OpenKinds(toks, i) + [toks[i].kind]
  {
    if k > 0 && !IsOpen(toks[k - 1]) {
      TopIsLastOpen(toks, k - 1);
      assert OpenKinds(toks, k) == OpenKinds(toks, k - 1);
    }
  }

  /** Closing the last open token pops the stack. */
  lemma ClosePops(toks: seq<Token>, n: nat, end: nat)
    requires n <= |toks| && LastOpen(toks, n) != -1
    ensures var i := LastOpen(toks, n);
            var closed := toks[i := toks[i].(end := end)];
            OpenKinds(closed, n) == OpenKinds(toks, i)
  {
    var i := LastOpen(toks, n);
    var closed := toks[i := toks[i].(end := end)];
    OpenKindsFrame(toks, closed, i);
    NothingOpenAbove(closed, i, n);
  }

  lemma {:induction false} NothingOpenAbove(toks: seq<Token>, i: nat, n: nat)
    requires i <= n <= |toks| && forall j :: i <= j < n ==> !IsOpen(toks[j])
    ensures OpenKinds(toks, n) == OpenKinds(toks, i)
  {
    if i < n {
      NothingOpenAbove(toks, i, n - 1);
      assert OpenKinds(toks, n) == OpenKinds(toks, n - 1);
    }
  }

  lemma NewTokenOnStack(toks: seq<Token>, super: int, n: nat, t: Token)
    requires -1 <= super < n < |toks|
    ensures var after := Bump(toks, super)[n := t];
            OpenKinds(after, n + 1) == OpenKinds(toks, n) + if IsOpen(t) then [t.kind] else []
  {
    var after := Bump(toks, super)[n := t];
    OpenKindsFrame(toks, after, n);
  }

  /** What the pushdown machine answers from where the parser is. */
  function Verdict(js: string, s: State): (Status, nat)
    requires Wf(js, s)
  {
    Recognize(js, s.pos, OpenKinds(s.toks, s.next))
  }

  /** What a turn does to the stack, against what the pushdown machine does. */
  predicate FollowsStack(js: string, s: State)
    requires Wf(js, s) && At(js, s.pos) != '\0'
  {
    match Step(js, s)
    case Continue(t) =>
      && t.next >= s.next
      && Verdict(js, s).0 == Verdict(js, t).0
      && Verdict(js, s).1 == Verdict(js, t).1 + t.next - s.next
    case Stop(status) =>
      if status == NoMem then s.next == |s.toks| && Verdict(js, s).1 > 0 else Verdict(js, s) == (status, 0)
  }

  lemma RecognizeOpen(js: string, p: nat, open: seq<Kind>)
    requires p <= |js| && At(js, p) in {'{', '['}
    ensures p < |js|
    ensures var r := Recognize(js, p + 1, open + [if At(js, p) == '{' then Object else Array]);
            Recognize(js, p, open) == (r.0, r.1 + 1)
  {
  }

  lemma RecognizeClose(js: string, p: nat, open: seq<Kind>)
    requires p < |js| && At(js, p) in {'}', ']'}
    ensures Recognize(js, p, open) ==
            if open == [] || open[|open| - 1] != (if At(js, p) == '}' then Object else Array) then (Inval, 0)
            else Recognize(js, p + 1, open[..|open| - 1])
  {
  }

  lemma OpenFollowsStack(js: string, s: State)
    requires Wf(js, s) && At(js, s.pos) in {'{', '['}
    ensures FollowsStack(js, s)
  {
    hide LastOpen, ScanString, ScanPrimitive, Recognize, OpenKinds;
    RecognizeOpen(js, s.pos, OpenKinds(s.toks, s.next));
    if s.next < |s.toks| {
      var kind := if At(js, s.pos) == '{' then Object else Array;
      NewTokenOnStack(s.toks, s.super, s.next, Token(kind, s.pos, -1, 0));
    }
  }

  lemma CloseFollowsStack(js: string, s: State)
    requires Wf(js, s) && At(js, s.pos) in {'}', ']'}
    ensures FollowsStack(js, s)
  {
    TopIsLastOpen(s.toks, s.next);
    RecognizeClose(js, s.pos, OpenKinds(s.toks, s.next));
    hide ScanString, ScanPrimitive, Recognize, OpenKinds;
    var i := LastOpen(s.toks, s.next);
    if i != -1 {
      ClosePops(s.toks, s.next, s.pos + 1);
      Popped(OpenKinds(s.toks, i), s.toks[i].kind);
    }
  }

  lemma Popped(open: seq<Kind>, kind: Kind)
    ensures (open + [kind])[..|open|] == open
  {
  }

  lemma LeafFollowsStack(js: string, s: State)
    requires Wf(js, s) && At(js, s.pos) !in {'\0', '{', '[', '}', ']'}
    ensures FollowsStack(js, s)
  {
    if s.next < |s.toks| {
      if At(js, s.pos) == '\"' && ScanString(js, s.pos + 1).Found? {
        LeafOnStack(s, Token(String, s.pos + 1, ScanString(js, s.pos + 1).at, 0));
      } else if ScanPrimitive(js, s.pos).Found? {
        LeafOnStack(s, Token(Primitive, s.pos, ScanPrimitive(js, s.pos).at, 0));
      }
    }
  }

  lemma StepFollowsStack(js: string, s: State)
    requires Wf(js, s) && At(js, s.pos) != '\0'
    ensures FollowsStack(js, s)
  {
    if At(js, s.pos) in {'{', '['} {
      OpenFollowsStack(js, s);
    } else if At(js, s.pos) in {'}', ']'} {
      CloseFollowsStack(js, s);
    } else {
      LeafFollowsStack(js, s);
    }
  }

  lemma LeafOnStack(s: State, t: Token)
    requires s.next < |s.toks| && -1 <= s.super < s.next && t.end != -1
    ensures OpenKinds(Bump(s.toks[s.next := t], s.super), s.next + 1) == OpenKinds(s.toks, s.next)
  {
    assert Bump(s.toks[s.next := t], s.super) == Bump(s.toks, s.super)[s.next := t];
    NewTokenOnStack(s.toks, s.super, s.next, t);
  }

  /**
   The tokenizer refines the pushdown machine: with room for every token the
   answers agree, and NoMem is answered exactly when there is less room.
   */
  lemma {:induction false} RunIsPushdown(js: string, s: State)
    requires Wf(js, s)
    ensures Run(js, s).0 == if s.next + Verdict(js, s).1 <= |s.toks| then Verdict(js, s).0 else NoMem
    ensures s.next + Verdict(js, s).1 <= |s.toks| ==> Run(js, s).1.next == s.next + Verdict(js, s).1
    decreases |js| - s.pos
  {
    if At(js, s.pos) == '\0' {
      TopIsLastOpen(s.toks, s.next);
    } else {
      StepFollowsStack(js, s);
      if Step(js, s).Continue? {
        RunIsPushdown(js, Step(js, s).s);
      }
    }
  }
}

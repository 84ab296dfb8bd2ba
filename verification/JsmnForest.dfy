/**
 What the flat token array means: a forest.  A token's parent is the innermost
 container that reaches over its start; the array lists the forest in document
 order and each container's `size` is the number of its children.
 */
module JsmnForest {
  import opened Jsmn
  import opened JsmnText

  predicate IsContainer(t: Token) {
    t.kind == Object || t.kind == Array
  }

  /** Container a is open at b, or closes only after b starts. */
  predicate Reaches(a: Token, b: Token) {
    IsContainer(a) && (a.end == -1 || b.start < a.end)
  }

  /** Innermost container among the first k tokens that reaches over t, or -1. */
  function Around(toks: seq<Token>, t: Token, k: nat): (i: int)
    requires k <= |toks|
    ensures -1 <= i < k
  {
    if k == 0 then -1
    else if Reaches(toks[k - 1], t) then k - 1
    else Around(toks, t, k - 1)
  }

  function ParentOf(toks: seq<Token>, j: nat): int
    requires j < |toks|
  {
    Around(toks, toks[j], j)
  }

  /** How many of the first n tokens have token i as their parent. */
  function Children(toks: seq<Token>, i: int, n: nat): nat
    requires n <= |toks|
  {
    if n == 0 then 0
    else Children(toks, i, n - 1) + if ParentOf(toks, n - 1) == i then 1 else 0
  }

  function Opening(k: Kind): char {
    if k == Object then '{' else '['
  }

  function Closing(k: Kind): char {
    if k == Object then '}' else ']'
  }

  /** The token stands for the text it should, all of it before pos. */
  ghost predicate Describes(js: string, t: Token, pos: nat)
    requires pos <= |js|
  {
    match t.kind
    case String =>
      1 <= t.start <= t.end < pos && js[t.start - 1] == '\"' && ClosesAt(js, t.start, t.end)
    case Primitive =>
      0 <= t.start < t.end <= pos && PrimitiveEndsAt(js, t.start, t.end)
    case _ =>
      && 0 <= t.start < pos && js[t.start] == Opening(t.kind)
      && (t.end == -1 || (t.start + 1 < t.end <= pos && js[t.end - 1] == Closing(t.kind)))
  }

  predicate Apart(a: Token, b: Token) {
    a.end != -1 && a.end <= b.start
  }

  predicate Nested(a: Token, b: Token) {
    IsContainer(a) && (a.end == -1 || (b.end != -1 && b.end < a.end))
  }

  /** a comes before b in the array. */
  predicate InOrder(a: Token, b: Token) {
    a.start < b.start && (Apart(a, b) || Nested(a, b))
  }

  predicate Laminar(toks: seq<Token>, n: nat)
    requires n <= |toks|
  {
    forall i, j :: 0 <= i < j < n ==> InOrder(toks[i], toks[j])
  }

  predicate Counted(toks: seq<Token>, n: nat)
    requires n <= |toks|
  {
    forall i :: 0 <= i < n ==> toks[i].size == Children(toks, i, n)
  }

  /** The invariant of the main loop: toksuper is the innermost open container. */
  ghost predicate Inv(js: string, s: State) {
    && Wf(js, s)
    && s.super == LastOpen(s.toks, s.next)
    && (forall i :: 0 <= i < s.next ==> Describes(js, s.toks[i], s.pos))
    && Laminar(s.toks, s.next)
    && Counted(s.toks, s.next)
  }

  // ---------------------------------------------------------------- frames

  lemma {:induction false} AroundFrame(a: seq<Token>, b: seq<Token>, t: Token, u: Token, k: nat)
    requires k <= |a| && k <= |b|
    requires forall i :: 0 <= i < k ==> Reaches(a[i], t) == Reaches(b[i], u)
    ensures Around(a, t, k) == Around(b, u, k)
  {
    if k > 0 {
      AroundFrame(a, b, t, u, k - 1);
    }
  }

  /** Parents depend only on which token reaches over which. */
  lemma {:induction false} ChildrenFrame(a: seq<Token>, b: seq<Token>, i: int, n: nat)
    requires n <= |a| && n <= |b|
    requires forall k, j :: 0 <= k < j < n ==> Reaches(a[k], a[j]) == Reaches(b[k], b[j])
    ensures Children(a, i, n) == Children(b, i, n)
  {
    if n > 0 {
      ChildrenFrame(a, b, i, n - 1);
      AroundFrame(a, b, a[n - 1], b[n - 1], n - 1);
    }
  }

  /** Token i has no child among the tokens before it. */
  lemma {:induction false} NoEarlyChildren(toks: seq<Token>, i: nat, n: nat)
    requires n <= |toks| && n <= i + 1
    ensures Children(toks, i, n) == 0
  {
    if n > 0 {
      NoEarlyChildren(toks, i, n - 1);
    }
  }

  /** Leaves have no children. */
  lemma {:induction false} LeafHasNoChildren(toks: seq<Token>, i: nat, n: nat)
    requires i < |toks| && n <= |toks| && !IsContainer(toks[i])
    ensures Children(toks, i, n) == 0
  {
    if n > 0 {
      LeafHasNoChildren(toks, i, n - 1);
      AroundNeverLeaf(toks, toks[n - 1], n - 1);
    }
  }

  lemma {:induction false} AroundNeverLeaf(toks: seq<Token>, t: Token, k: nat)
    requires k <= |toks|
    ensures Around(toks, t, k) != -1 ==> Reaches(toks[Around(toks, t, k)], t)
    ensures forall i :: Around(toks, t, k) < i < k ==> !Reaches(toks[i], t)
  {
    if k > 0 && !Reaches(toks[k - 1], t) {
      AroundNeverLeaf(toks, t, k - 1);
    }
  }

  /** When everything finished ended before t starts, only open containers reach t. */
  lemma {:induction false} AroundIsLastOpen(toks: seq<Token>, t: Token, k: nat)
    requires k <= |toks|
    requires forall i :: 0 <= i < k ==> toks[i].start != -1 && (IsOpen(toks[i]) ==> IsContainer(toks[i]))
    requires forall i :: 0 <= i < k ==> toks[i].end == -1 || toks[i].end <= t.start
    ensures Around(toks, t, k) == LastOpen(toks, k)
  {
    if k > 0 {
      AroundIsLastOpen(toks, t, k - 1);
    }
  }

  lemma {:induction false} LastOpenFrame(a: seq<Token>, b: seq<Token>, k: nat)
    requires k <= |a| && k <= |b|
    requires forall i :: 0 <= i < k ==> IsOpen(a[i]) == IsOpen(b[i])
    ensures LastOpen(a, k) == LastOpen(b, k)
  {
    if k > 0 {
      LastOpenFrame(a, b, k - 1);
    }
  }

  // ---------------------------------------------------------------- one turn

  /** Reached over or not, the tokens before a new one are related as they were. */
  predicate SameShape(a: seq<Token>, b: seq<Token>, n: nat)
    requires n <= |a| && n <= |b|
  {
    forall i :: 0 <= i < n ==> a[i].kind == b[i].kind && a[i].start == b[i].start && a[i].end == b[i].end
  }

  lemma BumpKeepsShape(toks: seq<Token>, super: int, k: nat, t: Token)
    requires -1 <= super < k < |toks|
    ensures SameShape(toks, Bump(toks, super)[k := t], k)
  {
  }

  /** A new token t, starting no sooner than s.pos, has s.super for its parent. */
  lemma ParentOfNew(js: string, s: State, t: Token, after: seq<Token>)
    requires Inv(js, s) && s.next < |s.toks| <= |after| && s.pos <= t.start
    requires SameShape(s.toks, after, s.next)
    ensures LastOpen(after, s.next) == s.super
    ensures Around(after, t, s.next) == s.super
  {
    forall i | 0 <= i < s.next
      ensures after[i].start != -1 && (IsOpen(after[i]) ==> IsContainer(after[i]))
      ensures after[i].end == -1 || after[i].end <= t.start
      ensures IsOpen(s.toks[i]) == IsOpen(after[i])
    {
      assert Describes(js, s.toks[i], s.pos);
    }
    LastOpenFrame(s.toks, after, s.next);
    AroundIsLastOpen(after, t, s.next);
  }

  lemma AppendKeepsLaminar(js: string, s: State, t: Token, after: seq<Token>)
    requires Inv(js, s) && s.next < |s.toks| && s.pos <= t.start
    requires after == Bump(s.toks, s.super)[s.next := t]
    ensures Laminar(after, s.next + 1)
  {
    BumpKeepsShape(s.toks, s.super, s.next, t);
    forall i, j | 0 <= i < j < s.next + 1
      ensures InOrder(after[i], after[j])
    {
      if j < s.next {
        assert InOrder(s.toks[i], s.toks[j]);
      } else {
        assert Describes(js, s.toks[i], s.pos);
      }
    }
  }

  /** A new token t after everything read so far, counted by the innermost open container. */
  lemma AppendKeepsCounts(js: string, s: State, t: Token, after: seq<Token>)
    requires Inv(js, s) && s.next < |s.toks| && s.pos <= t.start && t.size == 0
    requires after == Bump(s.toks, s.super)[s.next := t]
    ensures Counted(after, s.next + 1)
  {
    var n := s.next;
    BumpKeepsShape(s.toks, s.super, n, t);
    ParentOfNew(js, s, t, after);
    assert ParentOf(after, n) == s.super;
    hide Describes, Laminar, Around;
    forall i | 0 <= i < n + 1
      ensures after[i].size == Children(after, i, n + 1)
    {
      if i == n {
        NoEarlyChildren(after, n, n + 1);
      } else {
        ChildrenFrame(s.toks, after, i, n);
        assert s.toks[i].size == Children(s.toks, i, n);
      }
    }
  }

  lemma DescribesLater(js: string, t: Token, pos: nat, later: nat)
    requires pos <= later <= |js| && Describes(js, t, pos)
    ensures Describes(js, t, later)
  {
  }

  /** A primitive is not empty: it starts with a character that neither separates nor closes. */
  lemma FirstIsSolid(js: string, p: nat)
    requires p < |js| && js[p] !in {'\0', '}', ']', '\t', '\r', '\n', ':', ',', ' '}
    ensures At(js, p) != '\0' && At(js, p) !in DELIMITERS
  {
    DelimitersAre(js[p]);
  }

  lemma LeafStep(js: string, s: State, kind: Kind, start: nat, end: nat, pos: nat)
    requires Inv(js, s) && s.next < |s.toks| && s.pos <= start <= end <= pos && s.pos < pos <= |js|
    requires Describes(js, Token(kind, start, end, 0), pos) && !IsContainer(Token(kind, start, end, 0))
    ensures Inv(js, AddLeaf(s, kind, start, end, pos).s)
  {
    hide Laminar, Counted, Describes;
    var t := Token(kind, start, end, 0);
    var after := AddLeaf(s, kind, start, end, pos).s.toks;
    assert after == Bump(s.toks, s.super)[s.next := t];
    AppendDescribes(js, s, t, pos, after);
    BumpKeepsShape(s.toks, s.super, s.next, t);
    ParentOfNew(js, s, t, after);
    AppendKeepsLaminar(js, s, t, after);
    AppendKeepsCounts(js, s, t, after);
  }

  lemma AppendDescribes(js: string, s: State, t: Token, pos: nat, after: seq<Token>)
    requires Inv(js, s) && s.next < |s.toks| && s.pos <= pos <= |js| && Describes(js, t, pos)
    requires after == Bump(s.toks, s.super)[s.next := t]
    ensures forall i :: 0 <= i < s.next + 1 ==> Describes(js, after[i], pos)
  {
    forall i | 0 <= i < s.next + 1
      ensures Describes(js, after[i], pos)
    {
      if i < s.next {
        DescribesLater(js, s.toks[i], s.pos, pos);
      }
    }
  }

  lemma OpenStep(js: string, s: State, kind: Kind)
    requires Inv(js, s) && s.next < |s.toks| && s.pos < |js|
    requires IsContainer(Token(kind, 0, 0, 0)) && js[s.pos] == Opening(kind)
    ensures Inv(js, OpenContainer(s, kind).s)
  {
    var t := Token(kind, s.pos, -1, 0);
    var after := OpenContainer(s, kind).s.toks;
    AppendDescribes(js, s, t, s.pos + 1, after);
    AppendKeepsLaminar(js, s, t, after);
    AppendKeepsCounts(js, s, t, after);
  }

  /** Closing at pos moves an end from "not yet" to just past pos: no relation changes. */
  lemma CloseKeepsReach(js: string, s: State, after: seq<Token>)
    requires Inv(js, s) && s.super != -1
    requires after == s.toks[s.super := s.toks[s.super].(end := s.pos + 1)]
    ensures forall k, j :: 0 <= k < j < s.next ==> Reaches(s.toks[k], s.toks[j]) == Reaches(after[k], after[j])
    ensures Laminar(after, s.next)
  {
    forall k, j | 0 <= k < j < s.next
      ensures Reaches(s.toks[k], s.toks[j]) == Reaches(after[k], after[j])
      ensures InOrder(after[k], after[j])
    {
      assert Describes(js, s.toks[k], s.pos) && Describes(js, s.toks[j], s.pos);
      assert InOrder(s.toks[k], s.toks[j]);
    }
  }

  lemma CloseDescribes(js: string, s: State, after: seq<Token>)
    requires Inv(js, s) && s.super != -1 && s.pos < |js| && js[s.pos] == Closing(s.toks[s.super].kind)
    requires after == s.toks[s.super := s.toks[s.super].(end := s.pos + 1)]
    ensures forall i :: 0 <= i < s.next ==> Describes(js, after[i], s.pos + 1)
  {
    forall i | 0 <= i < s.next
      ensures Describes(js, after[i], s.pos + 1)
    {
      assert Describes(js, s.toks[i], s.pos);
      if i != s.super {
        DescribesLater(js, s.toks[i], s.pos, s.pos + 1);
      }
    }
  }

  lemma CloseStep(js: string, s: State, kind: Kind)
    requires Inv(js, s) && s.pos < |js| && js[s.pos] == Closing(kind)
    requires CloseContainer(s, kind).Continue?
    ensures Inv(js, CloseContainer(s, kind).s)
  {
    var after := CloseContainer(s, kind).s.toks;
    CloseKeepsReach(js, s, after);
    CloseDescribes(js, s, after);
    CloseKeepsCounts(js, s, after);
    hide Laminar, Counted, Describes;
    LastOpenAbove(after, s.super, s.next);
  }

  lemma CloseKeepsCounts(js: string, s: State, after: seq<Token>)
    requires Inv(js, s) && s.super != -1
    requires after == s.toks[s.super := s.toks[s.super].(end := s.pos + 1)]
    ensures Counted(after, s.next)
  {
    CloseKeepsReach(js, s, after);
    hide Laminar, Describes;
    forall k | 0 <= k < s.next
      ensures after[k].size == Children(after, k, s.next)
    {
      ChildrenFrame(s.toks, after, k, s.next);
      assert s.toks[k].size == Children(s.toks, k, s.next);
    }
  }

  lemma {:induction false} LastOpenAbove(toks: seq<Token>, i: nat, k: nat)
    requires i <= k <= |toks|
    requires forall j :: i <= j < k ==> !IsOpen(toks[j])
    ensures LastOpen(toks, k) == LastOpen(toks, i)
  {
    if i < k {
      LastOpenAbove(toks, i, k - 1);
    }
  }

  lemma StepKeepsForest(js: string, s: State)
    requires Inv(js, s) && At(js, s.pos) != '\0' && Step(js, s).Continue?
    ensures Inv(js, Step(js, s).s)
  {
    hide Laminar, Counted, LastOpen, Bump;
    var c := At(js, s.pos);
    if c == '{' || c == '[' {
      OpenStep(js, s, if c == '{' then Object else Array);
    } else if c == '}' || c == ']' {
      CloseStep(js, s, if c == '}' then Object else Array);
    } else if c == '\"' {
      ScanStringMeans(js, s.pos + 1);
      var q := ScanString(js, s.pos + 1).at;
      LeafStep(js, s, String, s.pos + 1, q, q + 1);
    } else if c !in {'\t', '\r', '\n', ':', ',', ' '} {
      ScanPrimitiveMeans(js, s.pos);
      FirstIsSolid(js, s.pos);
      var q := ScanPrimitive(js, s.pos).at;
      LeafStep(js, s, Primitive, s.pos, q, q);
    }
  }

  /** Whatever the outcome of a call, the tokens read so far form a forest. */
  /** A turn that stops the call has not succeeded. */
  lemma StopsShort(js: string, s: State)
    requires Wf(js, s) && At(js, s.pos) != '\0' && Step(js, s).Stop?
    ensures Step(js, s).status != Success
  {
    hide LastOpen, ScanString, ScanPrimitive;
  }

  lemma {:induction false} RunKeepsForest(js: string, s: State)
    requires Inv(js, s)
    ensures Inv(js, Run(js, s).1)
    ensures Run(js, s).0 == Success ==> LastOpen(Run(js, s).1.toks, Run(js, s).1.next) == -1
    decreases |js| - s.pos
  {
    hide Laminar, Counted, Describes, Step, LastOpen;
    if At(js, s.pos) != '\0' {
      if Step(js, s).Continue? {
        StepKeepsForest(js, s);
        RunKeepsForest(js, Step(js, s).s);
      } else {
        StopsShort(js, s);
      }
    }
  }

  // ---------------------------------------------------------------- nothing is left out

  const SEPARATORS := "\t\r\n:, "

  /** The character at p belongs to the token: its text, with the quotes of a string; of a container its brackets. */
  predicate Covers(t: Token, p: int) {
    match t.kind
    case String => t.start - 1 <= p <= t.end
    case Primitive => t.start <= p < t.end
    case _ => p == t.start || p == t.end - 1
  }

  ghost predicate CoveredBy(toks: seq<Token>, n: nat, p: int)
    requires n <= |toks|
  {
    exists i :: 0 <= i < n && Covers(toks[i], p)
  }

  /** Every character before pos is a separator or belongs to a token. */
  ghost predicate Complete(js: string, toks: seq<Token>, n: nat, pos: nat)
    requires n <= |toks| && pos <= |js|
  {
    forall p :: 0 <= p < pos ==> js[p] in SEPARATORS || CoveredBy(toks, n, p)
  }

  /** What the tokens cover they still cover when one more comes and when one is closed. */
  lemma StaysCovered(js: string, s: State, after: seq<Token>, n: nat)
    requires s.next <= |s.toks| && s.next <= n <= |after| && s.pos <= |js| && Complete(js, s.toks, s.next, s.pos)
    requires forall i :: 0 <= i < s.next ==>
               after[i].kind == s.toks[i].kind && after[i].start == s.toks[i].start &&
               (after[i].end == s.toks[i].end || (s.toks[i].end == -1 && s.toks[i].kind in {Object, Array}))
    ensures Complete(js, after, n, s.pos)
  {
    forall p | 0 <= p < s.pos && CoveredBy(s.toks, s.next, p)
      ensures CoveredBy(after, n, p)
    {
      var i :| 0 <= i < s.next && Covers(s.toks[i], p);
      assert Covers(after[i], p);
    }
  }

  lemma NewTokenCovers(js: string, s: State, t: Token, pos: nat)
    requires Wf(js, s) && s.next < |s.toks| && Complete(js, s.toks, s.next, s.pos) && s.pos <= pos <= |js|
    requires forall p :: s.pos <= p < pos ==> Covers(t, p)
    ensures Complete(js, Bump(s.toks, s.super)[s.next := t], s.next + 1, pos)
  {
    var after, n := Bump(s.toks, s.super)[s.next := t], s.next + 1;
    StaysCovered(js, s, after, n);
    forall p | s.pos <= p < pos
      ensures CoveredBy(after, n, p)
    {
      assert Covers(after[s.next], p);
    }
  }

  lemma ClosingCovers(js: string, s: State, kind: Kind)
    requires Inv(js, s) && s.pos < |js| && Complete(js, s.toks, s.next, s.pos) && kind in {Object, Array}
    requires CloseContainer(s, kind).Continue?
    ensures var t := CloseContainer(s, kind).s; Complete(js, t.toks, t.next, t.pos)
  {
    hide Laminar, Counted, Describes;
    var t := CloseContainer(s, kind).s;
    StaysCovered(js, s, t.toks, t.next);
    assert Covers(t.toks[s.super], s.pos);
  }

  lemma SeparatorCovers(js: string, s: State)
    requires Wf(js, s) && s.pos < |js| && Complete(js, s.toks, s.next, s.pos)
    requires js[s.pos] in {'\t', '\r', '\n', ':', ',', ' '}
    ensures Complete(js, s.toks, s.next, s.pos + 1)
  {
    assert SEPARATORS == ['\t', '\r', '\n', ':', ',', ' '];
  }

  lemma OpeningCovers(js: string, s: State, kind: Kind)
    requires Wf(js, s) && s.pos < |js| && Complete(js, s.toks, s.next, s.pos) && kind in {Object, Array}
    requires OpenContainer(s, kind).Continue?
    ensures var t := OpenContainer(s, kind).s; Complete(js, t.toks, t.next, t.pos)
  {
    hide Complete, Bump;
    NewTokenCovers(js, s, Token(kind, s.pos, -1, 0), s.pos + 1);
  }

  lemma LeafCovers(js: string, s: State, kind: Kind, start: nat, end: nat, pos: nat)
    requires Wf(js, s) && Complete(js, s.toks, s.next, s.pos) && s.pos <= pos <= |js|
    requires AddLeaf(s, kind, start, end, pos).Continue?
    requires if kind == String then start == s.pos + 1 && pos == end + 1 else kind == Primitive && start == s.pos && pos == end
    ensures var t := AddLeaf(s, kind, start, end, pos).s; Complete(js, t.toks, t.next, t.pos)
  {
    assert forall p :: s.pos <= p < pos ==> Covers(Token(kind, start, end, 0), p);
    hide Complete, Covers;
    LeafTokens(s, Token(kind, start, end, 0));
    NewTokenCovers(js, s, Token(kind, start, end, 0), pos);
  }

  lemma LeafTokens(s: State, t: Token)
    requires -1 <= s.super < s.next < |s.toks|
    ensures Bump(s.toks[s.next := t], s.super) == Bump(s.toks, s.super)[s.next := t]
  {
  }

  lemma LeafStepCovers(js: string, s: State)
    requires Wf(js, s) && At(js, s.pos) !in ['\0', '{', '[', '}', ']', '\t', '\r', '\n', ':', ',', ' ']
    requires Step(js, s).Continue? && Complete(js, s.toks, s.next, s.pos)
    ensures var t := Step(js, s).s; Complete(js, t.toks, t.next, t.pos)
  {
    hide LastOpen, Complete, OpenContainer, CloseContainer, AddLeaf, ScanString, ScanPrimitive;
    if At(js, s.pos) == '\"' {
      var q := ScanString(js, s.pos + 1).at;
      LeafCovers(js, s, String, s.pos + 1, q, q + 1);
    } else {
      var q := ScanPrimitive(js, s.pos).at;
      LeafCovers(js, s, Primitive, s.pos, q, q);
    }
  }

  lemma StepCovers(js: string, s: State)
    requires Inv(js, s) && At(js, s.pos) != '\0' && Step(js, s).Continue? && Complete(js, s.toks, s.next, s.pos)
    ensures var t := Step(js, s).s; Complete(js, t.toks, t.next, t.pos)
  {
    InvIsWf(js, s);
    hide Inv, LastOpen, Complete, OpenContainer, CloseContainer, AddLeaf, ScanString, ScanPrimitive;
    var c := At(js, s.pos);
    if c == '{' || c == '[' {
      OpeningCovers(js, s, if c == '{' then Object else Array);
    } else if c == '}' || c == ']' {
      ClosingCovers(js, s, if c == '}' then Object else Array);
    } else if c in {'\t', '\r', '\n', ':', ',', ' '} {
      SeparatorCovers(js, s);
    } else {
      LeafStepCovers(js, s);
    }
  }

  /** All that a call reads ends up in its tokens, but for the separators between them. */
  lemma {:induction false} RunCovers(js: string, s: State)
    requires Inv(js, s) && Complete(js, s.toks, s.next, s.pos)
    ensures var t := Run(js, s).1; Complete(js, t.toks, t.next, t.pos)
    ensures Run(js, s).0 == Success ==> At(js, Run(js, s).1.pos) == '\0'
    decreases |js| - s.pos
  {
    hide Inv, Complete, Step;
    InvIsWf(js, s);
    if At(js, s.pos) != '\0' {
      if Step(js, s).Continue? {
        StepKeepsForest(js, s);
        StepCovers(js, s);
        RunCovers(js, Step(js, s).s);
      } else {
        StopsShort(js, s);
      }
    }
  }

  lemma InvIsWf(js: string, s: State)
    requires Inv(js, s)
    ensures Wf(js, s)
  {
  }

  /**
   A successful parse yields a forest: starts strictly increase, any two tokens
   nest or are apart, containers open and close with their own brackets, strings
   end at the first bare quote and primitives at the first delimiter, each size is
   the number of children, and nothing but separators lies outside the tokens.
   */
  lemma SuccessIsForest(js: string, toks: seq<Token>)
    requires Run(js, Init(toks)).0 == Success
    ensures var s := Run(js, Init(toks)).1;
            && Laminar(s.toks, s.next) && Counted(s.toks, s.next)
            && (forall i :: 0 <= i < s.next ==> s.toks[i].end != -1 && Describes(js, s.toks[i], |js|))
            && At(js, s.pos) == '\0' && Complete(js, s.toks, s.next, s.pos)
  {
    InitIsForest(js, toks);
    hide Inv, Run, Laminar, Counted, Describes;
    RunKeepsForest(js, Init(toks));
    RunCovers(js, Init(toks));
    hide Complete;
    ForestAtEnd(js, Run(js, Init(toks)).1);
  }

  lemma InitIsForest(js: string, toks: seq<Token>)
    ensures Inv(js, Init(toks))
  {
  }

  /** With no token open, every token has its end. */
  lemma ForestAtEnd(js: string, s: State)
    requires Inv(js, s) && LastOpen(s.toks, s.next) == -1
    ensures Laminar(s.toks, s.next) && Counted(s.toks, s.next)
    ensures forall i :: 0 <= i < s.next ==> s.toks[i].end != -1 && Describes(js, s.toks[i], |js|)
  {
    hide Laminar, Counted;
    forall i | 0 <= i < s.next
      ensures s.toks[i].end != -1 && Describes(js, s.toks[i], |js|)
    {
      assert Describes(js, s.toks[i], s.pos);
      DescribesLater(js, s.toks[i], s.pos, |js|);
      assert !IsOpen(s.toks[i]);
    }
  }

  /** The parent computed from positions is the innermost token that encloses. */
  lemma ParentEncloses(js: string, toks: seq<Token>, j: nat)
    requires Run(js, Init(toks)).0 == Success && j < Run(js, Init(toks)).1.next
    ensures var s := Run(js, Init(toks)).1;
            var p := ParentOf(s.toks, j);
            && (p != -1 ==> Nested(s.toks[p], s.toks[j]) && s.toks[p].start < s.toks[j].start)
            && (forall i :: p < i < j ==> Apart(s.toks[i], s.toks[j]))
  {
    SuccessIsForest(js, toks);
    var s := Run(js, Init(toks)).1;
    AroundNeverLeaf(s.toks, s.toks[j], j);
    forall i | ParentOf(s.toks, j) < i < j
      ensures Apart(s.toks[i], s.toks[j])
    {
      assert InOrder(s.toks[i], s.toks[j]);
      assert !Reaches(s.toks[i], s.toks[j]);
      assert Describes(js, s.toks[j], |js|);
    }
  }

  // ---- What the answers mean. ----

  ghost predicate BadEscape(js: string, from: nat) {
    exists k: nat :: BadEscapeAt(js, from, k)
  }

  ghost predicate EndsInside(js: string, from: nat) {
    exists k: nat :: EndsInsideAt(js, from, k)
  }

  /** At its place the text cannot go on: a bracket that closes nothing of its kind, a bad escape, a bad character. */
  ghost predicate Broken(js: string, s: State)
    requires Wf(js, s)
  {
    var c := At(js, s.pos);
    if c == '}' || c == ']' then
      var i := LastOpen(s.toks, s.next);
      i == -1 || s.toks[i].kind != if c == '}' then Object else Array
    else if c == '\"' then BadEscape(js, s.pos + 1)
    else c != '\0' && c != '{' && c != '[' && c !in SEPARATORS && exists k: nat :: UnprintableAt(js, s.pos, k)
  }

  /** The text ends too early: in a string, or in a container. */
  ghost predicate Unfinished(js: string, s: State)
    requires Wf(js, s)
  {
    if At(js, s.pos) == '\0' then LastOpen(s.toks, s.next) != -1
    else At(js, s.pos) == '\"' && EndsInside(js, s.pos + 1)
  }

  lemma {:induction false} RunStops(js: string, s: State)
    requires Wf(js, s)
    ensures var r := Run(js, s);
            if At(js, r.1.pos) == '\0' then r.0 == Finish(r.1) else Step(js, r.1) == Stop(r.0)
    decreases |js| - s.pos
  {
    hide Step;
    if At(js, s.pos) != '\0' && Step(js, s).Continue? {
      RunStops(js, Step(js, s).s);
    }
  }

  lemma StopMeans(js: string, s: State)
    requires Wf(js, s) && At(js, s.pos) != '\0' && Step(js, s).Stop?
    ensures Step(js, s).status == (if Broken(js, s) then Inval else if Unfinished(js, s) then Part else NoMem)
    ensures Step(js, s).status == NoMem ==> s.next == |s.toks|
  {
    hide LastOpen, ScanString, ScanPrimitive, BadEscapeAt, EndsInsideAt, UnprintableAt, ClosesAt, PrimitiveEndsAt;
    var c := At(js, s.pos);
    assert SEPARATORS == ['\t', '\r', '\n', ':', ',', ' '];
    if c == '\"' {
      ScanStringMeans(js, s.pos + 1);
    } else if c !in SEPARATORS && c != '{' && c != '[' && c != '}' && c != ']' {
      ScanPrimitiveMeans(js, s.pos);
    }
  }

  /**
   Where the parser stops tells why: at the end with all containers closed it has
   succeeded; the text is broken there, or unfinished; or else there is no token left.
   */
  lemma AnswerMeans(js: string, toks: seq<Token>)
    ensures var r := Run(js, Init(toks)); var s := r.1;
            && (r.0 == Success <==> At(js, s.pos) == '\0' && LastOpen(s.toks, s.next) == -1)
            && (r.0 == Inval <==> Broken(js, s))
            && (r.0 == Part <==> !Broken(js, s) && Unfinished(js, s))
            && (r.0 == NoMem ==> s.next == |s.toks|)
  {
    RunStops(js, Init(toks));
    hide Run, Step, LastOpen;
    var r := Run(js, Init(toks));
    if At(js, r.1.pos) != '\0' {
      StopMeans(js, r.1);
    }
  }
}

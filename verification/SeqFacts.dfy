/** Facts about sequences that several modules use. */
module SeqFacts {

  lemma TailOfJoin<A>(a: seq<A>, b: seq<A>)
    requires a != []
    ensures (a + b)[0] == a[0] && (a + b)[1..] == a[1..] + b
  {
  }

  lemma JoinInThree<A>(a: seq<A>, b: seq<A>, c: seq<A>)
    ensures a + (b + c) == a + b + c
  {
  }

  lemma SliceOfSlice<A>(s: seq<A>, i: nat, j: nat)
    requires i <= j < |s|
    ensures s[i..][..j - i] == s[i..j] && s[i..][j - i + 1..] == s[j + 1..]
  {
  }

  lemma CutAt<A>(s: seq<A>, i: nat)
    requires i < |s|
    ensures s == s[..i] + ([s[i]] + s[i + 1..])
  {
  }
}

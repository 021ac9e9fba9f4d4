/** Cutting and joining sequences. */
module Sequences {

  lemma CutConcat<T>(a: seq<T>, b: seq<T>, c: seq<T>, n: nat)
    requires n <= |a|
    ensures var s := a + b + c;
            && s[..n] == a[..n] && s[n..|a|] == a[n..]
            && s[|a|..|a| + |b|] == b && s[|a| + |b|..] == c
  {
  }

  lemma Cut<T>(s: seq<T>, n: nat)
    requires n <= |s|
    ensures s == s[..n] + s[n..]
  {
  }

  lemma SplitConcat<T>(a: seq<T>, b: seq<T>, c: seq<T>)
    requires a + b == c
    ensures a == c[..|a|] && b == c[|a|..]
  {
  }

  lemma TakeConcat<T>(a: seq<T>, b: seq<T>, n: nat)
    requires n <= |b|
    ensures (a + b)[..|a| + n] == a + b[..n]
  {
  }
}

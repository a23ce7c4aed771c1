/** Extensional equalities of sequences, stated once so that proofs can call them by name. */
module Sequences {

  lemma DropNothing<T>(s: seq<T>)
    ensures s[0..] == s
  {
  }

  lemma NothingFirst<T>(s: seq<T>)
    ensures [] + s == s
  {
  }

  lemma AppendNothing<T>(s: seq<T>)
    ensures s + [] == s
  {
  }

  lemma ConsAssociates<T>(s: seq<T>, t: seq<T>)
    requires s != []
    ensures [s[0]] + (s[1..] + t) == s + t
  {
  }

  lemma SplitSeq<T>(s: seq<T>, i: nat)
    requires i <= |s|
    ensures s[..i] + s[i..] == s
  {
  }

  lemma PrefixSplit<T>(s: seq<T>, t: seq<T>)
    requires s <= t
    ensures t == s + t[|s|..]
  {
  }

  lemma Associate<T>(a: seq<T>, b: seq<T>, c: seq<T>)
    ensures a + b + c == a + (b + c)
  {
  }

  lemma ReplaceMiddle<T>(a: seq<T>, h: seq<T>, p: seq<T>, r: seq<T>, b: seq<T>, b': seq<T>)
    requires b == a + (h + p + r) && |b'| == |b|
    requires forall j :: 0 <= j < |b| && !(|a| + |h| <= j < |a| + |h| + |p|) ==> b'[j] == b[j]
    ensures b' == a + (h + b'[|a| + |h|..|a| + |h| + |p|] + r)
  {
  }

  lemma UpdateMiddle<T>(s: seq<T>, x: T, y: T, t: seq<T>)
    ensures (s + ([x] + t))[|s| := y] == s + ([y] + t)
  {
  }

  lemma TakeAfter<T>(s: seq<T>, t: seq<T>, n: nat)
    requires |s| <= n <= |s| + |t|
    ensures (s + t)[..n] == s + t[..n - |s|]
  {
  }

  lemma TakeCons<T>(s: seq<T>, k: nat)
    requires 0 < k <= |s|
    ensures s[..k] == [s[0]] + s[1..][..k - 1]
  {
  }

  lemma PrefixAfter<T>(head: seq<T>, s: seq<T>, t: seq<T>)
    requires s <= t
    ensures head + s <= head + t
  {
  }

  lemma ConcatTail<T>(s: seq<T>, t: seq<T>)
    requires s != []
    ensures (s + t)[0] == s[0] && (s + t)[1..] == s[1..] + t
  {
  }

  lemma SplitAround<T>(s: seq<T>, k: nat)
    requires k < |s|
    ensures s == s[..k] + ([s[k]] + s[k + 1..])
  {
  }

  lemma SameSize<T>(s: seq<T>, t: seq<T>)
    requires multiset(s) == multiset(t)
    ensures |s| == |t|
  {
    assert |multiset(s)| == |s| && |multiset(t)| == |t|;
  }

  lemma CutInFive<T>(s: seq<T>, i: nat, j: nat, k: nat, l: nat)
    requires i <= j <= k <= l <= |s|
    ensures s == s[..i] + s[i..j] + s[j..k] + s[k..l] + s[l..]
  {
  }
}

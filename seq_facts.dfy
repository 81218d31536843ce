/** Facts about sequences that the proofs of several modules use. */
module SeqFacts {
  /** The slice of `a + (c + d)` that is `c`. */
  lemma SliceMiddle<T>(r: seq<T>, a: seq<T>, b: seq<T>, c: seq<T>, d: seq<T>, start: int, end: int)
    requires r == a + b && b == c + d && start == |a| && end == |a| + |c|
    ensures 0 <= start <= end <= |r| && r[start..end] == c
  {
    assert r == (a + c) + d;
  }

  lemma TakeTail<T>(s: seq<T>, k: nat)
    requires 0 < k <= |s|
    ensures s[..k] != [] && s[..k][0] == s[0] && s[..k][1..] == s[1..][..k - 1]
  {
  }

  lemma HeadTail<T>(a: seq<T>, b: seq<T>)
    requires a != []
    ensures [a[0]] + a[1..] == a && [a[0]] + (a[1..] + b) == a + b
  {
  }

  lemma Associative<T>(a: seq<T>, b: seq<T>, c: seq<T>)
    ensures a + (b + c) == (a + b) + c
  {
  }

  lemma ConsParts<T>(c: T, s: seq<T>)
    ensures ([c] + s)[0] == c && ([c] + s)[1..] == s
  {
  }

  lemma ThreeParts<T>(s: seq<T>, k: nat)
    requires 1 <= k <= |s|
    ensures s == [s[0]] + s[1..k] + s[k..]
  {
  }
}

/**
 * Sequence helpers shared by the components: removing every entry that carries
 * a given key, as `list.filter((x) => x.id !== id)` does, and the order-keeping
 * sub-sequence relation used to say that such a removal does not reorder.
 */
module Lists {

  /** `sub` can be obtained from `s` by deleting entries, without reordering. */
  ghost predicate IsSubseq<T>(sub: seq<T>, s: seq<T>)
    decreases |s|
  {
    if sub == [] then true
    else if s == [] then false
    else if sub[0] == s[0] then IsSubseq(sub[1..], s[1..])
    else IsSubseq(sub, s[1..])
  }

  /** Every entry whose key is `k` is dropped; the others keep their order. */
  function Without<T>(s: seq<T>, key: T -> int, k: int): (r: seq<T>)
    ensures |r| <= |s|
    ensures forall i :: 0 <= i < |r| ==> key(r[i]) != k
    ensures forall x :: x in r ==> x in s
  {
    if s == [] then []
    else if key(s[0]) == k then Without(s[1..], key, k)
    else [s[0]] + Without(s[1..], key, k)
  }

  /** Exactly the entries with another key survive, each as often as it occurred. */
  lemma {:induction false} WithoutCounts<T>(s: seq<T>, key: T -> int, k: int)
    ensures forall x :: multiset(Without(s, key, k))[x] == if key(x) == k then 0 else multiset(s)[x]
    decreases |s|
  {
    if s != [] {
      WithoutCounts(s[1..], key, k);
      assert s == [s[0]] + s[1..];
      assert multiset(s) == multiset{s[0]} + multiset(s[1..]);
    }
  }

  /** Removal never reorders: the result is a sub-sequence of the input. */
  lemma {:induction false} WithoutKeepsOrder<T>(s: seq<T>, key: T -> int, k: int)
    ensures IsSubseq(Without(s, key, k), s)
    decreases |s|
  {
    if s != [] {
      WithoutKeepsOrder(s[1..], key, k);
      if key(s[0]) != k {
        assert Without(s, key, k)[1..] == Without(s[1..], key, k);
      } else {
        SubseqOfTail(Without(s, key, k), s);
      }
    }
  }

  /** A sub-sequence of the tail is a sub-sequence of the whole. */
  lemma {:induction false} SubseqOfTail<T>(sub: seq<T>, s: seq<T>)
    requires s != [] && IsSubseq(sub, s[1..])
    ensures IsSubseq(sub, s)
    decreases |s|, 0
  {
    if sub != [] && sub[0] == s[0] {
      SubseqDropHead(sub, s[1..]);
    }
  }

  /** Dropping the first entry of a sub-sequence keeps it a sub-sequence. */
  lemma {:induction false} SubseqDropHead<T>(sub: seq<T>, s: seq<T>)
    requires sub != [] && IsSubseq(sub, s)
    ensures IsSubseq(sub[1..], s)
    decreases |s|, 1
  {
    if sub[0] == s[0] {
      SubseqOfTail(sub[1..], s);
    } else {
      SubseqDropHead(sub, s[1..]);
      SubseqOfTail(sub[1..], s);
    }
  }

  /** Removing a key no entry carries leaves the sequence identical. */
  lemma {:induction false} WithoutAbsent<T>(s: seq<T>, key: T -> int, k: int)
    requires forall i :: 0 <= i < |s| ==> key(s[i]) != k
    ensures Without(s, key, k) == s
    decreases |s|
  {
    if s != [] {
      WithoutAbsent(s[1..], key, k);
    }
  }

  /** Removing the same key twice is the same as removing it once. */
  lemma WithoutIdempotent<T>(s: seq<T>, key: T -> int, k: int)
    ensures Without(Without(s, key, k), key, k) == Without(s, key, k)
  {
    WithoutAbsent(Without(s, key, k), key, k);
  }
}

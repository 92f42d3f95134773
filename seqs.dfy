/** Sequence helpers: `list(reversed(s))` and the order-keeping filter of a list comprehension. */
module Seqs {

  /** `list(reversed(s))`. */
  function Reverse<T>(s: seq<T>): (r: seq<T>)
    ensures |r| == |s|
    ensures forall i :: 0 <= i < |s| ==> r[i] == s[|s| - 1 - i]
  {
    if s == [] then [] else Reverse(s[1..]) + [s[0]]
  }

  lemma {:induction false} ReverseReverse<T>(s: seq<T>)
    ensures Reverse(Reverse(s)) == s
  {
    var r := Reverse(Reverse(s));
    assert |r| == |s|;
    forall i | 0 <= i < |s| ensures r[i] == s[i] {
      assert Reverse(s)[|s| - 1 - i] == s[i];
    }
  }

  /** Dropping the first `k` of the reversed sequence leaves the first `|s| - k` elements, reversed. */
  lemma ReverseSuffix<T>(s: seq<T>, k: nat)
    requires k <= |s|
    ensures Reverse(s)[k..] == Reverse(s[..|s| - k])
  {
    var a := Reverse(s)[k..];
    var b := Reverse(s[..|s| - k]);
    assert |a| == |b|;
    forall i | 0 <= i < |a| ensures a[i] == b[i] {
      assert a[i] == Reverse(s)[k + i] == s[|s| - 1 - k - i];
      assert b[i] == s[..|s| - k][|s| - k - 1 - i];
    }
  }

  /** A prefix followed by the next element is the next prefix. */
  lemma PrefixExtend<T>(s: seq<T>, i: int, x: T)
    requires 0 <= i < |s| && s[i] == x
    ensures s[..i] + [x] == s[..i + 1]
  {
  }

  function Max(a: int, b: int): int { if a < b then b else a }
  function Min(a: int, b: int): int { if a < b then a else b }

  /** `s[:k]` with Python's slice semantics: a negative `k` drops the last `-k` elements. */
  function Take<T>(s: seq<T>, k: int): (r: seq<T>)
    ensures k >= 0 ==> |r| == Min(k, |s|)
    ensures k < 0 ==> |r| == Max(0, |s| + k)
    ensures r == s[..|r|]
  {
    if k >= 0 then s[..Min(k, |s|)] else s[..Max(0, |s| + k)]
  }

  /** `[x for x in s if p(x)]`, defined from the back so that an append loop follows it. */
  function Filter<T>(s: seq<T>, p: T -> bool): seq<T> {
    if s == [] then [] else
      Filter(s[..|s| - 1], p) + (if p(s[|s| - 1]) then [s[|s| - 1]] else [])
  }

  /** The filter keeps exactly the elements satisfying `p`. */
  lemma {:induction false} FilterMembership<T>(s: seq<T>, p: T -> bool)
    ensures forall x :: x in Filter(s, p) <==> x in s && p(x)
    ensures |Filter(s, p)| <= |s|
  {
    if s != [] {
      var init := s[..|s| - 1];
      FilterMembership(init, p);
      assert s == init + [s[|s| - 1]];
    }
  }

  /** One more element of input extends the filter by that element when it qualifies. */
  lemma FilterStep<T>(s: seq<T>, i: int, p: T -> bool)
    requires 0 <= i < |s|
    ensures Filter(s[..i + 1], p) == Filter(s[..i], p) + (if p(s[i]) then [s[i]] else [])
  {
    assert s[..i + 1][..i] == s[..i];
  }

  /**
    Once the filter of a prefix has reached a length, the filter of the whole
    sequence starts with it.
   */
  lemma {:induction false} PrefixOfFilter<T>(s: seq<T>, i: int, p: T -> bool)
    requires 0 <= i <= |s|
    ensures |Filter(s[..i], p)| <= |Filter(s, p)|
    ensures Filter(s, p)[..|Filter(s[..i], p)|] == Filter(s[..i], p)
    decreases |s| - i
  {
    if i == |s| {
      assert s[..i] == s;
    } else {
      PrefixOfFilter(s, i + 1, p);
      FilterStep(s, i, p);
    }
  }
}

/** Order-related predicates over sequences, used to state what the filters keep. */
module Sequences {

  /** `sub` is `s` with some elements deleted and the rest kept in order. */
  predicate IsSubsequence<T(==)>(sub: seq<T>, s: seq<T>)
    decreases |s|
  {
    if sub == [] then true
    else if s == [] then false
    else if sub[|sub| - 1] == s[|s| - 1] then IsSubsequence(sub[..|sub| - 1], s[..|s| - 1])
    else IsSubsequence(sub, s[..|s| - 1])
  }

  predicate NoDuplicates<T(==)>(s: seq<T>)
  {
    forall i, j :: 0 <= i < j < |s| ==> s[i] != s[j]
  }

  /** Position of the first occurrence of `x` in `s`. */
  function FirstIndex<T(==)>(s: seq<T>, x: T): (i: nat)
    requires x in s
    ensures i < |s| && s[i] == x && x !in s[..i]
  {
    if s[0] == x then 0
    else
      var rest := FirstIndex(s[1..], x);
      assert s[..1 + rest] == [s[0]] + s[1..][..rest];
      1 + rest
  }

  /** Every element of `r` first occurs in `s` before the elements that follow it in `r`. */
  predicate InFirstOccurrenceOrder<T(==)>(r: seq<T>, s: seq<T>)
  {
    forall i, j :: 0 <= i < j < |r| && r[i] in s && r[j] in s ==> FirstIndex(s, r[i]) < FirstIndex(s, r[j])
  }

  lemma FirstIndexShift<T>(s: seq<T>, x: T)
    requires x in s && x != s[0]
    ensures x in s[1..] && FirstIndex(s, x) == 1 + FirstIndex(s[1..], x)
  {
  }

  lemma {:induction false} SubsequenceExtendBoth<T>(a: seq<T>, b: seq<T>, x: T)
    requires IsSubsequence(a, b)
    ensures IsSubsequence(a + [x], b + [x])
  {
    assert (a + [x])[..|a|] == a;
    assert (b + [x])[..|b|] == b;
  }

  lemma {:induction false} SubsequenceExtendRight<T>(a: seq<T>, b: seq<T>, x: T)
    requires IsSubsequence(a, b)
    ensures IsSubsequence(a, b + [x])
    decreases |b|, 1
  {
    assert (b + [x])[..|b|] == b;
    if a != [] && a[|a| - 1] == x {
      SubsequenceDropLast(a, b);
    }
  }

  lemma {:induction false} SubsequenceDropLast<T>(a: seq<T>, b: seq<T>)
    requires a != [] && IsSubsequence(a, b)
    ensures IsSubsequence(a[..|a| - 1], b)
    decreases |b|, 0
  {
    var a', b' := a[..|a| - 1], b[..|b| - 1];
    if a[|a| - 1] == b[|b| - 1] {
      SubsequenceExtendRight(a', b', b[|b| - 1]);
    } else {
      SubsequenceDropLast(a, b');
      SubsequenceExtendRight(a', b', b[|b| - 1]);
    }
    assert b' + [b[|b| - 1]] == b;
  }
}

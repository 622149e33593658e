/** Generic list operations with the meaning of JavaScript's `Array.prototype`
    `filter`, `findIndex`, `find` and spread-concatenation. */
module Seqs {
  import opened Wrappers

  /** `r` is `s` with some elements left out: the elements of `r` occur in
      `s` in the same order. */
  ghost predicate SubsequenceOf<T>(r: seq<T>, s: seq<T>)
    decreases |s|
  {
    if |r| == 0 then true
    else if |s| == 0 then false
    else (r[0] == s[0] && SubsequenceOf(r[1..], s[1..])) || SubsequenceOf(r, s[1..])
  }

  /** Every list is a subsequence of itself. */
  lemma {:induction false} SubsequenceOfSelf<T>(s: seq<T>)
    ensures SubsequenceOf(s, s)
    decreases |s|
  {
    if |s| > 0 {
      SubsequenceOfSelf(s[1..]);
    }
  }

  /** `s.filter(p)`: the elements satisfying `p`, in their original order,
      each as often as it occurs in `s`. */
  function Filter<T(!new)>(s: seq<T>, p: T -> bool): (r: seq<T>)
    ensures |r| <= |s|
    ensures forall i :: 0 <= i < |r| ==> r[i] in s && p(r[i])
    ensures forall i :: 0 <= i < |s| && p(s[i]) ==> s[i] in r
    ensures SubsequenceOf(r, s)
    ensures forall x :: multiset(r)[x] == if p(x) then multiset(s)[x] else 0
    decreases |s|
  {
    if |s| == 0 then []
    else
      var rest := Filter(s[1..], p);
      assert FilterOf(rest, s[1..], p);
      FilterStep(s, p, rest);
      if p(s[0]) then [s[0]] + rest else rest
  }

  /** One step of `Filter`: deciding on the head keeps every property that
      the filtered tail already has. */
  lemma FilterStep<T(!new)>(s: seq<T>, p: T -> bool, rest: seq<T>)
    requires |s| > 0
    requires FilterOf(rest, s[1..], p)
    ensures FilterOf(if p(s[0]) then [s[0]] + rest else rest, s, p)
  {
    StepKeepsOrder(s, p, rest);
    StepKeepsCounts(s, p, rest);
    StepKeepsMembers(s, p, rest);
  }

  lemma StepKeepsMembers<T>(s: seq<T>, p: T -> bool, rest: seq<T>)
    requires |s| > 0
    requires forall i :: 0 <= i < |rest| ==> rest[i] in s[1..] && p(rest[i])
    requires forall i :: 0 <= i < |s[1..]| && p(s[1..][i]) ==> s[1..][i] in rest
    ensures var r := if p(s[0]) then [s[0]] + rest else rest;
      && (forall i :: 0 <= i < |r| ==> r[i] in s && p(r[i]))
      && (forall i :: 0 <= i < |s| && p(s[i]) ==> s[i] in r)
  {
    var r := if p(s[0]) then [s[0]] + rest else rest;
    forall i | 0 <= i < |r| ensures r[i] in s && p(r[i]) {
      if p(s[0]) && i > 0 {
        assert r[i] == rest[i - 1];
      }
    }
    forall i | 0 <= i < |s| && p(s[i]) ensures s[i] in r {
      if i > 0 {
        assert s[i] == s[1..][i - 1];
      }
    }
  }

  lemma StepKeepsOrder<T>(s: seq<T>, p: T -> bool, rest: seq<T>)
    requires |s| > 0 && SubsequenceOf(rest, s[1..])
    ensures SubsequenceOf(if p(s[0]) then [s[0]] + rest else rest, s)
  {
    if p(s[0]) {
      assert ([s[0]] + rest)[1..] == rest;
    }
  }

  lemma StepKeepsCounts<T(!new)>(s: seq<T>, p: T -> bool, rest: seq<T>)
    requires |s| > 0
    requires forall x :: multiset(rest)[x] == if p(x) then multiset(s[1..])[x] else 0
    ensures var r := if p(s[0]) then [s[0]] + rest else rest;
      forall x :: multiset(r)[x] == if p(x) then multiset(s)[x] else 0
  {
    assert s == [s[0]] + s[1..];
  }

  /** Everything `Filter` promises about its result `r`. */
  ghost predicate FilterOf<T(!new)>(r: seq<T>, s: seq<T>, p: T -> bool)
  {
    && |r| <= |s|
    && (forall i :: 0 <= i < |r| ==> r[i] in s && p(r[i]))
    && (forall i :: 0 <= i < |s| && p(s[i]) ==> s[i] in r)
    && SubsequenceOf(r, s)
    && (forall x :: multiset(r)[x] == if p(x) then multiset(s)[x] else 0)
  }

  /** Filtering distributes over concatenation, so the kept elements keep their relative order. */
  lemma {:induction false} FilterConcat<T(!new)>(a: seq<T>, b: seq<T>, p: T -> bool)
    ensures Filter(a + b, p) == Filter(a, p) + Filter(b, p)
    decreases |a|
  {
    if |a| == 0 {
      assert a + b == b;
    } else {
      assert (a + b)[1..] == a[1..] + b;
      FilterConcat(a[1..], b, p);
    }
  }

  /** A filter that rejects nothing returns the list unchanged. */
  lemma {:induction false} FilterKeepsAll<T(!new)>(s: seq<T>, p: T -> bool)
    requires forall i :: 0 <= i < |s| ==> p(s[i])
    ensures Filter(s, p) == s
    decreases |s|
  {
    if |s| > 0 {
      FilterKeepsAll(s[1..], p);
    }
  }

  /** `s.findIndex(p)`: the index of the first element satisfying `p`, or -1. */
  function FindIndex<T>(s: seq<T>, p: T -> bool): (r: int)
    ensures -1 <= r < |s|
    ensures 0 <= r ==> p(s[r]) && forall j :: 0 <= j < r ==> !p(s[j])
    ensures r == -1 <==> forall j :: 0 <= j < |s| ==> !p(s[j])
    decreases |s|
  {
    if |s| == 0 then -1
    else if p(s[0]) then 0
    else
      var k := FindIndex(s[1..], p);
      if k < 0 then -1 else k + 1
  }

  /** `s.find(p)`: the first element satisfying `p`, if any. */
  function Find<T>(s: seq<T>, p: T -> bool): (r: Option<T>)
    ensures r.Some? ==> r.value in s && p(r.value)
    ensures r.Some? ==> exists k :: 0 <= k < |s| && s[k] == r.value && forall j :: 0 <= j < k ==> !p(s[j])
    ensures r.None? <==> forall j :: 0 <= j < |s| ==> !p(s[j])
  {
    var k := FindIndex(s, p);
    if k < 0 then None else Some(s[k])
  }

  /** The concatenation of a list of lists, in order. */
  function Flatten<T>(ss: seq<seq<T>>): seq<T>
  {
    if |ss| == 0 then [] else ss[0] + Flatten(ss[1..])
  }

  lemma {:induction false} FlattenSnoc<T>(ss: seq<seq<T>>, last: seq<T>)
    ensures Flatten(ss + [last]) == Flatten(ss) + last
    decreases |ss|
  {
    if |ss| == 0 {
      assert ss + [last] == [last];
    } else {
      assert (ss + [last])[1..] == ss[1..] + [last];
      FlattenSnoc(ss[1..], last);
    }
  }
}

/**
 * Sequence operations the sources use through JavaScript's `filter`, `find`
 * and `findIndex` and Python's list comprehensions with a condition.
 */
module Seqs {
  import opened Wrappers

  /**
   * `f` applied to every element of `s` in turn, or None as soon as one element
   * has no value under `f`.
   */
  function MapAll<T, U(==)>(s: seq<T>, f: T -> Option<U>): (r: Option<seq<U>>)
    ensures r.Some? <==> forall i :: 0 <= i < |s| ==> f(s[i]).Some?
    ensures r.Some? ==> |r.value| == |s| && forall i :: 0 <= i < |s| ==> f(s[i]) == Some(r.value[i])
  {
    if s == [] then Some([])
    else
      assert forall i :: 1 <= i < |s| ==> s[i] == s[1..][i - 1];
      match f(s[0])
      case None => None
      case Some(x) =>
        match MapAll(s[1..], f)
        case None => None
        case Some(rest) => Some([x] + rest)
  }

  /** `ys` is what `f` gives for the first `|ys|` elements of `xs`, each of which has a value. */
  predicate MapsPrefix<T, U(==)>(ys: seq<U>, xs: seq<T>, f: T -> Option<U>) {
    |ys| <= |xs| && forall k :: 0 <= k < |ys| ==> f(xs[k]) == Some(ys[k])
  }

  /** The value of the next element extends the prefix. */
  lemma MapsPrefixSnoc<T, U>(ys: seq<U>, xs: seq<T>, f: T -> Option<U>, y: U)
    requires MapsPrefix(ys, xs, f) && |ys| < |xs| && f(xs[|ys|]) == Some(y)
    ensures MapsPrefix(ys + [y], xs, f)
  {
    var after := ys + [y];
    forall k | 0 <= k < |after|
      ensures f(xs[k]) == Some(after[k])
    {
      if k < |ys| {
        assert after[k] == ys[k];
      }
    }
  }

  /** Some element of `s` satisfies `p` (JavaScript `some`, Python `any`). */
  predicate Any<T>(s: seq<T>, p: T -> bool) {
    exists i :: 0 <= i < |s| && p(s[i])
  }

  /** Some element satisfies `p` exactly when the first does or one of the rest does. */
  lemma AnyCons<T>(s: seq<T>, p: T -> bool)
    requires s != []
    ensures Any(s, p) <==> p(s[0]) || Any(s[1..], p)
  {
    if Any(s[1..], p) {
      var i :| 0 <= i < |s[1..]| && p(s[1..][i]);
      assert s[i + 1] == s[1..][i];
    }
    if Any(s, p) {
      var i :| 0 <= i < |s| && p(s[i]);
      if i > 0 {
        assert s[1..][i - 1] == s[i];
      }
    }
  }

  /** The elements of `s` that satisfy `p`, in their original order. */
  function Filter<T>(s: seq<T>, p: T -> bool): (r: seq<T>)
    ensures |r| <= |s|
    ensures forall i :: 0 <= i < |r| ==> r[i] in s && p(r[i])
    ensures forall i :: 0 <= i < |s| && p(s[i]) ==> s[i] in r
  {
    if s == [] then []
    else Filter(s[..|s| - 1], p) + (if p(s[|s| - 1]) then [s[|s| - 1]] else [])
  }

  /** Filtering distributes over concatenation, so the relative order of the kept elements is the order in `s`. */
  lemma {:induction false} FilterAppend<T>(a: seq<T>, b: seq<T>, p: T -> bool)
    ensures Filter(a + b, p) == Filter(a, p) + Filter(b, p)
    decreases |b|
  {
    if b == [] {
      assert a + b == a;
    } else {
      var b' := b[..|b| - 1];
      assert (a + b)[..|a + b| - 1] == a + b';
      assert (a + b)[|a + b| - 1] == b[|b| - 1];
      FilterAppend(a, b', p);
    }
  }

  /** Filtering one more element at the end keeps it exactly when it satisfies `p`. */
  lemma FilterSnoc<T>(s: seq<T>, x: T, p: T -> bool)
    ensures Filter(s + [x], p) == Filter(s, p) + (if p(x) then [x] else [])
  {
    assert (s + [x])[..|s + [x]| - 1] == s;
  }

  /** Filtering keeps every copy of an element that satisfies `p` and no copy of one that does not. */
  lemma {:induction false} FilterMultiplicity<T>(s: seq<T>, p: T -> bool, x: T)
    ensures multiset(Filter(s, p))[x] == if p(x) then multiset(s)[x] else 0
  {
    if s != [] {
      var init, last := s[..|s| - 1], s[|s| - 1];
      FilterMultiplicity(init, p, x);
      assert s == init + [last];
      FilterSnoc(init, last, p);
    }
  }

  /** Filtering one more element at the front keeps it exactly when it satisfies `p`. */
  lemma FilterCons<T>(x: T, s: seq<T>, p: T -> bool)
    ensures Filter([x] + s, p) == (if p(x) then [x] else []) + Filter(s, p)
  {
    FilterAppend([x], s, p);
    FilterSnoc([], x, p);
    assert [] + [x] == [x];
  }

  /** When every element satisfies `p`, nothing is dropped; when none does, everything is. */
  lemma {:induction false} FilterAllOrNone<T>(s: seq<T>, p: T -> bool)
    ensures (forall i :: 0 <= i < |s| ==> p(s[i])) ==> Filter(s, p) == s
    ensures (forall i :: 0 <= i < |s| ==> !p(s[i])) ==> Filter(s, p) == []
  {
    if s != [] {
      var init := s[..|s| - 1];
      FilterAllOrNone(init, p);
      assert forall i :: 0 <= i < |init| ==> init[i] == s[i];
      assert s == init + [s[|s| - 1]];
    }
  }

  /** Filtering keeps the length exactly when every element satisfies `p`. */
  lemma {:induction false} FilterKeepsLength<T>(s: seq<T>, p: T -> bool)
    ensures |Filter(s, p)| == |s| <==> forall i :: 0 <= i < |s| ==> p(s[i])
  {
    if s != [] {
      var init := s[..|s| - 1];
      FilterKeepsLength(init, p);
      if !p(s[|s| - 1]) {
        assert |Filter(s, p)| < |s|;
      } else if |Filter(s, p)| == |s| {
        forall i | 0 <= i < |s|
          ensures p(s[i])
        {
          if i < |s| - 1 {
            assert s[i] == init[i];
          }
        }
      } else {
        assert |Filter(init, p)| < |init|;
        var i :| 0 <= i < |init| && !p(init[i]);
        assert s[i] == init[i];
      }
    }
  }

  /** What holds of every element of `s` holds of every element kept by the filter. */
  lemma FilterKeepsProperty<T>(s: seq<T>, p: T -> bool, q: T -> bool)
    requires forall i :: 0 <= i < |s| ==> q(s[i])
    ensures forall i :: 0 <= i < |Filter(s, p)| ==> q(Filter(s, p)[i])
  {
  }

  /** The number of elements of `s` that satisfy `p`. */
  function CountWhere<T>(s: seq<T>, p: T -> bool): nat {
    |Filter(s, p)|
  }

  /** The index of the first element of `s` that satisfies `p` (JavaScript `findIndex`, -1 becoming None). */
  function FindIndex<T>(s: seq<T>, p: T -> bool): (r: Option<nat>)
    ensures r.Some? ==> r.value < |s| && p(s[r.value]) && forall j :: 0 <= j < r.value ==> !p(s[j])
    ensures r.None? <==> forall j :: 0 <= j < |s| ==> !p(s[j])
  {
    if s == [] then None
    else if p(s[0]) then Some(0)
    else match FindIndex(s[1..], p)
      case None => None
      case Some(i) => Some(i + 1)
  }

  /** The first element of `s` that satisfies `p` (JavaScript `find`, undefined becoming None). */
  function Find<T>(s: seq<T>, p: T -> bool): (r: Option<T>)
    ensures r.None? <==> forall j :: 0 <= j < |s| ==> !p(s[j])
    ensures r.Some? ==> exists i :: 0 <= i < |s| && s[i] == r.value && p(s[i]) && forall j :: 0 <= j < i ==> !p(s[j])
  {
    match FindIndex(s, p)
    case None => None
    case Some(i) => Some(s[i])
  }

  /** `s` with the element at index `i` taken out (JavaScript `splice(i, 1)`). */
  function RemoveAt<T>(s: seq<T>, i: nat): (r: seq<T>)
    requires i < |s|
    ensures |r| == |s| - 1
    ensures forall j :: 0 <= j < i ==> r[j] == s[j]
    ensures forall j :: i <= j < |r| ==> r[j] == s[j + 1]
  {
    s[..i] + s[i + 1..]
  }

  /** No value occurs twice in `s`. */
  predicate NoDuplicates<T(==)>(s: seq<T>) {
    forall i, j :: 0 <= i < j < |s| ==> s[i] != s[j]
  }

  /** Appending a value that is not yet present keeps a sequence duplicate-free. */
  lemma AppendFreshKeepsNoDuplicates<T>(s: seq<T>, x: T)
    requires NoDuplicates(s) && x !in s
    ensures NoDuplicates(s + [x])
  {
  }
}

/** The two array searches the match engine is built from: `Array.prototype.find`
    (the first element satisfying a test) and `Array.prototype.filter`. */
module Search {
  import opened Opt

  /** Position of the first element of `xs` satisfying `p`. */
  function FindIndex<T>(xs: seq<T>, p: T -> bool): (r: Option<nat>)
    ensures r.Some? ==> r.value < |xs| && p(xs[r.value])
    ensures r.Some? ==> forall j :: 0 <= j < r.value ==> !p(xs[j])
    ensures r.None? ==> forall j :: 0 <= j < |xs| ==> !p(xs[j])
  {
    if |xs| == 0 then None
    else if p(xs[0]) then Some(0)
    else match FindIndex(xs[1..], p)
      case None => None
      case Some(i) => Some(i + 1)
  }

  /** `xs.find(p)`: the first element satisfying `p`, if any. */
  function Find<T>(xs: seq<T>, p: T -> bool): (r: Option<T>)
    ensures r.None? <==> forall j :: 0 <= j < |xs| ==> !p(xs[j])
    ensures r.Some? ==> exists i :: 0 <= i < |xs| && xs[i] == r.value && p(xs[i]) && forall j :: 0 <= j < i ==> !p(xs[j])
  {
    match FindIndex(xs, p)
    case None => None
    case Some(i) => Some(xs[i])
  }

  /** `xs.filter(p)`: the elements satisfying `p`, in order. */
  function Filter<T>(xs: seq<T>, p: T -> bool): (r: seq<T>)
    ensures |r| <= |xs|
    ensures forall k :: 0 <= k < |r| ==> p(r[k]) && r[k] in xs
    ensures forall k :: 0 <= k < |xs| && p(xs[k]) ==> xs[k] in r
  {
    if |xs| == 0 then [] else (if p(xs[0]) then [xs[0]] else []) + Filter(xs[1..], p)
  }

  /** Multiplicities: the filter takes no element more often than `xs` holds it,
      and keeps every occurrence of a passing element. */
  lemma {:induction false} FilterCounts<T>(xs: seq<T>, p: T -> bool)
    ensures multiset(Filter(xs, p)) <= multiset(xs)
    ensures forall k :: 0 <= k < |xs| && p(xs[k]) ==> multiset(Filter(xs, p))[xs[k]] == multiset(xs)[xs[k]]
  {
    if |xs| > 0 {
      var tail := xs[1..];
      assert xs == [xs[0]] + tail;
      FilterCounts(tail, p);
      forall k | 0 <= k < |xs| && p(xs[k])
        ensures multiset(Filter(xs, p))[xs[k]] == multiset(xs)[xs[k]]
      {
        if p(xs[0]) {
          assert Filter(xs, p) == [xs[0]] + Filter(tail, p);
        } else {
          assert xs[0] != xs[k];
          assert k > 0 && xs[k] == tail[k - 1];
        }
      }
    }
  }

  /** Filtering distributes over concatenation: the kept elements of `a` come
      first, in their order, then those of `b`. With the one-element case this
      fixes the filter completely. */
  lemma {:induction false} FilterConcat<T>(a: seq<T>, b: seq<T>, p: T -> bool)
    ensures Filter(a + b, p) == Filter(a, p) + Filter(b, p)
  {
    if |a| > 0 {
      assert (a + b)[1..] == a[1..] + b;
      FilterConcat(a[1..], b, p);
    } else {
      assert a + b == b;
    }
  }

  /** A one-element sequence is kept exactly when its element passes. */
  lemma FilterOne<T>(x: T, p: T -> bool)
    ensures Filter([x], p) == if p(x) then [x] else []
  {
  }

  /** Position `i` is the one and only position of `xs` whose element satisfies `p`. */
  ghost predicate OnlyAt<T>(xs: seq<T>, p: T -> bool, i: int) {
    0 <= i < |xs| && p(xs[i]) && forall j :: 0 <= j < |xs| && j != i ==> !p(xs[j])
  }

  /** The filter is empty exactly when no element satisfies `p`. */
  lemma {:induction false} FilterEmpty<T>(xs: seq<T>, p: T -> bool)
    ensures |Filter(xs, p)| == 0 <==> forall j :: 0 <= j < |xs| ==> !p(xs[j])
  {
    if |xs| > 0 {
      FilterEmpty(xs[1..], p);
      assert forall j :: 1 <= j < |xs| ==> xs[j] == xs[1..][j - 1];
    }
  }

  /** The filter has exactly one element exactly when exactly one position
      satisfies `p`, and that element is the one at that position. */
  lemma {:induction false} FilterSingleton<T>(xs: seq<T>, p: T -> bool)
    ensures |Filter(xs, p)| == 1 <==> exists i :: OnlyAt(xs, p, i)
    ensures forall i :: OnlyAt(xs, p, i) ==> Filter(xs, p) == [xs[i]]
  {
    if |xs| > 0 {
      var tail := xs[1..];
      assert forall j :: 1 <= j < |xs| ==> xs[j] == tail[j - 1];
      FilterSingleton(tail, p);
      FilterEmpty(tail, p);
      if p(xs[0]) {
        if |Filter(tail, p)| == 0 {
          assert OnlyAt(xs, p, 0);
        }
        assert forall i :: OnlyAt(xs, p, i) ==> i == 0;
        if OnlyAt(xs, p, 0) {
          assert forall j :: 0 <= j < |tail| ==> !p(tail[j]) by {
            forall j | 0 <= j < |tail| ensures !p(tail[j]) {
              assert tail[j] == xs[j + 1];
            }
          }
        }
      } else {
        forall i | OnlyAt(xs, p, i)
          ensures OnlyAt(tail, p, i - 1)
        {
          assert i != 0;
          forall j | 0 <= j < |tail| && j != i - 1 ensures !p(tail[j]) {
            assert tail[j] == xs[j + 1];
          }
        }
        forall i | OnlyAt(tail, p, i)
          ensures OnlyAt(xs, p, i + 1)
        {
          forall j | 0 <= j < |xs| && j != i + 1 ensures !p(xs[j]) {
            if j > 0 {
              assert xs[j] == tail[j - 1];
            }
          }
        }
      }
    }
  }
}

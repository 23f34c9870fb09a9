/** `Array.prototype.find` and `Array.prototype.filter`, the two array operations
    the data helpers and the tournament list are built from. */
module Lists {
  import opened Text

  /** Position of the first element satisfying `p`, if any. */
  function FirstIndex<T>(s: seq<T>, p: T -> bool): (r: Option<nat>)
    ensures r.Some? ==> r.value < |s| && p(s[r.value])
    ensures r.Some? ==> forall j | 0 <= j < r.value :: !p(s[j])
    ensures r.None? <==> forall j | 0 <= j < |s| :: !p(s[j])
  {
    if s == [] then None
    else if p(s[0]) then Some(0)
    else match FirstIndex(s[1..], p)
      case None => None
      case Some(k) => Some(k + 1)
  }

  /** `s.find(p)`: the first element satisfying `p`, or nothing. */
  function Find<T>(s: seq<T>, p: T -> bool): (r: Option<T>)
    ensures r.Some? <==> exists j | 0 <= j < |s| :: p(s[j])
    ensures r.Some? ==> exists j | 0 <= j < |s| :: s[j] == r.value && p(s[j]) && forall k | 0 <= k < j :: !p(s[k])
  {
    match FirstIndex(s, p)
    case None => None
    case Some(k) => Some(s[k])
  }

  /** `s.filter(p)`: the elements satisfying `p`, in their original order. */
  function Filter<T>(s: seq<T>, p: T -> bool): (r: seq<T>)
    ensures |r| <= |s|
    ensures forall x | x in r :: x in s && p(x)
    ensures forall x | x in s && p(x) :: x in r
  {
    if s == [] then [] else (if p(s[0]) then [s[0]] else []) + Filter(s[1..], p)
  }

  /** Filtering distributes over concatenation, which pins down the order of the result. */
  lemma {:induction false} FilterConcat<T>(a: seq<T>, b: seq<T>, p: T -> bool)
    ensures Filter(a + b, p) == Filter(a, p) + Filter(b, p)
    decreases |a|
  {
    if a == [] {
      assert a + b == b;
    } else {
      var ab := a + b;
      var head := if p(a[0]) then [a[0]] else [];
      assert ab != [] && ab[0] == a[0] && ab[1..] == a[1..] + b;
      calc {
        Filter(ab, p);
        head + Filter(a[1..] + b, p);
        { FilterConcat(a[1..], b, p); }
        head + (Filter(a[1..], p) + Filter(b, p));
        (head + Filter(a[1..], p)) + Filter(b, p);
        Filter(a, p) + Filter(b, p);
      }
    }
  }

  /** Every occurrence of a kept value is kept: the multiplicities agree. */
  lemma {:induction false} FilterCount<T>(s: seq<T>, p: T -> bool, x: T)
    ensures multiset(Filter(s, p))[x] == if p(x) then multiset(s)[x] else 0
    decreases |s|
  {
    if s != [] {
      FilterCount(s[1..], p, x);
      assert s == [s[0]] + s[1..];
    }
  }

  /** Filtering twice is filtering once by a test that holds where both do. */
  lemma {:induction false} FilterFilter<T>(s: seq<T>, p: T -> bool, q: T -> bool, both: T -> bool)
    requires forall j | 0 <= j < |s| :: both(s[j]) == (p(s[j]) && q(s[j]))
    ensures Filter(Filter(s, p), q) == Filter(s, both)
    decreases |s|
  {
    if s != [] {
      var rest := Filter(s[1..], p);
      FilterFilter(s[1..], p, q, both);
      if p(s[0]) {
        var f := [s[0]] + rest;
        assert f[0] == s[0] && f[1..] == rest;
        calc {
          Filter(Filter(s, p), q);
          Filter(f, q);
          (if q(s[0]) then [s[0]] else []) + Filter(rest, q);
          (if both(s[0]) then [s[0]] else []) + Filter(s[1..], both);
          Filter(s, both);
        }
      } else {
        assert Filter(s, p) == [] + rest == rest;
        calc {
          Filter(Filter(s, p), q);
          Filter(rest, q);
          Filter(s[1..], both);
          Filter(s, both);
        }
      }
    }
  }
}

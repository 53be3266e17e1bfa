/**
 * The array library calls the TypeScript code relies on (`filter`,
 * `findIndex`, `find`, `includes`), as functions on sequences.
 */
module Seqs {
  import opened Wrappers

  predicate Distinct<T(==)>(s: seq<T>)
  {
    forall i, j | 0 <= i < j < |s| :: s[i] != s[j]
  }

  lemma PrefixSnoc<T>(s: seq<T>, i: nat)
    requires i < |s|
    ensures s[..i + 1] == s[..i] + [s[i]]
  {
  }

  lemma PrefixAll<T>(s: seq<T>)
    ensures s[..|s|] == s
  {
  }

  lemma AppendNothing<T>(a: seq<T>, b: seq<T>)
    requires b == []
    ensures a + b == a && b + a == a
  {
  }

  lemma DistinctSnoc<T>(s: seq<T>, x: T)
    requires Distinct(s) && x !in s
    ensures Distinct(s + [x])
  {
    var t := s + [x];
    forall i, j | 0 <= i < j < |t| ensures t[i] != t[j] {
      if j == |s| {
        assert t[i] == s[i];
      }
    }
  }

  lemma DistinctConcat<T>(a: seq<T>, b: seq<T>)
    requires Distinct(a) && Distinct(b) && forall x | x in a :: x !in b
    ensures Distinct(a + b)
  {
    forall i, j | 0 <= i < j < |a + b| ensures (a + b)[i] != (a + b)[j] {
      if i < |a| && j >= |a| {
        assert (a + b)[i] in a && (a + b)[j] == b[j - |a|];
      } else if i >= |a| {
        assert (a + b)[i] == b[i - |a|] && (a + b)[j] == b[j - |a|];
      }
    }
  }

  /** `s.filter(p)`: the elements satisfying `p`, in their original order. */
  function Filter<T(==,!new)>(s: seq<T>, p: T -> bool): (r: seq<T>)
    ensures |r| <= |s|
    ensures forall x :: x in r <==> x in s && p(x)
  {
    if s == [] then [] else Filter(s[..|s| - 1], p) + if p(s[|s| - 1]) then [s[|s| - 1]] else []
  }

  lemma {:induction false} FilterConcat<T(!new)>(a: seq<T>, b: seq<T>, p: T -> bool)
    ensures Filter(a + b, p) == Filter(a, p) + Filter(b, p)
    decreases |b|
  {
    if b == [] {
      assert a + b == a;
    } else {
      var b' := b[..|b| - 1];
      assert (a + b)[..|a + b| - 1] == a + b';
      FilterConcat(a, b', p);
    }
  }

  /** Filtering keeps no element twice that was not twice before. */
  lemma {:induction false} FilterDistinct<T(!new)>(s: seq<T>, p: T -> bool)
    requires Distinct(s)
    ensures Distinct(Filter(s, p))
  {
    if s != [] {
      var s' := s[..|s| - 1];
      assert Distinct(s');
      FilterDistinct(s', p);
      assert s[|s| - 1] !in s';
    }
  }

  /** Filtering by a predicate that holds everywhere changes nothing. */
  lemma {:induction false} FilterAll<T(!new)>(s: seq<T>, p: T -> bool)
    requires forall x | x in s :: p(x)
    ensures Filter(s, p) == s
  {
    if s != [] {
      FilterAll(s[..|s| - 1], p);
      assert s[..|s| - 1] + [s[|s| - 1]] == s;
    }
  }

  /** A filter keeps the whole sequence exactly when every element passes. */
  lemma {:induction false} FilterFull<T(!new)>(s: seq<T>, p: T -> bool)
    ensures |Filter(s, p)| == |s| <==> forall x | x in s :: p(x)
  {
    if s != [] {
      var s' := s[..|s| - 1];
      FilterFull(s', p);
      assert s == s' + [s[|s| - 1]];
    }
  }

  /** A filter and its complement split the sequence between them. */
  lemma {:induction false} FilterComplement<T(!new)>(s: seq<T>, p: T -> bool, q: T -> bool)
    requires forall x | x in s :: q(x) <==> !p(x)
    ensures |Filter(s, p)| + |Filter(s, q)| == |s|
  {
    if s != [] {
      var s' := s[..|s| - 1];
      assert forall x | x in s' :: x in s;
      FilterComplement(s', p, q);
      assert s[|s| - 1] in s;
    }
  }

  /** Filtering with a predicate nothing satisfies leaves nothing. */
  lemma {:induction false} FilterNone<T(!new)>(s: seq<T>, p: T -> bool)
    requires forall x | x in s :: !p(x)
    ensures Filter(s, p) == []
  {
    if s != [] {
      FilterNone(s[..|s| - 1], p);
    }
  }

  /** A second filter that only keeps what the first kept makes the first redundant. */
  lemma {:induction false} FilterSkip<T(!new)>(s: seq<T>, p: T -> bool, q: T -> bool)
    requires forall x | x in s :: q(x) ==> p(x)
    ensures Filter(Filter(s, p), q) == Filter(s, q)
  {
    if s != [] {
      var init, x := s[..|s| - 1], s[|s| - 1];
      FilterSkip(init, p, q);
      FilterConcat(Filter(init, p), if p(x) then [x] else [], q);
      assert [x][..0] == [];
    }
  }

  /** Filters by predicates that agree on the sequence are the same. */
  lemma {:induction false} FilterSame<T(!new)>(s: seq<T>, p: T -> bool, q: T -> bool)
    requires forall x | x in s :: p(x) == q(x)
    ensures Filter(s, p) == Filter(s, q)
  {
    if s != [] {
      FilterSame(s[..|s| - 1], p, q);
    }
  }

  /** A relation that holds between every earlier and later element still does after filtering. */
  lemma {:induction false} FilterPairwise<T(!new)>(s: seq<T>, p: T -> bool, R: (T, T) -> bool)
    requires forall i, j | 0 <= i < j < |s| :: R(s[i], s[j])
    ensures forall i, j | 0 <= i < j < |Filter(s, p)| :: R(Filter(s, p)[i], Filter(s, p)[j])
  {
    if s != [] {
      var init, x := s[..|s| - 1], s[|s| - 1];
      FilterPairwise(init, p, R);
      var r0 := Filter(init, p);
      var r := Filter(s, p);
      assert r == r0 + if p(x) then [x] else [];
      forall i, j | 0 <= i < j < |r| ensures R(r[i], r[j]) {
        if j == |r0| {
          assert r[i] == r0[i] && r0[i] in init;
          var k :| 0 <= k < |init| && init[k] == r0[i];
          assert s[k] == r[i] && s[|s| - 1] == r[j];
          assert R(s[k], s[|s| - 1]);
        } else {
          assert j < |r0| && r[i] == r0[i] && r[j] == r0[j];
          assert R(r0[i], r0[j]);
        }
      }
    }
  }

  /** `s.filter(x => !t.includes(x))`. */
  function Without<T(==,!new)>(s: seq<T>, t: seq<T>): (r: seq<T>)
    ensures |r| <= |s|
    ensures forall x :: x in r <==> x in s && x !in t
  {
    Filter(s, x => x !in t)
  }

  lemma WithoutDistinct<T(!new)>(s: seq<T>, t: seq<T>)
    requires Distinct(s)
    ensures Distinct(Without(s, t))
  {
    FilterDistinct(s, x => x !in t);
  }

  /** `s.map(f)`: each element projected by `f`, in place. */
  function Project<T, U>(s: seq<T>, f: T -> U): (r: seq<U>)
    ensures |r| == |s| && forall k | 0 <= k < |s| :: r[k] == f(s[k])
  {
    seq(|s|, k requires 0 <= k < |s| => f(s[k]))
  }

  /** `s.findIndex(p)`, with `-1` as `None`: the first index satisfying `p`. */
  function FindIndex<T>(s: seq<T>, p: T -> bool): (r: Option<nat>)
    ensures r.Some? ==> r.value < |s| && p(s[r.value]) && forall j | 0 <= j < r.value :: !p(s[j])
    ensures r.None? <==> forall j | 0 <= j < |s| :: !p(s[j])
  {
    if s == [] then None
    else if p(s[0]) then Some(0)
    else match FindIndex(s[1..], p)
      case None => None
      case Some(k) => Some(k + 1)
  }

  /** `s.find(p)`: the first element satisfying `p`. */
  function Find<T>(s: seq<T>, p: T -> bool): (r: Option<T>)
    ensures r.Some? <==> exists j | 0 <= j < |s| :: p(s[j])
    ensures r.Some? ==> exists j | 0 <= j < |s| :: s[j] == r.value && p(s[j]) && forall k | 0 <= k < j :: !p(s[k])
  {
    match FindIndex(s, p)
    case None => None
    case Some(i) => Some(s[i])
  }

  /**
   * `const i = s.findIndex(p); if (i === -1) return undefined; s[i] = f(s[i]); return s[i]`:
   * the first element satisfying `p` is rewritten by `f`, nothing else moves.
   */
  function UpdateFirst<T>(s: seq<T>, p: T -> bool, f: T -> T): (r: (seq<T>, Option<T>))
    ensures |r.0| == |s|
    ensures r.1.None? <==> forall k | 0 <= k < |s| :: !p(s[k])
    ensures r.1.None? ==> r.0 == s
    ensures r.1.Some? ==> exists i | 0 <= i < |s| ::
      && p(s[i]) && (forall k | 0 <= k < i :: !p(s[k]))
      && r.0 == s[i := f(s[i])] && r.1.value == f(s[i])
  {
    match FindIndex(s, p)
    case None => (s, None)
    case Some(i) => (s[i := f(s[i])], Some(f(s[i])))
  }

  /** `s.indexOf(x)` of an element that occurs. */
  function IndexOf<T(==)>(s: seq<T>, x: T): (i: nat)
    requires x in s
    ensures i < |s| && s[i] == x && x !in s[..i]
  {
    if s[0] == x then 0 else 1 + IndexOf(s[1..], x)
  }
}

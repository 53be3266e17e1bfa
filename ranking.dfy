/**
 * The ranking step of `selectNursesForShift` (schedule-generator.ts): the
 * non-requesting candidates are sorted with a comparator on weekend work and
 * priority, by JavaScript's stable `Array.prototype.sort`, modelled here as a
 * stable insertion sort.
 */
module Ranking {
  import opened Types
  import opened Seqs

  /** The `{ id, priority, weekendWork }` records that are sorted. */
  datatype Candidate = Candidate(id: Id, priority: int, weekendWork: int)

  /** The source's comparator: negative when `a` goes first. */
  function Compare(a: Candidate, b: Candidate, byWeekend: bool): int
  {
    if byWeekend && a.weekendWork != b.weekendWork then a.weekendWork - b.weekendWork
    else b.priority - a.priority
  }

  /** The sort key: weekend work when it is balanced, then priority, highest first. */
  function Key(c: Candidate, byWeekend: bool): (int, int)
  {
    (if byWeekend then c.weekendWork else 0, -c.priority)
  }

  predicate KeyLt(k1: (int, int), k2: (int, int))
  {
    k1.0 < k2.0 || (k1.0 == k2.0 && k1.1 < k2.1)
  }

  /** The comparator orders candidates exactly as their keys, and ties them exactly when the keys agree. */
  lemma CompareIsKeyOrder(a: Candidate, b: Candidate, byWeekend: bool)
    ensures Compare(a, b, byWeekend) < 0 <==> KeyLt(Key(a, byWeekend), Key(b, byWeekend))
    ensures Compare(a, b, byWeekend) == 0 <==> Key(a, byWeekend) == Key(b, byWeekend)
  {
  }

  /** `cs.map(c => c.id)`. */
  function IdsOf(cs: seq<Candidate>): seq<Id>
  {
    Project(cs, (c: Candidate) => c.id)
  }

  /** Insert `c` after every element whose key is not greater than its own. */
  function Insert(s: seq<Candidate>, c: Candidate, byWeekend: bool): seq<Candidate>
  {
    if s == [] then [c]
    else if KeyLt(Key(c, byWeekend), Key(s[|s| - 1], byWeekend)) then Insert(s[..|s| - 1], c, byWeekend) + [s[|s| - 1]]
    else s + [c]
  }

  /** The stable sort of `cs` by `Compare`. */
  function Rank(cs: seq<Candidate>, byWeekend: bool): seq<Candidate>
  {
    if cs == [] then [] else Insert(Rank(cs[..|cs| - 1], byWeekend), cs[|cs| - 1], byWeekend)
  }

  predicate Sorted(s: seq<Candidate>, byWeekend: bool)
  {
    forall i, j | 0 <= i < j < |s| :: !KeyLt(Key(s[j], byWeekend), Key(s[i], byWeekend))
  }

  /** The candidates with key `k`, in order. */
  function WithKey(s: seq<Candidate>, k: (int, int), byWeekend: bool): seq<Candidate>
  {
    if s == [] then []
    else WithKey(s[..|s| - 1], k, byWeekend) + if Key(s[|s| - 1], byWeekend) == k then [s[|s| - 1]] else []
  }

  lemma {:induction false} WithKeyConcat(a: seq<Candidate>, b: seq<Candidate>, k: (int, int), byWeekend: bool)
    ensures WithKey(a + b, k, byWeekend) == WithKey(a, k, byWeekend) + WithKey(b, k, byWeekend)
    decreases |b|
  {
    if b == [] {
      assert a + b == a;
    } else {
      var b' := b[..|b| - 1];
      assert (a + b)[..|a + b| - 1] == a + b';
      WithKeyConcat(a, b', k, byWeekend);
    }
  }

  lemma {:induction false} InsertMultiset(s: seq<Candidate>, c: Candidate, byWeekend: bool)
    ensures multiset(Insert(s, c, byWeekend)) == multiset(s) + multiset{c}
  {
    if s != [] && KeyLt(Key(c, byWeekend), Key(s[|s| - 1], byWeekend)) {
      InsertMultiset(s[..|s| - 1], c, byWeekend);
      assert s == s[..|s| - 1] + [s[|s| - 1]];
    }
  }

  lemma {:induction false} InsertSorted(s: seq<Candidate>, c: Candidate, byWeekend: bool)
    requires Sorted(s, byWeekend)
    ensures Sorted(Insert(s, c, byWeekend), byWeekend)
  {
    if s != [] && KeyLt(Key(c, byWeekend), Key(s[|s| - 1], byWeekend)) {
      var init, last := s[..|s| - 1], s[|s| - 1];
      InsertSorted(init, c, byWeekend);
      InsertMultiset(init, c, byWeekend);
      var t := Insert(init, c, byWeekend);
      forall i | 0 <= i < |t| ensures !KeyLt(Key(last, byWeekend), Key(t[i], byWeekend)) {
        assert t[i] in multiset(t);
        assert t[i] == c || t[i] in init;
      }
    }
  }

  lemma WithKeySingle(x: Candidate, k: (int, int), byWeekend: bool)
    ensures WithKey([x], k, byWeekend) == if Key(x, byWeekend) == k then [x] else []
  {
    assert [x][..0] == [];
  }

  lemma {:induction false} InsertWithKey(s: seq<Candidate>, c: Candidate, byWeekend: bool, k: (int, int))
    ensures WithKey(Insert(s, c, byWeekend), k, byWeekend) ==
      WithKey(s, k, byWeekend) + if Key(c, byWeekend) == k then [c] else []
  {
    WithKeySingle(c, k, byWeekend);
    if s == [] {
      assert Insert(s, c, byWeekend) == [c];
    } else if KeyLt(Key(c, byWeekend), Key(s[|s| - 1], byWeekend)) {
      var init, last := s[..|s| - 1], s[|s| - 1];
      var t := Insert(init, c, byWeekend);
      var wc := WithKey([c], k, byWeekend);
      var wl := WithKey([last], k, byWeekend);
      assert Insert(s, c, byWeekend) == t + [last];
      assert s == init + [last];
      InsertWithKey(init, c, byWeekend, k);
      WithKeyConcat(t, [last], k, byWeekend);
      WithKeyConcat(init, [last], k, byWeekend);
      WithKeySingle(last, k, byWeekend);
      DisjointSwap(WithKey(init, k, byWeekend), wc, wl);
    } else {
      assert Insert(s, c, byWeekend) == s + [c];
      WithKeyConcat(s, [c], k, byWeekend);
    }
  }

  /** Two sequences of which one is empty can be appended in either order. */
  lemma DisjointSwap<T>(a: seq<T>, x: seq<T>, y: seq<T>)
    requires x == [] || y == []
    ensures a + x + y == a + y + x
  {
    if x == [] {
      assert a + x == a;
    } else {
      assert a + y == a;
    }
  }

  lemma {:induction false} InsertIds(s: seq<Candidate>, c: Candidate, byWeekend: bool)
    requires Distinct(IdsOf(s)) && c.id !in IdsOf(s)
    ensures Distinct(IdsOf(Insert(s, c, byWeekend)))
    ensures forall x :: x in IdsOf(Insert(s, c, byWeekend)) <==> x in IdsOf(s) || x == c.id
  {
    if s == [] {
      assert IdsOf([c]) == [c.id];
    } else if KeyLt(Key(c, byWeekend), Key(s[|s| - 1], byWeekend)) {
      var init, last := s[..|s| - 1], s[|s| - 1];
      assert IdsOf(s) == IdsOf(init) + [last.id];
      assert Distinct(IdsOf(init)) && last.id !in IdsOf(init);
      InsertIds(init, c, byWeekend);
      var t := Insert(init, c, byWeekend);
      assert IdsOf(t + [last]) == IdsOf(t) + [last.id];
      DistinctSnoc(IdsOf(t), last.id);
    } else {
      assert IdsOf(s + [c]) == IdsOf(s) + [c.id];
      DistinctSnoc(IdsOf(s), c.id);
    }
  }

  /** The ranking reorders the candidates: it is a permutation of them. */
  lemma {:induction false} RankPermutation(cs: seq<Candidate>, byWeekend: bool)
    ensures multiset(Rank(cs, byWeekend)) == multiset(cs)
  {
    if cs != [] {
      RankPermutation(cs[..|cs| - 1], byWeekend);
      InsertMultiset(Rank(cs[..|cs| - 1], byWeekend), cs[|cs| - 1], byWeekend);
      assert cs == cs[..|cs| - 1] + [cs[|cs| - 1]];
    }
  }

  /** Fewer weekend shifts first (when balanced), then higher priority first. */
  lemma {:induction false} RankSorted(cs: seq<Candidate>, byWeekend: bool)
    ensures Sorted(Rank(cs, byWeekend), byWeekend)
  {
    if cs != [] {
      RankSorted(cs[..|cs| - 1], byWeekend);
      InsertSorted(Rank(cs[..|cs| - 1], byWeekend), cs[|cs| - 1], byWeekend);
    }
  }

  /** Stability: candidates with equal keys keep their original relative order. */
  lemma {:induction false} RankStable(cs: seq<Candidate>, byWeekend: bool, k: (int, int))
    ensures WithKey(Rank(cs, byWeekend), k, byWeekend) == WithKey(cs, k, byWeekend)
  {
    if cs != [] {
      var init := cs[..|cs| - 1];
      RankStable(init, byWeekend, k);
      InsertWithKey(Rank(init, byWeekend), cs[|cs| - 1], byWeekend, k);
    }
  }

  /** Ranking candidates with distinct ids yields the same ids, each once. */
  lemma RankSameIds(cs: seq<Candidate>, byWeekend: bool)
    ensures forall x :: x in IdsOf(Rank(cs, byWeekend)) <==> x in IdsOf(cs)
  {
    var r := Rank(cs, byWeekend);
    RankPermutation(cs, byWeekend);
    forall x ensures x in IdsOf(r) <==> x in IdsOf(cs) {
      if x in IdsOf(r) {
        var k :| 0 <= k < |r| && IdsOf(r)[k] == x;
        assert r[k] in multiset(r);
        var k2 :| 0 <= k2 < |cs| && cs[k2] == r[k];
        assert IdsOf(cs)[k2] == x;
      }
      if x in IdsOf(cs) {
        var k :| 0 <= k < |cs| && IdsOf(cs)[k] == x;
        assert cs[k] in multiset(cs);
        var k2 :| 0 <= k2 < |r| && r[k2] == cs[k];
        assert IdsOf(r)[k2] == x;
      }
    }
  }

  lemma {:induction false} RankIds(cs: seq<Candidate>, byWeekend: bool)
    requires Distinct(IdsOf(cs))
    ensures Distinct(IdsOf(Rank(cs, byWeekend)))
    ensures forall x :: x in IdsOf(Rank(cs, byWeekend)) <==> x in IdsOf(cs)
  {
    if cs != [] {
      var init := cs[..|cs| - 1];
      assert IdsOf(init) == IdsOf(cs)[..|cs| - 1];
      RankIds(init, byWeekend);
      assert IdsOf(cs) == IdsOf(init) + [cs[|cs| - 1].id];
      InsertIds(Rank(init, byWeekend), cs[|cs| - 1], byWeekend);
    }
  }
}

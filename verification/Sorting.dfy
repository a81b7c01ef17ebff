/** Stable sorting, minimum selection and filtering over sequences, as the Go standard
    library functions the program calls (slices.SortStableFunc, slices.MinFunc, sort.Strings). */
module Sorting {

  /** The elements of s that satisfy p, in order. */
  function Filter<T>(p: T -> bool, s: seq<T>): (r: seq<T>)
    ensures forall x | x in r :: x in s && p(x)
    ensures forall x | x in s :: p(x) ==> x in r
  {
    if s == [] then []
    else
      var last := s[|s| - 1];
      assert forall x | x in s :: x in s[..|s| - 1] || x == last;
      if p(last) then Filter(p, s[..|s| - 1]) + [last] else Filter(p, s[..|s| - 1])
  }

  lemma FilterSnoc<T>(p: T -> bool, s: seq<T>, x: T)
    ensures Filter(p, s + [x]) == Filter(p, s) + (if p(x) then [x] else [])
  {
    assert (s + [x])[..|s|] == s;
  }

  lemma {:induction false} FilterAppend<T>(p: T -> bool, a: seq<T>, b: seq<T>)
    ensures Filter(p, a + b) == Filter(p, a) + Filter(p, b)
    decreases |b|
  {
    if b == [] {
      assert a + b == a;
    } else {
      var b' := b[..|b| - 1];
      assert a + b == (a + b') + [b[|b| - 1]];
      FilterAppend(p, a, b');
      FilterSnoc(p, a + b', b[|b| - 1]);
      assert Filter(p, a + b) == Filter(p, a) + Filter(p, b);
    }
  }

  lemma FilterEmpty<T>(p: T -> bool, s: seq<T>)
    requires forall x | x in s :: !p(x)
    ensures Filter(p, s) == []
  {
    if Filter(p, s) != [] { assert Filter(p, s)[0] in Filter(p, s); }
  }

  lemma {:induction false} FilterEverything<T>(p: T -> bool, s: seq<T>)
    requires forall x | x in s :: p(x)
    ensures Filter(p, s) == s
  {
    if s != [] {
      var init := s[..|s| - 1];
      assert s == init + [s[|s| - 1]];
      FilterEverything(p, init);
      FilterSnoc(p, init, s[|s| - 1]);
    }
  }

  lemma FilterCons<T>(p: T -> bool, x: T, s: seq<T>)
    ensures Filter(p, [x] + s) == if p(x) then [x] + Filter(p, s) else Filter(p, s)
  {
    FilterAppend(p, [x], s);
    FilterSnoc(p, [], x);
    assert [] + [x] == [x];
  }

  /** Filtering twice is filtering once by the conjunction. */
  lemma {:induction false} FilterFilter<T>(p: T -> bool, q: T -> bool, r: T -> bool, s: seq<T>)
    requires forall x :: x in s ==> (r(x) <==> p(x) && q(x))
    ensures Filter(p, Filter(q, s)) == Filter(r, s)
  {
    if s != [] {
      var s' := s[..|s| - 1];
      assert forall x :: x in s' ==> x in s;
      FilterFilter(p, q, r, s');
      assert s[|s| - 1] in s;
      FilterSnoc(p, Filter(q, s'), s[|s| - 1]);
    }
  }

  lemma {:induction false} FilterCongruent<T>(p: T -> bool, q: T -> bool, s: seq<T>)
    requires forall x :: x in s ==> p(x) == q(x)
    ensures Filter(p, s) == Filter(q, s)
  {
    if s != [] {
      var s' := s[..|s| - 1];
      assert forall x :: x in s' ==> x in s;
      assert s[|s| - 1] in s;
      FilterCongruent(p, q, s');
    }
  }

  lemma {:induction false} FilterCounts<T>(p: T -> bool, a: seq<T>, x: T)
    ensures multiset(Filter(p, a))[x] == if p(x) then multiset(a)[x] else 0
  {
    if a != [] {
      FilterCounts(p, a[..|a| - 1], x);
      assert a == a[..|a| - 1] + [a[|a| - 1]];
    }
  }

  lemma FilterPermutes<T(!new)>(p: T -> bool, a: seq<T>, b: seq<T>)
    requires multiset(a) == multiset(b)
    ensures multiset(Filter(p, a)) == multiset(Filter(p, b))
  {
    forall x: T ensures multiset(Filter(p, a))[x] == multiset(Filter(p, b))[x] {
      FilterCounts(p, a, x);
      FilterCounts(p, b, x);
    }
  }

  function Insert<T>(less: (T, T) -> bool, x: T, s: seq<T>): (r: seq<T>)
    ensures |r| == |s| + 1
    ensures forall y | y in r :: y == x || y in s
    ensures x in r && forall y | y in s :: y in r
  {
    if s == [] || !less(s[0], x) then [x] + s
    else
      assert s == [s[0]] + s[1..];
      [s[0]] + Insert(less, x, s[1..])
  }

  /** The stable sort of s. */
  function Sort<T>(less: (T, T) -> bool, s: seq<T>): (r: seq<T>)
    ensures |r| == |s|
    ensures forall y | y in r :: y in s
    ensures forall y | y in s :: y in r
  {
    if s == [] then []
    else
      assert s == [s[0]] + s[1..];
      Insert(less, s[0], Sort(less, s[1..]))
  }

  lemma SortTwo<T>(less: (T, T) -> bool, a: T, b: T)
    ensures Sort(less, [a, b]) == if less(b, a) then [b, a] else [a, b]
  {
    assert [a, b][1..] == [b] && [b][1..] == [];
    assert Sort(less, [b]) == Insert(less, b, []) == [b];
    assert Insert(less, a, []) == [a];
  }

  lemma {:induction false} InsertPermutes<T>(less: (T, T) -> bool, x: T, s: seq<T>)
    ensures multiset(Insert(less, x, s)) == multiset(s) + multiset{x}
  {
    if s != [] && less(s[0], x) {
      InsertPermutes(less, x, s[1..]);
      assert s == [s[0]] + s[1..];
    }
  }

  lemma {:induction false} SortPermutes<T>(less: (T, T) -> bool, s: seq<T>)
    ensures multiset(Sort(less, s)) == multiset(s)
  {
    if s != [] {
      SortPermutes(less, s[1..]);
      InsertPermutes(less, s[0], Sort(less, s[1..]));
      assert s == [s[0]] + s[1..];
    }
  }

  /** less is a strict weak order on the elements of s. */
  ghost predicate StrictWeakOn<T>(less: (T, T) -> bool, s: seq<T>) {
    && (forall a, b {:trigger less(a, b), less(b, a)} | a in s && b in s :: !less(a, b) || !less(b, a))
    && (forall a, b, c {:trigger less(b, a), less(c, b)} | a in s && b in s && c in s ::
          !less(b, a) && !less(c, b) ==> !less(c, a))
  }

  lemma LessTransitive<T>(less: (T, T) -> bool, s: seq<T>, a: T, b: T, c: T)
    requires StrictWeakOn(less, s)
    requires a in s && b in s && c in s
    ensures less(a, b) && less(b, c) ==> less(a, c)
  {
    assert !less(a, b) || !less(b, a);
    assert !less(b, c) || !less(c, b);
    assert !less(c, b) && !less(a, c) ==> !less(a, b);
  }

  ghost predicate Sorted<T>(less: (T, T) -> bool, s: seq<T>) {
    forall i, j | 0 <= i < j < |s| :: !less(s[j], s[i])
  }

  lemma {:induction false} InsertSorted<T>(less: (T, T) -> bool, x: T, s: seq<T>)
    requires StrictWeakOn(less, [x] + s)
    requires Sorted(less, s)
    ensures Sorted(less, Insert(less, x, s))
  {
    if s == [] {
    } else if !less(s[0], x) {
      forall j | 0 <= j < |s| ensures !less(s[j], x) {
        assert s[0] in [x] + s && s[j] in [x] + s && x in [x] + s;
      }
    } else {
      forall y | y in [x] + s[1..] ensures y in [x] + s {}
      InsertSorted(less, x, s[1..]);
      var t := Insert(less, x, s[1..]);
      forall j | 0 <= j < |t| ensures !less(t[j], s[0]) {
        assert t[j] in t;
        assert s[0] in [x] + s && x in [x] + s;
        if t[j] != x {
          assert t[j] in s[1..];
          var k :| 0 <= k < |s[1..]| && s[1..][k] == t[j];
          assert s[k + 1] == t[j];
        }
      }
    }
  }

  lemma {:induction false} SortSorted<T>(less: (T, T) -> bool, s: seq<T>)
    requires StrictWeakOn(less, s)
    ensures Sorted(less, Sort(less, s))
  {
    if s != [] {
      SortSorted(less, s[1..]);
      forall x | x in [s[0]] + Sort(less, s[1..]) ensures x in s {}
      InsertSorted(less, s[0], Sort(less, s[1..]));
    }
  }

  lemma InsertBelow<T>(less: (T, T) -> bool, x: T, s: seq<T>)
    requires s == [] || !less(s[0], x)
    ensures Insert(less, x, s) == [x] + s
  {
  }

  /** A sequence that is already sorted is its own sort. */
  lemma {:induction false} SortFixpoint<T>(less: (T, T) -> bool, s: seq<T>)
    requires Sorted(less, s)
    ensures Sort(less, s) == s
  {
    if s != [] {
      var t := s[1..];
      SortedTail(less, s);
      SortFixpoint(less, t);
      InsertBelow(less, s[0], t);
      assert s == [s[0]] + t;
    }
  }

  lemma SortedTail<T>(less: (T, T) -> bool, s: seq<T>)
    requires Sorted(less, s) && s != []
    ensures Sorted(less, s[1..])
  {
  }

  lemma SortedHeadLeast<T>(less: (T, T) -> bool, s: seq<T>, x: T)
    requires Sorted(less, s)
    requires x in s && x != s[0]
    ensures !less(x, s[0])
  {
    var i :| 0 <= i < |s| && s[i] == x;
  }

  lemma SameMultisetSameMembers<T>(a: seq<T>, b: seq<T>)
    requires multiset(a) == multiset(b)
    ensures |a| == |b|
    ensures forall x | x in a :: x in b
    ensures forall x | x in b :: x in a
  {
    assert |a| == |multiset(a)| && |b| == |multiset(b)|;
    forall x | x in a ensures x in b { assert x in multiset(a); }
    forall x | x in b ensures x in a { assert x in multiset(b); }
  }

  lemma MultisetTail<T>(s: seq<T>)
    requires s != []
    ensures multiset(s[1..]) == multiset(s) - multiset{s[0]}
    ensures forall x | x in s[1..] :: x in s
  {
    assert s == [s[0]] + s[1..];
  }

  /** When ties are equalities, sorting forgets the order of its input. */
  lemma {:induction false} SortedUnique<T>(less: (T, T) -> bool, a: seq<T>, b: seq<T>)
    requires multiset(a) == multiset(b)
    requires Sorted(less, a) && Sorted(less, b)
    requires forall x, y | x in a && y in a && x != y :: less(x, y) || less(y, x)
    ensures a == b
    decreases |a|
  {
    SameMultisetSameMembers(a, b);
    if a != [] {
      if a[0] != b[0] {
        SortedHeadLeast(less, a, b[0]);
        SortedHeadLeast(less, b, a[0]);
        assert false;
      }
      SortedTail(less, a);
      SortedTail(less, b);
      MultisetTail(a);
      MultisetTail(b);
      SortedUnique(less, a[1..], b[1..]);
    }
  }

  /** The Go sort of a permutation is the same sequence, whatever algorithm produced it. */
  lemma SortCanonical<T>(less: (T, T) -> bool, a: seq<T>, b: seq<T>)
    requires multiset(a) == multiset(b)
    requires StrictWeakOn(less, a)
    requires forall x, y | x in a && y in a && x != y :: less(x, y) || less(y, x)
    ensures Sort(less, a) == Sort(less, b)
  {
    SameMultisetSameMembers(a, b);
    SortSorted(less, a);
    SortSorted(less, b);
    SortPermutes(less, a);
    SortPermutes(less, b);
    SortedUnique(less, Sort(less, a), Sort(less, b));
  }

  /** slices.MinFunc keeps the first element that nothing later beats. */
  function MinFrom<T>(less: (T, T) -> bool, m: T, rest: seq<T>): (r: T)
    ensures r == m || r in rest
  {
    if rest == [] then m
    else MinFrom(less, if less(rest[0], m) then rest[0] else m, rest[1..])
  }

  function Min<T>(less: (T, T) -> bool, s: seq<T>): (r: T)
    requires s != []
    ensures r in s
  {
    MinFrom(less, s[0], s[1..])
  }

  lemma {:induction false} MinFromSnoc<T>(less: (T, T) -> bool, m: T, rest: seq<T>, x: T)
    ensures MinFrom(less, m, rest + [x]) ==
            (var r := MinFrom(less, m, rest); if less(x, r) then x else r)
    decreases |rest|
  {
    if rest == [] {
      assert rest + [x] == [x];
    } else {
      assert (rest + [x])[1..] == rest[1..] + [x];
      MinFromSnoc(less, if less(rest[0], m) then rest[0] else m, rest[1..], x);
    }
  }

  lemma {:induction false} MinFromIsHead<T>(less: (T, T) -> bool, m: T, rest: seq<T>)
    requires StrictWeakOn(less, [m] + rest)
    ensures MinFrom(less, m, rest) == Sort(less, [m] + rest)[0]
    decreases |rest|
  {
    var s := [m] + rest;
    assert s[1..] == rest;
    if rest != [] {
      var y := rest[0];
      var m' := if less(y, m) then y else m;
      var s' := [m'] + rest[1..];
      forall x | x in s' ensures x in s {}
      assert m in s && y in s;
      MinFromIsHead(less, m', rest[1..]);
      var t := Sort(less, rest[1..]);
      assert s'[1..] == rest[1..];
      assert Sort(less, rest) == Insert(less, y, t);
      assert Sort(less, s) == Insert(less, m, Insert(less, y, t));
      assert Sort(less, s') == Insert(less, m', t);
      if t != [] {
        assert t[0] in rest[1..] && t[0] in s;
        LessTransitive(less, s, t[0], y, m);
        assert less(t[0], y) && less(y, m) ==> less(t[0], m);
        assert !less(t[0], y) && !less(y, m) ==> !less(t[0], m);
      }
    }
  }

  /** The head of the stable sort is what slices.MinFunc returns. */
  lemma MinIsHead<T>(less: (T, T) -> bool, s: seq<T>)
    requires s != []
    requires StrictWeakOn(less, s)
    ensures Min(less, s) == Sort(less, s)[0]
  {
    assert s == [s[0]] + s[1..];
    MinFromIsHead(less, s[0], s[1..]);
  }

  /** Nothing in s is less than its minimum. */
  lemma MinLeast<T>(less: (T, T) -> bool, s: seq<T>)
    requires s != []
    requires StrictWeakOn(less, s)
    ensures forall x | x in s :: !less(x, Min(less, s))
  {
    MinIsHead(less, s);
    SortSorted(less, s);
    var t := Sort(less, s);
    forall x | x in s ensures !less(x, t[0]) {
      assert x in t;
      var i :| 0 <= i < |t| && t[i] == x;
      assert t[0] in s;
    }
  }

  /** Inserting below everything in s puts x first. */
  lemma InsertFirst<T>(less: (T, T) -> bool, x: T, s: seq<T>)
    requires forall y | y in s :: !less(y, x)
    ensures Insert(less, x, s) == [x] + s
  {
  }

  lemma SortedHeadBound<T>(less: (T, T) -> bool, x: T, s: seq<T>)
    requires StrictWeakOn(less, [x] + s)
    requires Sorted(less, s)
    requires s != [] && !less(s[0], x)
    ensures forall y | y in s :: !less(y, x)
  {
    forall y | y in s ensures !less(y, x) {
      assert x in [x] + s && y in [x] + s && s[0] in [x] + s;
      if y != s[0] { SortedHeadLeast(less, s, y); }
    }
  }

  /** Inserting and then filtering is filtering and then inserting. */
  lemma {:induction false} FilterInsert<T>(less: (T, T) -> bool, p: T -> bool, x: T, s: seq<T>)
    requires StrictWeakOn(less, [x] + s)
    requires Sorted(less, s)
    ensures Filter(p, Insert(less, x, s)) ==
            if p(x) then Insert(less, x, Filter(p, s)) else Filter(p, s)
  {
    if s == [] {
      FilterCons(p, x, s);
    } else if !less(s[0], x) {
      FilterCons(p, x, s);
      SortedHeadBound(less, x, s);
      InsertFirst(less, x, Filter(p, s));
    } else {
      assert s == [s[0]] + s[1..];
      forall y | y in [x] + s[1..] ensures y in [x] + s {}
      SortedTail(less, s);
      FilterInsert(less, p, x, s[1..]);
      InsertPast(less, x, s[0], s[1..]);
      FilterCons(p, s[0], Insert(less, x, s[1..]));
      FilterCons(p, s[0], s[1..]);
      if p(x) && p(s[0]) {
        InsertPast(less, x, s[0], Filter(p, s[1..]));
      }
    }
  }

  lemma InsertPast<T>(less: (T, T) -> bool, x: T, h: T, t: seq<T>)
    requires less(h, x)
    ensures Insert(less, x, [h] + t) == [h] + Insert(less, x, t)
  {
    assert ([h] + t)[1..] == t;
  }

  /** Stability: a stable sort commutes with filtering. */
  lemma {:induction false} FilterSort<T>(less: (T, T) -> bool, p: T -> bool, s: seq<T>)
    requires StrictWeakOn(less, s)
    ensures Filter(p, Sort(less, s)) == Sort(less, Filter(p, s))
  {
    if s != [] {
      var h, t := s[0], s[1..];
      FilterSort(less, p, t);
      SortSorted(less, t);
      forall y | y in [h] + Sort(less, t) ensures y in s {}
      FilterInsert(less, p, h, Sort(less, t));
      FilterCons(p, h, t);
      assert s == [h] + t;
      if p(h) {
        assert Filter(p, s) == [h] + Filter(p, t);
        assert Filter(p, s)[1..] == Filter(p, t);
      } else {
        assert Filter(p, s) == Filter(p, t);
      }
    }
  }

  /** A set of keys visited in some order: the done part and the rest. */
  ghost predicate Splits<T(!new)>(all: set<T>, done: set<T>, todo: set<T>) {
    forall t :: (t in all <==> t in done || t in todo) && !(t in done && t in todo)
  }

  lemma SplitsStep<T(!new)>(all: set<T>, done: set<T>, todo: set<T>, t: T)
    requires Splits(all, done, todo) && t in todo
    ensures t in all && t !in done
    ensures Splits(all, done + {t}, todo - {t})
  {
  }

  lemma SplitsEnd<T(!new)>(all: set<T>, done: set<T>, todo: set<T>)
    requires Splits(all, done, todo) && todo == {}
    ensures done == all
  {
  }

  /** A filtered sorted sequence is sorted. */
  lemma {:induction false} FilterSorted<T>(less: (T, T) -> bool, p: T -> bool, s: seq<T>)
    requires Sorted(less, s)
    ensures Sorted(less, Filter(p, s))
  {
    if s != [] {
      var init := s[..|s| - 1];
      FilterSorted(less, p, init);
      var kept := Filter(p, init);
      forall j | 0 <= j < |kept| ensures !less(s[|s| - 1], kept[j]) {
        assert kept[j] in init;
        var k :| 0 <= k < |init| && init[k] == kept[j];
        assert s[k] == kept[j];
      }
    }
  }

  function Concat<T>(ss: seq<seq<T>>): seq<T> {
    if ss == [] then [] else ss[0] + Concat(ss[1..])
  }

  lemma {:induction false} ConcatAppend<T>(a: seq<seq<T>>, b: seq<seq<T>>)
    ensures Concat(a + b) == Concat(a) + Concat(b)
    decreases |a|
  {
    if a == [] {
      assert a + b == b;
    } else {
      assert (a + b)[1..] == a[1..] + b;
      ConcatAppend(a[1..], b);
    }
  }

  lemma ConcatSnoc<T>(ss: seq<seq<T>>, s: seq<T>)
    ensures Concat(ss + [s]) == Concat(ss) + s
  {
    ConcatAppend(ss, [s]);
    assert Concat([s]) == s + Concat([s][1..]);
  }
}

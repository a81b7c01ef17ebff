/** Ordering and equality of target lists (endpoint/endpoint.go, Targets). */
module Targets {
  import opened Wrappers
  import Strings
  import opened Sorting

  /** A parsed netip.Addr: its width in bits, its value and its zone. */
  datatype Addr = Addr(bits: nat, value: nat, zone: string)

  /** The order of netip.Addr.Compare. */
  predicate AddrLess(a: Addr, b: Addr) {
    || a.bits < b.bits
    || (a.bits == b.bits && a.value < b.value)
    || (a.bits == b.bits && a.value == b.value && Strings.Less(a.zone, b.zone))
  }

  /** The library functions the comparisons call: address parsing and printing, and
      the case folding behind strings.EqualFold. */
  datatype Net = Net(parse: string -> Option<Addr>, print_: Addr -> string, fold: string -> string)

  /** A target spelled the way the libraries spell it. */
  predicate Canonical(net: Net, t: string) {
    && net.fold(t) == t
    && (net.parse(t).Some? ==> net.print_(net.parse(t).value) == t)
  }

  ghost predicate AllCanonical(net: Net, ts: seq<string>) {
    forall t | t in ts :: Canonical(net, t)
  }

  /** Targets.Less, the order in which target lists are sorted. */
  predicate TargetLess(net: Net, a: string, b: string) {
    match (net.parse(a), net.parse(b))
    case (Some(x), Some(y)) => Strings.Less(net.print_(x), net.print_(y))
    case _ => Strings.Less(a, b)
  }

  function TargetOrder(net: Net): (string, string) -> bool {
    (a: string, b: string) => TargetLess(net, a, b)
  }

  function SortTargets(net: Net, ts: seq<string>): (r: seq<string>)
    ensures |r| == |ts|
  {
    Sort(TargetOrder(net), ts)
  }

  /** How IsLess decides between two different targets. */
  predicate Precedes(net: Net, e: string, o: string) {
    match (net.parse(e), net.parse(o))
    case (Some(x), Some(y)) => AddrLess(x, y)
    case (Some(_), None) => true
    case (None, Some(_)) => false
    case (None, None) => Strings.Less(e, o)
  }

  /** The decision at the first position where two sorted lists of one length differ. */
  predicate FirstDifferenceLess(net: Net, s: seq<string>, t: seq<string>)
    requires |s| == |t|
  {
    if s == [] then false
    else if s[0] != t[0] then Precedes(net, s[0], t[0])
    else FirstDifferenceLess(net, s[1..], t[1..])
  }

  predicate IsLess(net: Net, t: seq<string>, o: seq<string>) {
    || |t| < |o|
    || (|t| == |o| && FirstDifferenceLess(net, SortTargets(net, t), SortTargets(net, o)))
  }

  /** The comparison loop of Same. The first pair that is not equal up to case decides
      alone: true when both are addresses that print alike, false otherwise. */
  predicate SameSorted(net: Net, s: seq<string>, t: seq<string>)
    requires |s| == |t|
  {
    if s == [] then true
    else if net.fold(s[0]) == net.fold(t[0]) then SameSorted(net, s[1..], t[1..])
    else
      match (net.parse(s[0]), net.parse(t[0]))
      case (Some(x), Some(y)) => net.print_(x) == net.print_(y)
      case _ => false
  }

  predicate Same(net: Net, t: seq<string>, o: seq<string>) {
    |t| == |o| && SameSorted(net, SortTargets(net, t), SortTargets(net, o))
  }

  // ---- the element orders on canonical targets ----

  lemma TargetOrderStrict(net: Net, ts: seq<string>)
    requires AllCanonical(net, ts)
    ensures StrictWeakOn(TargetOrder(net), ts)
    ensures forall x, y | x in ts && y in ts && x != y :: TargetOrder(net)(x, y) || TargetOrder(net)(y, x)
  {
    var less := TargetOrder(net);
    forall a, b | a in ts && b in ts
      ensures !less(a, b) || !less(b, a)
      ensures a != b ==> less(a, b) || less(b, a)
    {
      Strings.LessAsymmetric(a, b);
      Strings.LessTotal(a, b);
    }
    forall a, b, c | a in ts && b in ts && c in ts && !less(b, a) && !less(c, b)
      ensures !less(c, a)
    {
      Strings.LessTotal(a, b);
      Strings.LessTotal(b, c);
      Strings.LessAsymmetric(a, c);
      if a != b && b != c { Strings.LessTransitive(a, b, c); }
    }
  }

  /** On canonical targets the sort is one fixed sequence, so the choice between
      sort.Stable and sort.Sort does not matter. */
  lemma SortTargetsUnique(net: Net, a: seq<string>, b: seq<string>)
    requires AllCanonical(net, a)
    requires multiset(a) == multiset(b)
    ensures SortTargets(net, a) == SortTargets(net, b)
  {
    TargetOrderStrict(net, a);
    SortCanonical(TargetOrder(net), a, b);
  }

  lemma AddrLessLaws(a: Addr, b: Addr, c: Addr)
    ensures !AddrLess(a, b) || !AddrLess(b, a)
    ensures a == b || AddrLess(a, b) || AddrLess(b, a)
    ensures AddrLess(a, b) && AddrLess(b, c) ==> AddrLess(a, c)
  {
    Strings.LessAsymmetric(a.zone, b.zone);
    Strings.LessTotal(a.zone, b.zone);
    if Strings.Less(a.zone, b.zone) && Strings.Less(b.zone, c.zone) {
      Strings.LessTransitive(a.zone, b.zone, c.zone);
    }
  }

  lemma PrecedesLaws(net: Net, a: string, b: string, c: string)
    requires Canonical(net, a) && Canonical(net, b) && Canonical(net, c)
    ensures !Precedes(net, a, b) || !Precedes(net, b, a)
    ensures a == b || Precedes(net, a, b) || Precedes(net, b, a)
    ensures Precedes(net, a, b) && Precedes(net, b, c) ==> Precedes(net, a, c)
  {
    Strings.LessAsymmetric(a, b);
    Strings.LessTotal(a, b);
    if Strings.Less(a, b) && Strings.Less(b, c) { Strings.LessTransitive(a, b, c); }
    match (net.parse(a), net.parse(b), net.parse(c))
    case (Some(x), Some(y), Some(z)) => AddrLessLaws(x, y, z);
    case (Some(x), Some(y), None) => AddrLessLaws(x, y, x);
    case _ =>
  }

  // ---- the list order ----

  lemma {:induction false} FirstDifferenceLaws(net: Net, s: seq<string>, t: seq<string>, u: seq<string>)
    requires |s| == |t| == |u|
    requires AllCanonical(net, s) && AllCanonical(net, t) && AllCanonical(net, u)
    ensures !FirstDifferenceLess(net, s, t) || !FirstDifferenceLess(net, t, s)
    ensures s == t || FirstDifferenceLess(net, s, t) || FirstDifferenceLess(net, t, s)
    ensures FirstDifferenceLess(net, s, t) && FirstDifferenceLess(net, t, u) ==> FirstDifferenceLess(net, s, u)
  {
    if s != [] {
      PrecedesLaws(net, s[0], t[0], u[0]);
      PrecedesLaws(net, s[0], t[0], s[0]);
      FirstDifferenceLaws(net, s[1..], t[1..], u[1..]);
      assert s == [s[0]] + s[1..] && t == [t[0]] + t[1..];
    }
  }

  /** IsLess is a strict weak order on canonical target lists, and two lists tie exactly
      when they sort to the same list. */
  lemma IsLessStrictWeakOrder(net: Net, s: seq<string>, t: seq<string>, u: seq<string>)
    requires AllCanonical(net, s) && AllCanonical(net, t) && AllCanonical(net, u)
    ensures !IsLess(net, s, t) || !IsLess(net, t, s)
    ensures !IsLess(net, s, t) && !IsLess(net, t, s) <==> SortTargets(net, s) == SortTargets(net, t)
    ensures IsLess(net, s, t) && IsLess(net, t, u) ==> IsLess(net, s, u)
    ensures !IsLess(net, t, s) && !IsLess(net, u, t) ==> !IsLess(net, u, s)
  {
    var ss, st, su := SortTargets(net, s), SortTargets(net, t), SortTargets(net, u);
    if |s| == |t| {
      FirstDifferenceLaws(net, ss, st, ss);
      FirstDifferenceLaws(net, ss, st, st);
    }
    if |s| == |t| == |u| {
      FirstDifferenceLaws(net, ss, st, su);
      FirstDifferenceLaws(net, su, st, ss);
      FirstDifferenceLaws(net, st, su, ss);
      FirstDifferenceLaws(net, st, ss, su);
    }
  }

  // ---- what the order is ----

  /** Two targets change places exactly when the second is the smaller byte string, where two
      addresses are compared as they are printed. */
  lemma SortTwoExactly(net: Net, a: string, b: string)
    ensures SortTargets(net, [a, b]) ==
            if match (net.parse(a), net.parse(b))
               case (Some(x), Some(y)) => Strings.Less(net.print_(y), net.print_(x))
               case _ => Strings.Less(b, a)
            then [b, a] else [a, b]
  {
    SortTwo(TargetOrder(net), a, b);
  }

  /** Sorting canonical targets puts them in ascending byte order. */
  lemma SortTargetsAscend(net: Net, ts: seq<string>)
    requires AllCanonical(net, ts)
    ensures multiset(SortTargets(net, ts)) == multiset(ts)
    ensures forall i, j | 0 <= i < j < |ts| :: !Strings.Less(SortTargets(net, ts)[j], SortTargets(net, ts)[i])
  {
    var r := SortTargets(net, ts);
    TargetOrderStrict(net, ts);
    SortSorted(TargetOrder(net), ts);
    SortPermutes(TargetOrder(net), ts);
    forall i, j | 0 <= i < j < |ts| ensures !Strings.Less(r[j], r[i]) {
      assert r[i] in ts && r[j] in ts;
      assert !TargetOrder(net)(r[j], r[i]);
    }
  }

  lemma SortTargetsOne(net: Net, t: string)
    ensures SortTargets(net, [t]) == [t]
  {
    SortFixpoint(TargetOrder(net), [t]);
  }

  lemma {:induction false} DifferenceDecides(net: Net, a: seq<string>, b: seq<string>, k: nat)
    requires |a| == |b| && k < |a| && a[..k] == b[..k] && a[k] != b[k]
    ensures FirstDifferenceLess(net, a, b) == Precedes(net, a[k], b[k])
  {
    if k > 0 {
      assert a[0] == a[..k][0] && b[0] == b[..k][0];
      assert a[1..][..k - 1] == a[..k][1..] && b[1..][..k - 1] == b[..k][1..];
      DifferenceDecides(net, a[1..], b[1..], k - 1);
    }
  }

  /** Of two different targets a comes before b: an address before a name, an IPv4 address
      before an IPv6 one, then the smaller value, then the smaller zone; of names the smaller
      byte string. */
  ghost predicate ComesFirst(net: Net, a: string, b: string) {
    match (net.parse(a), net.parse(b))
    case (Some(_), None) => true
    case (None, Some(_)) => false
    case (None, None) => Strings.Less(a, b)
    case (Some(x), Some(y)) =>
      if x.bits != y.bits then x.bits < y.bits
      else if x.value != y.value then x.value < y.value
      else Strings.Less(x.zone, y.zone)
  }

  /** k is the first position where the lists differ. */
  ghost predicate FirstDifferAt(a: seq<string>, b: seq<string>, k: nat) {
    |a| == |b| && k < |a| && a[..k] == b[..k] && a[k] != b[k]
  }

  lemma DifferenceExactly(net: Net, a: seq<string>, b: seq<string>, k: nat)
    requires FirstDifferAt(a, b, k)
    ensures FirstDifferenceLess(net, a, b) <==> ComesFirst(net, a[k], b[k])
  {
    DifferenceDecides(net, a, b, k);
  }

  /** Fewer targets come first; of lists of one length the first sorted position where they
      differ decides. */
  lemma FirstDifferenceDecides(net: Net, s: seq<string>, t: seq<string>, k: nat)
    requires FirstDifferAt(SortTargets(net, s), SortTargets(net, t), k)
    ensures IsLess(net, s, t) <==> ComesFirst(net, SortTargets(net, s)[k], SortTargets(net, t)[k])
  {
    DifferenceExactly(net, SortTargets(net, s), SortTargets(net, t), k);
  }

  lemma ShorterIsLess(net: Net, s: seq<string>, t: seq<string>)
    requires |s| < |t|
    ensures IsLess(net, s, t) && !IsLess(net, t, s)
  {
  }

  // ---- Same ----

  lemma {:induction false} SameSortedIsEqual(net: Net, s: seq<string>, t: seq<string>)
    requires |s| == |t|
    requires AllCanonical(net, s) && AllCanonical(net, t)
    ensures SameSorted(net, s, t) <==> s == t
  {
    if s != [] {
      SameSortedIsEqual(net, s[1..], t[1..]);
      assert Canonical(net, s[0]) && Canonical(net, t[0]);
      assert s == [s[0]] + s[1..] && t == [t[0]] + t[1..];
    }
  }

  /** On canonical targets Same is equality of the two target multisets. */
  lemma SameIsMultisetEquality(net: Net, s: seq<string>, t: seq<string>)
    requires AllCanonical(net, s) && AllCanonical(net, t)
    ensures Same(net, s, t) <==> multiset(s) == multiset(t)
  {
    if multiset(s) == multiset(t) {
      SameMultisetSameMembers(s, t);
      SortTargetsUnique(net, s, t);
    }
    if |s| == |t| {
      SameSortedIsEqual(net, SortTargets(net, s), SortTargets(net, t));
      SortPermutes(TargetOrder(net), s);
      SortPermutes(TargetOrder(net), t);
    }
  }

  lemma {:induction false} SameSortedReflexive(net: Net, s: seq<string>)
    ensures SameSorted(net, s, s)
  {
    if s != [] { SameSortedReflexive(net, s[1..]); }
  }

  /** Every list is the Same as itself, canonical or not. */
  lemma SameReflexive(net: Net, s: seq<string>)
    ensures Same(net, s, s)
  {
    SameSortedReflexive(net, SortTargets(net, s));
  }

  /** Two targets that name the same thing: equal up to case, or addresses that print alike. */
  predicate Equivalent(net: Net, e: string, o: string) {
    || net.fold(e) == net.fold(o)
    || match (net.parse(e), net.parse(o))
       case (Some(x), Some(y)) => net.print_(x) == net.print_(y)
       case _ => false
  }

  ghost predicate PairwiseEquivalent(net: Net, s: seq<string>, t: seq<string>)
    requires |s| == |t|
  {
    forall i | 0 <= i < |s| :: Equivalent(net, s[i], t[i])
  }

  /** Two spellings of one address that differ beyond case. */
  predicate Respelled(net: Net, e: string, o: string) {
    net.fold(e) != net.fold(o) && Equivalent(net, e, o)
  }

  /** The guard: no position holds two spellings of one address. */
  ghost predicate NoRespelling(net: Net, s: seq<string>, t: seq<string>)
    requires |s| == |t|
  {
    forall i | 0 <= i < |s| :: !Respelled(net, s[i], t[i])
  }

  /** The first position that differs beyond case, or |s|. */
  function FirstUnequal(net: Net, s: seq<string>, t: seq<string>): (k: nat)
    requires |s| == |t|
    ensures k <= |s| && forall i | 0 <= i < k :: net.fold(s[i]) == net.fold(t[i])
    ensures k < |s| ==> net.fold(s[k]) != net.fold(t[k])
  {
    if s == [] || net.fold(s[0]) != net.fold(t[0]) then 0
    else
      var k := FirstUnequal(net, s[1..], t[1..]);
      assert forall i | 0 < i < k + 1 :: s[i] == s[1..][i - 1] && t[i] == t[1..][i - 1];
      k + 1
  }

  /** What the loop answers: the first unequal position decides alone. */
  lemma {:induction false} SameSortedByFirst(net: Net, s: seq<string>, t: seq<string>, k: nat)
    requires |s| == |t| && k <= |s|
    requires forall i | 0 <= i < k :: net.fold(s[i]) == net.fold(t[i])
    requires k < |s| ==> net.fold(s[k]) != net.fold(t[k])
    ensures SameSorted(net, s, t) <==> k == |s| || Equivalent(net, s[k], t[k])
    decreases k
  {
    if k > 0 {
      assert forall i | 0 <= i < k - 1 :: s[1..][i] == s[i + 1] && t[1..][i] == t[i + 1];
      SameSortedByFirst(net, s[1..], t[1..], k - 1);
    }
  }

  /** Where the guard holds the loop compares position by position. */
  lemma SameComparesPairs(net: Net, s: seq<string>, t: seq<string>)
    requires |s| == |t| && NoRespelling(net, s, t)
    ensures SameSorted(net, s, t) <==> PairwiseEquivalent(net, s, t)
  {
    var k := FirstUnequal(net, s, t);
    SameSortedByFirst(net, s, t, k);
    if k < |s| { assert !Respelled(net, s[k], t[k]); }
  }

  /** Whatever follows p and q, as long as it holds no respelling, the loop compares position
      by position. */
  ghost predicate ComparesPairsAfter(net: Net, p: seq<string>, q: seq<string>)
    requires |p| == |q|
  {
    forall u: seq<string>, v: seq<string> | |u| == |v| && NoRespelling(net, u, v) ::
      SameSorted(net, p + u, q + v) <==> PairwiseEquivalent(net, p + u, q + v)
  }

  /** The early return is right for every continuation of two prefixes exactly when their first
      unequal position, if any, is not two spellings of one address. For the right to left
      direction any two names that are not equivalent serve as the continuation. */
  lemma SameExactly(net: Net, p: seq<string>, q: seq<string>, e: string, o: string)
    requires |p| == |q| && !Equivalent(net, e, o)
    ensures var k := FirstUnequal(net, p, q);
            ComparesPairsAfter(net, p, q) <==> k == |p| || !Respelled(net, p[k], q[k])
  {
    var k := FirstUnequal(net, p, q);
    if k < |p| && Respelled(net, p[k], q[k]) {
      RespellingHidesDifference(net, p, q, k, e, o);
      assert NoRespelling(net, [e], [o]);
    } else {
      forall u: seq<string>, v: seq<string> | |u| == |v| && NoRespelling(net, u, v)
        ensures SameSorted(net, p + u, q + v) <==> PairwiseEquivalent(net, p + u, q + v)
      {
        if k < |p| {
          SameSortedByFirst(net, p + u, q + v, k);
          assert !Equivalent(net, (p + u)[k], (q + v)[k]);
        } else {
          SameAfterEqualPrefix(net, p, q, u, v);
        }
      }
    }
  }

  lemma RespellingHidesDifference(net: Net, p: seq<string>, q: seq<string>, k: nat, e: string, o: string)
    requires |p| == |q| && k < |p| && Respelled(net, p[k], q[k]) && !Equivalent(net, e, o)
    requires forall i | 0 <= i < k :: net.fold(p[i]) == net.fold(q[i])
    ensures SameSorted(net, p + [e], q + [o]) && !PairwiseEquivalent(net, p + [e], q + [o])
  {
    SameSortedByFirst(net, p + [e], q + [o], k);
    assert (p + [e])[|p|] == e && (q + [o])[|q|] == o;
  }

  lemma SameAfterEqualPrefix(net: Net, p: seq<string>, q: seq<string>, u: seq<string>, v: seq<string>)
    requires |p| == |q| && |u| == |v| && NoRespelling(net, u, v)
    requires forall i | 0 <= i < |p| :: net.fold(p[i]) == net.fold(q[i])
    ensures SameSorted(net, p + u, q + v) <==> PairwiseEquivalent(net, p + u, q + v)
  {
    forall i | 0 <= i < |p + u| ensures !Respelled(net, (p + u)[i], (q + v)[i]) {
      if i < |p| {
        assert (p + u)[i] == p[i] && (q + v)[i] == q[i];
      } else {
        assert (p + u)[i] == u[i - |p|] && (q + v)[i] == v[i - |p|];
      }
    }
    SameComparesPairs(net, p + u, q + v);
  }

  const EXPANDED := "0:0:0:0:0:0:0:1"
  const SHORTENED := "::1"

  /** With any library that reads these as one address and tells the names a and b apart, the
      lists [0:0:0:0:0:0:0:1, a] and [::1, b] count as the same. */
  lemma SameCanSkipDifference(net: Net)
    requires net.parse(EXPANDED).Some? && net.parse(EXPANDED) == net.parse(SHORTENED)
    requires net.fold(EXPANDED) != net.fold(SHORTENED)
    requires net.parse("a").None? && net.parse("b").None? && net.fold("a") != net.fold("b")
    ensures Same(net, [EXPANDED, "a"], [SHORTENED, "b"])
    ensures !Equivalent(net, "a", "b")
  {
    TwoSorted(net, EXPANDED, "a");
    TwoSorted(net, SHORTENED, "b");
    RespellingHidesDifference(net, [EXPANDED], [SHORTENED], 0, "a", "b");
    assert [EXPANDED] + ["a"] == [EXPANDED, "a"] && [SHORTENED] + ["b"] == [SHORTENED, "b"];
  }

  lemma TwoSorted(net: Net, x: string, y: string)
    requires !TargetLess(net, y, x)
    ensures SortTargets(net, [x, y]) == [x, y]
  {
    SortFixpoint(TargetOrder(net), [x, y]);
  }
}

/** Targets.Same and Targets.IsLess as they run: both lists are sorted in place, then compared
    position by position (endpoint/endpoint.go). */
module TargetsInPlace {
  import opened Wrappers
  import Sorting
  import Strings
  import opened Targets

  /** sort.Stable and sort.Sort on a target list; on canonical targets both give this order
      (Targets.SortTargetsUnique). */
  method SortInPlace(net: Net, a: array<string>)
    modifies a
    ensures a[..] == SortTargets(net, old(a[..]))
  {
    var sorted := SortTargets(net, a[..]);
    forall i | 0 <= i < a.Length { a[i] := sorted[i]; }
    assert a[..] == sorted;
  }

  lemma SameSortedStep(net: Net, s: seq<string>, t: seq<string>, i: nat)
    requires |s| == |t| && i < |s|
    ensures s[i..][0] == s[i] && t[i..][0] == t[i]
    ensures s[i..][1..] == s[i + 1..] && t[i..][1..] == t[i + 1..]
  {
  }

  /** The comparison loop of Same. */
  method CompareSame(net: Net, t: array<string>, o: array<string>) returns (same: bool)
    requires t.Length == o.Length
    ensures same == SameSorted(net, t[..], o[..])
  {
    assert t[..][0..] == t[..] && o[..][0..] == o[..];
    for i := 0 to t.Length
      invariant SameSorted(net, t[..], o[..]) == SameSorted(net, t[..][i..], o[..][i..])
    {
      SameSortedStep(net, t[..], o[..], i);
      if net.fold(t[i]) != net.fold(o[i]) {
        var ipA, ipB := net.parse(t[i]), net.parse(o[i]);
        if ipA.Some? && ipB.Some? {
          return net.print_(ipA.value) == net.print_(ipB.value);
        }
        return false;
      }
    }
    return true;
  }

  /** Targets.Same. A list compared with itself is sorted twice. */
  method Same(net: Net, t: array<string>, o: array<string>) returns (same: bool)
    modifies t, o
    ensures same == Targets.Same(net, old(t[..]), old(o[..]))
    ensures t.Length == o.Length && t != o ==> t[..] == SortTargets(net, old(t[..])) && o[..] == SortTargets(net, old(o[..]))
    ensures t == o ==> t[..] == SortTargets(net, SortTargets(net, old(t[..])))
    ensures t.Length != o.Length ==> t[..] == old(t[..]) && o[..] == old(o[..])
  {
    if t.Length != o.Length { return false; }
    SortInPlace(net, t);
    SortInPlace(net, o);
    same := CompareSame(net, t, o);
    if t == o {
      SameReflexive(net, old(t[..]));
      SameSortedReflexive(net, t[..]);
    }
  }

  /** The comparison loop of IsLess. */
  method CompareLess(net: Net, t: array<string>, o: array<string>) returns (less: bool)
    requires t.Length == o.Length
    ensures less == FirstDifferenceLess(net, t[..], o[..])
    ensures forall k: nat | FirstDifferAt(t[..], o[..], k) :: less <==> ComesFirst(net, t[k], o[k])
  {
    forall k: nat | FirstDifferAt(t[..], o[..], k)
      ensures FirstDifferenceLess(net, t[..], o[..]) <==> ComesFirst(net, t[k], o[k])
    {
      DifferenceExactly(net, t[..], o[..], k);
    }
    assert t[..][0..] == t[..] && o[..][0..] == o[..];
    for i := 0 to t.Length
      invariant FirstDifferenceLess(net, t[..], o[..]) == FirstDifferenceLess(net, t[..][i..], o[..][i..])
    {
      SameSortedStep(net, t[..], o[..], i);
      if t[i] != o[i] {
        var ipA, ipB := net.parse(t[i]), net.parse(o[i]);
        if ipA.Some? && ipB.Some? { return AddrLess(ipA.value, ipB.value); }
        if ipA.Some? { return true; }
        if ipB.Some? { return false; }
        return Strings.Less(t[i], o[i]);
      }
    }
    return false;
  }

  /** Targets.IsLess. */
  method IsLess(net: Net, t: array<string>, o: array<string>) returns (less: bool)
    modifies t, o
    ensures less == Targets.IsLess(net, old(t[..]), old(o[..]))
    ensures t.Length != o.Length ==> (less <==> t.Length < o.Length)
    ensures forall k: nat | FirstDifferAt(SortTargets(net, old(t[..])), SortTargets(net, old(o[..])), k) ::
              less <==> ComesFirst(net, SortTargets(net, old(t[..]))[k], SortTargets(net, old(o[..]))[k])
    ensures t.Length == o.Length && t != o ==> t[..] == SortTargets(net, old(t[..])) && o[..] == SortTargets(net, old(o[..]))
    ensures t == o ==> t[..] == SortTargets(net, SortTargets(net, old(t[..])))
    ensures t.Length != o.Length ==> t[..] == old(t[..]) && o[..] == old(o[..])
  {
    forall k: nat | FirstDifferAt(SortTargets(net, t[..]), SortTargets(net, o[..]), k)
      ensures Targets.IsLess(net, t[..], o[..]) <==> ComesFirst(net, SortTargets(net, t[..])[k], SortTargets(net, o[..])[k])
    {
      FirstDifferenceDecides(net, t[..], o[..], k);
    }
    if t.Length < o.Length { return true; }
    if t.Length > o.Length { return false; }
    SortInPlace(net, t);
    SortInPlace(net, o);
    less := CompareLess(net, t, o);
    if t == o {
      NotLessThanItself(net, t[..]);
      NotLessThanItself(net, SortTargets(net, old(t[..])));
    }
  }

  lemma {:induction false} NotLessThanItself(net: Net, s: seq<string>)
    ensures !FirstDifferenceLess(net, s, s)
  {
    if s != [] { NotLessThanItself(net, s[1..]); }
  }

  /** So comparing never changes a later answer: on canonical targets the sorted lists compare
      with any third list as the unsorted ones did. */
  lemma SortingIsHarmless(net: Net, t: seq<string>, o: seq<string>)
    requires AllCanonical(net, t) && AllCanonical(net, o)
    ensures Targets.Same(net, SortTargets(net, t), o) == Targets.Same(net, t, o)
    ensures Targets.IsLess(net, SortTargets(net, t), o) == Targets.IsLess(net, t, o)
    ensures Targets.IsLess(net, o, SortTargets(net, t)) == Targets.IsLess(net, o, t)
  {
    Sorting.SortPermutes(TargetOrder(net), t);
    SortTargetsUnique(net, t, SortTargets(net, t));
  }
}

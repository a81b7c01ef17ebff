/** The winner among several candidates does not depend on the order they arrive in
    (plan/conflict.go, endpoint/endpoint.go). */
module Conflicts {
  import opened Wrappers
  import opened Sorting
  import opened Targets
  import opened Records
  import opened PlanSpec
  import opened Reconcile
  import opened Runs

  ghost predicate CanonicalTargets(net: Net, rs: seq<Record>) {
    forall r | r in rs :: AllCanonical(net, r.targets)
  }

  ghost predicate SameTargets(net: Net, a: Record, b: Record) {
    SortTargets(net, a.targets) == SortTargets(net, b.targets)
  }

  /** slices.MinFunc picks the head of the stable sort. */
  lemma CreateIsHeadOfSort(net: Net, cs: seq<Record>)
    requires cs != [] && CanonicalTargets(net, cs)
    ensures ResolveCreate(net, cs) == Sort(RecordOrder(net), cs)[0]
  {
    CandidatesOrdered(net, cs);
    MinIsHead(RecordOrder(net), cs);
  }

  /** What ResolveUpdate computes without sorting: the minimum over the holder's own
      candidates if there are any, and over all of them otherwise. */
  lemma UpdateIsMinOfOwn(net: Net, held: Record, cs: seq<Record>)
    requires cs != [] && CanonicalTargets(net, cs)
    ensures var own := Filter(HasResource(Label(held, RESOURCE_LABEL)), cs);
            ResolveUpdate(net, held, cs) == ResolveCreate(net, if own != [] then own else cs)
  {
    var less, p := RecordOrder(net), HasResource(Label(held, RESOURCE_LABEL));
    var own, sorted := Filter(p, cs), Sort(less, cs);
    CandidatesOrdered(net, cs);
    CandidatesOrdered(net, own);
    FilterSort(less, p, cs);
    SortSorted(less, cs);
    SortFixpoint(less, sorted);
    MinIsHead(less, cs);
    MinIsHead(less, sorted);
    if own != [] { MinIsHead(less, own); }
  }

  lemma CreatePermutation(net: Net, a: seq<Record>, b: seq<Record>)
    requires a != [] && multiset(a) == multiset(b) && CanonicalTargets(net, a)
    ensures b != [] && SameTargets(net, ResolveCreate(net, a), ResolveCreate(net, b))
  {
    SameMultisetSameMembers(a, b);
    CandidatesOrdered(net, a);
    CandidatesOrdered(net, b);
    MinLeast(RecordOrder(net), a);
    MinLeast(RecordOrder(net), b);
    var x, y := ResolveCreate(net, a), ResolveCreate(net, b);
    IsLessStrictWeakOrder(net, x.targets, y.targets, x.targets);
  }

  /** Both resolvers pick the same targets from any permutation of the candidates. */
  lemma WinnerIgnoresOrder(net: Net, held: Record, a: seq<Record>, b: seq<Record>)
    requires a != [] && multiset(a) == multiset(b) && CanonicalTargets(net, a)
    ensures b != []
    ensures SameTargets(net, ResolveCreate(net, a), ResolveCreate(net, b))
    ensures SameTargets(net, ResolveUpdate(net, held, a), ResolveUpdate(net, held, b))
  {
    SameMultisetSameMembers(a, b);
    var p := HasResource(Label(held, RESOURCE_LABEL));
    FilterPermutes(p, a, b);
    SameMultisetSameMembers(Filter(p, a), Filter(p, b));
    UpdateIsMinOfOwn(net, held, a);
    UpdateIsMinOfOwn(net, held, b);
    CreatePermutation(net, a, b);
    if Filter(p, a) != [] { CreatePermutation(net, Filter(p, a), Filter(p, b)); }
  }

  /** Permuting the desired records permutes what is wanted in every cell. */
  lemma WantedPermutes(w: World, i: Instance, a: seq<Record>, b: seq<Record>, s: Slot)
    requires multiset(a) == multiset(b)
    ensures multiset(Wanted(w, i, a, s)) == multiset(Wanted(w, i, b, s))
  {
    var ca, cb := RowOf(w, i, [], a, s.key).candidates, RowOf(w, i, [], b, s.key).candidates;
    FilterPermutes(VisibleTo(w, i), a, b);
    FilterPermutes(InRow(w, s.key), Filter(VisibleTo(w, i), a), Filter(VisibleTo(w, i), b));
    SameMultisetSameMembers(ca, cb);
    FilterPermutes(OfType(s.recordType), ca, cb);
  }

  /** Two decisions over permuted candidates leave the same targets in a cell. */
  lemma CellIgnoresOrder(w: World, i: Instance, claim: bool, held: Option<Record>, a: seq<Record>, b: seq<Record>)
    requires multiset(a) == multiset(b) && CanonicalTargets(w.net, a)
    requires held.Some? ==> AllCanonical(w.net, held.value.targets)
    ensures var x := After(i, held, Decide(w, i, claim, held, a));
            var y := After(i, held, Decide(w, i, claim, held, b));
            x.Some? == y.Some? && (x.Some? ==> SameTargets(w.net, x.value, y.value))
  {
    SameMultisetSameMembers(a, b);
    if a != [] {
      match held
      case None => CreatePermutation(w.net, a, b);
      case Some(r) => HeldIgnoresOrder(w, i, claim, r, a, b);
    }
  }

  lemma HeldIgnoresOrder(w: World, i: Instance, claim: bool, r: Record, a: seq<Record>, b: seq<Record>)
    requires a != [] && b != [] && multiset(a) == multiset(b) && CanonicalTargets(w.net, a)
    requires AllCanonical(w.net, r.targets)
    ensures var x := After(i, Some(r), Decide(w, i, claim, Some(r), a));
            var y := After(i, Some(r), Decide(w, i, claim, Some(r), b));
            x.Some? == y.Some? && (x.Some? ==> SameTargets(w.net, x.value, y.value))
  {
    SameMultisetSameMembers(a, b);
    WinnerIgnoresOrder(w.net, r, a, b);
    UpdateLeavesWinner(w, i, r, a);
    UpdateLeavesWinner(w, i, r, b);
  }

  /** An instance that may write a cell leaves the winner's targets in it. */
  lemma UpdateLeavesWinner(w: World, i: Instance, r: Record, cs: seq<Record>)
    requires cs != [] && CanonicalTargets(w.net, cs) && AllCanonical(w.net, r.targets)
    ensures var n := After(i, Some(r), Decide(w, i, true, Some(r), cs));
            && n.Some?
            && (if Mine(i, r) && AllowsUpdate(i.policies)
                then SameTargets(w.net, n.value, ResolveUpdate(w.net, r, cs)) else n.value == r)
  {
    var u := ResolveUpdate(w.net, r, cs);
    if !NeedsUpdate(w, i, u, r) {
      SameIsMultisetEquality(w.net, u.targets, r.targets);
      SortTargetsUnique(w.net, u.targets, r.targets);
    }
  }

  /** Reconciliation is deterministic in what it makes names point to: two turns of one
      instance from one state, with the desired records in any order, the listing in any
      order and the plan built in any row order, occupy the same cells with the same targets. */
  lemma TurnsAgree(w: World, st: State, t: Turn, t': Turn, s: Slot)
    requires ValidTurn(w, st, t) && ValidTurn(w, st, t')
    requires t.inst == t'.inst && multiset(t.desired) == multiset(t'.desired)
    requires CanonicalTargets(w.net, t.desired)
    requires forall o | o in st :: AllCanonical(w.net, st[o].targets)
    ensures s in Next(w, st, t) <==> s in Next(w, st, t')
    ensures s in Next(w, st, t) ==> SameTargets(w.net, Next(w, st, t)[s], Next(w, st, t')[s])
  {
    var i := t.inst;
    var a, b := Wanted(w, i, t.desired, s), Wanted(w, i, t'.desired, s);
    var claim, seen, get := Claim(w, i, st, s.key), Seen(w, i, st, s), Get(st, s);
    WantedPermutes(w, i, t.desired, t'.desired, s);
    SameMultisetSameMembers(a, b);
    WantedBelongs(w, i, t.desired, s);
    TurnAt(w, st, t, s);
    TurnAt(w, st, t', s);
    if a != [] { CellIgnoresOrder(w, i, claim, get, a, b); }
  }

  // ---- who wins ----

  /** Of two single targets, the one of m is at least as good: an address rather than a name,
      IPv4 rather than IPv6, then the smaller value and zone; of names the smaller. */
  ghost predicate AtLeastAsGood(net: Net, m: string, c: string) {
    match (net.parse(m), net.parse(c))
    case (Some(_), None) => true
    case (None, Some(_)) => false
    case (None, None) => !Strings.Less(c, m)
    case (Some(x), Some(y)) =>
      && x.bits <= y.bits
      && (x.bits == y.bits ==> x.value <= y.value)
      && (x.bits == y.bits && x.value == y.value ==> !Strings.Less(y.zone, x.zone))
  }

  lemma SinglesCompared(net: Net, m: string, c: string)
    requires !IsLess(net, [c], [m])
    ensures AtLeastAsGood(net, m, c)
  {
    if m == c {
      Strings.LessAsymmetric(m, m);
      if net.parse(m).Some? { Strings.LessAsymmetric(net.parse(m).value.zone, net.parse(m).value.zone); }
    } else {
      SortTargetsOne(net, m);
      SortTargetsOne(net, c);
      FirstDifferenceDecides(net, [c], [m], 0);
    }
  }

  /** m has the fewest targets of cs and, with one target, the best of the single ones. */
  ghost predicate IsBest(net: Net, cs: seq<Record>, m: Record) {
    && m in cs
    && (forall c | c in cs :: |m.targets| <= |c.targets|)
    && (forall c | c in cs && |c.targets| == |m.targets| == 1 :: AtLeastAsGood(net, m.targets[0], c.targets[0]))
    && (forall c | c in cs :: !IsLess(net, c.targets, m.targets))
  }

  lemma LeastIsBest(net: Net, cs: seq<Record>, m: Record)
    requires m in cs && forall c | c in cs :: !RecordOrder(net)(c, m)
    ensures IsBest(net, cs, m)
  {
    forall c | c in cs ensures |m.targets| <= |c.targets| {
      assert !RecordOrder(net)(c, m);
      if |c.targets| < |m.targets| { ShorterIsLess(net, c.targets, m.targets); }
    }
    forall c | c in cs && |c.targets| == |m.targets| == 1 ensures AtLeastAsGood(net, m.targets[0], c.targets[0]) {
      assert !RecordOrder(net)(c, m);
      assert c.targets == [c.targets[0]] && m.targets == [m.targets[0]];
      SinglesCompared(net, m.targets[0], c.targets[0]);
    }
  }

  /** The created record is the best candidate. */
  lemma CreateIsBest(net: Net, cs: seq<Record>)
    requires cs != [] && CanonicalTargets(net, cs)
    ensures IsBest(net, cs, ResolveCreate(net, cs))
  {
    CandidatesOrdered(net, cs);
    MinLeast(RecordOrder(net), cs);
    LeastIsBest(net, cs, ResolveCreate(net, cs));
  }

  /** The candidates whose resource label is that of the record, a missing label reading as "". */
  ghost predicate FromResource(held: Record, c: Record) {
    (if RESOURCE_LABEL in c.labels then c.labels[RESOURCE_LABEL] else "")
    == (if RESOURCE_LABEL in held.labels then held.labels[RESOURCE_LABEL] else "")
  }

  /** The updated record is the best candidate of the resource that holds the record, or the
      best of all when it has none. */
  lemma UpdateIsBest(net: Net, held: Record, cs: seq<Record>)
    requires cs != [] && CanonicalTargets(net, cs)
    ensures var own := Filter((c: Record) => FromResource(held, c), cs);
            IsBest(net, if own != [] then own else cs, ResolveUpdate(net, held, cs))
  {
    var p, q := HasResource(Label(held, RESOURCE_LABEL)), (c: Record) => FromResource(held, c);
    FilterCongruent(p, q, cs);
    UpdateIsCreateOfEligible(net, held, cs);
    CreateIsBest(net, Eligible(held, cs));
  }

  // ---- when the winner itself is determined ----

  /** Only candidates equal to m tie with it. */
  ghost predicate TiesAreEqual(net: Net, m: Record, cs: seq<Record>) {
    forall c | c in cs && !RecordOrder(net)(m, c) && !RecordOrder(net)(c, m) :: c == m
  }

  /** s with position k moved to the front. */
  function Fronted<T>(s: seq<T>, k: nat): seq<T>
    requires k < |s|
  {
    [s[k]] + (s[..k] + s[k + 1..])
  }

  lemma FrontedPermutes<T>(s: seq<T>, k: nat)
    requires k < |s|
    ensures multiset(Fronted(s, k)) == multiset(s)
  {
    assert s == s[..k] + [s[k]] + s[k + 1..];
  }

  lemma {:induction false} MinKeepsLeast<T>(less: (T, T) -> bool, m: T, rest: seq<T>)
    requires forall x | x in rest :: !less(x, m)
    ensures MinFrom(less, m, rest) == m
    decreases |rest|
  {
    if rest != [] {
      assert rest[0] in rest && forall x | x in rest[1..] :: x in rest;
      MinKeepsLeast(less, m, rest[1..]);
    }
  }

  /** A candidate that nothing beats wins when it comes first. */
  lemma FirstOfTiesWins(net: Net, cs: seq<Record>, k: nat)
    requires k < |cs| && forall x | x in cs :: !RecordOrder(net)(x, cs[k])
    ensures ResolveCreate(net, Fronted(cs, k)) == cs[k]
  {
    var rest := cs[..k] + cs[k + 1..];
    assert Fronted(cs, k)[1..] == rest;
    assert forall x | x in rest :: x in cs;
    MinKeepsLeast(RecordOrder(net), cs[k], rest);
  }

  lemma TiedIsLeast(net: Net, cs: seq<Record>, m: Record, c: Record)
    requires CanonicalTargets(net, cs) && m in cs && c in cs && !RecordOrder(net)(m, c)
    requires forall x | x in cs :: !RecordOrder(net)(x, m)
    ensures forall x | x in cs :: !RecordOrder(net)(x, c)
  {
    CandidatesOrdered(net, cs);
    assert StrictWeakOn(RecordOrder(net), cs);
  }

  /** The created record does not depend on the order of the candidates exactly when every
      candidate that ties with it equals it. */
  lemma CreateDeterminedExactly(net: Net, cs: seq<Record>)
    requires cs != [] && CanonicalTargets(net, cs)
    ensures (forall b | multiset(b) == multiset(cs) :: b != [] && ResolveCreate(net, b) == ResolveCreate(net, cs))
            <==> TiesAreEqual(net, ResolveCreate(net, cs), cs)
  {
    var m := ResolveCreate(net, cs);
    CandidatesOrdered(net, cs);
    MinLeast(RecordOrder(net), cs);
    if TiesAreEqual(net, m, cs) {
      forall b | multiset(b) == multiset(cs) ensures b != [] && ResolveCreate(net, b) == m {
        OnlyEqualTiesWin(net, cs, b);
      }
    } else {
      var c :| c in cs && !RecordOrder(net)(m, c) && !RecordOrder(net)(c, m) && c != m;
      var k :| 0 <= k < |cs| && cs[k] == c;
      TiedIsLeast(net, cs, m, c);
      FirstOfTiesWins(net, cs, k);
      FrontedPermutes(cs, k);
    }
  }

  lemma OnlyEqualTiesWin(net: Net, cs: seq<Record>, b: seq<Record>)
    requires cs != [] && CanonicalTargets(net, cs) && multiset(b) == multiset(cs)
    requires TiesAreEqual(net, ResolveCreate(net, cs), cs)
    ensures b != [] && ResolveCreate(net, b) == ResolveCreate(net, cs)
  {
    SameMultisetSameMembers(cs, b);
    CandidatesOrdered(net, cs);
    CandidatesOrdered(net, b);
    MinLeast(RecordOrder(net), cs);
    MinLeast(RecordOrder(net), b);
  }

  /** The candidates an update chooses from: those of the resource that holds the record, or
      all when it has none. */
  function Eligible(held: Record, cs: seq<Record>): (r: seq<Record>)
    ensures cs != [] ==> r != []
    ensures forall c | c in r :: c in cs
  {
    var own := Filter(HasResource(Label(held, RESOURCE_LABEL)), cs);
    if own == [] then cs else own
  }

  lemma UpdateIsCreateOfEligible(net: Net, held: Record, cs: seq<Record>)
    requires cs != [] && CanonicalTargets(net, cs)
    ensures ResolveUpdate(net, held, cs) == ResolveCreate(net, Eligible(held, cs))
  {
    UpdateIsMinOfOwn(net, held, cs);
  }

  lemma EligiblePermutes(held: Record, a: seq<Record>, b: seq<Record>)
    requires multiset(a) == multiset(b)
    ensures multiset(Eligible(held, a)) == multiset(Eligible(held, b))
  {
    var p := HasResource(Label(held, RESOURCE_LABEL));
    FilterPermutes(p, a, b);
    SameMultisetSameMembers(Filter(p, a), Filter(p, b));
  }

  /** Bringing an eligible candidate to the front brings it to the front of the eligible ones. */
  lemma FrontedEligible(held: Record, cs: seq<Record>, k: nat)
    requires k < |cs| && cs[k] in Eligible(held, cs)
    ensures Eligible(held, Fronted(cs, k)) != [] && Eligible(held, Fronted(cs, k))[0] == cs[k]
  {
    var p := HasResource(Label(held, RESOURCE_LABEL));
    var rest := cs[..k] + cs[k + 1..];
    FilterCons(p, cs[k], rest);
    FrontedPermutes(cs, k);
    FilterPermutes(p, Fronted(cs, k), cs);
    SameMultisetSameMembers(Filter(p, Fronted(cs, k)), Filter(p, cs));
  }

  /** The updated record does not depend on the order of the candidates exactly when every
      eligible candidate that ties with it equals it. */
  lemma UpdateDeterminedExactly(net: Net, held: Record, cs: seq<Record>)
    requires cs != [] && CanonicalTargets(net, cs)
    ensures (forall b | multiset(b) == multiset(cs) :: b != [] && ResolveUpdate(net, held, b) == ResolveUpdate(net, held, cs))
            <==> TiesAreEqual(net, ResolveUpdate(net, held, cs), Eligible(held, cs))
  {
    var es, m := Eligible(held, cs), ResolveUpdate(net, held, cs);
    UpdateIsCreateOfEligible(net, held, cs);
    if TiesAreEqual(net, m, es) {
      forall b | multiset(b) == multiset(cs) ensures b != [] && ResolveUpdate(net, held, b) == m {
        OnlyEqualUpdateTiesWin(net, held, cs, b);
      }
    } else {
      var c :| c in es && !RecordOrder(net)(m, c) && !RecordOrder(net)(c, m) && c != m;
      var k :| 0 <= k < |cs| && cs[k] == c;
      FrontedPermutes(cs, k);
      FrontedUpdateWins(net, held, cs, k);
      var b := Fronted(cs, k);
      assert multiset(b) == multiset(cs) && b != [] && ResolveUpdate(net, held, b) != m;
    }
  }

  lemma OnlyEqualUpdateTiesWin(net: Net, held: Record, cs: seq<Record>, b: seq<Record>)
    requires cs != [] && CanonicalTargets(net, cs) && multiset(b) == multiset(cs)
    requires TiesAreEqual(net, ResolveUpdate(net, held, cs), Eligible(held, cs))
    ensures b != [] && ResolveUpdate(net, held, b) == ResolveUpdate(net, held, cs)
  {
    UpdateIsCreateOfEligible(net, held, cs);
    SameMultisetSameMembers(cs, b);
    EligiblePermutes(held, b, cs);
    OnlyEqualTiesWin(net, Eligible(held, cs), Eligible(held, b));
    UpdateIsCreateOfEligible(net, held, b);
  }

  lemma FrontedUpdateWins(net: Net, held: Record, cs: seq<Record>, k: nat)
    requires k < |cs| && CanonicalTargets(net, cs) && cs[k] in Eligible(held, cs)
    requires !RecordOrder(net)(ResolveUpdate(net, held, cs), cs[k])
    ensures ResolveUpdate(net, held, Fronted(cs, k)) == cs[k]
  {
    var es, b := Eligible(held, cs), Fronted(cs, k);
    var eb := Eligible(held, b);
    UpdateIsCreateOfEligible(net, held, cs);
    CandidatesOrdered(net, es);
    MinLeast(RecordOrder(net), es);
    TiedIsLeast(net, es, ResolveCreate(net, es), cs[k]);
    FrontedPermutes(cs, k);
    SameMultisetSameMembers(b, cs);
    EligiblePermutes(held, b, cs);
    SameMultisetSameMembers(eb, es);
    FrontedEligible(held, cs, k);
    UpdateIsCreateOfEligible(net, held, b);
    assert forall x | x in eb[1..] :: x in eb;
    MinKeepsLeast(RecordOrder(net), cs[k], eb[1..]);
  }

  /** Only the targets are determined: with tied targets, the TTL of the winner is that of
      whichever candidate came first. */
  lemma TtlFollowsOrder(net: Net, a: Record, b: Record)
    requires a.targets == b.targets && AllCanonical(net, a.targets) && a.ttl != b.ttl
    ensures multiset([a, b]) == multiset([b, a])
    ensures ResolveCreate(net, [a, b]).ttl != ResolveCreate(net, [b, a]).ttl
  {
    IsLessStrictWeakOrder(net, a.targets, b.targets, a.targets);
    assert [a, b][1..] == [b] && [b, a][1..] == [a];
  }
}

/** Batching of Route 53 changes: groups that belong together, packed next-fit under three
    limits (provider/aws/aws.go). */
module Route53 {
  import opened Arithmetic
  import Strings
  import opened Sorting

  datatype Action = CREATE | DELETE | UPSERT

  /** A change; two changes with different ids are different objects. */
  datatype Change = Change(
    id: nat, action: Action, name: string, recordType: string, ownedRecord: string,
    sizeBytes: nat, sizeValues: nat)

  datatype Limits = Limits(size: int, bytes: int, values: int)

  /** Changes of one record, and of a record and its registry record, share a key. */
  function GroupKey(c: Change): string {
    if c.ownedRecord == "" then c.name else c.ownedRecord
  }

  /** Two changes belong together: of one name, neither being the registry record of another;
      registry records of one record; or a record and its registry record. */
  predicate Related(c: Change, d: Change) {
    || (c.ownedRecord == "" && d.ownedRecord == "" && c.name == d.name)
    || (c.ownedRecord != "" && d.ownedRecord == c.ownedRecord)
    || (c.ownedRecord == "" && d.ownedRecord != "" && d.ownedRecord == c.name)
    || (c.ownedRecord != "" && d.ownedRecord == "" && c.ownedRecord == d.name)
  }

  lemma SameKeyExactly(c: Change, d: Change)
    ensures GroupKey(c) == GroupKey(d) <==> Related(c, d)
  {
  }

  function InGroup(key: string): Change -> bool { (c: Change) => GroupKey(c) == key }

  function CountBytes(cs: seq<Change>): nat {
    if cs == [] then 0 else CountBytes(cs[..|cs| - 1]) + cs[|cs| - 1].sizeBytes
  }

  function CountValues(cs: seq<Change>): nat {
    if cs == [] then 0 else CountValues(cs[..|cs| - 1]) + cs[|cs| - 1].sizeValues
  }

  predicate Fits(l: Limits, cs: seq<Change>) {
    |cs| <= l.size && CountBytes(cs) <= l.bytes && CountValues(cs) <= l.values
  }

  // ---- the order of changes within one call ----

  function Text(a: Action): string {
    match a
    case CREATE => "CREATE"
    case DELETE => "DELETE"
    case UPSERT => "UPSERT"
  }

  /** The comparison of sortChangesByActionNameType: actions descending, then name and type. */
  predicate ChangeLess(a: Change, b: Change) {
    if Strings.Less(Text(b.action), Text(a.action)) then true
    else if Strings.Less(Text(a.action), Text(b.action)) then false
    else if Strings.Less(a.name, b.name) then true
    else if Strings.Less(b.name, a.name) then false
    else Strings.Less(a.recordType, b.recordType)
  }

  function ChangeOrder(): (Change, Change) -> bool { (a: Change, b: Change) => ChangeLess(a, b) }

  function SortChanges(cs: seq<Change>): (r: seq<Change>)
    ensures |r| == |cs|
  {
    Sort(ChangeOrder(), cs)
  }

  predicate ActionBefore(a: Action, b: Action) {
    (a == UPSERT && b != UPSERT) || (a == DELETE && b == CREATE)
  }

  lemma ActionOrder(a: Action, b: Action)
    ensures Strings.Less(Text(b), Text(a)) <==> ActionBefore(a, b)
  {
    assert "CREATE"[0] < "DELETE"[0] < "UPSERT"[0];
    if a == b { Strings.LessAsymmetric(Text(a), Text(a)); }
  }

  lemma StringLaws(a: string, b: string, c: string)
    ensures !Strings.Less(a, b) || !Strings.Less(b, a)
    ensures a == b || Strings.Less(a, b) || Strings.Less(b, a)
    ensures Strings.Less(a, b) && Strings.Less(b, c) ==> Strings.Less(a, c)
  {
    Strings.LessAsymmetric(a, b);
    Strings.LessTotal(a, b);
    if Strings.Less(a, b) && Strings.Less(b, c) { Strings.LessTransitive(a, b, c); }
  }

  /** ChangeLess, with the action texts replaced by their order. */
  predicate ChangeLessByAction(a: Change, b: Change) {
    || ActionBefore(a.action, b.action)
    || (a.action == b.action && Strings.Less(a.name, b.name))
    || (a.action == b.action && a.name == b.name && Strings.Less(a.recordType, b.recordType))
  }

  lemma ChangeLessIsByAction(a: Change, b: Change)
    ensures ChangeLess(a, b) == ChangeLessByAction(a, b)
  {
    ActionOrder(a.action, b.action);
    ActionOrder(b.action, a.action);
    StringLaws(a.name, b.name, a.name);
  }

  lemma ChangeLessLaws(a: Change, b: Change, c: Change)
    ensures !ChangeLess(a, b) || !ChangeLess(b, a)
    ensures !ChangeLess(b, a) && !ChangeLess(c, b) ==> !ChangeLess(c, a)
  {
    ChangeLessIsByAction(a, b);
    ChangeLessIsByAction(b, a);
    ChangeLessIsByAction(c, b);
    ChangeLessIsByAction(c, a);
    StringLaws(a.name, b.name, c.name);
    StringLaws(b.name, c.name, a.name);
    StringLaws(a.recordType, b.recordType, c.recordType);
    StringLaws(b.recordType, c.recordType, a.recordType);
    StringLaws(c.name, a.name, b.name);
    StringLaws(c.recordType, a.recordType, b.recordType);
  }

  lemma ChangesOrdered(cs: seq<Change>)
    ensures StrictWeakOn(ChangeOrder(), cs)
  {
    var less := ChangeOrder();
    forall a, b | a in cs && b in cs ensures !less(a, b) || !less(b, a) { ChangeLessLaws(a, b, a); }
    forall a, b, c | a in cs && b in cs && c in cs && !less(b, a) && !less(c, b) ensures !less(c, a) {
      ChangeLessLaws(a, b, c);
    }
  }

  /** In call order: no CREATE before a DELETE, nothing before an UPSERT but UPSERTs. */
  ghost predicate InCallOrder(cs: seq<Change>) {
    forall j, k | 0 <= j < k < |cs| :: !ActionBefore(cs[k].action, cs[j].action)
  }

  lemma SortedInCallOrder(cs: seq<Change>)
    requires Sorted(ChangeOrder(), cs)
    ensures InCallOrder(cs)
  {
    forall j, k | 0 <= j < k < |cs| ensures !ActionBefore(cs[k].action, cs[j].action) {
      assert !ChangeOrder()(cs[k], cs[j]);
      ChangeLessIsByAction(cs[k], cs[j]);
    }
  }

  // ---- packing ----

  /** The loop of batchChangeSet over the groups in name order. */
  function Pack(l: Limits, groups: seq<seq<Change>>, current: seq<Change>): seq<seq<Change>> {
    if groups == [] then if |current| > 0 then [current] else []
    else
      var v := groups[0];
      if !Fits(l, v) then Pack(l, groups[1..], current)
      else if !Fits(l, current + v) then [current] + Pack(l, groups[1..], v)
      else Pack(l, groups[1..], current + v)
  }

  function SortEach(bs: seq<seq<Change>>): (r: seq<seq<Change>>)
    ensures |r| == |bs|
    ensures forall k | 0 <= k < |bs| :: r[k] == SortChanges(bs[k])
  {
    seq(|bs|, k requires 0 <= k < |bs| => SortChanges(bs[k]))
  }

  function StringOrder(): (string, string) -> bool { (a: string, b: string) => Strings.Less(a, b) }

  function GroupsOf(cs: seq<Change>, names: seq<string>): (r: seq<seq<Change>>)
    ensures |r| == |names|
    ensures forall k | 0 <= k < |names| :: r[k] == Filter(InGroup(names[k]), cs)
  {
    seq(|names|, k requires 0 <= k < |names| => Filter(InGroup(names[k]), cs))
  }

  ghost predicate Distinct(names: seq<string>) {
    forall j, k | 0 <= j < k < |names| :: names[j] != names[k]
  }

  /** names lists every group key once, in order. */
  ghost predicate NamesOf(cs: seq<Change>, names: seq<string>) {
    && (forall n | n in names :: exists c | c in cs :: GroupKey(c) == n)
    && (forall c | c in cs :: GroupKey(c) in names)
    && Distinct(names) && Sorted(StringOrder(), names)
  }

  /** bs is what batchChangeSet returns for cs. */
  ghost predicate IsBatching(l: Limits, cs: seq<Change>, bs: seq<seq<Change>>) {
    if Fits(l, cs) then bs == [SortChanges(cs)]
    else exists names :: NamesOf(cs, names) && bs == SortEach(Pack(l, GroupsOf(cs, names), []))
  }

  // ---- sums ----

  lemma {:induction false} CountsAppend(a: seq<Change>, b: seq<Change>)
    ensures CountBytes(a + b) == CountBytes(a) + CountBytes(b)
    ensures CountValues(a + b) == CountValues(a) + CountValues(b)
    decreases |b|
  {
    if b == [] {
      assert a + b == a;
    } else {
      var init := b[..|b| - 1];
      assert (a + b)[..|a + b| - 1] == a + init;
      CountsAppend(a, init);
    }
  }

  function Without<T>(b: seq<T>, k: nat): seq<T>
    requires k < |b|
  {
    b[..k] + b[k + 1..]
  }

  lemma WithoutCounts(b: seq<Change>, k: nat)
    requires k < |b|
    ensures |b| == |Without(b, k)| + 1
    ensures CountBytes(b) == CountBytes(Without(b, k)) + b[k].sizeBytes
    ensures CountValues(b) == CountValues(Without(b, k)) + b[k].sizeValues
  {
    var l, x, r := b[..k], b[k], b[k + 1..];
    assert b == l + [x] + r;
    assert (l + [x])[..|l|] == l;
    CountsAppend(l + [x], r);
    CountsAppend(l, r);
  }

  lemma WithoutMultiset<T>(b: seq<T>, k: nat)
    requires k < |b|
    ensures multiset(Without(b, k)) == multiset(b) - multiset{b[k]}
  {
    assert b == b[..k] + [b[k]] + b[k + 1..];
  }

  /** Fewer changes weigh less. */
  lemma FoundIn(a: seq<Change>, b: seq<Change>) returns (k: nat)
    requires a != [] && multiset(a) <= multiset(b)
    ensures k < |b| && b[k] == a[|a| - 1]
    ensures multiset(a[..|a| - 1]) <= multiset(Without(b, k))
  {
    var n := |a| - 1;
    assert a[n] in multiset(a);
    assert a[n] in b by { assert a[n] in multiset(b); }
    k :| 0 <= k < |b| && b[k] == a[n];
    WithoutMultiset(b, k);
    WithoutMultiset(a, n);
    assert Without(a, n) == a[..n];
  }

  lemma {:induction false} CountsMonotone(a: seq<Change>, b: seq<Change>)
    requires multiset(a) <= multiset(b)
    ensures |a| <= |b| && CountBytes(a) <= CountBytes(b) && CountValues(a) <= CountValues(b)
    decreases |a|
  {
    if a != [] {
      var n := |a| - 1;
      var k := FoundIn(a, b);
      CountsMonotone(a[..n], Without(b, k));
      WithoutCounts(b, k);
    }
  }

  lemma CountsPermute(a: seq<Change>, b: seq<Change>)
    requires multiset(a) == multiset(b)
    ensures |a| == |b| && CountBytes(a) == CountBytes(b) && CountValues(a) == CountValues(b)
  {
    CountsMonotone(a, b);
    CountsMonotone(b, a);
  }

  lemma {:induction false} FilterCountsLess(p: Change -> bool, cs: seq<Change>)
    ensures |Filter(p, cs)| <= |cs|
    ensures CountBytes(Filter(p, cs)) <= CountBytes(cs)
    ensures CountValues(Filter(p, cs)) <= CountValues(cs)
  {
    if cs != [] {
      FilterCountsLess(p, cs[..|cs| - 1]);
      CountsAppend(Filter(p, cs[..|cs| - 1]), [cs[|cs| - 1]]);
      CountsAppend([], [cs[|cs| - 1]]);
      assert [] + [cs[|cs| - 1]] == [cs[|cs| - 1]];
    }
  }

  lemma FitsSorted(l: Limits, cs: seq<Change>)
    ensures Fits(l, SortChanges(cs)) == Fits(l, cs)
  {
    SortPermutes(ChangeOrder(), cs);
    CountsPermute(SortChanges(cs), cs);
  }

  lemma FitsPart(l: Limits, a: seq<Change>, b: seq<Change>)
    ensures Fits(l, a + b) ==> Fits(l, a) && Fits(l, b)
  {
    CountsAppend(a, b);
  }

  // ---- what packing guarantees ----

  ghost predicate AllFit(l: Limits, bs: seq<seq<Change>>) {
    forall b | b in bs :: Fits(l, b)
  }

  /** Every packed batch respects all three limits. */
  lemma {:induction false} PackFits(l: Limits, groups: seq<seq<Change>>, current: seq<Change>)
    requires Fits(l, current)
    ensures AllFit(l, Pack(l, groups, current))
    decreases |groups|
  {
    if groups != [] {
      var v := groups[0];
      if !Fits(l, v) {
        PackFits(l, groups[1..], current);
      } else if !Fits(l, current + v) {
        PackFits(l, groups[1..], v);
      } else {
        PackFits(l, groups[1..], current + v);
      }
    }
  }

  /** With a negative limit nothing is ever packed. */
  lemma {:induction false} NothingFits(l: Limits, groups: seq<seq<Change>>)
    requires !Fits(l, [])
    ensures Pack(l, groups, []) == []
    decreases |groups|
  {
    if groups != [] {
      FitsPart(l, [], groups[0]);
      assert [] + groups[0] == groups[0];
      NothingFits(l, groups[1..]);
    }
  }

  function FittingGroups(l: Limits, groups: seq<seq<Change>>): seq<seq<Change>> {
    if groups == [] then []
    else if Fits(l, groups[0]) then [groups[0]] + FittingGroups(l, groups[1..])
    else FittingGroups(l, groups[1..])
  }

  /** Packing only cuts: the batches in order are the fitting groups in order. */
  lemma {:induction false} PackConserves(l: Limits, groups: seq<seq<Change>>, current: seq<Change>)
    ensures Concat(Pack(l, groups, current)) == current + Concat(FittingGroups(l, groups))
    decreases |groups|
  {
    if groups == [] {
      if current != [] { assert [current][1..] == []; }
    } else {
      var v, rest := groups[0], groups[1..];
      if !Fits(l, v) {
        PackConserves(l, rest, current);
      } else {
        var fitting := FittingGroups(l, rest);
        assert FittingGroups(l, groups)[1..] == fitting;
        if !Fits(l, current + v) {
          PackConserves(l, rest, v);
          var tail := Pack(l, rest, v);
          assert ([current] + tail)[1..] == tail;
          assert current + (v + Concat(fitting)) == current + Concat(FittingGroups(l, groups));
        } else {
          PackConserves(l, rest, current + v);
          assert (current + v) + Concat(fitting) == current + (v + Concat(fitting));
        }
      }
    }
  }

  /** Any two neighbouring batches would together exceed some limit. */
  ghost predicate NeighboursOverflow(l: Limits, bs: seq<seq<Change>>) {
    forall k | 0 <= k < |bs| - 1 :: !Fits(l, bs[k] + bs[k + 1])
  }

  lemma PrefixOverflows(l: Limits, a: seq<Change>, v: seq<Change>, b: seq<Change>)
    requires v <= b && !Fits(l, a + v)
    ensures !Fits(l, a + b)
  {
    assert a + b == (a + v) + b[|v|..];
    FitsPart(l, a + v, b[|v|..]);
  }

  /** Packing starts with the batch under way, makes no empty batch, and neighbours overflow. */
  lemma {:induction false} PackOverflows(l: Limits, groups: seq<seq<Change>>, current: seq<Change>)
    requires forall k | 0 <= k < |groups| :: groups[k] != []
    ensures current != [] ==> Pack(l, groups, current) != [] && current <= Pack(l, groups, current)[0]
    ensures forall b | b in Pack(l, groups, current) :: b != []
    ensures NeighboursOverflow(l, Pack(l, groups, current))
    decreases |groups|
  {
    if groups != [] {
      var v, rest := groups[0], groups[1..];
      assert forall k | 0 <= k < |rest| :: rest[k] == groups[k + 1];
      if !Fits(l, v) {
        PackOverflows(l, rest, current);
      } else if !Fits(l, current + v) {
        PackOverflows(l, rest, v);
        assert current != [] by { assert [] + v == v; }
        var tail := Pack(l, rest, v);
        PrefixOverflows(l, current, v, tail[0]);
        var r := [current] + tail;
        forall k | 0 <= k < |r| - 1 ensures !Fits(l, r[k] + r[k + 1]) {
          if k > 0 { assert r[k] == tail[k - 1] && r[k + 1] == tail[k]; }
        }
      } else {
        PackOverflows(l, rest, current + v);
        assert current <= current + v;
      }
    }
  }

  function Bound(l: Limits, n: nat, bytes: nat, values: nat): nat
    requires l.size >= 0 && l.bytes >= 0 && l.values >= 0
  {
    n / (l.size + 1) + bytes / (l.bytes + 1) + values / (l.values + 1)
  }

  /** Removing an overflowing pair lowers the bound by at least one. */
  lemma BoundStep(l: Limits, pair: seq<Change>, rest: seq<Change>)
    requires l.size >= 0 && l.bytes >= 0 && l.values >= 0
    requires !Fits(l, pair)
    ensures Bound(l, |pair + rest|, CountBytes(pair + rest), CountValues(pair + rest))
            >= Bound(l, |rest|, CountBytes(rest), CountValues(rest)) + 1
  {
    CountsAppend(pair, rest);
    DivMonotone(|pair + rest|, |rest|, l.size + 1);
    DivMonotone(CountBytes(pair + rest), CountBytes(rest), l.bytes + 1);
    DivMonotone(CountValues(pair + rest), CountValues(rest), l.values + 1);
    if |pair| > l.size {
      DivStep(|pair + rest|, |rest|, l.size + 1);
    } else if CountBytes(pair) > l.bytes {
      DivStep(CountBytes(pair + rest), CountBytes(rest), l.bytes + 1);
    } else {
      DivStep(CountValues(pair + rest), CountValues(rest), l.values + 1);
    }
  }

  /** Batches whose neighbours overflow are few. */
  lemma {:induction false} OverflowBound(l: Limits, bs: seq<seq<Change>>)
    requires l.size >= 0 && l.bytes >= 0 && l.values >= 0
    requires NeighboursOverflow(l, bs)
    ensures var all := Concat(bs);
            |bs| <= 2 * Bound(l, |all|, CountBytes(all), CountValues(all)) + 1
    decreases |bs|
  {
    if |bs| >= 2 {
      var rest := bs[2..];
      forall k | 0 <= k < |rest| - 1 ensures !Fits(l, rest[k] + rest[k + 1]) {
        assert rest[k] == bs[k + 2] && rest[k + 1] == bs[k + 2 + 1];
      }
      OverflowBound(l, rest);
      assert !Fits(l, bs[0] + bs[1]);
      BoundStep(l, bs[0] + bs[1], Concat(rest));
      assert bs[1..][1..] == rest;
      assert Concat(bs) == (bs[0] + bs[1]) + Concat(rest);
    }
  }

  // ---- groups stay together ----

  /** Every change in b comes with its whole group, in the group's order. */
  ghost predicate Whole(cs: seq<Change>, b: seq<Change>) {
    forall c | c in b :: Filter(InGroup(GroupKey(c)), b) == Filter(InGroup(GroupKey(c)), cs)
  }

  /** The same after sorting: the group in call order. */
  ghost predicate WholeGroups(cs: seq<Change>, b: seq<Change>) {
    forall c | c in b :: Filter(InGroup(GroupKey(c)), b) == SortChanges(Filter(InGroup(GroupKey(c)), cs))
  }

  ghost predicate Apart(b: seq<Change>, names: seq<string>) {
    forall c | c in b :: GroupKey(c) !in names
  }

  lemma WholeAppend(cs: seq<Change>, current: seq<Change>, n: string)
    requires Whole(cs, current)
    requires forall c | c in current :: GroupKey(c) != n
    ensures Whole(cs, current + Filter(InGroup(n), cs))
  {
    var g := Filter(InGroup(n), cs);
    forall c | c in current + g
      ensures Filter(InGroup(GroupKey(c)), current + g) == Filter(InGroup(GroupKey(c)), cs)
    {
      var p := InGroup(GroupKey(c));
      FilterAppend(p, current, g);
      if c in g {
        FilterEmpty(p, current);
        FilterEverything(p, g);
      } else {
        FilterEmpty(p, g);
      }
    }
  }

  lemma WholeStep(cs: seq<Change>, current: seq<Change>, n: string, rest: seq<string>)
    requires Whole(cs, current) && Apart(current, [n] + rest) && n !in rest
    ensures var v := Filter(InGroup(n), cs);
            && Whole(cs, v) && Whole(cs, current + v)
            && Apart(v, rest) && Apart(current + v, rest) && Apart(current, rest)
  {
    assert forall c | c in current :: GroupKey(c) in [n] + rest <==> GroupKey(c) == n || GroupKey(c) in rest;
    WholeAppend(cs, current, n);
    WholeAppend(cs, [], n);
    assert [] + Filter(InGroup(n), cs) == Filter(InGroup(n), cs);
  }

  lemma {:induction false} PackWhole(l: Limits, cs: seq<Change>, names: seq<string>, current: seq<Change>)
    requires Whole(cs, current) && Apart(current, names) && Distinct(names)
    ensures forall b | b in Pack(l, GroupsOf(cs, names), current) :: Whole(cs, b)
    decreases |names|
  {
    hide Whole, Apart, Fits;
    if names != [] {
      var n, rest := names[0], names[1..];
      var v := Filter(InGroup(n), cs);
      assert GroupsOf(cs, names)[1..] == GroupsOf(cs, rest);
      assert names == [n] + rest && n !in rest && Distinct(rest);
      WholeStep(cs, current, n, rest);
      if !Fits(l, v) {
        PackWhole(l, cs, rest, current);
      } else if !Fits(l, current + v) {
        PackWhole(l, cs, rest, v);
      } else {
        PackWhole(l, cs, rest, current + v);
      }
    }
  }

  lemma SortWhole(cs: seq<Change>, b: seq<Change>)
    requires Whole(cs, b)
    ensures WholeGroups(cs, SortChanges(b))
  {
    ChangesOrdered(b);
    forall c | c in SortChanges(b)
      ensures Filter(InGroup(GroupKey(c)), SortChanges(b)) == SortChanges(Filter(InGroup(GroupKey(c)), cs))
    {
      FilterSort(ChangeOrder(), InGroup(GroupKey(c)), b);
      assert c in b;
    }
  }

  // ---- nothing is lost but the groups that cannot fit ----

  /** The group of c fits in a call by itself. */
  function Surviving(l: Limits, cs: seq<Change>): Change -> bool {
    (c: Change) => Fits(l, Filter(InGroup(GroupKey(c)), cs))
  }

  lemma {:induction false} GroupsCount(l: Limits, cs: seq<Change>, names: seq<string>, x: Change)
    requires Distinct(names)
    ensures multiset(Concat(FittingGroups(l, GroupsOf(cs, names))))[x] ==
            if GroupKey(x) in names && Surviving(l, cs)(x) then multiset(cs)[x] else 0
    decreases |names|
  {
    if names != [] {
      var n, rest := names[0], names[1..];
      var v := Filter(InGroup(n), cs);
      assert GroupsOf(cs, names)[1..] == GroupsOf(cs, rest);
      assert n !in rest;
      GroupsCount(l, cs, rest, x);
      FilterCounts(InGroup(n), cs, x);
      var fitting := FittingGroups(l, GroupsOf(cs, rest));
      assert ([v] + fitting)[1..] == fitting;
      assert GroupKey(x) in names <==> GroupKey(x) == n || GroupKey(x) in rest;
    }
  }

  lemma GroupsConserve(l: Limits, cs: seq<Change>, names: seq<string>)
    requires NamesOf(cs, names)
    ensures multiset(Concat(FittingGroups(l, GroupsOf(cs, names)))) == multiset(Filter(Surviving(l, cs), cs))
  {
    forall x: Change
      ensures multiset(Concat(FittingGroups(l, GroupsOf(cs, names))))[x] == multiset(Filter(Surviving(l, cs), cs))[x]
    {
      GroupsCount(l, cs, names, x);
      FilterCounts(Surviving(l, cs), cs, x);
      if x !in cs { assert multiset(cs)[x] == 0; }
    }
  }

  lemma {:induction false} ConcatSorted(bs: seq<seq<Change>>)
    ensures multiset(Concat(SortEach(bs))) == multiset(Concat(bs))
  {
    if bs != [] {
      ConcatSorted(bs[1..]);
      assert SortEach(bs)[1..] == SortEach(bs[1..]);
      SortPermutes(ChangeOrder(), bs[0]);
    }
  }

  // ---- the guarantees of a batching ----

  lemma EverythingSurvives(l: Limits, cs: seq<Change>)
    requires Fits(l, cs)
    ensures Filter(Surviving(l, cs), cs) == cs
  {
    forall c | c in cs ensures Surviving(l, cs)(c) {
      FilterCountsLess(InGroup(GroupKey(c)), cs);
    }
    FilterEverything(Surviving(l, cs), cs);
  }

  /** The batches are exactly the input, minus the groups that alone exceed a limit. */
  lemma BatchingConserves(l: Limits, cs: seq<Change>, bs: seq<seq<Change>>)
    requires IsBatching(l, cs, bs)
    ensures multiset(Concat(bs)) == multiset(Filter(Surviving(l, cs), cs))
  {
    if Fits(l, cs) {
      EverythingSurvives(l, cs);
      assert bs[1..] == [] && Concat(bs) == SortChanges(cs) + [];
      SortPermutes(ChangeOrder(), cs);
    } else {
      var names :| NamesOf(cs, names) && bs == SortEach(Pack(l, GroupsOf(cs, names), []));
      var packed := Pack(l, GroupsOf(cs, names), []);
      ConcatSorted(packed);
      PackConserves(l, GroupsOf(cs, names), []);
      GroupsConserve(l, cs, names);
    }
  }

  lemma CallOrderSorted(cs: seq<Change>)
    ensures Sorted(ChangeOrder(), SortChanges(cs)) && InCallOrder(SortChanges(cs))
  {
    ChangesOrdered(cs);
    SortSorted(ChangeOrder(), cs);
    SortedInCallOrder(SortChanges(cs));
  }

  /** Every batch respects the limits, never splits a group, and is in call order. */
  lemma BatchingAtomic(l: Limits, cs: seq<Change>, bs: seq<seq<Change>>, b: seq<Change>)
    requires IsBatching(l, cs, bs) && b in bs
    ensures Fits(l, b)
    ensures WholeGroups(cs, b)
    ensures Sorted(ChangeOrder(), b) && InCallOrder(b)
  {
    if Fits(l, cs) {
      CallOrderSorted(cs);
      FitsSorted(l, cs);
      assert Whole(cs, cs);
      SortWhole(cs, cs);
    } else {
      var names :| NamesOf(cs, names) && bs == SortEach(Pack(l, GroupsOf(cs, names), []));
      var packed := Pack(l, GroupsOf(cs, names), []);
      var k :| 0 <= k < |bs| && bs[k] == b;
      assert packed[k] in packed && b == SortChanges(packed[k]);
      CallOrderSorted(packed[k]);
      FitsSorted(l, packed[k]);
      PackWhole(l, cs, names, []);
      SortWhole(cs, packed[k]);
      if Fits(l, []) {
        PackFits(l, GroupsOf(cs, names), []);
      } else {
        NothingFits(l, GroupsOf(cs, names));
      }
    }
  }

  lemma SubMultisetFilter(p: Change -> bool, cs: seq<Change>)
    ensures multiset(Filter(p, cs)) <= multiset(cs)
  {
    forall x: Change ensures multiset(Filter(p, cs))[x] <= multiset(cs)[x] { FilterCounts(p, cs, x); }
  }

  lemma GroupsNonEmpty(cs: seq<Change>, names: seq<string>)
    requires NamesOf(cs, names)
    ensures forall k | 0 <= k < |names| :: GroupsOf(cs, names)[k] != []
  {
    forall k | 0 <= k < |names| ensures GroupsOf(cs, names)[k] != [] {
      assert names[k] in names;
      var c :| c in cs && GroupKey(c) == names[k];
      assert c in Filter(InGroup(names[k]), cs);
    }
  }

  lemma BoundMonotone(l: Limits, n: nat, bytes: nat, values: nat, n': nat, bytes': nat, values': nat)
    requires l.size >= 0 && l.bytes >= 0 && l.values >= 0
    requires n <= n' && bytes <= bytes' && values <= values'
    ensures Bound(l, n, bytes, values) <= Bound(l, n', bytes', values')
  {
    DivMonotone(n', n, l.size + 1);
    DivMonotone(bytes', bytes, l.bytes + 1);
    DivMonotone(values', values, l.values + 1);
  }

  /** How many calls a change set can cost. */
  lemma BatchCountBound(l: Limits, cs: seq<Change>, bs: seq<seq<Change>>)
    requires IsBatching(l, cs, bs)
    requires l.size >= 0 && l.bytes >= 0 && l.values >= 0
    ensures |bs| <= 2 * Bound(l, |cs|, CountBytes(cs), CountValues(cs)) + 1
  {
    if !Fits(l, cs) {
      var names :| NamesOf(cs, names) && bs == SortEach(Pack(l, GroupsOf(cs, names), []));
      var groups := GroupsOf(cs, names);
      var packed := Pack(l, groups, []);
      GroupsNonEmpty(cs, names);
      PackOverflows(l, groups, []);
      OverflowBound(l, packed);
      BatchingConserves(l, cs, bs);
      ConcatSorted(packed);
      SubMultisetFilter(Surviving(l, cs), cs);
      var all := Concat(packed);
      CountsMonotone(all, cs);
      BoundMonotone(l, |all|, CountBytes(all), CountValues(all), |cs|, CountBytes(cs), CountValues(cs));
    }
  }

  /** Only an empty change set that fits gives an empty batch. */
  lemma EmptyBatches(l: Limits, cs: seq<Change>, bs: seq<seq<Change>>)
    requires IsBatching(l, cs, bs) && [] in bs
    ensures cs == [] && bs == [[]]
  {
    if Fits(l, cs) {
      assert |SortChanges(cs)| == |cs|;
    } else {
      var names :| NamesOf(cs, names) && bs == SortEach(Pack(l, GroupsOf(cs, names), []));
      var packed := Pack(l, GroupsOf(cs, names), []);
      GroupsNonEmpty(cs, names);
      PackOverflows(l, GroupsOf(cs, names), []);
      forall k | 0 <= k < |bs| ensures bs[k] != [] {
        assert packed[k] in packed && bs[k] == SortChanges(packed[k]);
      }
    }
  }

  lemma WholeGroupMembers(cs: seq<Change>, call: seq<Change>, x: Change, y: Change)
    requires WholeGroups(cs, call)
    requires x in call && y in cs && GroupKey(x) == GroupKey(y)
    ensures y in call
  {
    var p := InGroup(GroupKey(x));
    assert y in Filter(p, cs);
    assert y in SortChanges(Filter(p, cs));
    assert y in Filter(p, call);
  }

  /** Within a batch the actions come in the order UPSERT, DELETE, CREATE; changes of one action
      ascend by name, and those of one name by type. */
  lemma BatchOrderExactly(l: Limits, cs: seq<Change>, bs: seq<seq<Change>>, b: seq<Change>, j: nat, k: nat)
    requires IsBatching(l, cs, bs) && b in bs && j < k < |b|
    ensures b[j].action == CREATE ==> b[k].action == CREATE
    ensures b[k].action == UPSERT ==> b[j].action == UPSERT
    ensures b[j].action == b[k].action ==> !Strings.Less(b[k].name, b[j].name)
    ensures b[j].action == b[k].action && b[j].name == b[k].name ==> !Strings.Less(b[k].recordType, b[j].recordType)
  {
    BatchingAtomic(l, cs, bs, b);
    assert !ChangeOrder()(b[k], b[j]);
    ChangeLessIsByAction(b[k], b[j]);
  }

  /** The record a change belongs to: its own, or for a registry record the one it describes. */
  function OwnerName(c: Change): string {
    if c.ownedRecord != "" then c.ownedRecord else c.name
  }

  ghost predicate AllBefore(a: seq<Change>, b: seq<Change>) {
    forall c, d | c in a && d in b :: Strings.Less(OwnerName(c), OwnerName(d))
  }

  ghost predicate NamesAfter(cs: seq<Change>, names: seq<string>) {
    forall c, n | c in cs && n in names :: Strings.Less(OwnerName(c), n)
  }

  ghost predicate Ascend(bs: seq<seq<Change>>) {
    forall j, k | 0 <= j < k < |bs| :: AllBefore(bs[j], bs[k])
  }

  /** The changes of bs are in current or have an owner name in names. */
  ghost predicate CutFrom(bs: seq<seq<Change>>, current: seq<Change>, names: seq<string>) {
    forall b, c | b in bs && c in b :: c in current || OwnerName(c) in names
  }

  lemma GroupOwners(cs: seq<Change>, n: string)
    ensures forall c | c in Filter(InGroup(n), cs) :: OwnerName(c) == n
  {
    forall c | c in Filter(InGroup(n), cs) ensures OwnerName(c) == n { assert InGroup(n)(c); }
  }

  /** Packed batches ascend by the name of the record, from the batch under way on. */
  lemma {:induction false} PackAscends(l: Limits, cs: seq<Change>, names: seq<string>, current: seq<Change>)
    requires Distinct(names) && Sorted(StringOrder(), names) && NamesAfter(current, names)
    ensures Ascend(Pack(l, GroupsOf(cs, names), current)) && CutFrom(Pack(l, GroupsOf(cs, names), current), current, names)
    decreases |names|
  {
    hide Ascend, CutFrom, NamesAfter, Fits, OwnerName;
    if names == [] {
      OneAscends(current, names);
    } else {
      var n, rest := names[0], names[1..];
      var v := Filter(InGroup(n), cs);
      assert GroupsOf(cs, names)[1..] == GroupsOf(cs, rest) && GroupsOf(cs, names)[0] == v;
      RestAfter(names);
      GroupOwners(cs, n);
      NextNames(current, v, names);
      var next := if !Fits(l, v) then current else if !Fits(l, current + v) then v else current + v;
      PackAscends(l, cs, rest, next);
      var tail := Pack(l, GroupsOf(cs, rest), next);
      MoreNames(tail, current, v, next, names);
      if Fits(l, v) && !Fits(l, current + v) { FrontAscends(current, v, tail, names); }
    }
  }

  lemma OneAscends(current: seq<Change>, names: seq<string>)
    ensures Ascend([]) && CutFrom([], current, names) && Ascend([current]) && CutFrom([current], current, names)
  {
  }

  lemma NextNames(current: seq<Change>, v: seq<Change>, names: seq<string>)
    requires names != [] && NamesAfter(current, names)
    requires forall n | n in names[1..] :: Strings.Less(names[0], n)
    requires forall c | c in v :: OwnerName(c) == names[0]
    ensures NamesAfter(current, names[1..]) && NamesAfter(v, names[1..]) && NamesAfter(current + v, names[1..])
  {
    assert forall n | n in names[1..] :: n in names;
    forall c, n | c in v && n in names[1..] ensures Strings.Less(OwnerName(c), n) {
      assert OwnerName(c) == names[0];
    }
  }

  lemma MoreNames(bs: seq<seq<Change>>, current: seq<Change>, v: seq<Change>, next: seq<Change>, names: seq<string>)
    requires names != [] && CutFrom(bs, next, names[1..])
    requires next == current || next == v || next == current + v
    requires forall c | c in v :: OwnerName(c) == names[0]
    ensures CutFrom(bs, current, names)
    ensures next == v ==> forall b, c | b in bs && c in b :: OwnerName(c) in names
  {
  }

  lemma FrontAscends(current: seq<Change>, v: seq<Change>, tail: seq<seq<Change>>, names: seq<string>)
    requires NamesAfter(current, names) && Ascend(tail) && CutFrom(tail, current, names)
    requires forall b, c | b in tail && c in b :: OwnerName(c) in names
    ensures Ascend([current] + tail) && CutFrom([current] + tail, current, names)
  {
    var bs := [current] + tail;
    forall j, k | 0 <= j < k < |bs| ensures AllBefore(bs[j], bs[k]) {
      assert bs[k] == tail[k - 1] && tail[k - 1] in tail;
      assert j > 0 ==> bs[j] == tail[j - 1];
    }
  }

  lemma RestAfter(names: seq<string>)
    requires names != [] && Distinct(names) && Sorted(StringOrder(), names)
    ensures Distinct(names[1..]) && Sorted(StringOrder(), names[1..])
    ensures forall n | n in names[1..] :: Strings.Less(names[0], n)
  {
    forall n | n in names[1..] ensures Strings.Less(names[0], n) {
      var k :| 0 <= k < |names[1..]| && names[1..][k] == n;
      assert names[k + 1] == n && !StringOrder()(names[k + 1], names[0]);
      Strings.LessTotal(names[0], n);
    }
  }

  /** The batches of one change set ascend by the name of the record their changes belong to. */
  lemma BatchesAscend(l: Limits, cs: seq<Change>, bs: seq<seq<Change>>, j: nat, k: nat)
    requires IsBatching(l, cs, bs) && j < k < |bs|
    ensures AllBefore(bs[j], bs[k])
  {
    hide Pack, GroupsOf, OwnerName, Fits, CutFrom;
    var names :| NamesOf(cs, names) && bs == SortEach(Pack(l, GroupsOf(cs, names), []));
    var packed := Pack(l, GroupsOf(cs, names), []);
    PackAscends(l, cs, names, []);
    assert bs[j] == SortChanges(packed[j]) && bs[k] == SortChanges(packed[k]);
    SortedBefore(packed[j], packed[k]);
  }

  lemma SortedBefore(a: seq<Change>, b: seq<Change>)
    requires AllBefore(a, b)
    ensures AllBefore(SortChanges(a), SortChanges(b))
  {
  }

  lemma GroupIsRelated(cs: seq<Change>, c: Change)
    ensures Filter(InGroup(GroupKey(c)), cs) == Filter((d: Change) => Related(c, d), cs)
  {
    forall d: Change ensures GroupKey(c) == GroupKey(d) <==> Related(c, d) { SameKeyExactly(c, d); }
    FilterCongruent(InGroup(GroupKey(c)), (d: Change) => Related(c, d), cs);
  }

  /** A change is dropped exactly when the changes that belong with it exceed a limit. */
  lemma SurvivingExactly(l: Limits, cs: seq<Change>, c: Change)
    ensures var related := Filter((d: Change) => Related(c, d), cs);
            Surviving(l, cs)(c) <==>
              && |related| <= l.size
              && Sum((d: Change) => d.sizeBytes, related) <= l.bytes
              && Sum((d: Change) => d.sizeValues, related) <= l.values
  {
    GroupIsRelated(cs, c);
    CountsAreSums(Filter((d: Change) => Related(c, d), cs));
  }

  /** What the limits mean: the number of changes, the sum of their bytes, the sum of their
      values. */
  lemma BatchWithinLimits(l: Limits, cs: seq<Change>, bs: seq<seq<Change>>, b: seq<Change>)
    requires IsBatching(l, cs, bs) && b in bs
    ensures |b| <= l.size && Sum((c: Change) => c.sizeBytes, b) <= l.bytes && Sum((c: Change) => c.sizeValues, b) <= l.values
  {
    BatchingAtomic(l, cs, bs, b);
    CountsAreSums(b);
  }

  function Sum(f: Change -> nat, cs: seq<Change>): nat {
    if cs == [] then 0 else f(cs[0]) + Sum(f, cs[1..])
  }

  lemma {:induction false} CountsAreSums(cs: seq<Change>)
    ensures CountBytes(cs) == Sum((c: Change) => c.sizeBytes, cs)
    ensures CountValues(cs) == Sum((c: Change) => c.sizeValues, cs)
  {
    if cs != [] {
      CountsAreSums(cs[1..]);
      assert cs == [cs[0]] + cs[1..];
      CountsAppend([cs[0]], cs[1..]);
      assert [cs[0]][..0] == [];
    }
  }

  /** A delete and a create with one group key share every call either is in, delete first. */
  lemma PairTravelsTogether(cs: seq<Change>, call: seq<Change>, d: Change, c: Change)
    requires WholeGroups(cs, call) && InCallOrder(call)
    requires d in cs && c in cs && GroupKey(d) == GroupKey(c)
    requires d.action == DELETE && c.action == CREATE
    ensures d in call <==> c in call
    ensures forall j, k | 0 <= j < |call| && 0 <= k < |call| && call[j] == d && call[k] == c :: j < k
  {
    if d in call { WholeGroupMembers(cs, call, d, c); }
    if c in call { WholeGroupMembers(cs, call, c, d); }
    assert ActionBefore(d.action, c.action);
  }

  // ---- the batching as it runs ----

  /** groups holds exactly the groups of cs. */
  ghost predicate GroupedBy(cs: seq<Change>, groups: map<string, seq<Change>>) {
    && (forall c | c in cs :: GroupKey(c) in groups)
    && (forall k | k in groups :: groups[k] == Filter(InGroup(k), cs) && groups[k] != [])
  }

  lemma OtherGroupSnoc(cs: seq<Change>, c: Change, k: string)
    requires k != GroupKey(c)
    ensures Filter(InGroup(k), cs + [c]) == Filter(InGroup(k), cs)
  {
    FilterSnoc(InGroup(k), cs, c);
  }

  lemma GroupedBySnoc(cs: seq<Change>, groups: map<string, seq<Change>>, c: Change)
    requires GroupedBy(cs, groups)
    ensures var key := GroupKey(c);
            GroupedBy(cs + [c], groups[key := (if key in groups then groups[key] else []) + [c]])
  {
    var key := GroupKey(c);
    var before := if key in groups then groups[key] else [];
    assert before == Filter(InGroup(key), cs) by {
      if key !in groups { FilterEmpty(InGroup(key), cs); }
    }
    var after := groups[key := before + [c]];
    FilterSnoc(InGroup(key), cs, c);
    forall k | k in after ensures after[k] == Filter(InGroup(k), cs + [c]) && after[k] != [] {
      if k != key { OtherGroupSnoc(cs, c, k); }
    }
    forall x | x in cs + [c] ensures GroupKey(x) in after {}
  }

  /** groupChangesByNameAndOwnershipRelation. */
  method GroupChanges(cs: seq<Change>) returns (groups: map<string, seq<Change>>)
    ensures GroupedBy(cs, groups)
    ensures forall c | c in cs :: exists k | k in groups :: c in groups[k]
    ensures forall k, c | k in groups && c in groups[k] :: groups[k] == Filter((d: Change) => Related(c, d), cs)
  {
    groups := map[];
    var i := 0;
    while i < |cs|
      invariant 0 <= i <= |cs|
      invariant GroupedBy(cs[..i], groups)
    {
      var key := if cs[i].ownedRecord == "" then cs[i].name else cs[i].ownedRecord;
      assert cs[..i + 1] == cs[..i] + [cs[i]];
      GroupedBySnoc(cs[..i], groups, cs[i]);
      groups := groups[key := (if key in groups then groups[key] else []) + [cs[i]]];
      i := i + 1;
    }
    assert cs[..i] == cs;
    forall c | c in cs ensures exists k | k in groups :: c in groups[k] {
      assert c in groups[GroupKey(c)];
    }
    forall k, c | k in groups && c in groups[k] ensures groups[k] == Filter((d: Change) => Related(c, d), cs) {
      assert GroupKey(c) == k;
      GroupIsRelated(cs, c);
    }
  }

  /** The keys of a map in an arbitrary order. */
  method KeysOf(groups: map<string, seq<Change>>) returns (names: seq<string>)
    ensures forall n :: n in names <==> n in groups
    ensures Distinct(names)
  {
    names := [];
    var todo := groups.Keys;
    while todo != {}
      invariant todo <= groups.Keys
      invariant forall n :: n in names <==> n in groups && n !in todo
      invariant Distinct(names)
      decreases todo
    {
      var n :| n in todo;
      names := names + [n];
      todo := todo - {n};
    }
  }

  lemma StringsOrdered(names: seq<string>)
    ensures StrictWeakOn(StringOrder(), names)
  {
    var less := StringOrder();
    forall a, b | a in names && b in names ensures !less(a, b) || !less(b, a) { StringLaws(a, b, a); }
    forall a, b, c | a in names && b in names && c in names && !less(b, a) && !less(c, b) ensures !less(c, a) {
      StringLaws(a, b, c);
      StringLaws(b, c, a);
      StringLaws(c, a, b);
    }
  }

  lemma DistinctPermutation(a: seq<string>, b: seq<string>)
    requires Distinct(a) && multiset(a) == multiset(b)
    ensures Distinct(b)
  {
    forall j, k | 0 <= j < k < |b| ensures b[j] != b[k] {
      if b[j] == b[k] {
        var x := b[j];
        assert b == b[..k] + [b[k]] + b[k + 1..];
        assert b[..k][j] == x && x in b[..k];
        assert multiset(b) == multiset(b[..k]) + multiset{x} + multiset(b[k + 1..]);
        assert multiset(b)[x] >= 2;
        DistinctOnce(a, x);
      }
    }
  }

  lemma {:induction false} DistinctOnce(a: seq<string>, x: string)
    requires Distinct(a)
    ensures multiset(a)[x] <= 1
  {
    if a != [] {
      DistinctOnce(a[1..], x);
      assert a == [a[0]] + a[1..];
      assert a[0] !in a[1..];
    }
  }

  lemma NamesFromGroups(cs: seq<Change>, groups: map<string, seq<Change>>, names: seq<string>)
    requires GroupedBy(cs, groups) && Distinct(names) && Sorted(StringOrder(), names)
    requires forall n :: n in names <==> n in groups
    ensures NamesOf(cs, names)
  {
    forall n | n in names ensures exists c | c in cs :: GroupKey(c) == n {
      var c := groups[n][0];
      assert c in Filter(InGroup(n), cs);
    }
  }

  /** sort.Strings over the keys of the groups. */
  method SortedNames(ghost cs: seq<Change>, groups: map<string, seq<Change>>) returns (names: seq<string>)
    requires GroupedBy(cs, groups)
    ensures NamesOf(cs, names)
    ensures forall n | n in names :: n in groups
  {
    var keys := KeysOf(groups);
    names := Sort(StringOrder(), keys);
    StringsOrdered(keys);
    SortSorted(StringOrder(), keys);
    SortPermutes(StringOrder(), keys);
    DistinctPermutation(keys, names);
    NamesFromGroups(cs, groups, names);
  }

  /** batchChangeSet. */
  method BatchChangeSet(cs: seq<Change>, l: Limits) returns (batches: seq<seq<Change>>)
    ensures IsBatching(l, cs, batches)
  {
    if Fits(l, cs) {
      return [SortChanges(cs)];
    }
    var groups := GroupChanges(cs);
    var names := SortedNames(cs, groups);
    assert forall k | 0 <= k < |names| :: names[k] in groups;
    batches := PackGroups(cs, l, groups, names);
  }

  lemma PackStep(l: Limits, groups: seq<seq<Change>>, k: nat, current: seq<Change>)
    requires k < |groups|
    ensures var v, rest := groups[k], groups[k + 1..];
            Pack(l, groups[k..], current) ==
            if !Fits(l, v) then Pack(l, rest, current)
            else if !Fits(l, current + v) then [current] + Pack(l, rest, v)
            else Pack(l, rest, current + v)
  {
    assert groups[k..][0] == groups[k] && groups[k..][1..] == groups[k + 1..];
  }

  /** One turn of the packing loop: close the batch under way, or extend it. */
  method PackOne(l: Limits, v: seq<Change>, batches: seq<seq<Change>>, currentBatch: seq<Change>,
                 ghost groups: seq<seq<Change>>, ghost k: nat)
    returns (batches': seq<seq<Change>>, currentBatch': seq<Change>)
    requires k < |groups| && v == groups[k]
    ensures batches' + SortEach(Pack(l, groups[k + 1..], currentBatch')) ==
            batches + SortEach(Pack(l, groups[k..], currentBatch))
  {
    PackStep(l, groups, k, currentBatch);
    CountsAppend(currentBatch, v);
    batches', currentBatch' := batches, currentBatch;
    if !(|v| > l.size || CountBytes(v) > l.bytes || CountValues(v) > l.values) {
      if |currentBatch| + |v| > l.size || CountBytes(currentBatch) + CountBytes(v) > l.bytes
         || CountValues(currentBatch) + CountValues(v) > l.values {
        SortEachCons(currentBatch, Pack(l, groups[k + 1..], v));
        batches' := batches + [SortChanges(currentBatch)];
        currentBatch' := v;
      } else {
        currentBatch' := currentBatch + v;
      }
    }
  }

  /** The packing loop. */
  method PackGroups(ghost cs: seq<Change>, l: Limits, groups: map<string, seq<Change>>, names: seq<string>)
    returns (batches: seq<seq<Change>>)
    requires forall k | 0 <= k < |names| :: names[k] in groups && groups[names[k]] == Filter(InGroup(names[k]), cs)
    ensures batches == SortEach(Pack(l, GroupsOf(cs, names), []))
  {
    batches := [];
    var currentBatch: seq<Change> := [];
    ghost var all := GroupsOf(cs, names);
    ghost var whole := SortEach(Pack(l, all, []));
    var k := 0;
    assert all[0..] == all;
    while k < |names|
      invariant 0 <= k <= |names|
      invariant batches + SortEach(Pack(l, all[k..], currentBatch)) == whole
    {
      assert groups[names[k]] == all[k];
      batches, currentBatch := PackOne(l, groups[names[k]], batches, currentBatch, all, k);
      k := k + 1;
    }
    if |currentBatch| > 0 {
      SortEachCons(currentBatch, []);
      batches := batches + [SortChanges(currentBatch)];
    }
  }

  lemma SortEachCons(b: seq<Change>, bs: seq<seq<Change>>)
    ensures SortEach([b] + bs) == [SortChanges(b)] + SortEach(bs)
  {
  }
}

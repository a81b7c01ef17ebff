/** What one turn leaves in every cell, stated on the fields of the records involved: who asks
    for the cell, what it held, whose it is and which policies apply (plan/plan.go). */
module Outcomes {
  import opened Wrappers
  import opened Sorting
  import opened Targets
  import opened Records
  import opened PlanSpec
  import opened Reconcile
  import opened Runs
  import opened Conflicts

  // ---- what is asked for ----

  /** The instance's filters let it see the record. */
  predicate Sees(w: World, i: Instance, r: Record) {
    i.matches(r.dnsName) && r.recordType in w.managed && r.recordType !in w.excluded
  }

  predicate InRowOf(w: World, key: PlanKey, r: Record) {
    w.normalize(r.dnsName) == key.dnsName && r.setIdentifier == key.setIdentifier
  }

  function AskedRow(w: World, i: Instance, key: PlanKey): Record -> bool {
    (d: Record) => Sees(w, i, d) && InRowOf(w, key, d)
  }

  function AskedCell(w: World, i: Instance, s: Slot): Record -> bool {
    (d: Record) => Sees(w, i, d) && InRowOf(w, s.key, d) && d.recordType == s.recordType
  }

  /** Some desired record asks for the cell; a CNAME only counts where its row asks for nothing
      else. */
  ghost predicate IsAsked(w: World, i: Instance, desired: seq<Record>, s: Slot) {
    && (exists d | d in desired :: Sees(w, i, d) && InRowOf(w, s.key, d) && d.recordType == s.recordType)
    && (s.recordType == CNAME ==>
          forall d | d in desired && Sees(w, i, d) && InRowOf(w, s.key, d) :: d.recordType == CNAME)
  }

  lemma RowCandidates(w: World, i: Instance, desired: seq<Record>, key: PlanKey)
    ensures RowOf(w, i, [], desired, key).candidates == Filter(AskedRow(w, i, key), desired)
  {
    FilterFilter(InRow(w, key), VisibleTo(w, i), AskedRow(w, i, key), desired);
  }

  /** The candidates of an asked cell are the desired records for it, in order; any other cell
      has none. */
  lemma WantedExactly(w: World, i: Instance, desired: seq<Record>, s: Slot)
    ensures Wanted(w, i, desired, s) == if IsAsked(w, i, desired, s) then Filter(AskedCell(w, i, s), desired) else []
    ensures Wanted(w, i, desired, s) != [] <==> IsAsked(w, i, desired, s)
  {
    hide Resolved, Sees, InRowOf, RowOf;
    var cs, asked := Filter(AskedRow(w, i, s.key), desired), Filter(AskedCell(w, i, s), desired);
    RowCandidates(w, i, desired, s.key);
    ResolvedExactly(cs, s.recordType);
    FilterFilter(OfType(s.recordType), AskedRow(w, i, s.key), AskedCell(w, i, s), desired);
    if IsAsked(w, i, desired, s) {
      var d :| d in desired && AskedCell(w, i, s)(d);
      assert d in asked;
      assert s.recordType == CNAME ==> forall c | c in cs :: c.recordType == CNAME;
    } else if s.recordType == CNAME && exists d | d in desired :: AskedRow(w, i, s.key)(d) && d.recordType != CNAME {
      var d :| d in desired && AskedRow(w, i, s.key)(d) && d.recordType != CNAME;
      assert d in cs;
    } else {
      forall d | d in desired ensures !AskedCell(w, i, s)(d) {}
      FilterEmpty(AskedCell(w, i, s), desired);
    }
  }

  // ---- whose the records are ----

  predicate Owns(i: Instance, r: Record) {
    i.owner == "" || (OWNER_LABEL in r.labels && r.labels[OWNER_LABEL] == i.owner)
  }

  /** The instance may add to the row: it owns every record it sees there. */
  ghost predicate MayFill(w: World, i: Instance, st: State, key: PlanKey) {
    forall o | o in st && o.key == key && Sees(w, i, st[o]) :: Owns(i, st[o])
  }

  // ---- what a turn leaves ----

  /** A free cell is filled exactly when it is asked for and the instance may add to the row; a
      record disappears exactly when nobody asks for it, the instance sees and owns it, and all
      policies allow it. */
  lemma OccupiedExactly(w: World, st: State, t: Turn, s: Slot)
    requires ValidTurn(w, st, t)
    ensures s !in st ==> (s in Next(w, st, t) <==> IsAsked(w, t.inst, t.desired, s) && MayFill(w, t.inst, st, s.key))
    ensures s in st ==>
              (s !in Next(w, st, t) <==>
               && !IsAsked(w, t.inst, t.desired, s) && Sees(w, t.inst, st[s]) && Owns(t.inst, st[s])
               && UpsertOnlyPolicy !in t.inst.policies && CreateOnlyPolicy !in t.inst.policies)
  {
    hide IsAsked, ValidTurn, Next;
    WantedExactly(w, t.inst, t.desired, s);
    TurnAt(w, st, t, s);
    assert Get(Next(w, st, t), s).Some? <==> s in Next(w, st, t);
    SeenExactly(w, t.inst, st, s);
    ClaimExactly(w, t.inst, st, s.key);
  }

  lemma SeenExactly(w: World, i: Instance, st: State, s: Slot)
    ensures Seen(w, i, st, s) == if s in st && Sees(w, i, st[s]) then Some(st[s]) else None
  {
  }

  lemma ClaimExactly(w: World, i: Instance, st: State, key: PlanKey)
    ensures Claim(w, i, st, key) <==> MayFill(w, i, st, key)
  {
  }

  /** r needs no update to say what u says: the TTL is not configured or the same, the targets
      are the same, the properties are the same by name, and no old owner calls for a rewrite. */
  ghost predicate UpToDate(w: World, i: Instance, u: Record, r: Record) {
    && (u.ttl <= 0 || r.ttl == u.ttl)
    && Same(w.net, u.targets, r.targets)
    && UniqueNames(r.providerSpecific) && PropertyMap(r.providerSpecific) == PropertyMap(u.providerSpecific)
    && (i.oldOwner == "" || (if OWNER_LABEL in r.labels then r.labels[OWNER_LABEL] else "") == i.oldOwner)
  }

  lemma NeedsUpdateExactly(w: World, i: Instance, u: Record, r: Record)
    ensures NeedsUpdate(w, i, u, r) <==> !UpToDate(w, i, u, r)
  {
    ProviderSpecificExactly(u, r);
  }

  /** u as it is written over r: with the owner label of r. */
  function Rewritten(u: Record, r: Record): Record {
    Record(u.dnsName, u.targets, u.recordType, u.setIdentifier, u.ttl,
           u.labels[OWNER_LABEL := if OWNER_LABEL in r.labels then r.labels[OWNER_LABEL] else ""], u.providerSpecific)
  }

  /** u as it is created: with the owner label of the instance, if it has one. */
  function Created(i: Instance, u: Record): Record {
    Record(u.dnsName, u.targets, u.recordType, u.setIdentifier, u.ttl,
           if i.owner == "" then u.labels else u.labels[OWNER_LABEL := i.owner], u.providerSpecific)
  }

  /** What a record that stays becomes: the winner among those that ask for the cell, written
      over it with its owner label, exactly when somebody asks, the instance owns it, no policy
      forbids updates, and it is not up to date. */
  lemma HeldExactly(w: World, st: State, t: Turn, s: Slot)
    requires ValidTurn(w, st, t) && s in st && s in Next(w, st, t)
    ensures var i, r, cs := t.inst, st[s], Filter(AskedCell(w, t.inst, s), t.desired);
            if IsAsked(w, i, t.desired, s) && Owns(i, r) && CreateOnlyPolicy !in i.policies then
              && cs != []
              && var u := ResolveUpdate(w.net, r, cs);
                 Next(w, st, t)[s] == if UpToDate(w, i, u, r) then r else Rewritten(u, r)
            else Next(w, st, t)[s] == r
  {
    hide IsAsked, ValidTurn, Next, UpToDate, NeedsUpdate, ResolveUpdate;
    var i, r := t.inst, st[s];
    WantedExactly(w, i, t.desired, s);
    TurnAt(w, st, t, s);
    var cs := Wanted(w, i, t.desired, s);
    if cs != [] { NeedsUpdateExactly(w, i, ResolveUpdate(w.net, r, cs), r); }
    assert Get(Next(w, st, t), s) == Some(Next(w, st, t)[s]);
  }

  /** What a free cell is filled with: the winner among those that ask for it, under the
      instance's owner label. */
  lemma CreatedExactly(w: World, st: State, t: Turn, s: Slot)
    requires ValidTurn(w, st, t) && s !in st && s in Next(w, st, t)
    ensures var cs := Filter(AskedCell(w, t.inst, s), t.desired);
            cs != [] && Next(w, st, t)[s] == Created(t.inst, ResolveCreate(w.net, cs))
  {
    hide IsAsked, ValidTurn, Next, ResolveCreate;
    WantedExactly(w, t.inst, t.desired, s);
    TurnCases(w, st, t, s);
    assert Get(Next(w, st, t), s) == Some(Next(w, st, t)[s]);
  }

  // ---- rows under the sync policy ----

  /** n says what u asks for, field by field. With an old owner that n does not carry, n is u
      in everything but labels. */
  ghost predicate Satisfies(w: World, i: Instance, n: Record, u: Record) {
    && (u.ttl > 0 ==> n.ttl == u.ttl)
    && (AllCanonical(w.net, u.targets) && AllCanonical(w.net, n.targets) ==> multiset(n.targets) == multiset(u.targets))
    && (UniqueNames(u.providerSpecific) ==>
          UniqueNames(n.providerSpecific) && PropertyMap(n.providerSpecific) == PropertyMap(u.providerSpecific))
    && (i.oldOwner != "" && (if OWNER_LABEL in n.labels then n.labels[OWNER_LABEL] else "") != i.oldOwner ==>
          && n.dnsName == u.dnsName && n.targets == u.targets && n.recordType == u.recordType
          && n.setIdentifier == u.setIdentifier && n.ttl == u.ttl && n.providerSpecific == u.providerSpecific)
  }

  lemma UpToDateSatisfies(w: World, i: Instance, u: Record, r: Record)
    requires UpToDate(w, i, u, r)
    ensures Satisfies(w, i, r, u)
  {
    if AllCanonical(w.net, u.targets) && AllCanonical(w.net, r.targets) {
      SameIsMultisetEquality(w.net, u.targets, r.targets);
    }
  }

  lemma WrittenSatisfies(w: World, i: Instance, u: Record, r: Record)
    ensures Satisfies(w, i, Rewritten(u, r), u) && Satisfies(w, i, Created(i, u), u)
  {
  }

  /** Under policies that allow everything, a row that the instance sees and owns ends up
      holding exactly the types that are asked for, each with a record that says what the
      winning candidate asks for. */
  lemma RowHoldsWanted(w: World, st: State, t: Turn, s: Slot)
    requires ValidTurn(w, st, t)
    requires UpsertOnlyPolicy !in t.inst.policies && CreateOnlyPolicy !in t.inst.policies
    requires forall o | o in st && o.key == s.key :: Sees(w, t.inst, st[o]) && Owns(t.inst, st[o])
    ensures s in Next(w, st, t) <==> IsAsked(w, t.inst, t.desired, s)
    ensures s in Next(w, st, t) ==>
              var cs := Filter(AskedCell(w, t.inst, s), t.desired);
              && cs != []
              && Satisfies(w, t.inst, Next(w, st, t)[s],
                           if s in st then ResolveUpdate(w.net, st[s], cs) else ResolveCreate(w.net, cs))
  {
    hide IsAsked, ValidTurn, Next, UpToDate, Satisfies, Rewritten, Created, Sees, Owns, ResolveUpdate, ResolveCreate;
    OccupiedExactly(w, st, t, s);
    var cs := Filter(AskedCell(w, t.inst, s), t.desired);
    if s in Next(w, st, t) && s in st {
      HeldExactly(w, st, t, s);
      var u := ResolveUpdate(w.net, st[s], cs);
      WrittenSatisfies(w, t.inst, u, st[s]);
      if UpToDate(w, t.inst, u, st[s]) { UpToDateSatisfies(w, t.inst, u, st[s]); }
    } else if s in Next(w, st, t) {
      CreatedExactly(w, st, t, s);
      WrittenSatisfies(w, t.inst, ResolveCreate(w.net, cs), ResolveCreate(w.net, cs));
    }
  }
}

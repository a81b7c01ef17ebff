/** What reconciliation guarantees: after one step, and over every interleaving of several
    instances with arbitrary desired records. */
module Runs {
  import opened Wrappers
  import opened Sorting
  import opened Targets
  import opened Records
  import opened PlanSpec
  import opened Reconcile

  /** One reconciliation: who ran it, what it wanted, the listing it read and its plan. */
  datatype Turn = Turn(inst: Instance, desired: seq<Record>, current: seq<Record>, changes: Changes)

  ghost predicate ValidTurn(w: World, st: State, t: Turn) {
    && ValidState(w, st)
    && NamesAgree(w, t.inst)
    && IsListing(w, st, t.current)
    && IsPlan(w, t.inst, t.current, t.desired, t.changes)
  }

  function Next(w: World, st: State, t: Turn): State {
    Apply(w, t.inst, st, t.changes)
  }

  /** The decision a turn takes for one cell. */
  ghost function Decision(w: World, st: State, t: Turn, s: Slot): Changes {
    Decide(w, t.inst, Claim(w, t.inst, st, s.key), Seen(w, t.inst, st, s), Wanted(w, t.inst, t.desired, s))
  }

  lemma TurnAt(w: World, st: State, t: Turn, s: Slot)
    requires ValidTurn(w, st, t)
    ensures Project(w, t.changes, s) == Decision(w, st, t, s)
    ensures Get(Next(w, st, t), s) == After(t.inst, Get(st, s), Decision(w, st, t, s))
    ensures Wanted(w, t.inst, t.desired, s) != [] ==> Seen(w, t.inst, st, s) == Get(st, s)
  {
    PlanDecides(w, t.inst, st, t.current, t.desired, s);
    assert Project(w, t.changes, s) == PlanSlot(w, t.inst, t.current, t.desired, s);
    ApplyAt(w, t.inst, st, t.changes, s);
    if Wanted(w, t.inst, t.desired, s) != [] && s in st {
      WantedSeesRow(w, t.inst, st, t.desired, s, s);
    }
  }

  /** Every cell after a turn: kept, updated by its owner, deleted by its owner, or created
      in a free cell of a row the instance may claim. */
  lemma TurnCases(w: World, st: State, t: Turn, s: Slot)
    requires ValidTurn(w, st, t)
    ensures var i, cs, o, n := t.inst, Wanted(w, t.inst, t.desired, s), Get(st, s), Get(Next(w, st, t), s);
            || n == o
            || (cs != [] && o.Some? && Mine(i, o.value) && AllowsUpdate(i.policies)
                && n == Some(InheritOwner(o.value, ResolveUpdate(w.net, o.value, cs))))
            || (cs == [] && o.Some? && Mine(i, o.value) && AllowsDelete(i.policies) && n == None)
            || (cs != [] && o == None && Claim(w, i, st, s.key)
                && n == Some(Stamp(i, ResolveCreate(w.net, cs))))
  {
    TurnAt(w, st, t, s);
    DecisionCases(w, t.inst, Claim(w, t.inst, st, s.key), Seen(w, t.inst, st, s), Get(st, s),
                  Wanted(w, t.inst, t.desired, s));
  }

  lemma DecisionCases(w: World, i: Instance, claim: bool, seen: Option<Record>, o: Option<Record>, cs: seq<Record>)
    requires seen == None || seen == o
    requires cs != [] ==> seen == o
    ensures var n := After(i, o, Decide(w, i, claim, seen, cs));
            || n == o
            || (cs != [] && o.Some? && Mine(i, o.value) && AllowsUpdate(i.policies)
                && n == Some(InheritOwner(o.value, ResolveUpdate(w.net, o.value, cs))))
            || (cs == [] && o.Some? && Mine(i, o.value) && AllowsDelete(i.policies) && n == None)
            || (cs != [] && o == None && claim && n == Some(Stamp(i, ResolveCreate(w.net, cs))))
  {
  }

  lemma TurnValid(w: World, st: State, t: Turn)
    requires ValidTurn(w, st, t)
    ensures ValidState(w, Next(w, st, t))
  {
    var st' := Next(w, st, t);
    forall s | s in st' ensures SlotOf(w, st'[s]) == s && IsManagedRecord(w, s.recordType) {
      TurnCases(w, st, t, s);
      WantedBelongs(w, t.inst, t.desired, s);
      assert Get(st', s) == Some(st'[s]);
    }
  }

  // ---- pairing and disjointness ----

  lemma DecisionShape(w: World, i: Instance, claim: bool, held: Option<Record>, cs: seq<Record>)
    ensures var p := Decide(w, i, claim, held, cs);
            && |p.create| + |p.updateNew| + |p.delete| <= 1
            && |p.updateOld| == |p.updateNew|
            && (p.create != [] ==> held == None && cs != [])
            && (p.updateOld != [] ==> held.Some? && p.updateOld == [held.value])
            && (p.delete != [] ==> held.Some? && p.delete == [held.value])
  {
  }

  /** No cell occurs in two of Create, UpdateNew and Delete, or twice in one of them. */
  lemma ChangesAreDisjoint(w: World, st: State, t: Turn, s: Slot)
    requires ValidTurn(w, st, t)
    ensures var p := Project(w, t.changes, s);
            && |p.create| + |p.updateNew| + |p.delete| <= 1
            && |p.updateOld| == |p.updateNew|
            && (p.create != [] ==> s !in st)
            && (p.updateOld != [] ==> s in st && p.updateOld == [st[s]])
            && (p.delete != [] ==> s in st && p.delete == [st[s]])
  {
    TurnAt(w, st, t, s);
    DecisionShape(w, t.inst, Claim(w, t.inst, st, s.key), Seen(w, t.inst, st, s), Wanted(w, t.inst, t.desired, s));
  }

  // ---- convergence ----

  /** The candidates carry canonical targets; where no owner is configured, no old owner is
      either and provider-specific names are unique. */
  ghost predicate Orderly(w: World, i: Instance, desired: seq<Record>) {
    && (forall d | d in desired :: AllCanonical(w.net, d.targets))
    && (i.owner == "" ==> i.oldOwner == "" && forall d | d in desired :: UniqueNames(d.providerSpecific))
  }

  lemma CandidatesOrdered(net: Net, cs: seq<Record>)
    requires forall c | c in cs :: AllCanonical(net, c.targets)
    ensures StrictWeakOn(RecordOrder(net), cs)
  {
    var less := RecordOrder(net);
    forall a, b | a in cs && b in cs ensures !less(a, b) || !less(b, a) {
      IsLessStrictWeakOrder(net, a.targets, b.targets, a.targets);
    }
    forall a, b, c | a in cs && b in cs && c in cs && !less(b, a) && !less(c, b) ensures !less(c, a) {
      IsLessStrictWeakOrder(net, a.targets, b.targets, c.targets);
    }
  }

  lemma FilterHead<T>(p: T -> bool, s: seq<T>)
    requires s != [] && p(s[0])
    ensures Filter(p, s) != [] && Filter(p, s)[0] == s[0]
  {
    assert s == [s[0]] + s[1..];
    FilterCons(p, s[0], s[1..]);
  }

  /** Whatever candidate won, it wins again against a record that carries its resource label. */
  lemma WinnerWinsAgain(net: Net, cs: seq<Record>, held: Record, u: Record, held': Record)
    requires cs != [] && StrictWeakOn(RecordOrder(net), cs)
    requires u == ResolveUpdate(net, held, cs) || u == ResolveCreate(net, cs)
    requires Label(held', RESOURCE_LABEL) == Label(u, RESOURCE_LABEL)
    ensures ResolveUpdate(net, held', cs) == u
  {
    var less := RecordOrder(net);
    var sorted := Sort(less, cs);
    SortSorted(less, cs);
    SortFixpoint(less, sorted);
    MinIsHead(less, cs);
    MinIsHead(less, sorted);
    if u == sorted[0] {
      FilterHead(HasResource(Label(held', RESOURCE_LABEL)), sorted);
    }
  }

  lemma SettledUpdate(w: World, i: Instance, r: Record, u: Record)
    requires i.oldOwner == ""
    requires r == u.(labels := r.labels)
    requires UniqueNames(u.providerSpecific)
    ensures !NeedsUpdate(w, i, u, r)
  {
    SameReflexive(w.net, u.targets);
    ProviderSpecificExactly(u, r);
  }

  /** The instance would at most write n back as it already is. */
  ghost predicate Settled(w: World, i: Instance, n: Record, cs: seq<Record>) {
    && cs != []
    && var u := ResolveUpdate(w.net, n, cs);
       InheritOwner(n, u) == n || !NeedsUpdate(w, i, u, n)
  }

  lemma SettledAfterUpdate(w: World, i: Instance, held: Record, cs: seq<Record>)
    requires cs != [] && StrictWeakOn(RecordOrder(w.net), cs)
    ensures Settled(w, i, InheritOwner(held, ResolveUpdate(w.net, held, cs)), cs)
  {
    var u := ResolveUpdate(w.net, held, cs);
    var n := InheritOwner(held, u);
    WinnerWinsAgain(w.net, cs, held, u, n);
    assert InheritOwner(n, u).labels == n.labels;
  }

  lemma SettledAfterCreate(w: World, i: Instance, cs: seq<Record>)
    requires cs != [] && StrictWeakOn(RecordOrder(w.net), cs)
    requires i.owner == "" ==> i.oldOwner == "" && forall c | c in cs :: UniqueNames(c.providerSpecific)
    ensures Settled(w, i, Stamp(i, ResolveCreate(w.net, cs)), cs)
  {
    var u := ResolveCreate(w.net, cs);
    var n := Stamp(i, u);
    WinnerWinsAgain(w.net, cs, u, u, n);
    if i.owner == "" { SettledUpdate(w, i, n, u); }
    else { assert InheritOwner(n, u).labels == n.labels; }
  }

  /** The record a turn leaves in a wanted cell it wrote is settled. */
  lemma SettledCell(w: World, st: State, t: Turn, s: Slot)
    requires ValidTurn(w, st, t)
    requires Orderly(w, t.inst, t.desired)
    requires Wanted(w, t.inst, t.desired, s) != []
    requires Get(Next(w, st, t), s) != Get(st, s)
    ensures Get(Next(w, st, t), s).Some?
    ensures Settled(w, t.inst, Get(Next(w, st, t), s).value, Wanted(w, t.inst, t.desired, s))
  {
    var i, cs := t.inst, Wanted(w, t.inst, t.desired, s);
    WantedBelongs(w, i, t.desired, s);
    CandidatesOrdered(w.net, cs);
    TurnCases(w, st, t, s);
    if s in st {
      SettledAfterUpdate(w, i, st[s], cs);
    } else {
      SettledAfterCreate(w, i, cs);
    }
  }

  /** Foreign records stay, so a claim that was denied is denied again. */
  lemma ClaimStaysDenied(w: World, st: State, t: Turn, key: PlanKey)
    requires ValidTurn(w, st, t)
    requires !Claim(w, t.inst, st, key)
    ensures !Claim(w, t.inst, Next(w, st, t), key)
  {
    var s :| s in st && s.key == key && VisibleTo(w, t.inst)(st[s]) && !Mine(t.inst, st[s]);
    TurnCases(w, st, t, s);
    assert Get(Next(w, st, t), s) == Some(st[s]);
  }

  ghost predicate Quiet(ch: Changes) {
    ch.create == [] && ch.delete == [] && ch.updateNew == ch.updateOld && |ch.updateNew| <= 1
  }

  /** When deciding a cell leaves it as it is, the decision is quiet or rewrites a settled record. */
  lemma QuietDecision(w: World, i: Instance, claim: bool, held: Option<Record>, cs: seq<Record>)
    requires held == None && cs != [] ==> !claim
    requires held.Some? && cs == [] ==> !AllowsDelete(i.policies) || !Mine(i, held.value)
    requires held.Some? && cs != [] ==>
               || Settled(w, i, held.value, cs)
               || After(i, held, Decide(w, i, claim, held, cs)) == held
    ensures Quiet(Decide(w, i, claim, held, cs))
  {
  }

  /** SecondDecision on the contents of one cell: get is what it held, seen what was visible. */
  lemma QuietAgain(w: World, i: Instance, cs: seq<Record>, claim: bool, seen: Option<Record>, get: Option<Record>,
                   claim': bool, seen': Option<Record>, get': Option<Record>)
    requires get' == After(i, get, Decide(w, i, claim, seen, cs))
    requires seen == None || seen == get
    requires seen' == None || seen' == get'
    requires cs != [] ==> seen == get && seen' == get'
    requires get' == get ==> seen' == seen
    requires !claim ==> !claim'
    requires cs != [] && get' != get ==> get'.Some? && Settled(w, i, get'.value, cs)
    ensures Quiet(Decide(w, i, claim', seen', cs))
  {
    QuietDecision(w, i, claim', seen', cs);
  }

  /** After a turn, the same instance with the same wishes has nothing to do in any cell,
      except at most to write back a record as it already is. */
  lemma SecondDecision(w: World, st: State, t: Turn, t': Turn, s: Slot)
    requires ValidTurn(w, st, t)
    requires ValidTurn(w, Next(w, st, t), t')
    requires t'.inst == t.inst && t'.desired == t.desired
    requires Orderly(w, t.inst, t.desired)
    ensures Quiet(Decision(w, Next(w, st, t), t', s))
  {
    var i, st' := t.inst, Next(w, st, t);
    var cs := Wanted(w, i, t.desired, s);
    var claim, claim' := Claim(w, i, st, s.key), Claim(w, i, st', s.key);
    var get, get' := Get(st, s), Get(st', s);
    assert get' == After(i, get, Decide(w, i, claim, Seen(w, i, st, s), cs))
           && (cs != [] ==> Seen(w, i, st, s) == get) by { TurnAt(w, st, t, s); }
    assert cs != [] ==> Seen(w, i, st', s) == get' by { TurnAt(w, st', t', s); }
    assert !claim ==> !claim' by { if !claim { ClaimStaysDenied(w, st, t, s.key); } }
    if cs != [] && get' != get { SettledCell(w, st, t, s); }
    QuietAgain(w, i, cs, claim, Seen(w, i, st, s), get, claim', Seen(w, i, st', s), get');
  }

  lemma Projected(w: World, rs: seq<Record>, r: Record)
    requires r in rs
    ensures r in Filter(InSlot(w, SlotOf(w, r)), rs)
  {
    assert InSlot(w, SlotOf(w, r))(r);
  }

  lemma QuietPair(w: World, olds: seq<Record>, news: seq<Record>, o: Record, n: Record)
    requires o in olds && n in news && SlotOf(w, o) == SlotOf(w, n)
    requires Filter(InSlot(w, SlotOf(w, n)), news) == Filter(InSlot(w, SlotOf(w, n)), olds)
    requires |Filter(InSlot(w, SlotOf(w, n)), news)| <= 1
    ensures o == n
  {
    Projected(w, news, n);
    Projected(w, olds, o);
  }

  /** Changes that are quiet in every cell are no changes. */
  lemma QuietEverywhere(w: World, ch: Changes)
    requires forall s :: Quiet(Project(w, ch, s))
    requires Paired(w, ch)
    ensures !HasChanges(ch)
  {
    if ch.create != [] {
      assert Quiet(Project(w, ch, SlotOf(w, ch.create[0])));
      Projected(w, ch.create, ch.create[0]);
    }
    if ch.delete != [] {
      assert Quiet(Project(w, ch, SlotOf(w, ch.delete[0])));
      Projected(w, ch.delete, ch.delete[0]);
    }
    forall k | 0 <= k < |ch.updateNew| ensures ch.updateNew[k] == ch.updateOld[k] {
      assert Quiet(Project(w, ch, SlotOf(w, ch.updateNew[k])));
      QuietPair(w, ch.updateOld, ch.updateNew, ch.updateOld[k], ch.updateNew[k]);
    }
  }

  /** One-step convergence: applying a plan and planning again with the same desired records
      gives no changes, under every policy and with owned and foreign records mixed. */
  lemma Convergence(w: World, st: State, t: Turn, t': Turn)
    requires ValidTurn(w, st, t)
    requires ValidTurn(w, Next(w, st, t), t')
    requires t'.inst == t.inst && t'.desired == t.desired
    requires Orderly(w, t.inst, t.desired)
    ensures !HasChanges(t'.changes)
    ensures t'.changes.create == [] && t'.changes.delete == [] && t'.changes.updateNew == t'.changes.updateOld
  {
    forall s ensures Quiet(Project(w, t'.changes, s)) {
      SecondDecision(w, st, t, t', s);
      TurnAt(w, Next(w, st, t), t', s);
    }
    QuietEverywhere(w, t'.changes);
  }

  // ---- CNAME exclusivity ----

  /** A row that holds a CNAME holds nothing else (RFC 1034, section 3.6.2). */
  ghost predicate Exclusive(st: State) {
    forall a, b | a in st && b in st && a.key == b.key && a.recordType == CNAME :: b.recordType == CNAME
  }

  /** At most one of CNAME and the other types is wanted in a row. */
  lemma WantedExclusive(w: World, i: Instance, desired: seq<Record>, a: Slot, b: Slot)
    requires a.key == b.key && a.recordType == CNAME && b.recordType != CNAME
    ensures Wanted(w, i, desired, a) == [] || Wanted(w, i, desired, b) == []
  {
    var cs := RowOf(w, i, [], desired, a.key).candidates;
    if Wanted(w, i, desired, a) != [] && Wanted(w, i, desired, b) != [] {
      assert Wanted(w, i, desired, a)[0] in cs;
      assert Wanted(w, i, desired, b)[0] in cs;
      assert HasConflict(cs);
    }
  }

  /** A cell that a turn creates, beside one it keeps or creates: both are wanted. */
  lemma CreatedBesideWanted(w: World, st: State, t: Turn, a: Slot, b: Slot)
    requires ValidTurn(w, st, t) && AllowsDelete(t.inst.policies)
    requires a.key == b.key && a !in st && a in Next(w, st, t) && b in Next(w, st, t)
    ensures Wanted(w, t.inst, t.desired, a) != [] && Wanted(w, t.inst, t.desired, b) != []
  {
    TurnCases(w, st, t, a);
    TurnAt(w, st, t, b);
    if b in st {
      WantedSeesRow(w, t.inst, st, t.desired, a, b);
    }
  }

  lemma TurnKeepsExclusive(w: World, st: State, t: Turn)
    requires ValidTurn(w, st, t) && AllowsDelete(t.inst.policies)
    requires Exclusive(st)
    ensures Exclusive(Next(w, st, t))
  {
    var st' := Next(w, st, t);
    forall a, b | a in st' && b in st' && a.key == b.key && a.recordType == CNAME
      ensures b.recordType == CNAME
    {
      if b.recordType != CNAME {
        WantedExclusive(w, t.inst, t.desired, a, b);
        if a !in st { CreatedBesideWanted(w, st, t, a, b); }
        if b !in st { CreatedBesideWanted(w, st, t, b, a); }
        assert false;
      }
    }
  }

  /** A free cell that the turn will fill although its row keeps a record of the other kind. */
  ghost predicate FillsBesideOtherKind(w: World, st: State, t: Turn, a: Slot, b: Slot) {
    && a !in st && b in st && a.key == b.key
    && (a.recordType == CNAME) != (b.recordType == CNAME)
    && Wanted(w, t.inst, t.desired, a) != []
    && Claim(w, t.inst, st, a.key)
  }

  lemma BrokenMeansFilled(w: World, st: State, t: Turn, a: Slot, b: Slot)
    requires ValidTurn(w, st, t) && Exclusive(st)
    requires a in Next(w, st, t) && b in Next(w, st, t)
    requires a.key == b.key && a.recordType == CNAME && b.recordType != CNAME
    requires !AllowsDelete(t.inst.policies)
    ensures FillsBesideOtherKind(w, st, t, a, b) || FillsBesideOtherKind(w, st, t, b, a)
  {
    TurnCases(w, st, t, a);
    TurnCases(w, st, t, b);
    WantedExclusive(w, t.inst, t.desired, a, b);
  }

  /** Policies that never delete can break exclusivity, exactly when some row is wanted with
      the other kind of record than it holds and the instance may claim it. */
  lemma ExclusiveWithoutDeletes(w: World, st: State, t: Turn)
    requires ValidTurn(w, st, t) && !AllowsDelete(t.inst.policies)
    requires Exclusive(st)
    ensures Exclusive(Next(w, st, t)) <==> !exists a, b :: FillsBesideOtherKind(w, st, t, a, b)
  {
    hide Next, Wanted, Claim;
    var st' := Next(w, st, t);
    forall s ensures s in st ==> s in st' { TurnCases(w, st, t, s); }
    if a, b :| FillsBesideOtherKind(w, st, t, a, b) {
      TurnAt(w, st, t, a);
      assert a in st' && b in st';
      assert !Exclusive(st');
    } else {
      forall a, b | a in st' && b in st' && a.key == b.key && a.recordType == CNAME
        ensures b.recordType == CNAME
      {
        if b.recordType != CNAME {
          BrokenMeansFilled(w, st, t, a, b);
        }
      }
    }
  }

  // ---- ownership ----

  /** A turn that changes or removes a record belongs to the record's owner; an update leaves
      the owner label; a create lands in a free cell of a row with no visible foreign record. */
  lemma TurnRespectsOwners(w: World, st: State, t: Turn, s: Slot)
    requires ValidTurn(w, st, t) && t.inst.owner != ""
    ensures s in st && Get(Next(w, st, t), s) != Some(st[s]) ==> IsOwnedBy(st[s], t.inst.owner)
    ensures s in st && s in Next(w, st, t) ==>
              (OWNER_LABEL in st[s].labels ==> Label(Next(w, st, t)[s], OWNER_LABEL) == Label(st[s], OWNER_LABEL))
    ensures s !in st && s in Next(w, st, t) ==>
              && IsOwnedBy(Next(w, st, t)[s], t.inst.owner)
              && forall o | o in st && o.key == s.key :: IsOwnedBy(st[o], t.inst.owner)
  {
    TurnCases(w, st, t, s);
    if s !in st && s in Next(w, st, t) {
      forall o | o in st && o.key == s.key ensures IsOwnedBy(st[o], t.inst.owner) {
        WantedSeesRow(w, t.inst, st, t.desired, s, o);
      }
    }
  }

  lemma DecisionIsMine(w: World, i: Instance, claim: bool, held: Option<Record>, cs: seq<Record>)
    requires i.owner != ""
    ensures var p := Decide(w, i, claim, held, cs);
            forall r | r in p.updateOld || r in p.updateNew || r in p.delete :: IsOwnedBy(r, i.owner)
  {
    if held.Some? && cs != [] { InheritKeepsClaim(i, held.value, ResolveUpdate(w.net, held.value, cs)); }
  }

  lemma PlannedIsMine(w: World, st: State, t: Turn, r: Record)
    requires ValidTurn(w, st, t) && t.inst.owner != ""
    requires r in t.changes.updateOld || r in t.changes.updateNew || r in t.changes.delete
    ensures IsOwnedBy(r, t.inst.owner)
  {
    var s := SlotOf(w, r);
    assert InSlot(w, s)(r);
    TurnAt(w, st, t, s);
    DecisionIsMine(w, t.inst, Claim(w, t.inst, st, s.key), Seen(w, t.inst, st, s), Wanted(w, t.inst, t.desired, s));
    var p := Project(w, t.changes, s);
    assert r in p.updateOld || r in p.updateNew || r in p.delete;
  }

  /** The owner filter that the registry applies once more takes nothing out of a plan made
      for the same owner. */
  lemma RegistryFilterKeepsPlan(w: World, st: State, t: Turn)
    requires ValidTurn(w, st, t) && t.inst.owner != ""
    ensures Filter(OwnedBy(t.inst.owner), t.changes.updateOld) == t.changes.updateOld
    ensures Filter(OwnedBy(t.inst.owner), t.changes.updateNew) == t.changes.updateNew
    ensures Filter(OwnedBy(t.inst.owner), t.changes.delete) == t.changes.delete
  {
    forall r | r in t.changes.updateOld || r in t.changes.updateNew || r in t.changes.delete
      ensures OwnedBy(t.inst.owner)(r)
    {
      PlannedIsMine(w, st, t, r);
    }
    FilterEverything(OwnedBy(t.inst.owner), t.changes.updateOld);
    FilterEverything(OwnedBy(t.inst.owner), t.changes.updateNew);
    FilterEverything(OwnedBy(t.inst.owner), t.changes.delete);
  }

  // ---- whole runs ----

  /** states[k + 1] comes from states[k] by turns[k]; any instances, any desired records. */
  ghost predicate IsRun(w: World, states: seq<State>, turns: seq<Turn>) {
    && |states| == |turns| + 1
    && forall k | 0 <= k < |turns| :: ValidTurn(w, states[k], turns[k]) && states[k + 1] == Next(w, states[k], turns[k])
  }

  /** CNAME exclusivity holds in every state of every run of sync-policy instances. */
  lemma {:induction false} RunKeepsExclusive(w: World, states: seq<State>, turns: seq<Turn>, n: nat)
    requires IsRun(w, states, turns) && n <= |turns|
    requires forall k | 0 <= k < |turns| ::
               UpsertOnlyPolicy !in turns[k].inst.policies && CreateOnlyPolicy !in turns[k].inst.policies
    requires Exclusive(states[0])
    ensures Exclusive(states[n])
  {
    if n > 0 {
      RunKeepsExclusive(w, states, turns, n - 1);
      TurnKeepsExclusive(w, states[n - 1], turns[n - 1]);
    }
  }

  /** A record owned by A is exactly as it was until A itself takes a turn. */
  lemma {:induction false} RunKeepsForeign(w: World, states: seq<State>, turns: seq<Turn>, n: nat, s: Slot, owner: string)
    requires IsRun(w, states, turns) && n <= |turns|
    requires forall k | 0 <= k < n :: turns[k].inst.owner != "" && turns[k].inst.owner != owner
    requires s in states[0] && IsOwnedBy(states[0][s], owner)
    ensures s in states[n] && states[n][s] == states[0][s]
  {
    if n > 0 {
      RunKeepsForeign(w, states, turns, n - 1, s, owner);
      TurnRespectsOwners(w, states[n - 1], turns[n - 1], s);
    }
  }

  /** As long as a cell stays occupied, its owner label never changes. */
  lemma {:induction false} RunKeepsOwnerLabel(w: World, states: seq<State>, turns: seq<Turn>, n: nat, s: Slot)
    requires IsRun(w, states, turns) && n <= |turns|
    requires forall k | 0 <= k < n :: turns[k].inst.owner != ""
    requires forall k | 0 <= k <= n :: s in states[k]
    requires OWNER_LABEL in states[0][s].labels
    ensures IsOwnedBy(states[n][s], states[0][s].labels[OWNER_LABEL])
  {
    if n > 0 {
      RunKeepsOwnerLabel(w, states, turns, n - 1, s);
      TurnCases(w, states[n - 1], turns[n - 1], s);
      assert s in states[n - 1] && s in states[n];
    }
  }

  /** The resource keeps a candidate for the cell, and no conflict discards it. */
  ghost predicate StillWants(w: World, t: Turn, s: Slot, resource: string) {
    exists c | c in Wanted(w, t.inst, t.desired, s) :: Label(c, RESOURCE_LABEL) == resource
  }

  lemma WinnerOfResource(net: Net, held: Record, cs: seq<Record>)
    requires exists c | c in cs :: Label(c, RESOURCE_LABEL) == Label(held, RESOURCE_LABEL)
    ensures cs != []
    ensures Label(ResolveUpdate(net, held, cs), RESOURCE_LABEL) == Label(held, RESOURCE_LABEL)
  {
    var c :| c in cs && Label(c, RESOURCE_LABEL) == Label(held, RESOURCE_LABEL);
    var p, sorted := HasResource(Label(held, RESOURCE_LABEL)), Sort(RecordOrder(net), cs);
    assert c in sorted && p(c);
    assert c in Filter(p, sorted);
    assert Filter(p, sorted)[0] in Filter(p, sorted);
  }

  lemma CellKeepsResource(w: World, i: Instance, o: Record, n: Option<Record>, cs: seq<Record>)
    requires || n == Some(o)
             || (Mine(i, o) && cs != [] && n == Some(InheritOwner(o, ResolveUpdate(w.net, o, cs))))
             || (Mine(i, o) && cs == [] && n == None)
    requires !Mine(i, o) || exists c | c in cs :: Label(c, RESOURCE_LABEL) == Label(o, RESOURCE_LABEL)
    ensures n.Some? && Label(n.value, RESOURCE_LABEL) == Label(o, RESOURCE_LABEL)
  {
    if n != Some(o) { WinnerOfResource(w.net, o, cs); }
  }

  /** The turn's instance wants the cell for the resource, or could not write it. */
  ghost predicate LeavesToResource(w: World, st: State, t: Turn, s: Slot, resource: string) {
    StillWants(w, t, s, resource) || (s in st && !Mine(t.inst, st[s]))
  }

  ghost predicate HoldsFor(st: State, s: Slot, resource: string) {
    s in st && Label(st[s], RESOURCE_LABEL) == resource
  }

  lemma TurnKeepsResource(w: World, st: State, t: Turn, s: Slot, resource: string)
    requires ValidTurn(w, st, t)
    requires HoldsFor(st, s, resource)
    requires LeavesToResource(w, st, t, s, resource)
    ensures HoldsFor(Next(w, st, t), s, resource)
  {
    TurnCases(w, st, t, s);
    CellKeepsResource(w, t.inst, st[s], Get(Next(w, st, t), s), Wanted(w, t.inst, t.desired, s));
  }

  /** Resource stickiness: whatever other candidates come and go, the resource that holds a
      record keeps it while it wants it, under every policy. Only turns of instances that
      could write the record need to want it. */
  lemma {:induction false} RunKeepsResource(w: World, states: seq<State>, turns: seq<Turn>, n: nat, s: Slot, resource: string)
    requires IsRun(w, states, turns) && n <= |turns|
    requires HoldsFor(states[0], s, resource)
    requires forall k | 0 <= k < n :: LeavesToResource(w, states[k], turns[k], s, resource)
    ensures HoldsFor(states[n], s, resource)
  {
    if n > 0 {
      RunKeepsResource(w, states, turns, n - 1, s, resource);
      var st, t := states[n - 1], turns[n - 1];
      assert LeavesToResource(w, st, t, s, resource);
      TurnKeepsResource(w, st, t, s, resource);
    }
  }

  /** No run without the sync policy ever loses a cell. */
  lemma {:induction false} RunWithoutDeletesKeepsCells(w: World, states: seq<State>, turns: seq<Turn>, n: nat)
    requires IsRun(w, states, turns) && n <= |turns|
    requires forall k | 0 <= k < n ::
               UpsertOnlyPolicy in turns[k].inst.policies || CreateOnlyPolicy in turns[k].inst.policies
    ensures states[0].Keys <= states[n].Keys
  {
    if n > 0 {
      RunWithoutDeletesKeepsCells(w, states, turns, n - 1);
      forall s | s in states[n - 1] ensures s in states[n] {
        TurnCases(w, states[n - 1], turns[n - 1], s);
      }
    }
  }

  /** No create-only run ever alters a record. */
  lemma {:induction false} RunCreateOnlyKeepsRecords(w: World, states: seq<State>, turns: seq<Turn>, n: nat, s: Slot)
    requires IsRun(w, states, turns) && n <= |turns|
    requires forall k | 0 <= k < n :: CreateOnlyPolicy in turns[k].inst.policies
    requires s in states[0]
    ensures s in states[n] && states[n][s] == states[0][s]
  {
    hide Wanted, Claim, Next, InheritOwner, ResolveUpdate, ResolveCreate, Stamp;
    if n > 0 {
      RunCreateOnlyKeepsRecords(w, states, turns, n - 1, s);
      TurnCases(w, states[n - 1], turns[n - 1], s);
    }
  }
}

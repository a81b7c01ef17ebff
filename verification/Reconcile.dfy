/** One reconciliation as a step on the provider's records: the state holds one record per
    cell (row and type), the registry stamps the owner on what it creates. */
module Reconcile {
  import opened Wrappers
  import opened Sorting
  import opened Targets
  import opened Records
  import opened PlanSpec

  type State = map<Slot, Record>

  ghost predicate ValidState(w: World, st: State) {
    forall s | s in st :: SlotOf(w, st[s]) == s && IsManagedRecord(w, s.recordType)
  }

  /** The domain filter gives one answer for all spellings of a name. */
  ghost predicate NamesAgree(w: World, i: Instance) {
    forall a, b :: w.normalize(a) == w.normalize(b) ==> i.matches(a) == i.matches(b)
  }

  /** current lists the records of st, each once, in any order. */
  ghost predicate IsListing(w: World, st: State, current: seq<Record>) {
    forall s :: Filter(InSlot(w, s), current) == if s in st then [st[s]] else []
  }

  /** The TXT registry labels what it creates with its own owner ID. */
  function Stamp(i: Instance, r: Record): Record {
    if i.owner == "" then r else r.(labels := r.labels[OWNER_LABEL := i.owner])
  }

  function StampAll(i: Instance, rs: seq<Record>): seq<Record> {
    seq(|rs|, k requires 0 <= k < |rs| => Stamp(i, rs[k]))
  }

  function PutAll(w: World, st: State, rs: seq<Record>): State {
    if rs == [] then st
    else PutAll(w, st, rs[..|rs| - 1])[SlotOf(w, rs[|rs| - 1]) := rs[|rs| - 1]]
  }

  function DropAll(w: World, st: State, rs: seq<Record>): State {
    if rs == [] then st
    else DropAll(w, st, rs[..|rs| - 1]) - {SlotOf(w, rs[|rs| - 1])}
  }

  function Apply(w: World, i: Instance, st: State, ch: Changes): State {
    PutAll(w, PutAll(w, DropAll(w, st, ch.delete), ch.updateNew), StampAll(i, ch.create))
  }

  function Get(st: State, s: Slot): Option<Record> {
    if s in st then Some(st[s]) else None
  }

  // ---- Apply acts cell by cell ----

  lemma {:induction false} PutAllAt(w: World, st: State, rs: seq<Record>, s: Slot)
    ensures Get(PutAll(w, st, rs), s) ==
            if Filter(InSlot(w, s), rs) == [] then Get(st, s) else Last(Filter(InSlot(w, s), rs))
  {
    if rs != [] { PutAllAt(w, st, rs[..|rs| - 1], s); }
  }

  lemma {:induction false} DropAllAt(w: World, st: State, rs: seq<Record>, s: Slot)
    ensures Get(DropAll(w, st, rs), s) == if Filter(InSlot(w, s), rs) == [] then Get(st, s) else None
  {
    if rs != [] { DropAllAt(w, st, rs[..|rs| - 1], s); }
  }

  lemma {:induction false} StampAllAt(w: World, i: Instance, rs: seq<Record>, s: Slot)
    ensures Filter(InSlot(w, s), StampAll(i, rs)) == StampAll(i, Filter(InSlot(w, s), rs))
  {
    if rs == [] {
      assert StampAll(i, rs) == [];
    } else {
      var init, last := rs[..|rs| - 1], rs[|rs| - 1];
      assert StampAll(i, rs) == StampAll(i, init) + [Stamp(i, last)];
      StampAllAt(w, i, init, s);
      FilterSnoc(InSlot(w, s), StampAll(i, init), Stamp(i, last));
      assert SlotOf(w, Stamp(i, last)) == SlotOf(w, last);
      assert Filter(InSlot(w, s), rs) == if InSlot(w, s)(last) then Filter(InSlot(w, s), init) + [last] else Filter(InSlot(w, s), init);
      assert StampAll(i, Filter(InSlot(w, s), init) + [last]) == StampAll(i, Filter(InSlot(w, s), init)) + [Stamp(i, last)];
    }
  }

  /** What one cell holds after the changes projected to it. */
  function After(i: Instance, held: Option<Record>, ch: Changes): Option<Record> {
    if ch.create != [] then Some(Stamp(i, ch.create[|ch.create| - 1]))
    else if ch.updateNew != [] then Last(ch.updateNew)
    else if ch.delete != [] then None
    else held
  }

  lemma AfterSteps(i: Instance, held: Option<Record>, ch: Changes,
                   dropped: Option<Record>, updated: Option<Record>, created: Option<Record>)
    requires dropped == if ch.delete == [] then held else None
    requires updated == if ch.updateNew == [] then dropped else Last(ch.updateNew)
    requires created == if StampAll(i, ch.create) == [] then updated else Last(StampAll(i, ch.create))
    ensures created == After(i, held, ch)
  {
    if ch.create != [] { assert StampAll(i, ch.create) != []; }
  }

  lemma ApplyAt(w: World, i: Instance, st: State, ch: Changes, s: Slot)
    ensures Get(Apply(w, i, st, ch), s) == After(i, Get(st, s), Project(w, ch, s))
  {
    var st1 := DropAll(w, st, ch.delete);
    var st2 := PutAll(w, st1, ch.updateNew);
    var st3 := PutAll(w, st2, StampAll(i, ch.create));
    DropAllAt(w, st, ch.delete, s);
    PutAllAt(w, st1, ch.updateNew, s);
    PutAllAt(w, st2, StampAll(i, ch.create), s);
    StampAllAt(w, i, ch.create, s);
    AfterSteps(i, Get(st, s), Project(w, ch, s), Get(st1, s), Get(st2, s), Get(st3, s));
  }

  // ---- what an instance sees and wants ----

  /** The candidates for a cell after conflicts between record types are resolved. */
  function Wanted(w: World, i: Instance, desired: seq<Record>, s: Slot): seq<Record> {
    Resolved(RowOf(w, i, [], desired, s.key).candidates, s.recordType)
  }

  /** The record in a cell, if the instance's filters let it see it. */
  function Seen(w: World, i: Instance, st: State, s: Slot): Option<Record> {
    if s in st && VisibleTo(w, i)(st[s]) then Some(st[s]) else None
  }

  predicate Mine(i: Instance, r: Record) { i.owner == "" || IsOwnedBy(r, i.owner) }

  /** No visible record of the row belongs to somebody else. */
  ghost predicate Claim(w: World, i: Instance, st: State, key: PlanKey) {
    forall s | s in st && s.key == key && VisibleTo(w, i)(st[s]) :: Mine(i, st[s])
  }

  /** The whole planner on one cell: what is held, what is wanted, whose row it is. */
  function Decide(w: World, i: Instance, claim: bool, held: Option<Record>, cs: seq<Record>): Changes {
    match held
    case None =>
      if cs != [] && claim then NOTHING.(create := [ResolveCreate(w.net, cs)]) else NOTHING
    case Some(r) =>
      if cs == [] then
        if AllowsDelete(i.policies) && Mine(i, r) then NOTHING.(delete := [r]) else NOTHING
      else
        var u := ResolveUpdate(w.net, r, cs);
        if NeedsUpdate(w, i, u, r) && AllowsUpdate(i.policies) && Mine(i, r)
        then NOTHING.(updateOld := [r], updateNew := [InheritOwner(r, u)])
        else NOTHING
  }

  // ---- a plan decides each cell ----

  /** The listed row holds exactly the records the instance sees in it. */
  lemma ListedRow(w: World, i: Instance, st: State, current: seq<Record>, desired: seq<Record>, key: PlanKey)
    requires ValidState(w, st) && IsListing(w, st, current)
    ensures var row := RowOf(w, i, current, desired, key);
            && (forall t :: Filter(OfType(t), row.current) ==
                            (var o := Seen(w, i, st, Slot(key, t)); if o.Some? then [o.value] else []))
            && (forall r | r in row.current ::
                  var s := SlotOf(w, r); s in st && s.key == key && st[s] == r && VisibleTo(w, i)(r))
            && (forall s | s in st && s.key == key && VisibleTo(w, i)(st[s]) :: st[s] in row.current)
  {
    var row := RowOf(w, i, current, desired, key);
    var visible := VisibleTo(w, i);
    forall t
      ensures Filter(OfType(t), row.current) ==
              (var o := Seen(w, i, st, Slot(key, t)); if o.Some? then [o.value] else [])
    {
      var s := Slot(key, t);
      FilterFilter(OfType(t), InRow(w, key), InSlot(w, s), Filter(visible, current));
      FiltersCommute(InSlot(w, s), visible, current);
      assert Filter(InSlot(w, s), current) == if s in st then [st[s]] else [];
      if s in st {
        FilterSnoc(visible, [], st[s]);
        assert [] + [st[s]] == [st[s]];
      }
    }
    forall r | r in row.current
      ensures var s := SlotOf(w, r); s in st && s.key == key && st[s] == r && visible(r)
    {
      assert r in Filter(visible, current) && r in current;
      assert r in Filter(InSlot(w, SlotOf(w, r)), current);
    }
    forall s | s in st && s.key == key && visible(st[s])
      ensures st[s] in row.current
    {
      assert st[s] in Filter(InSlot(w, s), current);
      assert st[s] in Filter(visible, current);
    }
  }

  lemma MineFilter(i: Instance, r: Record)
    requires i.owner != ""
    ensures Filter(OwnedBy(i.owner), [r]) == if Mine(i, r) then [r] else []
  {
    FilterSnoc(OwnedBy(i.owner), [], r);
    assert [] + [r] == [r];
  }

  /** A non-empty owner ID survives inheritOwner on exactly the records it owned. */
  lemma InheritKeepsClaim(i: Instance, from: Record, to: Record)
    requires i.owner != ""
    ensures Mine(i, InheritOwner(from, to)) == Mine(i, from)
  {
  }

  lemma FinishCreate(i: Instance, rs: seq<Record>)
    ensures Finish(i, NOTHING.(create := rs)) == NOTHING.(create := rs)
  {
    PoliciesStrip(i.policies, NOTHING.(create := rs));
  }

  lemma FinishDelete(i: Instance, r: Record)
    ensures Finish(i, NOTHING.(delete := [r])) ==
            if AllowsDelete(i.policies) && Mine(i, r) then NOTHING.(delete := [r]) else NOTHING
  {
    PoliciesStrip(i.policies, NOTHING.(delete := [r]));
    if i.owner != "" {
      MineFilter(i, r);
      assert RemoveDuplicates([r]) == [r];
    }
  }

  lemma FinishUpdate(i: Instance, r: Record, u: Record)
    ensures Finish(i, NOTHING.(updateOld := [r], updateNew := [InheritOwner(r, u)])) ==
            if AllowsUpdate(i.policies) && Mine(i, r)
            then NOTHING.(updateOld := [r], updateNew := [InheritOwner(r, u)]) else NOTHING
  {
    PoliciesStrip(i.policies, NOTHING.(updateOld := [r], updateNew := [InheritOwner(r, u)]));
    if i.owner != "" {
      MineFilter(i, r);
      MineFilter(i, InheritOwner(r, u));
      InheritKeepsClaim(i, r, u);
    }
  }

  /** A row as one instance sees it. */
  ghost predicate RowSeen(w: World, i: Instance, claim: bool, held: Option<Record>, row: Row, t: string) {
    && Filter(OfType(t), row.current) == (if held.Some? then [held.value] else [])
    && (OwnersMatch(i, row.current) <==> claim)
  }

  lemma RowDecides(w: World, i: Instance, claim: bool, held: Option<Record>, row: Row, t: string)
    requires RowSeen(w, i, claim, held, row, t)
    ensures Finish(i, RowChanges(w, i, row, t)) == Decide(w, i, claim, held, Resolved(row.candidates, t))
  {
    hide NeedsUpdate, ResolveUpdate, ResolveCreate;
    var cs := Resolved(row.candidates, t);
    FinishCreate(i, []);
    match held
    case None =>
      assert RowChanges(w, i, row, t) ==
             if cs != [] && claim then NOTHING.(create := [ResolveCreate(w.net, cs)]) else NOTHING;
      if cs != [] { FinishCreate(i, [ResolveCreate(w.net, cs)]); }
    case Some(r) =>
      assert row.current != [];
      if cs == [] {
        assert RowChanges(w, i, row, t) == NOTHING.(delete := [r]);
        FinishDelete(i, r);
      } else {
        assert row.candidates != [];
        FinishUpdate(i, r, ResolveUpdate(w.net, r, cs));
      }
  }

  lemma ListedRowSeen(w: World, i: Instance, st: State, current: seq<Record>, desired: seq<Record>, s: Slot)
    requires ValidState(w, st) && IsListing(w, st, current)
    ensures RowSeen(w, i, Claim(w, i, st, s.key), Seen(w, i, st, s),
                    RowOf(w, i, current, desired, s.key), s.recordType)
  {
    ListedRow(w, i, st, current, desired, s.key);
    assert s == Slot(s.key, s.recordType);
  }

  /** When a row of st is listed, each cell of the plan is Decide of what is seen and wanted. */
  lemma PlanDecides(w: World, i: Instance, st: State, current: seq<Record>, desired: seq<Record>, s: Slot)
    requires ValidState(w, st) && IsListing(w, st, current)
    ensures PlanSlot(w, i, current, desired, s) ==
            Decide(w, i, Claim(w, i, st, s.key), Seen(w, i, st, s), Wanted(w, i, desired, s))
  {
    ListedRowSeen(w, i, st, current, desired, s);
    var row := RowOf(w, i, current, desired, s.key);
    RowDecides(w, i, Claim(w, i, st, s.key), Seen(w, i, st, s), row, s.recordType);
    assert Wanted(w, i, desired, s) == Resolved(row.candidates, s.recordType);
  }

  /** A wanted cell makes its whole row visible. */
  lemma WantedSeesRow(w: World, i: Instance, st: State, desired: seq<Record>, s: Slot, o: Slot)
    requires ValidState(w, st) && NamesAgree(w, i)
    requires Wanted(w, i, desired, s) != []
    requires o in st && o.key == s.key
    ensures VisibleTo(w, i)(st[o])
  {
    var c := Wanted(w, i, desired, s)[0];
    assert c in RowOf(w, i, [], desired, s.key).candidates;
    assert c in Filter(VisibleTo(w, i), desired);
    assert w.normalize(c.dnsName) == w.normalize(st[o].dnsName);
  }

  /** Every wanted record belongs in the cell it is wanted for and is visible. */
  lemma WantedBelongs(w: World, i: Instance, desired: seq<Record>, s: Slot)
    ensures forall c | c in Wanted(w, i, desired, s) ::
              SlotOf(w, c) == s && VisibleTo(w, i)(c) && c in desired
  {
    forall c | c in Wanted(w, i, desired, s)
      ensures SlotOf(w, c) == s && VisibleTo(w, i)(c) && c in desired
    {
      assert c in RowOf(w, i, [], desired, s.key).candidates;
      assert c in Filter(VisibleTo(w, i), desired);
    }
  }
}

/** A run in which an upsert-only instance puts a CNAME beside an address record
    (plan/policy.go, plan/conflict.go). */
module Displacement {
  import opened Wrappers
  import opened Sorting
  import opened Targets
  import opened Records
  import opened PlanSpec
  import opened Reconcile
  import opened Runs

  function PlainWorld(net: Net): World {
    World(net, s => s, ["A", CNAME], [])
  }

  function Upserter(): Instance {
    Instance(s => true, [UpsertOnlyPolicy], "me", "")
  }

  const HELD := Record("x", ["1.1.1.1"], "A", "", 0, map[OWNER_LABEL := "me"], [])
  const DESIRED := Record("x", ["y"], CNAME, "", 0, map[], [])

  const ROW := PlanKey("x", "")

  /** The zone holds an address that the instance owns. */
  function Before(): State {
    map[Slot(ROW, "A") := HELD]
  }

  /** The instance wants a CNAME instead. */
  function DisplacingTurn(): Turn {
    Turn(Upserter(), [DESIRED], [HELD], NOTHING.(create := [DESIRED]))
  }

  lemma FilterOne<T>(p: T -> bool, x: T)
    ensures Filter(p, [x]) == if p(x) then [x] else []
  {
    FilterSnoc(p, [], x);
    assert [] + [x] == [x];
  }

  /** Of a single desired record, an instance wants that record in its own cell if it sees it. */
  lemma WantedOfOne(w: World, i: Instance, d: Record, s: Slot)
    ensures Wanted(w, i, [d], s) == if VisibleTo(w, i)(d) && SlotOf(w, d) == s then [d] else []
  {
    hide Filter, VisibleTo, KeyOf, HasConflict;
    FilterOne(VisibleTo(w, i), d);
    FilterOne(InRow(w, s.key), d);
    FilterEmpty(InRow(w, s.key), []);
    var cs := RowOf(w, i, [], [d], s.key).candidates;
    assert cs == if VisibleTo(w, i)(d) && KeyOf(w, d) == s.key then [d] else [];
    ResolvedOfOne(cs, d, s.recordType);
  }

  lemma ResolvedOfOne(cs: seq<Record>, d: Record, t: string)
    requires cs == [] || cs == [d]
    ensures Resolved(cs, t) == if cs != [] && d.recordType == t then [d] else []
  {
    hide Filter;
    assert !HasConflict(cs);
    FilterOne(OfType(t), d);
    FilterEmpty(OfType(t), []);
  }

  /** The name is its own normal form and both record types are managed. */
  ghost predicate Plain(w: World) {
    w.normalize("x") == "x" && w.managed == ["A", CNAME] && w.excluded == []
  }

  lemma PlacesBoth(w: World)
    requires Plain(w)
    ensures IsManagedRecord(w, "A") && VisibleTo(w, Upserter())(HELD) && SlotOf(w, HELD) == Slot(ROW, "A")
    ensures VisibleTo(w, Upserter())(DESIRED) && SlotOf(w, DESIRED) == Slot(ROW, CNAME)
  {
    assert w.managed[0] in w.managed && w.managed[1] in w.managed;
  }

  lemma ListsTheState(w: World)
    requires Plain(w)
    ensures ValidState(w, Before()) && IsListing(w, Before(), [HELD])
  {
    hide IsManagedRecord, VisibleTo;
    PlacesBoth(w);
    forall s ensures Filter(InSlot(w, s), [HELD]) == if s in Before() then [Before()[s]] else [] {
      FilterOne(InSlot(w, s), HELD);
    }
  }

  lemma PlansTheCreate(w: World, s: Slot)
    requires Plain(w)
    ensures Project(w, DisplacingTurn().changes, s) == PlanSlot(w, Upserter(), [HELD], [DESIRED], s)
  {
    hide IsManagedRecord, VisibleTo, Wanted, PlanSlot, NeedsUpdate, ResolveCreate, ValidState, IsListing;
    var i := Upserter();
    PlacesBoth(w);
    ListsTheState(w);
    PlanDecides(w, i, Before(), [HELD], [DESIRED], s);
    WantedOfOne(w, i, DESIRED, s);
    FilterOne(InSlot(w, s), DESIRED);
    if s == Slot(ROW, CNAME) {
      assert ResolveCreate(w.net, [DESIRED]) in [DESIRED];
      assert Claim(w, i, Before(), ROW);
    }
  }

  lemma TurnIsValid(w: World)
    requires Plain(w)
    ensures ValidTurn(w, Before(), DisplacingTurn())
  {
    hide IsManagedRecord, VisibleTo, PlanSlot, Project;
    var t := DisplacingTurn();
    ListsTheState(w);
    assert NamesAgree(w, t.inst);
    forall s ensures Project(w, t.changes, s) == PlanSlot(w, t.inst, t.current, t.desired, s) {
      PlansTheCreate(w, s);
    }
    assert Paired(w, t.changes);
  }

  lemma FillsTheRow(w: World)
    requires Plain(w)
    ensures FillsBesideOtherKind(w, Before(), DisplacingTurn(), Slot(ROW, CNAME), Slot(ROW, "A"))
  {
    hide IsManagedRecord, VisibleTo, Wanted;
    PlacesBoth(w);
    WantedOfOne(w, Upserter(), DESIRED, Slot(ROW, CNAME));
    assert Claim(w, Upserter(), Before(), ROW);
  }

  /** One upsert-only turn takes a row from "only an address" to "an address and a CNAME",
      although the instance owns the row. */
  lemma UpsertOnlyBreaksExclusivity(net: Net)
    ensures var w := PlainWorld(net);
            && ValidTurn(w, Before(), DisplacingTurn())
            && Exclusive(Before()) && !Exclusive(Next(w, Before(), DisplacingTurn()))
  {
    var w := PlainWorld(net);
    TurnIsValid(w);
    FillsTheRow(w);
    ExclusiveWithoutDeletes(w, Before(), DisplacingTurn());
  }
}

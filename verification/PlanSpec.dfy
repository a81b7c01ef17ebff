/** What a plan must contain, cell by cell of the plan table. Nothing here depends on the
    order in which the planner visits rows or record types (plan/plan.go, plan/conflict.go,
    plan/policy.go). */
module PlanSpec {
  import opened Wrappers
  import opened Sorting
  import opened Targets
  import opened Records

  datatype Policy = SyncPolicy | UpsertOnlyPolicy | CreateOnlyPolicy

  /** One running copy of the tool. */
  datatype Instance = Instance(matches: string -> bool, policies: seq<Policy>, owner: string, oldOwner: string)

  datatype Changes = Changes(
    create: seq<Record>, updateOld: seq<Record>, updateNew: seq<Record>, delete: seq<Record>)

  const NOTHING := Changes([], [], [], [])

  /** The records of one planTableRow, before they are grouped by type. */
  datatype Row = Row(current: seq<Record>, candidates: seq<Record>)

  // ---- conflict resolution ----

  /** compareEndpoints, as a less-than. */
  function RecordOrder(net: Net): (Record, Record) -> bool {
    (a: Record, b: Record) => IsLess(net, a.targets, b.targets)
  }

  function ResolveCreate(net: Net, candidates: seq<Record>): (r: Record)
    requires candidates != []
    ensures r in candidates
  {
    Min(RecordOrder(net), candidates)
  }

  /** The first candidate, in stable order, of the resource that holds the record;
      without one, whatever a create would pick. */
  function ResolveUpdate(net: Net, current: Record, candidates: seq<Record>): (r: Record)
    requires candidates != []
    ensures r in candidates
  {
    var sorted := Sort(RecordOrder(net), candidates);
    var own := Filter(HasResource(Label(current, RESOURCE_LABEL)), sorted);
    if own != [] then own[0] else ResolveCreate(net, sorted)
  }

  /** Both a CNAME and some other type are wanted in this row. */
  predicate HasConflict(candidates: seq<Record>) {
    && (exists c | c in candidates :: c.recordType == CNAME)
    && (exists c | c in candidates :: c.recordType != CNAME)
  }

  /** The candidates of one type after ResolveRecordTypes: a conflict discards CNAMEs. */
  function Resolved(candidates: seq<Record>, recordType: string): (r: seq<Record>)
    ensures forall c | c in r :: c in candidates && c.recordType == recordType
  {
    if recordType == CNAME && HasConflict(candidates) then []
    else Filter(OfType(recordType), candidates)
  }

  /** A type keeps all its candidates, in order, unless it is CNAME and the row wants another
      type as well: then it keeps none. */
  lemma ResolvedExactly(candidates: seq<Record>, recordType: string)
    ensures recordType != CNAME || (forall c | c in candidates :: c.recordType == CNAME) ==>
              Resolved(candidates, recordType) == Filter(OfType(recordType), candidates)
    ensures recordType == CNAME && (exists c | c in candidates :: c.recordType != CNAME) ==>
              Resolved(candidates, recordType) == []
  {
    if recordType == CNAME && !HasConflict(candidates) && exists c | c in candidates :: c.recordType != CNAME {
      FilterEmpty(OfType(CNAME), candidates);
    }
  }

  // ---- one cell of the table ----

  function Last<T>(s: seq<T>): Option<T> {
    if s == [] then None else Some(s[|s| - 1])
  }

  /** When several current records of one type are listed, the last of them is the one held. */
  lemma {:induction false} LastIsHeld(current: seq<Record>, recordType: string, k: nat)
    requires k < |current| && current[k].recordType == recordType
    requires forall j | k < j < |current| :: current[j].recordType != recordType
    ensures Last(Filter(OfType(recordType), current)) == Some(current[k])
  {
    if k < |current| - 1 { LastIsHeld(current[..|current| - 1], recordType, k); }
  }

  predicate NeedsUpdate(w: World, i: Instance, update: Record, current: Record) {
    || ShouldUpdateTTL(update, current)
    || !Same(w.net, update.targets, current.targets)
    || ProviderSpecificChanged(update, current)
    || (i.oldOwner != "" && Label(current, OWNER_LABEL) != i.oldOwner)
  }

  predicate OwnersMatch(i: Instance, current: seq<Record>) {
    i.owner == "" || forall c | c in current :: IsOwnedBy(c, i.owner)
  }

  /** appendEndpointUpdates. */
  function UpdateOf(w: World, i: Instance, held: Record, cs: seq<Record>): Changes
    requires cs != []
  {
    var u := ResolveUpdate(w.net, held, cs);
    if NeedsUpdate(w, i, u, held)
    then NOTHING.(updateOld := [held], updateNew := [InheritOwner(held, u)])
    else NOTHING
  }

  /** The three cases of calculatePlanTableRowChanges. */
  function CellChanges(w: World, i: Instance, held: Option<Record>, cs: seq<Record>): Changes {
    if held.Some? then
      if cs == [] then NOTHING.(delete := [held.value]) else UpdateOf(w, i, held.value, cs)
    else if cs != [] then NOTHING.(create := [ResolveCreate(w.net, cs)])
    else NOTHING
  }

  /** calculatePlanTableRowChanges for one record type. */
  function TypeChanges(w: World, i: Instance, row: Row, recordType: string): Changes {
    CellChanges(w, i, Last(Filter(OfType(recordType), row.current)), Resolved(row.candidates, recordType))
  }

  /** appendTakenDNSNameChanges: creates need a claim on the whole row. */
  function TakenChanges(w: World, i: Instance, row: Row, recordType: string): Changes {
    var ch := TypeChanges(w, i, row, recordType);
    if OwnersMatch(i, row.current) then ch else ch.(create := [])
  }

  /** The three cases of calculateChanges. */
  function RowChanges(w: World, i: Instance, row: Row, recordType: string): Changes {
    if row.current == [] then
      var cs := Resolved(row.candidates, recordType);
      if cs == [] then NOTHING else NOTHING.(create := [ResolveCreate(w.net, cs)])
    else if row.candidates == [] then NOTHING.(delete := Filter(OfType(recordType), row.current))
    else TakenChanges(w, i, row, recordType)
  }

  // ---- policies and owner filters ----

  function ApplyPolicy(p: Policy, ch: Changes): Changes {
    match p
    case SyncPolicy => ch
    case UpsertOnlyPolicy => ch.(delete := [])
    case CreateOnlyPolicy => NOTHING.(create := ch.create)
  }

  function ApplyPolicies(ps: seq<Policy>, ch: Changes): Changes {
    if ps == [] then ch
    else ApplyPolicy(ps[|ps| - 1], ApplyPolicies(ps[..|ps| - 1], ch))
  }

  /** Endpoint.Key, on the name as written. */
  datatype EndpointKey = EndpointKey(dnsName: string, recordType: string, setIdentifier: string)

  function KeyAsWritten(r: Record): EndpointKey {
    EndpointKey(r.dnsName, r.recordType, r.setIdentifier)
  }

  predicate Visited(rs: seq<Record>, key: EndpointKey) {
    exists r | r in rs :: KeyAsWritten(r) == key
  }

  /** The first record of every key. */
  function RemoveDuplicates(rs: seq<Record>): seq<Record> {
    if rs == [] then []
    else
      var init, last := rs[..|rs| - 1], rs[|rs| - 1];
      if Visited(init, KeyAsWritten(last)) then RemoveDuplicates(init)
      else RemoveDuplicates(init) + [last]
  }

  function FilterByOwner(owner: string, ch: Changes): Changes {
    if owner == "" then ch
    else Changes(
           ch.create,
           Filter(OwnedBy(owner), ch.updateOld),
           Filter(OwnedBy(owner), ch.updateNew),
           RemoveDuplicates(Filter(OwnedBy(owner), ch.delete)))
  }

  function Finish(i: Instance, ch: Changes): Changes {
    FilterByOwner(i.owner, ApplyPolicies(i.policies, ch))
  }

  // ---- the whole plan ----

  function VisibleTo(w: World, i: Instance): Record -> bool {
    (r: Record) => i.matches(r.dnsName) && IsManagedRecord(w, r.recordType)
  }

  function RowOf(w: World, i: Instance, current: seq<Record>, desired: seq<Record>, key: PlanKey): Row {
    Row(Filter(InRow(w, key), Filter(VisibleTo(w, i), current)),
        Filter(InRow(w, key), Filter(VisibleTo(w, i), desired)))
  }

  /** Everything a plan says about one cell. */
  function PlanSlot(w: World, i: Instance, current: seq<Record>, desired: seq<Record>, slot: Slot): Changes {
    Finish(i, RowChanges(w, i, RowOf(w, i, current, desired, slot.key), slot.recordType))
  }

  /** The changes of the records that satisfy p. */
  function Part(p: Record -> bool, ch: Changes): Changes {
    Changes(Filter(p, ch.create), Filter(p, ch.updateOld), Filter(p, ch.updateNew), Filter(p, ch.delete))
  }

  function Project(w: World, ch: Changes, slot: Slot): Changes {
    Part(InSlot(w, slot), ch)
  }

  /** UpdateOld and UpdateNew go together index by index. */
  ghost predicate Paired(w: World, ch: Changes) {
    && |ch.updateOld| == |ch.updateNew|
    && forall k | 0 <= k < |ch.updateOld| :: SlotOf(w, ch.updateOld[k]) == SlotOf(w, ch.updateNew[k])
  }

  /** ch is a plan: each cell of the table holds exactly the changes it calls for. */
  ghost predicate IsPlan(w: World, i: Instance, current: seq<Record>, desired: seq<Record>, ch: Changes) {
    && (forall slot :: Project(w, ch, slot) == PlanSlot(w, i, current, desired, slot))
    && Paired(w, ch)
  }

  predicate HasChanges(ch: Changes) {
    |ch.create| > 0 || |ch.delete| > 0 || ch.updateNew != ch.updateOld
  }

  // ---- the finishing steps act cell by cell ----

  predicate AllowsUpdate(ps: seq<Policy>) { CreateOnlyPolicy !in ps }

  predicate AllowsDelete(ps: seq<Policy>) { CreateOnlyPolicy !in ps && UpsertOnlyPolicy !in ps }

  /** Policies only strip lists; which ones depends on the set of policies alone. */
  lemma {:induction false} PoliciesStrip(ps: seq<Policy>, ch: Changes)
    ensures ApplyPolicies(ps, ch) == Changes(
                                       ch.create,
                                       if AllowsUpdate(ps) then ch.updateOld else [],
                                       if AllowsUpdate(ps) then ch.updateNew else [],
                                       if AllowsDelete(ps) then ch.delete else [])
  {
    if ps != [] {
      var init, last := ps[..|ps| - 1], ps[|ps| - 1];
      PoliciesStrip(init, ch);
      assert ps == init + [last];
    }
  }

  lemma FiltersCommute(p: Record -> bool, q: Record -> bool, s: seq<Record>)
    ensures Filter(p, Filter(q, s)) == Filter(q, Filter(p, s))
  {
    var both := (r: Record) => p(r) && q(r);
    FilterFilter(p, q, both, s);
    FilterFilter(q, p, both, s);
  }

  lemma RemoveDuplicatesSnoc(rs: seq<Record>, r: Record)
    ensures RemoveDuplicates(rs + [r]) ==
            if Visited(rs, KeyAsWritten(r)) then RemoveDuplicates(rs) else RemoveDuplicates(rs) + [r]
  {
    assert (rs + [r])[..|rs|] == rs;
  }

  /** The positions, in order, of the records that are the first of their name, type and set
      identifier. */
  ghost predicate AreFirstPositions(rs: seq<Record>, at: seq<nat>) {
    && (forall i, j | 0 <= i < j < |at| :: at[i] < at[j])
    && (forall k: nat :: k in at <==> k < |rs| && IsFirstNamed(rs, k))
  }

  ghost predicate IsFirstNamed(rs: seq<Record>, k: nat)
    requires k < |rs|
  {
    forall j | 0 <= j < k ::
      rs[j].dnsName != rs[k].dnsName || rs[j].recordType != rs[k].recordType || rs[j].setIdentifier != rs[k].setIdentifier
  }

  ghost predicate Picks(rs: seq<Record>, at: seq<nat>, r: seq<Record>) {
    |r| == |at| && forall i | 0 <= i < |at| :: at[i] < |rs| && r[i] == rs[at[i]]
  }

  /** RemoveDuplicates picks exactly the first record of every name, type and set identifier. */
  lemma {:induction false} RemoveDuplicatesExactly(rs: seq<Record>) returns (at: seq<nat>)
    ensures AreFirstPositions(rs, at) && Picks(rs, at, RemoveDuplicates(rs))
  {
    if rs == [] {
      at := [];
    } else {
      var n := |rs| - 1;
      var init := rs[..n];
      at := RemoveDuplicatesExactly(init);
      forall k: nat | k < n ensures IsFirstNamed(rs, k) <==> IsFirstNamed(init, k) {
        assert forall j | 0 <= j <= k :: init[j] == rs[j];
      }
      VisitedExactly(rs, n);
      hide Visited, KeyAsWritten, IsFirstNamed;
      if !Visited(init, KeyAsWritten(rs[n])) { at := at + [n]; }
    }
  }

  lemma VisitedExactly(rs: seq<Record>, n: nat)
    requires n < |rs|
    ensures Visited(rs[..n], KeyAsWritten(rs[n])) <==> !IsFirstNamed(rs, n)
  {
    if r :| r in rs[..n] && KeyAsWritten(r) == KeyAsWritten(rs[n]) {
      var j :| 0 <= j < n && rs[..n][j] == r;
      assert KeyAsWritten(rs[j]) == KeyAsWritten(rs[n]);
    }
    if !IsFirstNamed(rs, n) {
      var j :| 0 <= j < n && rs[j].dnsName == rs[n].dnsName && rs[j].recordType == rs[n].recordType
               && rs[j].setIdentifier == rs[n].setIdentifier;
      assert rs[..n][j] in rs[..n] && KeyAsWritten(rs[..n][j]) == KeyAsWritten(rs[n]);
    }
  }

  lemma VisitedInSlot(w: World, slot: Slot, rs: seq<Record>, r: Record)
    requires SlotOf(w, r) == slot
    ensures Visited(rs, KeyAsWritten(r)) == Visited(Filter(InSlot(w, slot), rs), KeyAsWritten(r))
  {
    if x :| x in rs && KeyAsWritten(x) == KeyAsWritten(r) {
      assert InSlot(w, slot)(x);
      assert x in Filter(InSlot(w, slot), rs);
    }
  }

  lemma {:induction false} RemoveDuplicatesInSlot(w: World, slot: Slot, rs: seq<Record>)
    ensures Filter(InSlot(w, slot), RemoveDuplicates(rs)) == RemoveDuplicates(Filter(InSlot(w, slot), rs))
  {
    if rs != [] {
      var p := InSlot(w, slot);
      var init, last := rs[..|rs| - 1], rs[|rs| - 1];
      RemoveDuplicatesInSlot(w, slot, init);
      FilterSnoc(p, RemoveDuplicates(init), last);
      RemoveDuplicatesSnoc(Filter(p, init), last);
      if p(last) { VisitedInSlot(w, slot, init, last); }
    }
  }

  /** Policies, owner filters and deduplication work on each cell independently. */
  lemma FinishInSlot(w: World, i: Instance, ch: Changes, slot: Slot)
    ensures Project(w, Finish(i, ch), slot) == Finish(i, Project(w, ch, slot))
  {
    var p := InSlot(w, slot);
    PoliciesStrip(i.policies, ch);
    PoliciesStrip(i.policies, Project(w, ch, slot));
    var ch' := ApplyPolicies(i.policies, ch);
    assert ApplyPolicies(i.policies, Project(w, ch, slot)) == Project(w, ch', slot);
    if i.owner != "" {
      FiltersCommute(p, OwnedBy(i.owner), ch'.updateOld);
      FiltersCommute(p, OwnedBy(i.owner), ch'.updateNew);
      FiltersCommute(p, OwnedBy(i.owner), ch'.delete);
      RemoveDuplicatesInSlot(w, slot, Filter(OwnedBy(i.owner), ch'.delete));
    }
  }
}

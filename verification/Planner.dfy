/** The planner as it runs: a table of rows filled in place, visited in an arbitrary order
    (plan/plan.go, plan/conflict.go, plan/policy.go). Calculate refines PlanSpec. */
module Planner {
  import opened Wrappers
  import opened Sorting
  import opened Targets
  import opened Records
  import opened PlanSpec

  // ---- endpoints as objects and as records ----

  /** What a list of endpoints says now. */
  ghost function Values(es: seq<Endpoint>): (r: seq<Record>)
    reads es
    ensures |r| == |es|
    ensures forall k | 0 <= k < |es| :: r[k] == es[k].Value()
  {
    seq(|es|, k requires 0 <= k < |es| reads es => es[k].Value())
  }

  lemma ValuesSnoc(es: seq<Endpoint>, e: Endpoint)
    ensures Values(es + [e]) == Values(es) + [e.Value()]
  {
  }

  lemma {:induction false} ValuesFilter(p: Endpoint -> bool, q: Record -> bool, es: seq<Endpoint>)
    requires forall e | e in es :: p(e) == q(e.Value())
    ensures Values(Filter(p, es)) == Filter(q, Values(es))
  {
    if es != [] {
      var init, last := es[..|es| - 1], es[|es| - 1];
      assert es == init + [last];
      ValuesFilter(p, q, init);
      ValuesSnoc(init, last);
      FilterSnoc(p, init, last);
      FilterSnoc(q, Values(init), last.Value());
      if p(last) { ValuesSnoc(Filter(p, init), last); }
    }
  }

  function EndpointRow(w: World, e: Endpoint): PlanKey {
    PlanKey(w.normalize(e.dnsName), e.setIdentifier)
  }

  function ObjectInRow(w: World, key: PlanKey): Endpoint -> bool { (e: Endpoint) => EndpointRow(w, e) == key }

  function ObjectOfType(t: string): Endpoint -> bool { (e: Endpoint) => e.recordType == t }

  function ObjectVisible(w: World, i: Instance): Endpoint -> bool {
    (e: Endpoint) => i.matches(e.dnsName) && IsManagedRecord(w, e.recordType)
  }

  function ObjectOrder(net: Net): (Endpoint, Endpoint) -> bool {
    (a: Endpoint, b: Endpoint) => IsLess(net, a.targets, b.targets)
  }

  lemma ValuesCons(e: Endpoint, es: seq<Endpoint>)
    ensures Values([e] + es) == [e.Value()] + Values(es)
  {
  }

  lemma {:induction false} ValuesInsert(net: Net, e: Endpoint, es: seq<Endpoint>)
    ensures Values(Insert(ObjectOrder(net), e, es)) == Insert(RecordOrder(net), e.Value(), Values(es))
  {
    if es == [] {
    } else if !IsLess(net, es[0].targets, e.targets) {
      ValuesCons(e, es);
    } else {
      var t := es[1..];
      ValuesInsert(net, e, t);
      ValuesCons(es[0], Insert(ObjectOrder(net), e, t));
      assert Values(t) == Values(es)[1..];
    }
  }

  lemma {:induction false} ValuesSort(net: Net, es: seq<Endpoint>)
    ensures Values(Sort(ObjectOrder(net), es)) == Sort(RecordOrder(net), Values(es))
  {
    if es != [] {
      var t := es[1..];
      ValuesSort(net, t);
      ValuesInsert(net, es[0], Sort(ObjectOrder(net), t));
      assert Values(t) == Values(es)[1..];
      assert Values(es)[0] == es[0].Value();
    }
  }

  // ---- the table ----

  datatype DomainEndpoints = DomainEndpoints(current: Endpoint?, candidates: seq<Endpoint>)

  datatype TableRow = TableRow(
    current: seq<Endpoint>, candidates: seq<Endpoint>, records: map<string, DomainEndpoints>)

  function LastObject(es: seq<Endpoint>): Endpoint? {
    if es == [] then null else es[|es| - 1]
  }

  /** The grouping by type agrees with the two lists of the row. */
  ghost predicate Grouped(row: TableRow) {
    && (forall e | e in row.current :: e.recordType in row.records)
    && (forall e | e in row.candidates :: e.recordType in row.records)
    && (forall t | t in row.records ::
          && row.records[t].current == LastObject(Filter(ObjectOfType(t), row.current))
          && row.records[t].candidates == Filter(ObjectOfType(t), row.candidates))
  }

  /** planTable. */
  class PlanTable {
    var rows: map<PlanKey, TableRow>

    constructor ()
      ensures rows == map[]
    {
      rows := map[];
    }

    ghost predicate Holds(w: World, cs: seq<Endpoint>, ds: seq<Endpoint>)
      reads this
    {
      HoldsRows(w, rows, cs, ds)
    }

    /** newPlanKey: make room for e. */
    method NewPlanKey(w: World, e: Endpoint, ghost cs: seq<Endpoint>, ghost ds: seq<Endpoint>) returns (key: PlanKey)
      requires Holds(w, cs, ds)
      modifies this
      ensures key == EndpointRow(w, e)
      ensures Holds(w, cs, ds)
      ensures key in rows && e.recordType in rows[key].records
    {
      hide HoldsRows;
      key := PlanKey(w.normalize(e.dnsName), e.setIdentifier);
      if key !in rows {
        RowAdded(w, rows, key, cs, ds);
        rows := rows[key := TableRow([], [], map[])];
      }
      var row := rows[key];
      if e.recordType !in row.records {
        TypeAdded(w, rows, key, e.recordType, cs, ds);
        rows := rows[key := row.(records := row.records[e.recordType := DomainEndpoints(null, [])])];
      }
    }

    method AddCurrent(w: World, e: Endpoint, ghost cs: seq<Endpoint>, ghost ds: seq<Endpoint>)
      requires Holds(w, cs, ds)
      modifies this
      ensures Holds(w, cs + [e], ds)
    {
      var key := NewPlanKey(w, e, cs, ds);
      var row := rows[key];
      RowsAfter(w, rows, e, cs, ds);
      rows := rows[key := row.(current := row.current + [e],
                               records := row.records[e.recordType := row.records[e.recordType].(current := e)])];
    }

    method AddCandidate(w: World, e: Endpoint, ghost cs: seq<Endpoint>, ghost ds: seq<Endpoint>)
      requires Holds(w, cs, ds)
      modifies this
      ensures Holds(w, cs, ds + [e])
    {
      var key := NewPlanKey(w, e, cs, ds);
      var row := rows[key];
      var group := row.records[e.recordType];
      RowsAfter(w, rows, e, cs, ds);
      rows := rows[key := row.(candidates := row.candidates + [e],
                               records := row.records[e.recordType := group.(candidates := group.candidates + [e])])];
    }
  }

  /** A row holds exactly the endpoints with its key, grouped by type. */
  ghost predicate HoldsRow(w: World, k: PlanKey, row: TableRow, cs: seq<Endpoint>, ds: seq<Endpoint>) {
    && Grouped(row)
    && row.current == Filter(ObjectInRow(w, k), cs)
    && row.candidates == Filter(ObjectInRow(w, k), ds)
  }

  /** The table holds exactly the given current and desired endpoints. */
  ghost predicate HoldsRows(w: World, rows: map<PlanKey, TableRow>, cs: seq<Endpoint>, ds: seq<Endpoint>) {
    && (forall e | e in cs :: EndpointRow(w, e) in rows)
    && (forall e | e in ds :: EndpointRow(w, e) in rows)
    && (forall k | k in rows :: HoldsRow(w, k, rows[k], cs, ds))
  }

  lemma OtherRow(w: World, k: PlanKey, row: TableRow, e: Endpoint, cs: seq<Endpoint>, ds: seq<Endpoint>)
    requires HoldsRow(w, k, row, cs, ds) && EndpointRow(w, e) != k
    ensures HoldsRow(w, k, row, cs + [e], ds) && HoldsRow(w, k, row, cs, ds + [e])
  {
    FilterSnoc(ObjectInRow(w, k), cs, e);
    FilterSnoc(ObjectInRow(w, k), ds, e);
  }

  function WithCurrent(row: TableRow, e: Endpoint): TableRow
    requires e.recordType in row.records
  {
    row.(current := row.current + [e],
         records := row.records[e.recordType := row.records[e.recordType].(current := e)])
  }

  function WithCandidate(row: TableRow, e: Endpoint): TableRow
    requires e.recordType in row.records
  {
    var group := row.records[e.recordType];
    row.(candidates := row.candidates + [e],
         records := row.records[e.recordType := group.(candidates := group.candidates + [e])])
  }

  lemma OwnRow(w: World, k: PlanKey, row: TableRow, e: Endpoint, cs: seq<Endpoint>, ds: seq<Endpoint>)
    requires HoldsRow(w, k, row, cs, ds) && EndpointRow(w, e) == k && e.recordType in row.records
    ensures HoldsRow(w, k, WithCurrent(row, e), cs + [e], ds)
    ensures HoldsRow(w, k, WithCandidate(row, e), cs, ds + [e])
  {
    FilterSnoc(ObjectInRow(w, k), cs, e);
    FilterSnoc(ObjectInRow(w, k), ds, e);
    GroupedAfterCurrent(row, WithCurrent(row, e), e);
    GroupedAfterCandidate(row, WithCandidate(row, e), e);
  }

  /** Replacing the row of e and checking the others is enough. */
  lemma RowsReplaced(w: World, rows: map<PlanKey, TableRow>, key: PlanKey, row: TableRow, cs: seq<Endpoint>, ds: seq<Endpoint>)
    requires forall e | e in cs :: EndpointRow(w, e) in rows
    requires forall e | e in ds :: EndpointRow(w, e) in rows
    requires HoldsRow(w, key, row, cs, ds)
    requires forall k | k in rows && k != key :: HoldsRow(w, k, rows[k], cs, ds)
    ensures HoldsRows(w, rows[key := row], cs, ds)
  {
  }

  lemma RowsAfter(w: World, rows: map<PlanKey, TableRow>, e: Endpoint, cs: seq<Endpoint>, ds: seq<Endpoint>)
    requires HoldsRows(w, rows, cs, ds)
    requires EndpointRow(w, e) in rows && e.recordType in rows[EndpointRow(w, e)].records
    ensures var key := EndpointRow(w, e);
            && HoldsRows(w, rows[key := WithCurrent(rows[key], e)], cs + [e], ds)
            && HoldsRows(w, rows[key := WithCandidate(rows[key], e)], cs, ds + [e])
  {
    var key := EndpointRow(w, e);
    OwnRow(w, key, rows[key], e, cs, ds);
    forall k | k in rows && k != key
      ensures HoldsRow(w, k, rows[k], cs + [e], ds)
      ensures HoldsRow(w, k, rows[k], cs, ds + [e])
    {
      OtherRow(w, k, rows[k], e, cs, ds);
    }
    RowsReplaced(w, rows, key, WithCurrent(rows[key], e), cs + [e], ds);
    RowsReplaced(w, rows, key, WithCandidate(rows[key], e), cs, ds + [e]);
  }

  lemma EmptyRow(w: World, k: PlanKey, cs: seq<Endpoint>, ds: seq<Endpoint>)
    requires forall e | e in cs :: EndpointRow(w, e) != k
    requires forall e | e in ds :: EndpointRow(w, e) != k
    ensures HoldsRow(w, k, TableRow([], [], map[]), cs, ds)
  {
    FilterEmpty(ObjectInRow(w, k), cs);
    FilterEmpty(ObjectInRow(w, k), ds);
  }

  lemma NoneOfType(row: TableRow, t: string)
    requires Grouped(row) && t !in row.records
    ensures Grouped(row.(records := row.records[t := DomainEndpoints(null, [])]))
  {
    FilterEmpty(ObjectOfType(t), row.current);
    FilterEmpty(ObjectOfType(t), row.candidates);
  }

  lemma RowAdded(w: World, rows: map<PlanKey, TableRow>, key: PlanKey, cs: seq<Endpoint>, ds: seq<Endpoint>)
    requires HoldsRows(w, rows, cs, ds) && key !in rows
    ensures HoldsRows(w, rows[key := TableRow([], [], map[])], cs, ds)
  {
    hide HoldsRow;
    EmptyRow(w, key, cs, ds);
  }

  lemma TypeAdded(w: World, rows: map<PlanKey, TableRow>, key: PlanKey, t: string, cs: seq<Endpoint>, ds: seq<Endpoint>)
    requires HoldsRows(w, rows, cs, ds) && key in rows && t !in rows[key].records
    ensures var row := rows[key];
            HoldsRows(w, rows[key := row.(records := row.records[t := DomainEndpoints(null, [])])], cs, ds)
  {
    hide Grouped;
    NoneOfType(rows[key], t);
  }

  lemma GroupedAfterCurrent(row: TableRow, row': TableRow, e: Endpoint)
    requires Grouped(row) && e.recordType in row.records
    requires row' == row.(current := row.current + [e],
                          records := row.records[e.recordType := row.records[e.recordType].(current := e)])
    ensures Grouped(row')
  {
    forall t | t in row'.records
      ensures row'.records[t].current == LastObject(Filter(ObjectOfType(t), row'.current))
      ensures row'.records[t].candidates == Filter(ObjectOfType(t), row'.candidates)
    {
      FilterSnoc(ObjectOfType(t), row.current, e);
      assert t != e.recordType ==> row'.records[t] == row.records[t];
    }
  }

  lemma GroupedAfterCandidate(row: TableRow, row': TableRow, e: Endpoint)
    requires Grouped(row) && e.recordType in row.records
    requires var group := row.records[e.recordType];
             row' == row.(candidates := row.candidates + [e],
                          records := row.records[e.recordType := group.(candidates := group.candidates + [e])])
    ensures Grouped(row')
  {
    forall t | t in row'.records
      ensures row'.records[t].current == LastObject(Filter(ObjectOfType(t), row'.current))
      ensures row'.records[t].candidates == Filter(ObjectOfType(t), row'.candidates)
    {
      FilterSnoc(ObjectOfType(t), row.candidates, e);
      assert t != e.recordType ==> row'.records[t] == row.records[t];
    }
  }

  // ---- the change lists ----

  /** plan.Changes. */
  class ChangeSet {
    var create: seq<Endpoint>
    var updateOld: seq<Endpoint>
    var updateNew: seq<Endpoint>
    var delete: seq<Endpoint>

    constructor ()
      ensures create == updateOld == updateNew == delete == []
    {
      create, updateOld, updateNew, delete := [], [], [], [];
    }

    ghost function Objects(): set<Endpoint>
      reads this
    {
      set e | e in create + updateOld + updateNew + delete
    }

    ghost function Contents(): Changes
      reads this, Objects()
    {
      Changes(Values(create), Values(updateOld), Values(updateNew), Values(delete))
    }
  }

  // ---- the resolver ----

  /** slices.MinFunc over endpoints. */
  method ResolveCreateObject(net: Net, candidates: seq<Endpoint>) returns (m: Endpoint)
    requires candidates != []
    ensures m in candidates
    ensures m.Value() == ResolveCreate(net, Values(candidates))
  {
    m := candidates[0];
    var k := 1;
    ghost var vs := Values(candidates);
    assert vs[1..1] == [];
    while k < |candidates|
      invariant 1 <= k <= |candidates|
      invariant m in candidates
      invariant m.Value() == MinFrom(RecordOrder(net), vs[0], vs[1..k])
    {
      MinOfPrefix(net, vs, k);
      if IsLess(net, candidates[k].targets, m.targets) {
        m := candidates[k];
      }
      k := k + 1;
    }
    assert vs[1..k] == vs[1..];
  }

  lemma MinOfPrefix(net: Net, vs: seq<Record>, k: nat)
    requires 1 <= k < |vs|
    ensures var m := MinFrom(RecordOrder(net), vs[0], vs[1..k]);
            MinFrom(RecordOrder(net), vs[0], vs[1..k + 1]) == if RecordOrder(net)(vs[k], m) then vs[k] else m
  {
    MinFromSnoc(RecordOrder(net), vs[0], vs[1..k], vs[k]);
    assert vs[1..k + 1] == vs[1..k] + [vs[k]];
  }

  /** The search loop of ResolveUpdate: the first endpoint of the resource, or null. */
  method FirstOfResource(es: seq<Endpoint>, resource: string) returns (found: Endpoint?)
    ensures var own := Filter(HasResource(resource), Values(es));
            if found == null then own == [] else found in es && own != [] && found.Value() == own[0]
  {
    ghost var vs := Values(es);
    var k := 0;
    while k < |es|
      invariant 0 <= k <= |es|
      invariant forall j | 0 <= j < k :: !HasResource(resource)(vs[j])
    {
      var r := if RESOURCE_LABEL in es[k].labels then es[k].labels[RESOURCE_LABEL] else "";
      assert r == Label(vs[k], RESOURCE_LABEL);
      if r == resource {
        FirstOfFilter(HasResource(resource), vs, k);
        return es[k];
      }
      k := k + 1;
    }
    FilterEmpty(HasResource(resource), vs);
    found := null;
  }

  method ResolveUpdateObject(net: Net, current: Endpoint, candidates: seq<Endpoint>) returns (u: Endpoint)
    requires candidates != []
    ensures u in candidates
    ensures u.Value() == ResolveUpdate(net, current.Value(), Values(candidates))
  {
    hide Sort, ObjectOrder, RecordOrder, Filter;
    var resource := if RESOURCE_LABEL in current.labels then current.labels[RESOURCE_LABEL] else "";
    var sorted := Sort(ObjectOrder(net), candidates);
    var found := FirstOfResource(sorted, resource);
    ghost var vs := Sort(RecordOrder(net), Values(candidates));
    assert Values(sorted) == vs by { ValuesSort(net, candidates); }
    if found != null {
      u := found;
    } else {
      u := ResolveCreateObject(net, sorted);
    }
  }

  lemma {:induction false} FirstOfFilter<T>(p: T -> bool, s: seq<T>, k: nat)
    requires k < |s| && p(s[k]) && forall j | 0 <= j < k :: !p(s[j])
    ensures Filter(p, s) != [] && Filter(p, s)[0] == s[k]
  {
    assert s == [s[0]] + s[1..];
    FilterCons(p, s[0], s[1..]);
    if k > 0 { FirstOfFilter(p, s[1..], k - 1); }
  }

  lemma ResolvedGroup(row: TableRow, t: string)
    requires Grouped(row) && t in row.records
    requires t != CNAME || !HasConflict(Values(row.candidates))
    ensures Values(row.records[t].candidates) == Resolved(Values(row.candidates), t)
  {
    ValuesFilter(ObjectOfType(t), OfType(t), row.candidates);
  }

  lemma NoConflictInOne(rs: seq<Record>)
    requires |rs| <= 1
    ensures !HasConflict(rs)
  {
  }

  /** The two flags of ResolveRecordTypes, computed by its loop. */
  method DetectConflict(candidates: seq<Endpoint>) returns (conflict: bool)
    ensures conflict == HasConflict(Values(candidates))
    ensures conflict <==> && (exists e | e in candidates :: e.recordType == CNAME)
                          && (exists e | e in candidates :: e.recordType != CNAME)
  {
    ghost var vs := Values(candidates);
    var cname, other, k := false, false, 0;
    while k < |candidates| && !(cname && other)
      invariant 0 <= k <= |candidates|
      invariant cname <==> exists j | 0 <= j < k :: vs[j].recordType == CNAME
      invariant other <==> exists j | 0 <= j < k :: vs[j].recordType != CNAME
    {
      assert vs[k].recordType == candidates[k].recordType;
      if candidates[k].recordType == CNAME { cname := true; } else { other := true; }
      k := k + 1;
    }
    conflict := cname && other;
    ConflictOfObjects(candidates);
    if HasConflict(vs) {
      var c :| c in vs && c.recordType == CNAME;
      var o :| o in vs && o.recordType != CNAME;
      var a :| 0 <= a < |vs| && vs[a] == c;
      var b :| 0 <= b < |vs| && vs[b] == o;
    }
  }

  lemma ConflictOfObjects(candidates: seq<Endpoint>)
    ensures HasConflict(Values(candidates)) <==> && (exists e | e in candidates :: e.recordType == CNAME)
                                                 && (exists e | e in candidates :: e.recordType != CNAME)
  {
    CnameOfObjects(candidates);
    OtherOfObjects(candidates);
  }

  lemma CnameOfObjects(es: seq<Endpoint>)
    ensures (exists r | r in Values(es) :: r.recordType == CNAME) <==> exists e | e in es :: e.recordType == CNAME
  {
    var vs := Values(es);
    if r :| r in vs && r.recordType == CNAME {
      var k :| 0 <= k < |vs| && vs[k] == r;
      assert es[k] in es;
    }
    if e :| e in es && e.recordType == CNAME {
      var k :| 0 <= k < |es| && es[k] == e;
      assert vs[k] in vs;
    }
  }

  lemma OtherOfObjects(es: seq<Endpoint>)
    ensures (exists r | r in Values(es) :: r.recordType != CNAME) <==> exists e | e in es :: e.recordType != CNAME
  {
    var vs := Values(es);
    if r :| r in vs && r.recordType != CNAME {
      var k :| 0 <= k < |vs| && vs[k] == r;
      assert es[k] in es;
    }
    if e :| e in es && e.recordType != CNAME {
      var k :| 0 <= k < |es| && es[k] == e;
      assert vs[k] in vs;
    }
  }

  /** The copying loop of ResolveRecordTypes, in an arbitrary order of types. */
  method DiscardCnames(groups: map<string, DomainEndpoints>) returns (records: map<string, DomainEndpoints>)
    ensures records.Keys == groups.Keys
    ensures forall t | t in records ::
              records[t] == if t == CNAME then DomainEndpoints(groups[t].current, []) else groups[t]
  {
    records := map[];
    var todo := groups.Keys;
    while todo != {}
      invariant todo <= groups.Keys
      invariant records.Keys == groups.Keys - todo
      invariant forall t | t in records ::
                  records[t] == if t == CNAME then DomainEndpoints(groups[t].current, []) else groups[t]
      decreases |todo|
    {
      var t :| t in todo;
      if t == CNAME {
        records := records[t := DomainEndpoints(groups[t].current, [])];
      } else {
        records := records[t := groups[t]];
      }
      todo := todo - {t};
    }
  }

  /** ResolveRecordTypes: on a conflict every CNAME candidate is discarded. A type keeps all its
      candidates, in order, unless it is CNAME and another type is wanted as well. */
  method ResolveRecordTypes(row: TableRow) returns (records: map<string, DomainEndpoints>)
    requires Grouped(row)
    ensures records.Keys == row.records.Keys
    ensures forall t | t in records :: records[t].current == row.records[t].current
    ensures forall t | t in records ::
              records[t].candidates == row.records[t].candidates || records[t].candidates == []
    ensures forall t | t in records :: Values(records[t].candidates) == Resolved(Values(row.candidates), t)
    ensures forall t | t in records && (t != CNAME || forall e | e in row.candidates :: e.recordType == CNAME) ::
              records[t].candidates == Filter(ObjectOfType(t), row.candidates)
    ensures CNAME in records && (exists e | e in row.candidates :: e.recordType != CNAME) ==> records[CNAME].candidates == []
  {
    hide Grouped, Resolved;
    var conflict := false;
    if |row.candidates| > 1 {
      conflict := DetectConflict(row.candidates);
    } else {
      NoConflictInOne(Values(row.candidates));
    }
    if conflict {
      records := DiscardCnames(row.records);
    } else {
      records := row.records;
    }
    ResolvedAll(row, records, conflict);
    ResolvedObjects(row, records, conflict);
  }

  /** The same on objects and their types. */
  lemma ResolvedObjects(row: TableRow, records: map<string, DomainEndpoints>, conflict: bool)
    requires Grouped(row) && records.Keys == row.records.Keys
    requires conflict == HasConflict(Values(row.candidates))
    requires forall t | t in records ::
               records[t] == if t == CNAME && conflict then DomainEndpoints(row.records[t].current, []) else row.records[t]
    ensures forall t | t in records && (t != CNAME || forall e | e in row.candidates :: e.recordType == CNAME) ::
              records[t].candidates == Filter(ObjectOfType(t), row.candidates)
    ensures CNAME in records && (exists e | e in row.candidates :: e.recordType != CNAME) ==> records[CNAME].candidates == []
  {
    hide HasConflict;
    ConflictOfObjects(row.candidates);
    if CNAME in records && !conflict && exists e | e in row.candidates :: e.recordType != CNAME {
      FilterEmpty(ObjectOfType(CNAME), row.candidates);
    }
  }

  lemma ResolvedAll(row: TableRow, records: map<string, DomainEndpoints>, conflict: bool)
    requires Grouped(row) && records.Keys == row.records.Keys
    requires conflict == HasConflict(Values(row.candidates))
    requires forall t | t in records ::
               records[t] == if t == CNAME && conflict then DomainEndpoints(row.records[t].current, []) else row.records[t]
    ensures forall t | t in records :: Values(records[t].candidates) == Resolved(Values(row.candidates), t)
  {
    forall t | t in records ensures Values(records[t].candidates) == Resolved(Values(row.candidates), t) {
      if t != CNAME || !conflict { ResolvedGroup(row, t); }
    }
  }

  // ---- changes as values: joined and taken apart by type ----

  function Join(a: Changes, b: Changes): Changes {
    Changes(a.create + b.create, a.updateOld + b.updateOld, a.updateNew + b.updateNew, a.delete + b.delete)
  }

  lemma PartOfJoin(p: Record -> bool, a: Changes, b: Changes)
    ensures Part(p, Join(a, b)) == Join(Part(p, a), Part(p, b))
  {
    FilterAppend(p, a.create, b.create);
    FilterAppend(p, a.updateOld, b.updateOld);
    FilterAppend(p, a.updateNew, b.updateNew);
    FilterAppend(p, a.delete, b.delete);
  }

  ghost predicate All(p: Record -> bool, ch: Changes) {
    && (forall r | r in ch.create :: p(r))
    && (forall r | r in ch.updateOld :: p(r))
    && (forall r | r in ch.updateNew :: p(r))
    && (forall r | r in ch.delete :: p(r))
  }

  lemma PartAll(p: Record -> bool, ch: Changes)
    requires All(p, ch)
    ensures Part(p, ch) == ch
  {
    FilterEverything(p, ch.create);
    FilterEverything(p, ch.updateOld);
    FilterEverything(p, ch.updateNew);
    FilterEverything(p, ch.delete);
  }

  lemma PartNone(p: Record -> bool, q: Record -> bool, ch: Changes)
    requires All(q, ch) && forall r :: q(r) ==> !p(r)
    ensures Part(p, ch) == NOTHING
  {
    FilterEmpty(p, ch.create);
    FilterEmpty(p, ch.updateOld);
    FilterEmpty(p, ch.updateNew);
    FilterEmpty(p, ch.delete);
  }

  lemma TypeChangesOfType(w: World, i: Instance, row: Row, t: string)
    ensures All(OfType(t), TypeChanges(w, i, row, t))
  {
  }

  /** Appending the changes of type t completes that type and leaves the others alone. */
  lemma JoinType(w: World, i: Instance, row: Row, acc: Changes, t: string, x: string)
    requires t == x ==> Part(OfType(x), acc) == NOTHING
    ensures Part(OfType(x), Join(acc, TypeChanges(w, i, row, t))) ==
            if x == t then TypeChanges(w, i, row, t) else Part(OfType(x), acc)
  {
    hide Join, TypeChanges, Part;
    var d := TypeChanges(w, i, row, t);
    PartOfJoin(OfType(x), acc, d);
    TypeChangesOfType(w, i, row, t);
    if x == t {
      PartAll(OfType(t), d);
      NothingJoin(d);
    } else {
      PartNone(OfType(x), OfType(t), d);
      JoinNothing(Part(OfType(x), acc));
    }
  }

  /** Each update keeps the row and type and carries the owner label of what it replaces. */
  ghost predicate Inherits(w: World, ch: Changes) {
    && Paired(w, ch)
    && forall k | 0 <= k < |ch.updateOld| ::
         && OWNER_LABEL in ch.updateNew[k].labels
         && ch.updateNew[k].labels[OWNER_LABEL] == Label(ch.updateOld[k], OWNER_LABEL)
  }

  lemma InheritsJoin(w: World, a: Changes, b: Changes)
    requires Inherits(w, a) && Inherits(w, b)
    ensures Inherits(w, Join(a, b))
  {
  }

  // ---- one row ----

  /** providerSpecificChanged: cross off the desired properties in a map. */
  method PropertiesChanged(desired: Endpoint, current: Endpoint) returns (changed: bool)
    ensures changed == ProviderSpecificChanged(desired.Value(), current.Value())
  {
    var wanted: map<string, string> := map[];
    var k := 0;
    var ds, cs := desired.providerSpecific, current.providerSpecific;
    while k < |ds|
      invariant 0 <= k <= |ds|
      invariant wanted == PropertyMap(ds[..k])
    {
      assert ds[..k + 1][..k] == ds[..k];
      wanted := wanted[ds[k].name := ds[k].value];
      k := k + 1;
    }
    assert ds[..k] == ds;
    k := 0;
    while k < |cs|
      invariant 0 <= k <= |cs|
      invariant LeftoverOrMismatch(wanted, cs[k..]) == ProviderSpecificChanged(desired.Value(), current.Value())
    {
      assert cs[k..][1..] == cs[k + 1..];
      if cs[k].name in wanted {
        if wanted[cs[k].name] != cs[k].value {
          return true;
        }
        wanted := wanted - {cs[k].name};
      } else {
        return true;
      }
      k := k + 1;
    }
    changed := |wanted| > 0;
  }

  lemma JoinNothing(ch: Changes)
    ensures Join(ch, NOTHING) == ch
  {
  }

  /** The four reasons to update a record. */
  method UpdateNeeded(w: World, i: Instance, update: Endpoint, current: Endpoint) returns (needed: bool)
    ensures needed == NeedsUpdate(w, i, update.Value(), current.Value())
    ensures needed <==> !(&& (update.ttl <= 0 || update.ttl == current.ttl)
                          && Same(w.net, update.targets, current.targets)
                          && UniqueNames(current.providerSpecific)
                          && PropertyMap(update.providerSpecific) == PropertyMap(current.providerSpecific)
                          && (i.oldOwner == ""
                              || (if OWNER_LABEL in current.labels then current.labels[OWNER_LABEL] else "") == i.oldOwner))
  {
    ProviderSpecificExactly(update.Value(), current.Value());
    var properties := PropertiesChanged(update, current);
    var owner := if OWNER_LABEL in current.labels then current.labels[OWNER_LABEL] else "";
    needed := (update.ttl > 0 && update.ttl != current.ttl)
              || !Same(w.net, update.targets, current.targets)
              || properties
              || (i.oldOwner != "" && owner != i.oldOwner);
  }

  /** The labels differ at most in the owner. */
  ghost predicate OwnerOnly(before: map<string, string>, after: map<string, string>) {
    after == before || (OWNER_LABEL in after && after == before[OWNER_LABEL := after[OWNER_LABEL]])
  }

  lemma JoinUpdate(ch: Changes, held: Record, update: Record)
    ensures Join(ch, NOTHING.(updateOld := [held], updateNew := [update])) ==
            ch.(updateOld := ch.updateOld + [held], updateNew := ch.updateNew + [update])
  {
    assert ch.create + [] == ch.create && ch.delete + [] == ch.delete;
  }

  /** inheritOwner leaves every other endpoint alone. */
  method SetOwner(update: Endpoint, owner: string, ghost others: seq<Endpoint>)
    requires update !in others
    modifies update
    ensures update.labels == old(update.labels)[OWNER_LABEL := owner]
    ensures Values(others) == old(Values(others))
  {
    update.labels := update.labels[OWNER_LABEL := owner];
  }

  /** inheritOwner, and the two appends that follow it. */
  method AppendUpdate(ch: ChangeSet, current: Endpoint, update: Endpoint, owner: string)
    requires update !in ch.Objects() && update != current
    requires owner == Label(current.Value(), OWNER_LABEL)
    modifies ch`updateNew, ch`updateOld, update
    ensures ch.updateNew == old(ch.updateNew) + [update] && ch.updateOld == old(ch.updateOld) + [current]
    ensures OwnerOnly(old(update.labels), update.labels)
    ensures ch.Contents() == Join(old(ch.Contents()),
                                  NOTHING.(updateOld := [old(current.Value())],
                                           updateNew := [InheritOwner(old(current.Value()), old(update.Value()))]))
  {
    hide Label, Join, Values;
    ghost var before := ch.Contents();
    ValuesOfAll(ch);
    SetOwner(update, owner, AllObjects(ch));
    ContentsByValues(ch, before);
    JoinUpdate(before, current.Value(), update.Value());
    ValuesSnoc(ch.updateNew, update);
    ValuesSnoc(ch.updateOld, current);
    ch.updateNew := ch.updateNew + [update];
    ch.updateOld := ch.updateOld + [current];
  }

  /** appendEndpointUpdates: the update inherits the owner label in place. */
  method AppendEndpointUpdates(w: World, i: Instance, ch: ChangeSet, current: Endpoint, candidates: seq<Endpoint>)
    returns (update: Endpoint)
    requires candidates != [] && current !in candidates
    requires forall e | e in candidates :: e !in ch.Objects()
    modifies ch`updateNew, ch`updateOld, candidates
    ensures update in candidates
    ensures ch.updateNew == old(ch.updateNew) || ch.updateNew == old(ch.updateNew) + [update]
    ensures ch.updateOld == old(ch.updateOld) || ch.updateOld == old(ch.updateOld) + [current]
    ensures ch.Contents() == Join(old(ch.Contents()),
                                  UpdateOf(w, i, old(current.Value()), old(Values(candidates))))
    ensures OwnerOnly(old(update.labels), update.labels)
    ensures forall e | e in candidates && e != update :: e.labels == old(e.labels)
  {
    hide Join, NeedsUpdate, ResolveUpdate, InheritOwner;
    update := ResolveUpdateObject(w.net, current, candidates);
    var needed := UpdateNeeded(w, i, update, current);
    if needed {
      var owner := if OWNER_LABEL in current.labels then current.labels[OWNER_LABEL] else "";
      AppendUpdate(ch, current, update, owner);
    } else {
      JoinNothing(ch.Contents());
    }
  }

  ghost function GroupObjects(group: DomainEndpoints): set<Endpoint> {
    (if group.current == null then {} else {group.current}) + set e | e in group.candidates
  }

  ghost function HeldValue(group: DomainEndpoints): Option<Record>
    reads group.current
  {
    if group.current == null then None else Some(group.current.Value())
  }

  method AppendDelete(ch: ChangeSet, e: Endpoint)
    modifies ch`delete
    ensures ch.delete == old(ch.delete) + [e]
    ensures ch.Contents() == Join(old(ch.Contents()), NOTHING.(delete := [e.Value()]))
  {
    ValuesSnoc(ch.delete, e);
    ch.delete := ch.delete + [e];
  }

  method AppendCreate(ch: ChangeSet, e: Endpoint)
    modifies ch`create
    ensures ch.create == old(ch.create) + [e]
    ensures ch.Contents() == Join(old(ch.Contents()), NOTHING.(create := [e.Value()]))
  {
    ValuesSnoc(ch.create, e);
    ch.create := ch.create + [e];
  }

  /** One record type of calculatePlanTableRowChanges. */
  method AppendType(w: World, i: Instance, ch: ChangeSet, group: DomainEndpoints)
    requires group.current !in group.candidates
    requires forall e | e in group.candidates :: e !in ch.Objects()
    modifies ch, group.candidates
    ensures ch.Objects() <= old(ch.Objects()) + GroupObjects(group)
    ensures ch.Contents() == Join(old(ch.Contents()),
                                  CellChanges(w, i, old(HeldValue(group)), old(Values(group.candidates))))
    ensures forall e | e in group.candidates :: OwnerOnly(old(e.labels), e.labels)
  {
    hide Join, UpdateOf, ResolveCreate;
    if group.current != null {
      if group.candidates == [] {
        AppendDelete(ch, group.current);
      } else {
        var _ := AppendEndpointUpdates(w, i, ch, group.current, group.candidates);
      }
    } else if group.candidates != [] {
      var update := ResolveCreateObject(w.net, group.candidates);
      AppendCreate(ch, update);
    } else {
      JoinNothing(ch.Contents());
    }
  }

  // ---- the types of one row ----

  /** acc holds the changes of exactly the types in done. */
  ghost predicate TypesDone(w: World, i: Instance, row: Row, done: set<string>, acc: Changes) {
    forall t :: Part(OfType(t), acc) == if t in done then TypeChanges(w, i, row, t) else NOTHING
  }

  lemma TypesDoneStep(w: World, i: Instance, row: Row, done: set<string>, acc: Changes, t: string)
    requires TypesDone(w, i, row, done, acc) && t !in done
    ensures TypesDone(w, i, row, done + {t}, Join(acc, TypeChanges(w, i, row, t)))
  {
    forall x ensures Part(OfType(x), Join(acc, TypeChanges(w, i, row, t))) ==
                     if x in done + {t} then TypeChanges(w, i, row, x) else NOTHING
    {
      assert Part(OfType(t), acc) == NOTHING;
      JoinType(w, i, row, acc, t, x);
    }
  }

  /** A type absent from the row's groups calls for nothing. */
  lemma AbsentType(w: World, i: Instance, row: TableRow, t: string)
    requires Grouped(row) && t !in row.records
    ensures TypeChanges(w, i, Row(Values(row.current), Values(row.candidates)), t) == NOTHING
  {
    var cs, ds := Values(row.current), Values(row.candidates);
    ValuesFilter(ObjectOfType(t), OfType(t), row.current);
    ValuesFilter(ObjectOfType(t), OfType(t), row.candidates);
    FilterEmpty(ObjectOfType(t), row.current);
    FilterEmpty(ObjectOfType(t), row.candidates);
  }

  lemma HeldIsLast(group: DomainEndpoints, es: seq<Endpoint>, t: string)
    requires group.current == LastObject(Filter(ObjectOfType(t), es))
    ensures HeldValue(group) == Last(Filter(OfType(t), Values(es)))
  {
    hide Filter;
    ValuesFilter(ObjectOfType(t), OfType(t), es);
  }

  ghost predicate RowKeyed(w: World, key: PlanKey, row: Row) {
    && (forall r | r in row.current :: KeyOf(w, r) == key)
    && (forall r | r in row.candidates :: KeyOf(w, r) == key)
  }

  lemma TypeInherits(w: World, i: Instance, key: PlanKey, row: Row, t: string)
    requires RowKeyed(w, key, row)
    ensures Inherits(w, TypeChanges(w, i, row, t))
    ensures All(InRow(w, key), TypeChanges(w, i, row, t))
  {
    hide ResolveUpdate, ResolveCreate, NeedsUpdate, Filter;
    var cs := Resolved(row.candidates, t);
    var held := Last(Filter(OfType(t), row.current));
    if held.Some? {
      assert held.value in Filter(OfType(t), row.current);
    }
  }

  ghost predicate FromTypes(objects: set<Endpoint>, row: TableRow, done: set<string>) {
    forall e | e in objects :: e.recordType in done && (e in row.current || e in row.candidates)
  }

  lemma GroupFacts(row: TableRow, group: DomainEndpoints, t: string)
    requires Grouped(row) && t in row.records
    requires group.current == row.records[t].current
    requires group.candidates == row.records[t].candidates || group.candidates == []
    ensures group.current != null ==> group.current in row.current
    ensures forall e | e in group.candidates :: e in row.candidates
    ensures forall e | e in GroupObjects(group) :: e.recordType == t
  {
    var c := Filter(ObjectOfType(t), row.current);
    if group.current != null { assert group.current in c; }
  }

  /** acc is a correct record of the types done so far in the row key. */
  ghost predicate RowProgress(w: World, i: Instance, key: PlanKey, row: Row, done: set<string>, acc: Changes) {
    TypesDone(w, i, row, done, acc) && Inherits(w, acc) && All(InRow(w, key), acc)
  }

  lemma RowProgressStep(w: World, i: Instance, key: PlanKey, row: Row, done: set<string>, acc: Changes, t: string)
    requires RowKeyed(w, key, row) && t !in done
    requires RowProgress(w, i, key, row, done, acc)
    ensures RowProgress(w, i, key, row, done + {t}, Join(acc, TypeChanges(w, i, row, t)))
  {
    TypesDoneStep(w, i, row, done, acc, t);
    TypeInherits(w, i, key, row, t);
    InheritsJoin(w, acc, TypeChanges(w, i, row, t));
  }

  lemma FromTypesStep(before: set<Endpoint>, after: set<Endpoint>, row: TableRow, done: set<string>,
                      group: DomainEndpoints, t: string)
    requires FromTypes(before, row, done)
    requires after <= before + GroupObjects(group)
    requires forall e | e in GroupObjects(group) :: e.recordType == t && (e in row.current || e in row.candidates)
    ensures FromTypes(after, row, done + {t})
  {
  }

  lemma FreshTypeIsApart(objects: set<Endpoint>, row: TableRow, done: set<string>, es: seq<Endpoint>, t: string)
    requires FromTypes(objects, row, done) && t !in done
    requires forall e | e in es :: e.recordType == t
    ensures forall e | e in es :: e !in objects
  {
  }

  // ---- what the endpoints said when planning began ----

  /** The labels of every endpoint at one moment. */
  type Snapshot = map<Endpoint, map<string, string>>

  ghost function ValueThen(snap: Snapshot, e: Endpoint): Record
    requires e in snap
  {
    Record(e.dnsName, e.targets, e.recordType, e.setIdentifier, e.ttl, snap[e], e.providerSpecific)
  }

  ghost predicate Covers(snap: Snapshot, es: seq<Endpoint>) {
    forall e | e in es :: e in snap
  }

  ghost function ValuesThen(snap: Snapshot, es: seq<Endpoint>): (r: seq<Record>)
    requires Covers(snap, es)
    ensures |r| == |es|
    ensures forall k | 0 <= k < |es| :: r[k] == ValueThen(snap, es[k])
  {
    seq(|es|, k requires 0 <= k < |es| => ValueThen(snap, es[k]))
  }

  /** The endpoints still say what they said then. */
  ghost predicate Unchanged(snap: Snapshot, es: seq<Endpoint>)
    reads es
  {
    forall e | e in es :: e in snap && e.labels == snap[e]
  }

  lemma UnchangedValues(snap: Snapshot, es: seq<Endpoint>)
    requires Unchanged(snap, es)
    ensures Covers(snap, es) && Values(es) == ValuesThen(snap, es)
  {
  }

  ghost function RowThen(snap: Snapshot, row: TableRow): Row
    requires Covers(snap, row.current) && Covers(snap, row.candidates)
  {
    Row(ValuesThen(snap, row.current), ValuesThen(snap, row.candidates))
  }

  /** The group of type t as its row's original contents describe it. */
  ghost predicate GroupSpec(snap: Snapshot, row: TableRow, group: DomainEndpoints, t: string)
    requires Covers(snap, row.current) && Covers(snap, row.candidates)
  {
    && (forall e | e in GroupObjects(group) :: e.recordType == t)
    && (group.current != null ==> group.current in row.current)
    && (forall e | e in group.candidates :: e in row.candidates)
    && (if group.current == null then None else Some(ValueThen(snap, group.current)))
       == Last(Filter(OfType(t), ValuesThen(snap, row.current)))
    && ValuesThen(snap, group.candidates) == Resolved(ValuesThen(snap, row.candidates), t)
  }

  lemma GroupMeetsSpec(snap: Snapshot, row: TableRow, group: DomainEndpoints, t: string)
    requires Grouped(row) && t in row.records
    requires Unchanged(snap, row.current) && Unchanged(snap, row.candidates)
    requires group.current == row.records[t].current
    requires group.candidates == row.records[t].candidates || group.candidates == []
    requires Values(group.candidates) == Resolved(Values(row.candidates), t)
    ensures GroupSpec(snap, row, group, t)
  {
    GroupFacts(row, group, t);
    assert Unchanged(snap, group.candidates);
    assert ValuesThen(snap, group.candidates) == Resolved(ValuesThen(snap, row.candidates), t) by {
      UnchangedValues(snap, row.candidates);
      UnchangedValues(snap, group.candidates);
    }
    assert (if group.current == null then None else Some(ValueThen(snap, group.current)))
           == Last(Filter(OfType(t), ValuesThen(snap, row.current))) by {
      UnchangedValues(snap, row.current);
      HeldIsLast(group, row.current, t);
    }
  }

  /** Only candidates of the types in done may have changed, and only in their owner label. */
  ghost predicate LabelsKept(snap: Snapshot, row: TableRow, done: set<string>)
    requires Covers(snap, row.current) && Covers(snap, row.candidates)
    reads row.current, row.candidates
  {
    && Unchanged(snap, row.current)
    && (forall e | e in row.candidates :: OwnerOnly(snap[e], e.labels))
    && (forall e | e in row.candidates && e.recordType !in done :: e.labels == snap[e])
  }

  /** What the type loop keeps. */
  ghost predicate TypeLoop(w: World, i: Instance, key: PlanKey, snap: Snapshot, row: TableRow, ch: ChangeSet, done: set<string>)
    requires Covers(snap, row.current) && Covers(snap, row.candidates)
    reads row.current, row.candidates, ch, ch.Objects()
  {
    && FromTypes(ch.Objects(), row, done)
    && LabelsKept(snap, row, done)
    && RowProgress(w, i, key, RowThen(snap, row), done, ch.Contents())
  }

  /** A type that is not done yet still holds what it held. */
  lemma GroupStill(snap: Snapshot, row: TableRow, t: string, group: DomainEndpoints, done: set<string>)
    requires Covers(snap, row.current) && Covers(snap, row.candidates)
    requires forall e | e in row.current :: e !in row.candidates
    requires LabelsKept(snap, row, done) && t !in done
    requires GroupSpec(snap, row, group, t)
    ensures group.current !in group.candidates
    ensures forall e | e in GroupObjects(group) :: e.recordType == t && (e in row.current || e in row.candidates)
    ensures HeldValue(group) == Last(Filter(OfType(t), RowThen(snap, row).current))
    ensures Values(group.candidates) == Resolved(RowThen(snap, row).candidates, t)
  {
    forall e | e in group.candidates ensures e in snap && e.labels == snap[e] {
      assert e in GroupObjects(group);
    }
    UnchangedValues(snap, group.candidates);
    if group.current != null {
      assert group.current in row.current;
      assert group.current.Value() == ValueThen(snap, group.current);
    }
  }

  /** AppendType, seen from the whole row. */
  method AppendGroup(w: World, i: Instance, ch: ChangeSet, row: TableRow, group: DomainEndpoints,
                     ghost t: string, ghost snap: Snapshot, ghost done: set<string>)
    requires Covers(snap, row.current) && Covers(snap, row.candidates)
    requires forall e | e in row.current :: e !in row.candidates
    requires group.current !in group.candidates
    requires forall e | e in group.candidates :: e.recordType == t && e in row.candidates && e !in ch.Objects()
    requires LabelsKept(snap, row, done) && t !in done
    modifies ch, group.candidates
    ensures ch.Objects() <= old(ch.Objects()) + GroupObjects(group)
    ensures ch.Contents() == Join(old(ch.Contents()),
                                  CellChanges(w, i, old(HeldValue(group)), old(Values(group.candidates))))
    ensures LabelsKept(snap, row, done + {t})
  {
    hide CellChanges, OwnerOnly, Join;
    AppendType(w, i, ch, group);
    forall e | e in row.current ensures e.labels == snap[e] {
      assert e !in group.candidates;
    }
    forall e | e in row.candidates ensures OwnerOnly(snap[e], e.labels) {
      assert e in group.candidates || e.labels == old(e.labels);
    }
    forall e | e in row.candidates && e.recordType !in done + {t} ensures e.labels == snap[e] {
      assert e !in group.candidates;
    }
  }

  /** One turn of the type loop. */
  method TypeTurn(w: World, i: Instance, ghost key: PlanKey, ghost snap: Snapshot, row: TableRow, ch: ChangeSet,
                  t: string, group: DomainEndpoints, ghost done: set<string>)
    requires Covers(snap, row.current) && Covers(snap, row.candidates)
    requires forall e | e in row.current :: e !in row.candidates
    requires RowKeyed(w, key, RowThen(snap, row))
    requires TypeLoop(w, i, key, snap, row, ch, done) && t !in done
    requires GroupSpec(snap, row, group, t)
    modifies ch, row.candidates
    ensures TypeLoop(w, i, key, snap, row, ch, done + {t})
  {
    hide FromTypes, LabelsKept, RowProgress, RowKeyed, CellChanges, OwnerOnly;
    ghost var objects, acc := ch.Objects(), ch.Contents();
    GroupStill(snap, row, t, group, done);
    FreshTypeIsApart(objects, row, done, group.candidates, t);
    AppendGroup(w, i, ch, row, group, t, snap, done);
    FromTypesStep(objects, ch.Objects(), row, done, group, t);
    RowProgressStep(w, i, key, RowThen(snap, row), done, acc, t);
  }

  lemma NoTypesYet(w: World, i: Instance, key: PlanKey, row: Row)
    ensures RowProgress(w, i, key, row, {}, NOTHING)
  {
  }

  method EmptyChanges(w: World, i: Instance, ghost key: PlanKey, ghost snap: Snapshot, row: TableRow) returns (ch: ChangeSet)
    requires Unchanged(snap, row.current) && Unchanged(snap, row.candidates)
    ensures fresh(ch)
    ensures TypeLoop(w, i, key, snap, row, ch, {})
  {
    ch := new ChangeSet();
    NoTypesYet(w, i, key, RowThen(snap, row));
    assert ch.Contents() == NOTHING;
  }

  /** The loop of calculatePlanTableRowChanges: every type once, in an arbitrary order. */
  method TypesLoop(w: World, i: Instance, ghost key: PlanKey, ghost snap: Snapshot, row: TableRow,
                   records: map<string, DomainEndpoints>)
    returns (ch: ChangeSet)
    requires Unchanged(snap, row.current) && Unchanged(snap, row.candidates)
    requires forall e | e in row.current :: e !in row.candidates
    requires RowKeyed(w, key, RowThen(snap, row))
    requires forall t | t in records :: GroupSpec(snap, row, records[t], t)
    modifies row.candidates
    ensures fresh(ch)
    ensures TypeLoop(w, i, key, snap, row, ch, records.Keys)
  {
    hide TypeLoop, GroupSpec, RowKeyed;
    ch := EmptyChanges(w, i, key, snap, row);
    var todo := records.Keys;
    ghost var done: set<string> := {};
    while todo != {}
      invariant Splits(records.Keys, done, todo)
      invariant fresh(ch)
      invariant TypeLoop(w, i, key, snap, row, ch, done)
      decreases todo
    {
      var t :| t in todo;
      SplitsStep(records.Keys, done, todo, t);
      TypeTurn(w, i, key, snap, row, ch, t, records[t], done);
      todo, done := todo - {t}, done + {t};
    }
    SplitsEnd(records.Keys, done, todo);
  }

  /** calculatePlanTableRowChanges. */
  method CalculateRow(w: World, i: Instance, ghost key: PlanKey, ghost snap: Snapshot, row: TableRow) returns (ch: ChangeSet)
    requires Grouped(row)
    requires Unchanged(snap, row.current) && Unchanged(snap, row.candidates)
    requires forall e | e in row.current :: e !in row.candidates
    requires RowKeyed(w, key, RowThen(snap, row))
    modifies row.candidates
    ensures fresh(ch)
    ensures TypeLoop(w, i, key, snap, row, ch, row.records.Keys)
  {
    var records := ResolveRecordTypes(row);
    forall t | t in records ensures GroupSpec(snap, row, records[t], t) {
      GroupMeetsSpec(snap, row, records[t], t);
    }
    ch := TypesLoop(w, i, key, snap, row, records);
  }

  // ---- all rows ----

  /** The cut of one row out of all visible records. */
  function RowAt(w: World, whole: Row, key: PlanKey): Row {
    Row(Filter(InRow(w, key), whole.current), Filter(InRow(w, key), whole.candidates))
  }

  /** acc holds the changes of exactly the rows in done. */
  ghost predicate RowsDone(w: World, i: Instance, whole: Row, done: set<PlanKey>, acc: Changes) {
    forall slot :: Part(InSlot(w, slot), acc) ==
                   if slot.key in done then RowChanges(w, i, RowAt(w, whole, slot.key), slot.recordType) else NOTHING
  }

  /** delta holds the changes of one row. */
  ghost predicate RowDelta(w: World, i: Instance, key: PlanKey, row: Row, delta: Changes) {
    && All(InRow(w, key), delta)
    && Inherits(w, delta)
    && forall t :: Part(OfType(t), delta) == RowChanges(w, i, row, t)
  }

  lemma PartInRow(w: World, slot: Slot, delta: Changes)
    requires All(InRow(w, slot.key), delta)
    ensures Part(InSlot(w, slot), delta) == Part(OfType(slot.recordType), delta)
  {
    FilterCongruent(InSlot(w, slot), OfType(slot.recordType), delta.create);
    FilterCongruent(InSlot(w, slot), OfType(slot.recordType), delta.updateOld);
    FilterCongruent(InSlot(w, slot), OfType(slot.recordType), delta.updateNew);
    FilterCongruent(InSlot(w, slot), OfType(slot.recordType), delta.delete);
  }

  lemma OtherRowsSlot(w: World, key: PlanKey, delta: Changes, slot: Slot)
    requires All(InRow(w, key), delta) && slot.key != key
    ensures Part(InSlot(w, slot), delta) == NOTHING
  {
    PartNone(InSlot(w, slot), InRow(w, key), delta);
  }

  lemma NothingJoin(ch: Changes)
    ensures Join(NOTHING, ch) == ch
  {
  }

  lemma RowsDoneSlot(w: World, acc: Changes, key: PlanKey, delta: Changes, slot: Slot)
    requires All(InRow(w, key), delta)
    requires slot.key == key ==> Part(InSlot(w, slot), acc) == NOTHING
    ensures Part(InSlot(w, slot), Join(acc, delta)) ==
            if slot.key == key then Part(OfType(slot.recordType), delta) else Part(InSlot(w, slot), acc)
  {
    PartOfJoin(InSlot(w, slot), acc, delta);
    if slot.key == key {
      PartInRow(w, slot, delta);
      NothingJoin(Part(InSlot(w, slot), delta));
    } else {
      OtherRowsSlot(w, key, delta, slot);
      JoinNothing(Part(InSlot(w, slot), acc));
    }
  }

  lemma RowsDoneStep(w: World, i: Instance, whole: Row, done: set<PlanKey>, acc: Changes, key: PlanKey, delta: Changes)
    requires RowsDone(w, i, whole, done, acc) && key !in done
    requires RowDelta(w, i, key, RowAt(w, whole, key), delta)
    ensures RowsDone(w, i, whole, done + {key}, Join(acc, delta))
  {
    forall slot
      ensures Part(InSlot(w, slot), Join(acc, delta)) ==
              if slot.key in done + {key} then RowChanges(w, i, RowAt(w, whole, slot.key), slot.recordType) else NOTHING
    {
      RowsDoneSlot(w, acc, key, delta, slot);
    }
  }

  /** A row without current records calls for creates only, whichever loop handles it. */
  lemma FreeRowDelta(w: World, i: Instance, key: PlanKey, row: Row, types: set<string>, ch: Changes)
    requires row.current == []
    requires RowProgress(w, i, key, row, types, ch)
    requires forall t | t !in types :: TypeChanges(w, i, row, t) == NOTHING
    ensures RowDelta(w, i, key, row, ch)
  {
    forall t ensures Part(OfType(t), ch) == RowChanges(w, i, row, t) {
      assert Part(OfType(t), ch) == TypeChanges(w, i, row, t);
    }
  }

  lemma ReleasedRowDelta(w: World, i: Instance, key: PlanKey, row: Row)
    requires RowKeyed(w, key, row) && row.current != [] && row.candidates == []
    ensures RowDelta(w, i, key, row, NOTHING.(delete := row.current))
  {
  }

  lemma TakenRowDelta(w: World, i: Instance, key: PlanKey, row: Row, types: set<string>, ch: Changes)
    requires row.current != [] && row.candidates != []
    requires RowProgress(w, i, key, row, types, ch)
    requires forall t | t !in types :: TypeChanges(w, i, row, t) == NOTHING
    ensures RowDelta(w, i, key, row, if OwnersMatch(i, row.current) then ch else ch.(create := []))
  {
    var delta := if OwnersMatch(i, row.current) then ch else ch.(create := []);
    forall t ensures Part(OfType(t), delta) == RowChanges(w, i, row, t) {
      assert Part(OfType(t), ch) == TypeChanges(w, i, row, t);
    }
  }

  lemma AbsentTypes(w: World, i: Instance, snap: Snapshot, row: TableRow)
    requires Grouped(row) && Unchanged(snap, row.current) && Unchanged(snap, row.candidates)
    ensures forall t | t !in row.records :: TypeChanges(w, i, RowThen(snap, row), t) == NOTHING
  {
    UnchangedValues(snap, row.current);
    UnchangedValues(snap, row.candidates);
    forall t | t !in row.records ensures TypeChanges(w, i, RowThen(snap, row), t) == NOTHING {
      AbsentType(w, i, row, t);
    }
  }

  /** The ownership check of appendTakenDNSNameChanges. */
  method OwnersMatchObjects(i: Instance, current: seq<Endpoint>) returns (ownersMatch: bool)
    ensures ownersMatch == OwnersMatch(i, Values(current))
  {
    ownersMatch := true;
    if i.owner != "" {
      ghost var vs := Values(current);
      var k := 0;
      while k < |current|
        invariant 0 <= k <= |current|
        invariant ownersMatch == forall j | 0 <= j < k :: IsOwnedBy(vs[j], i.owner)
      {
        assert vs[k] == current[k].Value();
        if !(OWNER_LABEL in current[k].labels && current[k].labels[OWNER_LABEL] == i.owner) {
          ownersMatch := false;
        }
        k := k + 1;
      }
      assert forall c | c in vs :: exists j :: 0 <= j < |vs| && vs[j] == c;
    }
  }

  lemma ValuesAppend(a: seq<Endpoint>, b: seq<Endpoint>)
    ensures Values(a + b) == Values(a) + Values(b)
  {
  }

  /** What of a row's changes counts: creates only with a claim on the row. */
  ghost function Counted(rowChanges: ChangeSet, ownersMatch: bool): Changes
    reads rowChanges, rowChanges.Objects()
  {
    if ownersMatch then rowChanges.Contents() else rowChanges.Contents().(create := [])
  }

  /** Append the changes of a row; its creates only with a claim on the row. */
  method AppendRow(changes: ChangeSet, rowChanges: ChangeSet, ownersMatch: bool, ghost acc: Changes, ghost delta: Changes)
    requires changes != rowChanges
    requires acc == changes.Contents()
    requires delta == Counted(rowChanges, ownersMatch)
    modifies changes
    ensures changes.Objects() <= old(changes.Objects()) + old(rowChanges.Objects())
    ensures changes.Contents() == Join(acc, delta)
  {
    hide Values;
    ValuesAppend(changes.delete, rowChanges.delete);
    ValuesAppend(changes.updateNew, rowChanges.updateNew);
    ValuesAppend(changes.updateOld, rowChanges.updateOld);
    ValuesAppend(changes.create, rowChanges.create);
    changes.delete := changes.delete + rowChanges.delete;
    changes.updateNew := changes.updateNew + rowChanges.updateNew;
    changes.updateOld := changes.updateOld + rowChanges.updateOld;
    if |rowChanges.create| == 0 {
      return;
    }
    if ownersMatch {
      changes.create := changes.create + rowChanges.create;
    }
  }

  /** What the finished type loop says of the row as a whole. */
  lemma LoopDone(w: World, i: Instance, key: PlanKey, snap: Snapshot, row: TableRow, ch: ChangeSet, done: set<string>)
    requires Covers(snap, row.current) && Covers(snap, row.candidates)
    requires TypeLoop(w, i, key, snap, row, ch, done)
    ensures ch.Objects() <= RowObjects(row) && Unchanged(snap, row.current)
    ensures forall e | e in row.candidates :: OwnerOnly(snap[e], e.labels)
    ensures RowProgress(w, i, key, RowThen(snap, row), done, ch.Contents())
  {
    hide RowProgress, OwnerOnly;
  }

  /** A row with no current record: every resolved type is created. */
  method FreeRow(w: World, i: Instance, ghost key: PlanKey, ghost snap: Snapshot, row: TableRow) returns (ch: ChangeSet)
    requires Grouped(row) && row.current == []
    requires Unchanged(snap, row.current) && Unchanged(snap, row.candidates)
    requires RowKeyed(w, key, RowThen(snap, row))
    modifies row.candidates
    ensures fresh(ch)
    ensures ch.Objects() <= RowObjects(row)
    ensures forall e | e in row.candidates :: OwnerOnly(snap[e], e.labels)
    ensures RowDelta(w, i, key, RowThen(snap, row), ch.Contents())
  {
    AbsentTypes(w, i, snap, row);
    ch := CalculateRow(w, i, key, snap, row);
    FreeRowDelta(w, i, key, RowThen(snap, row), row.records.Keys, ch.Contents());
  }

  /** appendTakenDNSNameChanges, up to the appends. */
  method TakenRow(w: World, i: Instance, ghost key: PlanKey, ghost snap: Snapshot, row: TableRow)
    returns (ch: ChangeSet, ownersMatch: bool)
    requires Grouped(row) && row.current != [] && row.candidates != []
    requires Unchanged(snap, row.current) && Unchanged(snap, row.candidates)
    requires forall e | e in row.current :: e !in row.candidates
    requires RowKeyed(w, key, RowThen(snap, row))
    modifies row.candidates
    ensures fresh(ch)
    ensures ch.Objects() <= RowObjects(row)
    ensures forall e | e in row.candidates :: OwnerOnly(snap[e], e.labels)
    ensures RowDelta(w, i, key, RowThen(snap, row), Counted(ch, ownersMatch))
  {
    hide RowDelta, RowKeyed, RowProgress, TypeChanges, OwnerOnly, Grouped, OwnersMatch, TypeLoop, FromTypes, LabelsKept;
    AbsentTypes(w, i, snap, row);
    ch := CalculateRow(w, i, key, snap, row);
    LoopDone(w, i, key, snap, row, ch, row.records.Keys);
    ghost var before, contents := RowThen(snap, row), ch.Contents();
    ownersMatch := OwnersMatchObjects(i, row.current);
    assert Values(row.current) == before.current by { UnchangedValues(snap, row.current); }
    TakenRowDelta(w, i, key, before, row.records.Keys, contents);
  }

  /** The three cases of calculateChanges for one row: its changes, and whether its creates count. */
  method PlanRow(w: World, i: Instance, ghost key: PlanKey, ghost snap: Snapshot, row: TableRow)
    returns (ch: ChangeSet, ownersMatch: bool)
    requires Grouped(row)
    requires Unchanged(snap, row.current) && Unchanged(snap, row.candidates)
    requires forall e | e in row.current :: e !in row.candidates
    requires RowKeyed(w, key, RowThen(snap, row))
    modifies row.candidates
    ensures fresh(ch)
    ensures ch.Objects() <= RowObjects(row)
    ensures forall e | e in row.candidates :: OwnerOnly(snap[e], e.labels)
    ensures RowDelta(w, i, key, RowThen(snap, row), Counted(ch, ownersMatch))
  {
    ownersMatch := true;
    if |row.current| == 0 {
      ch := FreeRow(w, i, key, snap, row);
    } else if |row.candidates| == 0 {
      ch := ReleasedRow(w, i, key, snap, row);
    } else {
      ch, ownersMatch := TakenRow(w, i, key, snap, row);
    }
  }

  ghost function RowObjects(row: TableRow): set<Endpoint> {
    (set e | e in row.current) + (set e | e in row.candidates)
  }

  /** A released row is deleted as it stands. */
  method ReleasedRow(w: World, i: Instance, ghost key: PlanKey, ghost snap: Snapshot, row: TableRow) returns (ch: ChangeSet)
    requires Unchanged(snap, row.current) && Unchanged(snap, row.candidates)
    requires row.current != [] && row.candidates == []
    requires RowKeyed(w, key, RowThen(snap, row))
    ensures fresh(ch)
    ensures ch.Objects() <= RowObjects(row)
    ensures RowDelta(w, i, key, RowThen(snap, row), ch.Contents())
  {
    ch := new ChangeSet();
    ch.delete := row.current;
    UnchangedValues(snap, row.current);
    assert ch.Contents() == NOTHING.(delete := RowThen(snap, row).current);
    ReleasedRowDelta(w, i, key, RowThen(snap, row));
  }

  // ---- the loop over rows ----

  ghost predicate FromRows(w: World, objects: set<Endpoint>, cs: seq<Endpoint>, ds: seq<Endpoint>, done: set<PlanKey>) {
    forall e | e in objects :: EndpointRow(w, e) in done && (e in cs || e in ds)
  }

  /** Only candidates of the rows in done may have changed, and only in their owner label. */
  ghost predicate RowLabelsKept(w: World, snap: Snapshot, cs: seq<Endpoint>, ds: seq<Endpoint>, done: set<PlanKey>)
    requires Covers(snap, cs) && Covers(snap, ds)
    reads cs, ds
  {
    && Unchanged(snap, cs)
    && (forall e | e in ds :: OwnerOnly(snap[e], e.labels))
    && (forall e | e in ds && EndpointRow(w, e) !in done :: e.labels == snap[e])
  }

  ghost predicate WholeProgress(w: World, i: Instance, whole: Row, done: set<PlanKey>, acc: Changes) {
    RowsDone(w, i, whole, done, acc) && Inherits(w, acc)
  }

  lemma WholeProgressStep(w: World, i: Instance, whole: Row, done: set<PlanKey>, acc: Changes, key: PlanKey, delta: Changes)
    requires WholeProgress(w, i, whole, done, acc) && key !in done
    requires RowDelta(w, i, key, RowAt(w, whole, key), delta)
    ensures WholeProgress(w, i, whole, done + {key}, Join(acc, delta))
  {
    RowsDoneStep(w, i, whole, done, acc, key, delta);
    InheritsJoin(w, acc, delta);
  }

  ghost function WholeThen(snap: Snapshot, cs: seq<Endpoint>, ds: seq<Endpoint>): Row
    requires Covers(snap, cs) && Covers(snap, ds)
  {
    Row(ValuesThen(snap, cs), ValuesThen(snap, ds))
  }

  /** What the row loop keeps. */
  ghost predicate RowLoop(w: World, i: Instance, snap: Snapshot, cs: seq<Endpoint>, ds: seq<Endpoint>,
                          changes: ChangeSet, done: set<PlanKey>)
    requires Covers(snap, cs) && Covers(snap, ds)
    reads cs, ds, changes, changes.Objects()
  {
    && FromRows(w, changes.Objects(), cs, ds, done)
    && RowLabelsKept(w, snap, cs, ds, done)
    && WholeProgress(w, i, WholeThen(snap, cs, ds), done, changes.Contents())
  }

  lemma {:induction false} ValuesThenFilter(snap: Snapshot, p: Endpoint -> bool, q: Record -> bool, es: seq<Endpoint>)
    requires Covers(snap, es) && forall e | e in es :: p(e) == q(ValueThen(snap, e))
    ensures Covers(snap, Filter(p, es))
    ensures ValuesThen(snap, Filter(p, es)) == Filter(q, ValuesThen(snap, es))
  {
    if es != [] {
      var init := es[..|es| - 1];
      assert ValuesThen(snap, es)[..|es| - 1] == ValuesThen(snap, init);
      ValuesThenFilter(snap, p, q, init);
      assert es[|es| - 1] in es;
    }
  }

  /** A row of the table is the cut of that row out of everything visible. */
  lemma RowIsCut(w: World, snap: Snapshot, key: PlanKey, row: TableRow, cs: seq<Endpoint>, ds: seq<Endpoint>, done: set<PlanKey>)
    requires HoldsRow(w, key, row, cs, ds)
    requires Covers(snap, cs) && Covers(snap, ds)
    requires RowLabelsKept(w, snap, cs, ds, done) && key !in done
    requires forall e | e in cs :: e !in ds
    ensures Unchanged(snap, row.current) && Unchanged(snap, row.candidates)
    ensures RowThen(snap, row) == RowAt(w, WholeThen(snap, cs, ds), key)
    ensures RowKeyed(w, key, RowThen(snap, row))
    ensures forall e | e in row.current :: e !in row.candidates
    ensures forall e | e in row.current :: e in cs && EndpointRow(w, e) == key
    ensures forall e | e in row.candidates :: e in ds && EndpointRow(w, e) == key
  {
    ValuesThenFilter(snap, ObjectInRow(w, key), InRow(w, key), cs);
    ValuesThenFilter(snap, ObjectInRow(w, key), InRow(w, key), ds);
  }

  lemma FromRowsStep(w: World, objects: set<Endpoint>, added: set<Endpoint>, after: set<Endpoint>, row: TableRow, key: PlanKey,
                     cs: seq<Endpoint>, ds: seq<Endpoint>, done: set<PlanKey>)
    requires FromRows(w, objects, cs, ds, done)
    requires after <= objects + added
    requires added <= RowObjects(row)
    requires forall e | e in row.current :: e in cs && EndpointRow(w, e) == key
    requires forall e | e in row.candidates :: e in ds && EndpointRow(w, e) == key
    ensures FromRows(w, after, cs, ds, done + {key})
  {
  }

  ghost function AllObjects(ch: ChangeSet): seq<Endpoint>
    reads ch
  {
    ch.create + ch.updateOld + ch.updateNew + ch.delete
  }

  /** The contents are determined by what all the objects say, in order. */
  lemma ContentsByValues(ch: ChangeSet, contents: Changes)
    requires |contents.create| == |ch.create| && |contents.updateOld| == |ch.updateOld|
    requires |contents.updateNew| == |ch.updateNew| && |contents.delete| == |ch.delete|
    requires Values(AllObjects(ch)) == contents.create + contents.updateOld + contents.updateNew + contents.delete
    ensures ch.Contents() == contents
  {
    ValuesAppend(ch.create + ch.updateOld + ch.updateNew, ch.delete);
    ValuesAppend(ch.create + ch.updateOld, ch.updateNew);
    ValuesAppend(ch.create, ch.updateOld);
    SameSplit(Values(ch.create) + Values(ch.updateOld) + Values(ch.updateNew), Values(ch.delete),
              contents.create + contents.updateOld + contents.updateNew, contents.delete);
    SameSplit(Values(ch.create) + Values(ch.updateOld), Values(ch.updateNew),
              contents.create + contents.updateOld, contents.updateNew);
    SameSplit(Values(ch.create), Values(ch.updateOld), contents.create, contents.updateOld);
  }

  lemma ValuesOfAll(ch: ChangeSet)
    ensures var c := ch.Contents(); Values(AllObjects(ch)) == c.create + c.updateOld + c.updateNew + c.delete
    ensures forall e | e in AllObjects(ch) :: e in ch.Objects()
  {
    ValuesAppend(ch.create + ch.updateOld + ch.updateNew, ch.delete);
    ValuesAppend(ch.create + ch.updateOld, ch.updateNew);
    ValuesAppend(ch.create, ch.updateOld);
  }

  lemma SameSplit<T>(a: seq<T>, b: seq<T>, c: seq<T>, d: seq<T>)
    requires a + b == c + d && |a| == |c|
    ensures a == c && b == d
  {
    assert a == (a + b)[..|a|] && c == (c + d)[..|c|];
    assert b == (a + b)[|a|..] && d == (c + d)[|c|..];
  }

  /** PlanRow leaves endpoints of other rows alone. */
  method PlanRowBeside(w: World, i: Instance, ghost key: PlanKey, ghost snap: Snapshot, row: TableRow, ghost others: seq<Endpoint>)
    returns (ch: ChangeSet, ownersMatch: bool, ghost delta: Changes)
    requires Grouped(row)
    requires Unchanged(snap, row.current) && Unchanged(snap, row.candidates)
    requires forall e | e in row.current :: e !in row.candidates
    requires RowKeyed(w, key, RowThen(snap, row))
    requires forall e | e in others :: e !in row.candidates
    modifies row.candidates
    ensures Values(others) == old(Values(others))
    ensures fresh(ch)
    ensures ch.Objects() <= RowObjects(row)
    ensures forall e | e in row.candidates :: OwnerOnly(snap[e], e.labels)
    ensures delta == Counted(ch, ownersMatch)
    ensures RowDelta(w, i, key, RowThen(snap, row), delta)
  {
    hide RowDelta, RowKeyed, Grouped, Counted, RowObjects;
    ch, ownersMatch := PlanRow(w, i, key, snap, row);
    delta := Counted(ch, ownersMatch);
  }

  /** PlanRow, seen from the whole table. */
  method PlanTableRow(w: World, i: Instance, ghost snap: Snapshot, ghost cs: seq<Endpoint>, ghost ds: seq<Endpoint>,
                      ghost key: PlanKey, row: TableRow, ghost done: set<PlanKey>, ghost others: seq<Endpoint>)
    returns (ch: ChangeSet, ownersMatch: bool, ghost delta: Changes)
    requires HoldsRow(w, key, row, cs, ds)
    requires Covers(snap, cs) && Covers(snap, ds)
    requires forall e | e in cs :: e !in ds
    requires RowLabelsKept(w, snap, cs, ds, done) && key !in done
    requires forall e | e in others :: e !in row.candidates
    modifies row.candidates
    ensures Values(others) == old(Values(others))
    ensures fresh(ch)
    ensures ch.Objects() <= RowObjects(row)
    ensures RowLabelsKept(w, snap, cs, ds, done + {key})
    ensures delta == Counted(ch, ownersMatch)
    ensures RowDelta(w, i, key, RowAt(w, WholeThen(snap, cs, ds), key), delta)
  {
    hide RowDelta, RowKeyed, Counted, RowAt, InRow, WholeThen;
    RowIsCut(w, snap, key, row, cs, ds, done);
    ch, ownersMatch, delta := PlanRowBeside(w, i, key, snap, row, others);
    forall e | e in ds && EndpointRow(w, e) !in done + {key} ensures e.labels == snap[e] {
      assert e !in row.candidates;
    }
    forall e | e in ds ensures OwnerOnly(snap[e], e.labels) {
      assert e in row.candidates || e.labels == old(e.labels);
    }
    forall e | e in cs ensures e.labels == snap[e] {
      assert e !in row.candidates;
    }
  }

  /** One turn of the row loop. */
  method RowTurn(w: World, i: Instance, ghost snap: Snapshot, ghost cs: seq<Endpoint>, ghost ds: seq<Endpoint>,
                 changes: ChangeSet, key: PlanKey, row: TableRow, ghost done: set<PlanKey>)
    requires HoldsRow(w, key, row, cs, ds)
    requires Covers(snap, cs) && Covers(snap, ds)
    requires forall e | e in cs :: e !in ds
    requires RowLoop(w, i, snap, cs, ds, changes, done) && key !in done
    modifies changes, row.candidates
    ensures RowLoop(w, i, snap, cs, ds, changes, done + {key})
  {
    hide RowDelta, HoldsRow, WholeProgress, RowLabelsKept, Counted, Join;
    ghost var objects, acc, whole := changes.Objects(), changes.Contents(), WholeThen(snap, cs, ds);
    RowApart(w, objects, row, key, cs, ds, done);
    ValuesOfAll(changes);
    var rowChanges, ownersMatch, delta := PlanTableRow(w, i, snap, cs, ds, key, row, done, AllObjects(changes));
    ContentsByValues(changes, acc);
    WholeProgressStep(w, i, whole, done, acc, key, delta);
    ghost var added := rowChanges.Objects();
    AppendRow(changes, rowChanges, ownersMatch, acc, delta);
    assert RowLabelsKept(w, snap, cs, ds, done + {key});
    assert WholeProgress(w, i, whole, done + {key}, changes.Contents());
    FromRowsStep(w, objects, added, changes.Objects(), row, key, cs, ds, done);
  }

  lemma RowApart(w: World, objects: set<Endpoint>, row: TableRow, key: PlanKey,
                 cs: seq<Endpoint>, ds: seq<Endpoint>, done: set<PlanKey>)
    requires HoldsRow(w, key, row, cs, ds)
    requires FromRows(w, objects, cs, ds, done) && key !in done
    ensures forall e | e in objects :: e !in row.candidates
    ensures forall e | e in row.current :: e in cs && EndpointRow(w, e) == key
    ensures forall e | e in row.candidates :: e in ds && EndpointRow(w, e) == key
  {
  }

  lemma CandidatesIn(w: World, key: PlanKey, row: TableRow, cs: seq<Endpoint>, ds: seq<Endpoint>)
    requires HoldsRow(w, key, row, cs, ds)
    ensures forall k | 0 <= k < |row.candidates| :: row.candidates[k] in ds
  {
  }

  /** One turn of the row loop, looked up in the table. */
  method RowTurnIn(w: World, i: Instance, ghost snap: Snapshot, ghost cs: seq<Endpoint>, ghost ds: seq<Endpoint>,
                   changes: ChangeSet, rows: map<PlanKey, TableRow>, key: PlanKey, ghost done: set<PlanKey>)
    requires HoldsRows(w, rows, cs, ds) && key in rows
    requires Covers(snap, cs) && Covers(snap, ds)
    requires forall e | e in cs :: e !in ds
    requires RowLoop(w, i, snap, cs, ds, changes, done) && key !in done
    modifies changes, ds
    ensures RowLoop(w, i, snap, cs, ds, changes, done + {key})
  {
    CandidatesIn(w, key, rows[key], cs, ds);
    RowTurn(w, i, snap, cs, ds, changes, key, rows[key], done);
  }

  lemma NoRowsYet(w: World, i: Instance, whole: Row)
    ensures WholeProgress(w, i, whole, {}, NOTHING)
  {
  }

  method EmptyPlan(w: World, i: Instance, ghost snap: Snapshot, ghost cs: seq<Endpoint>, ghost ds: seq<Endpoint>)
    returns (changes: ChangeSet)
    requires Unchanged(snap, cs) && Unchanged(snap, ds)
    ensures fresh(changes)
    ensures RowLoop(w, i, snap, cs, ds, changes, {})
  {
    changes := new ChangeSet();
    NoRowsYet(w, i, WholeThen(snap, cs, ds));
    assert changes.Contents() == NOTHING;
  }

  /** The loop of calculateChanges: every row once, in an arbitrary order. */
  method RowsLoop(w: World, i: Instance, ghost snap: Snapshot, ghost cs: seq<Endpoint>, ghost ds: seq<Endpoint>,
                  rows: map<PlanKey, TableRow>)
    returns (changes: ChangeSet)
    requires Unchanged(snap, cs) && Unchanged(snap, ds)
    requires forall e | e in cs :: e !in ds
    requires HoldsRows(w, rows, cs, ds)
    modifies ds
    ensures fresh(changes)
    ensures RowLoop(w, i, snap, cs, ds, changes, rows.Keys)
  {
    changes := EmptyPlan(w, i, snap, cs, ds);
    var todo := rows.Keys;
    ghost var done: set<PlanKey> := {};
    while todo != {}
      invariant Splits(rows.Keys, done, todo)
      invariant fresh(changes)
      invariant RowLoop(w, i, snap, cs, ds, changes, done)
      decreases todo
    {
      var key :| key in todo;
      SplitsStep(rows.Keys, done, todo, key);
      RowTurnIn(w, i, snap, cs, ds, changes, rows, key, done);
      todo, done := todo - {key}, done + {key};
    }
    SplitsEnd(rows.Keys, done, todo);
  }

  lemma NothingInRow(w: World, snap: Snapshot, es: seq<Endpoint>, key: PlanKey)
    requires Covers(snap, es) && forall k | 0 <= k < |es| :: EndpointRow(w, es[k]) != key
    ensures Filter(InRow(w, key), ValuesThen(snap, es)) == []
  {
    forall r | r in ValuesThen(snap, es) ensures !InRow(w, key)(r) {
      var k :| 0 <= k < |es| && r == ValueThen(snap, es[k]);
    }
    FilterEmpty(InRow(w, key), ValuesThen(snap, es));
  }

  lemma NoSuchRow(w: World, rows: map<PlanKey, TableRow>, snap: Snapshot, cs: seq<Endpoint>, ds: seq<Endpoint>, key: PlanKey)
    requires HoldsRows(w, rows, cs, ds) && Covers(snap, cs) && Covers(snap, ds) && key !in rows
    ensures RowAt(w, WholeThen(snap, cs, ds), key) == Row([], [])
  {
    forall k | 0 <= k < |cs| ensures EndpointRow(w, cs[k]) != key { assert cs[k] in cs; }
    forall k | 0 <= k < |ds| ensures EndpointRow(w, ds[k]) != key { assert ds[k] in ds; }
    NothingInRow(w, snap, cs, key);
    NothingInRow(w, snap, ds, key);
  }

  lemma EmptyRowChanges(w: World, i: Instance, t: string)
    ensures RowChanges(w, i, Row([], []), t) == NOTHING
  {
    assert Resolved([], t) == [];
  }

  /** With every row done, each cell holds what its row calls for. */
  lemma AllRowsDone(w: World, i: Instance, rows: map<PlanKey, TableRow>, snap: Snapshot,
                    cs: seq<Endpoint>, ds: seq<Endpoint>, acc: Changes, slot: Slot)
    requires HoldsRows(w, rows, cs, ds) && Covers(snap, cs) && Covers(snap, ds)
    requires RowsDone(w, i, WholeThen(snap, cs, ds), rows.Keys, acc)
    ensures Project(w, acc, slot) == RowChanges(w, i, RowAt(w, WholeThen(snap, cs, ds), slot.key), slot.recordType)
  {
    assert Project(w, acc, slot) == Part(InSlot(w, slot), acc);
    if slot.key !in rows {
      NoSuchRow(w, rows, snap, cs, ds, slot.key);
      EmptyRowChanges(w, i, slot.recordType);
    }
  }

  // ---- policies and owner filters over the lists ----

  /** Policy.Apply. */
  method ApplyPolicyObject(p: Policy, ch: ChangeSet) returns (r: ChangeSet)
    ensures r == ch || fresh(r)
    ensures r.Objects() <= ch.Objects()
    ensures r.Contents() == ApplyPolicy(p, ch.Contents())
  {
    match p
    case SyncPolicy =>
      r := ch;
    case UpsertOnlyPolicy =>
      r := new ChangeSet();
      r.create, r.updateOld, r.updateNew := ch.create, ch.updateOld, ch.updateNew;
    case CreateOnlyPolicy =>
      r := new ChangeSet();
      r.create := ch.create;
  }

  method ApplyPoliciesObject(ps: seq<Policy>, ch: ChangeSet) returns (r: ChangeSet)
    ensures r == ch || fresh(r)
    ensures r.Objects() <= ch.Objects()
    ensures r.Contents() == ApplyPolicies(ps, ch.Contents())
  {
    hide ApplyPolicy, ChangeSet.Contents;
    r := ch;
    var k := 0;
    ghost var contents := ch.Contents();
    while k < |ps|
      invariant 0 <= k <= |ps|
      invariant r == ch || fresh(r)
      invariant r.Objects() <= ch.Objects()
      invariant r.Contents() == ApplyPolicies(ps[..k], contents)
    {
      assert ps[..k + 1][..k] == ps[..k];
      r := ApplyPolicyObject(ps[k], r);
      k := k + 1;
    }
    assert ps[..k] == ps;
  }

  /** FilterEndpointsByOwnerID. */
  method FilterEndpointsByOwnerID(owner: string, eps: seq<Endpoint>) returns (filtered: seq<Endpoint>)
    ensures Values(filtered) == Filter(OwnedBy(owner), Values(eps))
    ensures forall e | e in filtered :: e in eps
  {
    filtered := [];
    ghost var vs := Values(eps);
    var k := 0;
    while k < |eps|
      invariant 0 <= k <= |eps|
      invariant Values(filtered) == Filter(OwnedBy(owner), vs[..k])
      invariant forall e | e in filtered :: e in eps
    {
      FilterSnoc(OwnedBy(owner), vs[..k], vs[k]);
      assert vs[..k + 1] == vs[..k] + [vs[k]];
      if OWNER_LABEL in eps[k].labels && eps[k].labels[OWNER_LABEL] == owner {
        ValuesSnoc(filtered, eps[k]);
        filtered := filtered + [eps[k]];
      }
      k := k + 1;
    }
    assert vs[..k] == vs;
  }

  /** endpoint.RemoveDuplicates, with its set of visited keys. */
  method RemoveDuplicateObjects(eps: seq<Endpoint>) returns (result: seq<Endpoint>)
    ensures Values(result) == RemoveDuplicates(Values(eps))
    ensures forall e | e in result :: e in eps
  {
    hide RemoveDuplicates, Visited;
    NothingVisited();
    result := [];
    var visited: set<EndpointKey> := {};
    ghost var vs := Values(eps);
    var k := 0;
    while k < |eps|
      invariant 0 <= k <= |eps|
      invariant forall key :: key in visited <==> Visited(vs[..k], key)
      invariant Values(result) == RemoveDuplicates(vs[..k])
      invariant forall e | e in result :: e in eps
    {
      var key := EndpointKey(eps[k].dnsName, eps[k].recordType, eps[k].setIdentifier);
      assert vs[..k + 1] == vs[..k] + [vs[k]];
      RemoveDuplicatesSnoc(vs[..k], vs[k]);
      VisitedSnoc(vs[..k], vs[k]);
      if key !in visited {
        ValuesSnoc(result, eps[k]);
        result := result + [eps[k]];
        visited := visited + {key};
      }
      k := k + 1;
    }
    assert vs[..k] == vs;
  }

  lemma NothingVisited()
    ensures RemoveDuplicates([]) == [] && forall key :: !Visited([], key)
  {
  }

  lemma VisitedSnoc(rs: seq<Record>, r: Record)
    ensures forall key :: Visited(rs + [r], key) <==> Visited(rs, key) || key == KeyAsWritten(r)
  {
    forall key ensures Visited(rs + [r], key) <==> Visited(rs, key) || key == KeyAsWritten(r) {
      if Visited(rs, key) {
        var x :| x in rs && KeyAsWritten(x) == key;
        assert x in rs + [r];
      }
      assert r in rs + [r];
    }
  }

  // ---- the finishing steps on the lists ----

  lemma {:induction false} FilterPairs(w: World, owner: string, uo: seq<Record>, un: seq<Record>)
    requires owner != "" && |uo| == |un|
    requires forall k | 0 <= k < |uo| :: SlotOf(w, uo[k]) == SlotOf(w, un[k]) && IsOwnedBy(uo[k], owner) == IsOwnedBy(un[k], owner)
    ensures var fo, fn := Filter(OwnedBy(owner), uo), Filter(OwnedBy(owner), un);
            |fo| == |fn| && forall k | 0 <= k < |fo| :: SlotOf(w, fo[k]) == SlotOf(w, fn[k])
  {
    if uo != [] {
      var n := |uo| - 1;
      FilterPairs(w, owner, uo[..n], un[..n]);
      assert IsOwnedBy(uo[n], owner) == IsOwnedBy(un[n], owner);
    }
  }

  /** The two update lists stay paired although each is filtered on its own. */
  lemma FinishKeepsPairs(w: World, i: Instance, ch: Changes)
    requires Inherits(w, ch)
    ensures Paired(w, Finish(i, ch))
  {
    PoliciesStrip(i.policies, ch);
    if i.owner != "" && AllowsUpdate(i.policies) {
      FilterPairs(w, i.owner, ch.updateOld, ch.updateNew);
    }
  }

  /** The owner filters at the end of calculateChanges. */
  method FilterListsByOwner(owner: string, ch: ChangeSet, ghost contents: Changes) returns (r: ChangeSet)
    requires owner != "" && ch.Contents() == contents
    ensures fresh(r)
    ensures r.Contents() == FilterByOwner(owner, contents)
  {
    hide Filter, RemoveDuplicates;
    var delete := FilterDeletes(owner, ch.delete);
    var updateOld := FilterEndpointsByOwnerID(owner, ch.updateOld);
    var updateNew := FilterEndpointsByOwnerID(owner, ch.updateNew);
    r := NewChangeSet(ch.create, updateOld, updateNew, delete, FilterByOwner(owner, contents));
  }

  method FilterDeletes(owner: string, es: seq<Endpoint>) returns (r: seq<Endpoint>)
    ensures Values(r) == RemoveDuplicates(Filter(OwnedBy(owner), Values(es)))
  {
    r := FilterEndpointsByOwnerID(owner, es);
    r := RemoveDuplicateObjects(r);
  }

  method NewChangeSet(create: seq<Endpoint>, updateOld: seq<Endpoint>, updateNew: seq<Endpoint>, delete: seq<Endpoint>,
                      ghost contents: Changes)
    returns (r: ChangeSet)
    requires contents == Changes(Values(create), Values(updateOld), Values(updateNew), Values(delete))
    ensures fresh(r)
    ensures r.Contents() == contents
  {
    r := new ChangeSet();
    r.create, r.updateOld, r.updateNew, r.delete := create, updateOld, updateNew, delete;
  }

  /** The end of calculateChanges: policies, then the owner filters. */
  method FinishChanges(i: Instance, all: ChangeSet, ghost acc: Changes) returns (changes: ChangeSet)
    requires all.Contents() == acc
    ensures changes.Contents() == Finish(i, acc)
  {
    var kept := ApplyPoliciesObject(i.policies, all);
    if i.owner != "" {
      changes := FilterListsByOwner(i.owner, kept, ApplyPolicies(i.policies, acc));
    } else {
      changes := kept;
    }
  }

  /** filterRecordsForPlan. */
  method FilterRecordsForPlan(w: World, i: Instance, records: seq<Endpoint>) returns (filtered: seq<Endpoint>)
    ensures filtered == Filter(ObjectVisible(w, i), records)
  {
    filtered := [];
    var k := 0;
    while k < |records|
      invariant 0 <= k <= |records|
      invariant filtered == Filter(ObjectVisible(w, i), records[..k])
    {
      FilterSnoc(ObjectVisible(w, i), records[..k], records[k]);
      assert records[..k + 1] == records[..k] + [records[k]];
      if i.matches(records[k].dnsName) {
        if IsManagedRecord(w, records[k].recordType) {
          filtered := filtered + [records[k]];
        }
      }
      k := k + 1;
    }
    assert records[..k] == records;
  }

  /** The loops of Calculate that fill the table. */
  method FillCurrent(w: World, t: PlanTable, cs: seq<Endpoint>)
    requires t.Holds(w, [], [])
    modifies t
    ensures t.Holds(w, cs, [])
  {
    hide HoldsRows;
    var k := 0;
    while k < |cs|
      invariant 0 <= k <= |cs|
      invariant t.Holds(w, cs[..k], [])
    {
      assert cs[..k + 1] == cs[..k] + [cs[k]];
      t.AddCurrent(w, cs[k], cs[..k], []);
      k := k + 1;
    }
    assert cs[..k] == cs;
  }

  method FillDesired(w: World, t: PlanTable, ghost cs: seq<Endpoint>, ds: seq<Endpoint>)
    requires t.Holds(w, cs, [])
    modifies t
    ensures t.Holds(w, cs, ds)
  {
    hide HoldsRows;
    var k := 0;
    while k < |ds|
      invariant 0 <= k <= |ds|
      invariant t.Holds(w, cs, ds[..k])
    {
      assert ds[..k + 1] == ds[..k] + [ds[k]];
      t.AddCandidate(w, ds[k], cs, ds[..k]);
      k := k + 1;
    }
    assert ds[..k] == ds;
  }

  lemma SnapshotOf(snap: Snapshot, w: World, i: Instance, current: seq<Endpoint>, desired: seq<Endpoint>, key: PlanKey)
    requires Covers(snap, current) && Covers(snap, desired)
    ensures Covers(snap, Filter(ObjectVisible(w, i), current)) && Covers(snap, Filter(ObjectVisible(w, i), desired))
    ensures RowAt(w, WholeThen(snap, Filter(ObjectVisible(w, i), current), Filter(ObjectVisible(w, i), desired)), key)
            == RowOf(w, i, ValuesThen(snap, current), ValuesThen(snap, desired), key)
  {
    ValuesThenFilter(snap, ObjectVisible(w, i), VisibleTo(w, i), current);
    ValuesThenFilter(snap, ObjectVisible(w, i), VisibleTo(w, i), desired);
  }

  /** What the finished row loop amounts to is a plan. */
  lemma LoopGivesPlan(w: World, i: Instance, rows: map<PlanKey, TableRow>, snap: Snapshot,
                      current: seq<Endpoint>, desired: seq<Endpoint>, cs: seq<Endpoint>, ds: seq<Endpoint>, acc: Changes)
    requires Covers(snap, current) && Covers(snap, desired)
    requires cs == Filter(ObjectVisible(w, i), current) && ds == Filter(ObjectVisible(w, i), desired)
    requires Covers(snap, cs) && Covers(snap, ds)
    requires HoldsRows(w, rows, cs, ds)
    requires WholeProgress(w, i, WholeThen(snap, cs, ds), rows.Keys, acc)
    ensures IsPlan(w, i, ValuesThen(snap, current), ValuesThen(snap, desired), Finish(i, acc))
  {
    forall slot
      ensures Project(w, Finish(i, acc), slot) ==
              PlanSlot(w, i, ValuesThen(snap, current), ValuesThen(snap, desired), slot)
    {
      FinishInSlot(w, i, acc, slot);
      AllRowsDone(w, i, rows, snap, cs, ds, acc, slot);
      SnapshotOf(snap, w, i, current, desired, slot.key);
    }
    FinishKeepsPairs(w, i, acc);
  }

  /** calculateChanges on a filled table. */
  method CalculateChanges(w: World, i: Instance, t: PlanTable, ghost snap: Snapshot, ghost cs: seq<Endpoint>, ghost ds: seq<Endpoint>)
    returns (changes: ChangeSet, ghost acc: Changes)
    requires Unchanged(snap, cs) && Unchanged(snap, ds)
    requires forall e | e in cs :: e !in ds
    requires t.Holds(w, cs, ds)
    modifies ds
    ensures t.rows == old(t.rows)
    ensures WholeProgress(w, i, WholeThen(snap, cs, ds), t.rows.Keys, acc)
    ensures changes.Contents() == Finish(i, acc)
    ensures forall e | e in ds :: OwnerOnly(snap[e], e.labels)
  {
    hide Finish, WholeProgress, FromRows;
    var all := RowsLoop(w, i, snap, cs, ds, t.rows);
    acc := all.Contents();
    changes := FinishChanges(i, all, acc);
  }

  /** calculateChanges, seen from all the desired endpoints. */
  method CalculateVisible(w: World, i: Instance, t: PlanTable, ghost snap: Snapshot, ghost cs: seq<Endpoint>, ghost ds: seq<Endpoint>,
                          ghost desired: seq<Endpoint>)
    returns (changes: ChangeSet, ghost acc: Changes)
    requires Unchanged(snap, cs) && Unchanged(snap, ds) && Unchanged(snap, desired)
    requires forall e | e in cs :: e !in ds
    requires forall e | e in ds :: e in desired
    requires t.Holds(w, cs, ds)
    modifies desired
    ensures t.rows == old(t.rows)
    ensures WholeProgress(w, i, WholeThen(snap, cs, ds), t.rows.Keys, acc)
    ensures changes.Contents() == Finish(i, acc)
    ensures forall e | e in desired :: OwnerOnly(snap[e], e.labels)
  {
    assert forall k | 0 <= k < |ds| :: ds[k] in desired;
    changes, acc := CalculateChanges(w, i, t, snap, cs, ds);
    forall e | e in desired ensures OwnerOnly(snap[e], e.labels) {
      assert e in ds || e.labels == old(e.labels);
    }
  }

  lemma VisibleApart(w: World, i: Instance, snap: Snapshot, current: seq<Endpoint>, desired: seq<Endpoint>)
    requires forall e | e in current :: e !in desired
    requires Unchanged(snap, current) && Unchanged(snap, desired)
    ensures var cs, ds := Filter(ObjectVisible(w, i), current), Filter(ObjectVisible(w, i), desired);
            && (forall e | e in cs :: e in current && e !in ds)
            && (forall e | e in ds :: e in desired)
            && Unchanged(snap, cs) && Unchanged(snap, ds)
  {
  }

  /** The first half of Calculate: filter both lists and fill the table. */
  method BuildTable(w: World, i: Instance, current: seq<Endpoint>, desired: seq<Endpoint>)
    returns (t: PlanTable, cs: seq<Endpoint>, ds: seq<Endpoint>)
    ensures cs == Filter(ObjectVisible(w, i), current) && ds == Filter(ObjectVisible(w, i), desired)
    ensures fresh(t) && t.Holds(w, cs, ds)
  {
    cs := FilterRecordsForPlan(w, i, current);
    ds := FilterRecordsForPlan(w, i, desired);
    t := new PlanTable();
    FillCurrent(w, t, cs);
    FillDesired(w, t, cs, ds);
  }

  /** Plan.Calculate. The result is a plan for what the endpoints said when it was called,
      whatever order the rows and types were visited in; of the inputs, at most owner labels
      of desired endpoints change. */
  method Calculate(w: World, i: Instance, current: seq<Endpoint>, desired: seq<Endpoint>) returns (changes: ChangeSet)
    requires forall e | e in current :: e !in desired
    modifies desired
    ensures IsPlan(w, i, old(Values(current)), old(Values(desired)), changes.Contents())
    ensures forall e | e in desired :: OwnerOnly(old(e.labels), e.labels)
  {
    ghost var known := set e | e in current || e in desired;
    ghost var snap := map e | e in known :: e.labels;
    UnchangedValues(snap, current);
    UnchangedValues(snap, desired);
    VisibleApart(w, i, snap, current, desired);
    var t, cs, ds := BuildTable(w, i, current, desired);
    ghost var acc;
    changes, acc := CalculateVisible(w, i, t, snap, cs, ds, desired);
    LoopGivesPlan(w, i, t.rows, snap, current, desired, cs, ds, acc);
  }
}
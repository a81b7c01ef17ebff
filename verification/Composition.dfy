/** Planner and Cloudflare submission together: a turn of the planner, submitted without a
    failed call, leaves the zone holding the next state (plan/plan.go,
    provider/cloudflare/cloudflare.go). */
module Composition {
  import opened Wrappers
  import opened Sorting
  import opened Records
  import opened PlanSpec
  import opened Reconcile
  import opened Runs
  import opened Cloudflare
  import opened CloudflareSubmit
  import opened CloudflareChanges
  import opened CloudflareEffect

  /** Equal in everything but labels and properties. */
  predicate StandsFor(e: Record, r: Record) {
    e.dnsName == r.dnsName && e.recordType == r.recordType && e.setIdentifier == r.setIdentifier && e.targets == r.targets
  }

  ghost predicate InState(st: State, r: Record) {
    exists s :: s in st && st[s] == r
  }

  /** e is a record of the state or a desired one, up to its labels. */
  ghost predicate Known(st: State, desired: seq<Record>, e: Record) {
    exists r :: StandsFor(e, r) && (InState(st, r) || r in desired)
  }

  /** What Cloudflare can express: no set identifiers, one spelling per name, no target twice,
      no two MX targets of one record with the same host. */
  ghost predicate Expressible(cfg: Config, w: World, st: State, desired: seq<Record>) {
    && (forall r | Known(st, desired, r) ::
          r.setIdentifier == "" && NoDuplicates(r.targets) && Separate(cfg, r.recordType, r.targets))
    && (forall a, b | Known(st, desired, a) && Known(st, desired, b) && w.normalize(a.dnsName) == w.normalize(b.dnsName) ::
          a.dnsName == b.dnsName)
  }

  function CellFor(r: Record): Cell {
    Cell(r.dnsName, r.recordType)
  }

  lemma CellIsSlot(cfg: Config, w: World, st: State, desired: seq<Record>, a: Record, b: Record)
    requires Expressible(cfg, w, st, desired) && Known(st, desired, a) && Known(st, desired, b)
    ensures CellFor(a) == CellFor(b) <==> SlotOf(w, a) == SlotOf(w, b)
  {
  }

  /** The zone holds at the record's name and type exactly the records it asks for: one for each
      of its targets, with its TTL, proxied and prioritized as it says. */
  ghost predicate Shows(cfg: Config, z: Zone, r: Record) {
    forall content :: HeldAsAsked(cfg, r, View(z, IndexAt(CellFor(r), content)), content)
  }

  ghost predicate ShowsNothing(z: Zone, cell: Cell) {
    forall content :: View(z, IndexAt(cell, content)) == None
  }

  /** The zone holds exactly what the state's records ask for, and nothing else. */
  ghost predicate ShowsState(cfg: Config, z: Zone, st: State) {
    && (forall s | s in st :: Shows(cfg, z, st[s]))
    && (forall cell: Cell | (forall s | s in st :: CellFor(st[s]) != cell) :: ShowsNothing(z, cell))
  }

  /** The lookup table says the same. */
  ghost predicate Mirrors(cfg: Config, records: RecordsMap, st: State) {
    && (forall s | s in st :: Holds(cfg, records, CellFor(st[s]), st[s].targets))
    && (forall cell: Cell | (forall s | s in st :: CellFor(st[s]) != cell) :: Holds(cfg, records, cell, []))
  }

  lemma LooksUp(records: RecordsMap, z: Zone, ix: Index)
    requires IsRecordsMap(records, z)
    ensures ix in records <==> View(z, ix).Some?
  {
    if ix in records { ViewIs(z, ix, records[ix]); }
  }

  lemma NamedExactly(cfg: Config, r: Record, content: string)
    ensures Priority(cfg, r.recordType, r.targets, content).Some?
            <==> exists t, priority :: t in r.targets && NamesContent(cfg, r, t, content, priority)
  {
    if t :| t in r.targets && Names(cfg, r.recordType, t, content) {
      assert NamesContent(cfg, r, t, content, Parsed(cfg, r.recordType, t).value.0);
    }
    if t, priority :| t in r.targets && NamesContent(cfg, r, t, content, priority) {
      assert Names(cfg, r.recordType, t, content);
    }
  }

  lemma ShownIsHeld(cfg: Config, records: RecordsMap, z: Zone, r: Record)
    requires IsRecordsMap(records, z) && Shows(cfg, z, r)
    ensures Holds(cfg, records, CellFor(r), r.targets)
  {
    hide Priority, IsRecordsMap, View;
    forall content ensures IndexAt(CellFor(r), content) in records <==> Priority(cfg, r.recordType, r.targets, content).Some? {
      LooksUp(records, z, IndexAt(CellFor(r), content));
      NamedExactly(cfg, r, content);
      assert HeldAsAsked(cfg, r, View(z, IndexAt(CellFor(r), content)), content);
    }
  }

  lemma NothingIsHeld(cfg: Config, records: RecordsMap, z: Zone, cell: Cell)
    requires IsRecordsMap(records, z) && ShowsNothing(z, cell)
    ensures Holds(cfg, records, cell, [])
  {
    hide IsRecordsMap, View;
    forall content ensures IndexAt(cell, content) !in records { LooksUp(records, z, IndexAt(cell, content)); }
  }

  lemma ShownIsMirrored(cfg: Config, records: RecordsMap, z: Zone, st: State)
    requires IsRecordsMap(records, z) && ShowsState(cfg, z, st)
    ensures Mirrors(cfg, records, st)
  {
    hide IsRecordsMap, Shows, ShowsNothing, Holds;
    forall s | s in st ensures Holds(cfg, records, CellFor(st[s]), st[s].targets) { ShownIsHeld(cfg, records, z, st[s]); }
    forall cell: Cell | (forall s | s in st :: CellFor(st[s]) != cell) ensures Holds(cfg, records, cell, []) {
      NothingIsHeld(cfg, records, z, cell);
    }
  }

  // ---- what the changes of a turn name ----

  lemma StateKnown(st: State, desired: seq<Record>, s: Slot)
    requires s in st
    ensures Known(st, desired, st[s])
  {
    assert StandsFor(st[s], st[s]) && InState(st, st[s]);
  }

  lemma DesiredKnown(st: State, desired: seq<Record>, e: Record, u: Record)
    requires u in desired && StandsFor(e, u)
    ensures Known(st, desired, e)
  {
  }

  lemma InPart(p: Record -> bool, rs: seq<Record>, k: nat)
    requires k < |rs| && p(rs[k])
    ensures rs[k] in Filter(p, rs)
  {
  }

  /** A create names a free cell and a desired record. */
  lemma CreateNames(w: World, st: State, t: Turn, k: nat)
    requires ValidTurn(w, st, t) && k < |t.changes.create|
    ensures var e := t.changes.create[k];
            SlotOf(w, e) !in st && e in t.desired && Known(st, t.desired, e)
  {
    var e := t.changes.create[k];
    var s := SlotOf(w, e);
    InPart(InSlot(w, s), t.changes.create, k);
    ChangesAreDisjoint(w, st, t, s);
    TurnAt(w, st, t, s);
    WantedBelongs(w, t.inst, t.desired, s);
    assert e == ResolveCreate(w.net, Reconcile.Wanted(w, t.inst, t.desired, s));
    DesiredKnown(st, t.desired, e, e);
  }

  /** A delete names the record that is there. */
  lemma DeleteNames(w: World, st: State, t: Turn, k: nat)
    requires ValidTurn(w, st, t) && k < |t.changes.delete|
    ensures var e := t.changes.delete[k];
            SlotOf(w, e) in st && st[SlotOf(w, e)] == e && Known(st, t.desired, e)
  {
    var e := t.changes.delete[k];
    var s := SlotOf(w, e);
    InPart(InSlot(w, s), t.changes.delete, k);
    ChangesAreDisjoint(w, st, t, s);
    assert e in [st[s]];
    StateKnown(st, t.desired, s);
  }

  /** An update names the record that is there and a desired record for the same cell. */
  lemma UpdateNames(w: World, st: State, t: Turn, k: nat)
    requires ValidTurn(w, st, t) && k < |t.changes.updateNew|
    ensures |t.changes.updateOld| == |t.changes.updateNew|
    ensures var o, e := t.changes.updateOld[k], t.changes.updateNew[k];
            && SlotOf(w, o) == SlotOf(w, e) && SlotOf(w, e) in st && st[SlotOf(w, e)] == o
            && Known(st, t.desired, o) && Known(st, t.desired, e)
  {
    hide Known, PlanSlot;
    var o, e := t.changes.updateOld[k], t.changes.updateNew[k];
    var s := SlotOf(w, e);
    assert SlotOf(w, o) == s;
    InPart(InSlot(w, s), t.changes.updateOld, k);
    InPart(InSlot(w, s), t.changes.updateNew, k);
    ChangesAreDisjoint(w, st, t, s);
    assert o in [st[s]];
    StateKnown(st, t.desired, s);
    UpdateIsDesired(w, st, t, s, e);
  }

  lemma UpdateIsDesired(w: World, st: State, t: Turn, s: Slot, e: Record)
    requires ValidTurn(w, st, t) && e in Project(w, t.changes, s).updateNew
    ensures Known(st, t.desired, e)
  {
    hide Claim, Reconcile.Wanted, Next, NeedsUpdate, Known;
    TurnAt(w, st, t, s);
    var cs, held := Reconcile.Wanted(w, t.inst, t.desired, s), Seen(w, t.inst, st, s);
    assert Project(w, t.changes, s) == Decide(w, t.inst, Claim(w, t.inst, st, s.key), held, cs);
    assert held.Some? && cs != [];
    var u := ResolveUpdate(w.net, held.value, cs);
    assert e in [InheritOwner(held.value, u)];
    WantedBelongs(w, t.inst, t.desired, s);
    DesiredKnown(st, t.desired, e, u);
  }

  // ---- the jobs of a turn ----

  /** The records the jobs put or remove, in the order of the jobs. */
  function Named(cfg: Config, ch: Changes): seq<Record> {
    (if cfg.customHostnames then ch.delete else []) + ch.create + ch.updateNew
    + (if cfg.customHostnames then [] else ch.delete)
  }

  lemma JobsName(cfg: Config, ch: Changes)
    requires |ch.updateOld| >= |ch.updateNew|
    ensures |JobsOf(cfg, ch)| == |Named(cfg, ch)|
    ensures forall k | 0 <= k < |JobsOf(cfg, ch)| :: JobsOf(cfg, ch)[k].e == Named(cfg, ch)[k]
  {
  }

  lemma NamedPart(cfg: Config, ch: Changes, p: Record -> bool)
    ensures |Filter(p, Named(cfg, ch))| == |Part(p, ch).create| + |Part(p, ch).updateNew| + |Part(p, ch).delete|
  {
    var first := if cfg.customHostnames then ch.delete else [];
    var last := if cfg.customHostnames then [] else ch.delete;
    FilterAppend(p, first + ch.create + ch.updateNew, last);
    FilterAppend(p, first + ch.create, ch.updateNew);
    FilterAppend(p, first, ch.create);
  }

  lemma {:induction false} TwoInFilter<T>(p: T -> bool, s: seq<T>, j: nat, k: nat)
    requires j < k < |s| && p(s[j]) && p(s[k])
    ensures |Filter(p, s)| >= 2
  {
    if k < |s| - 1 {
      TwoInFilter(p, s[..|s| - 1], j, k);
    } else {
      assert s[..|s| - 1][j] == s[j];
      assert s[j] in Filter(p, s[..|s| - 1]);
    }
  }

  /** Where in the plan a job comes from. */
  ghost predicate ComesFrom(job: Job, ch: Changes, k: nat) {
    match job
    case CreateJob(e) => k < |ch.create| && e == ch.create[k]
    case DeleteJob(e) => k < |ch.delete| && e == ch.delete[k]
    case UpdateJob(was, e) => k < |ch.updateNew| && k < |ch.updateOld| && was == ch.updateOld[k] && e == ch.updateNew[k]
  }

  lemma JobSource(cfg: Config, ch: Changes, j: nat) returns (k: nat)
    requires |ch.updateOld| >= |ch.updateNew| && j < |JobsOf(cfg, ch)|
    ensures ComesFrom(JobsOf(cfg, ch)[j], ch, k)
  {
    var d := if cfg.customHostnames then |ch.delete| else 0;
    if j < d {
      k := j;
    } else if j < d + |ch.create| {
      k := j - d;
    } else if j < d + |ch.create| + |ch.updateNew| {
      k := j - d - |ch.create|;
    } else {
      k := j - d - |ch.create| - |ch.updateNew|;
    }
  }

  lemma TurnIsPaired(w: World, st: State, t: Turn)
    requires ValidTurn(w, st, t)
    ensures |t.changes.updateOld| == |t.changes.updateNew|
  {
  }

  lemma JobKnown(w: World, st: State, t: Turn, cfg: Config, j: nat)
    requires ValidTurn(w, st, t) && |t.changes.updateOld| == |t.changes.updateNew| && j < |JobsOf(cfg, t.changes)|
    ensures Known(st, t.desired, JobsOf(cfg, t.changes)[j].e)
  {
    var job := JobsOf(cfg, t.changes)[j];
    var k := JobSource(cfg, t.changes, j);
    match job
    case CreateJob(e) => CreateNames(w, st, t, k);
    case DeleteJob(e) => DeleteNames(w, st, t, k);
    case UpdateJob(was, e) => UpdateNames(w, st, t, k);
  }

  /** No two jobs of a turn share a name and a type. */
  lemma TurnHasDistinctCells(w: World, st: State, t: Turn, cfg: Config)
    requires ValidTurn(w, st, t) && Expressible(cfg, w, st, t.desired)
    ensures |t.changes.updateOld| == |t.changes.updateNew|
    ensures DistinctCells(JobsOf(cfg, t.changes))
  {
    TurnIsPaired(w, st, t);
    var jobs, named := JobsOf(cfg, t.changes), Named(cfg, t.changes);
    JobsName(cfg, t.changes);
    forall j, k | 0 <= j < k < |jobs| ensures CellOf(jobs[j]) != CellOf(jobs[k]) {
      JobKnown(w, st, t, cfg, j);
      JobKnown(w, st, t, cfg, k);
      CellIsSlot(cfg, w, st, t.desired, named[j], named[k]);
      OneJobPerSlot(w, st, t, cfg, j, k);
    }
  }

  lemma OneJobPerSlot(w: World, st: State, t: Turn, cfg: Config, j: nat, k: nat)
    requires ValidTurn(w, st, t) && j < k < |Named(cfg, t.changes)|
    ensures SlotOf(w, Named(cfg, t.changes)[j]) != SlotOf(w, Named(cfg, t.changes)[k])
  {
    var named := Named(cfg, t.changes);
    var s := SlotOf(w, named[j]);
    if SlotOf(w, named[k]) == s {
      TwoInFilter(InSlot(w, s), named, j, k);
      NamedPart(cfg, t.changes, InSlot(w, s));
      ChangesAreDisjoint(w, st, t, s);
      assert false;
    }
  }

  // ---- the jobs fit the zone ----

  lemma FreeCell(cfg: Config, w: World, st: State, desired: seq<Record>, records: RecordsMap, e: Record)
    requires ValidState(w, st) && Expressible(cfg, w, st, desired) && Mirrors(cfg, records, st)
    requires Known(st, desired, e) && SlotOf(w, e) !in st
    ensures Holds(cfg, records, CellFor(e), [])
  {
    forall s | s in st ensures CellFor(st[s]) != CellFor(e) {
      StateKnown(st, desired, s);
      CellIsSlot(cfg, w, st, desired, st[s], e);
    }
  }

  lemma CreateFits(cfg: Config, w: World, st: State, t: Turn, records: RecordsMap, k: nat)
    requires ValidTurn(w, st, t) && Expressible(cfg, w, st, t.desired) && Mirrors(cfg, records, st)
    requires k < |t.changes.create|
    ensures Fits(cfg, records, CreateJob(t.changes.create[k]))
  {
    CreateNames(w, st, t, k);
    FreeCell(cfg, w, st, t.desired, records, t.changes.create[k]);
  }

  lemma DeleteFits(cfg: Config, w: World, st: State, t: Turn, records: RecordsMap, k: nat)
    requires ValidTurn(w, st, t) && Expressible(cfg, w, st, t.desired) && Mirrors(cfg, records, st)
    requires k < |t.changes.delete|
    ensures Fits(cfg, records, DeleteJob(t.changes.delete[k]))
  {
    DeleteNames(w, st, t, k);
  }

  lemma UpdateFits(cfg: Config, w: World, st: State, t: Turn, records: RecordsMap, k: nat)
    requires ValidTurn(w, st, t) && Expressible(cfg, w, st, t.desired) && Mirrors(cfg, records, st)
    requires k < |t.changes.updateNew|
    ensures |t.changes.updateOld| == |t.changes.updateNew|
    ensures Fits(cfg, records, UpdateJob(t.changes.updateOld[k], t.changes.updateNew[k]))
  {
    UpdateNames(w, st, t, k);
    CellIsSlot(cfg, w, st, t.desired, t.changes.updateOld[k], t.changes.updateNew[k]);
  }

  lemma JobFits(w: World, st: State, t: Turn, cfg: Config, records: RecordsMap, j: nat)
    requires ValidTurn(w, st, t) && Expressible(cfg, w, st, t.desired) && Mirrors(cfg, records, st)
    requires |t.changes.updateOld| == |t.changes.updateNew| && j < |JobsOf(cfg, t.changes)|
    ensures Fits(cfg, records, JobsOf(cfg, t.changes)[j])
  {
    var job := JobsOf(cfg, t.changes)[j];
    var k := JobSource(cfg, t.changes, j);
    match job
    case CreateJob(e) => CreateFits(cfg, w, st, t, records, k);
    case DeleteJob(e) => DeleteFits(cfg, w, st, t, records, k);
    case UpdateJob(was, e) => UpdateFits(cfg, w, st, t, records, k);
  }

  /** Every job of a turn fits a zone that shows the state, and no two share a cell: what
      the submission asks of its caller, the planner delivers. */
  lemma TurnFitsZone(w: World, st: State, t: Turn, cfg: Config, records: RecordsMap, z: Zone)
    requires ValidTurn(w, st, t) && Expressible(cfg, w, st, t.desired)
    requires IsRecordsMap(records, z) && ShowsState(cfg, z, st)
    ensures |t.changes.updateOld| == |t.changes.updateNew|
    ensures DistinctCells(JobsOf(cfg, t.changes)) && AllFit(cfg, records, JobsOf(cfg, t.changes))
  {
    hide Fits, IsRecordsMap, Mirrors, ShowsState, Expressible, DistinctCells;
    ShownIsMirrored(cfg, records, z, st);
    TurnHasDistinctCells(w, st, t, cfg);
    forall j | 0 <= j < |JobsOf(cfg, t.changes)| ensures Fits(cfg, records, JobsOf(cfg, t.changes)[j]) {
      JobFits(w, st, t, cfg, records, j);
    }
  }

  // ---- the zone afterwards ----

  /** A cell that some job names: it shows what the next state holds there. */
  lemma NamedCellShows(w: World, st: State, t: Turn, cfg: Config, z': Zone, j: nat)
    requires ValidTurn(w, st, t) && |t.changes.updateOld| == |t.changes.updateNew| && j < |JobsOf(cfg, t.changes)|
    requires CellsAsAsked(cfg, JobsOf(cfg, t.changes), z')
    ensures var e := JobsOf(cfg, t.changes)[j].e; var n := Get(Next(w, st, t), SlotOf(w, e));
            if n.Some? then CellFor(n.value) == CellFor(e) && Shows(cfg, z', n.value) else ShowsNothing(z', CellFor(e))
  {
    hide CellsAsAsked, Shows, ShowsNothing, PlanSlot, ValidTurn;
    var job := JobsOf(cfg, t.changes)[j];
    var k := JobSource(cfg, t.changes, j);
    AskedShows(cfg, JobsOf(cfg, t.changes), z', j);
    match job {
      case CreateJob(e) =>
        CreatedNext(w, st, t, k);
        ShowsStamped(cfg, z', t.inst, e);
      case DeleteJob(e) => DeletedNext(w, st, t, k);
      case UpdateJob(was, e) => UpdatedNext(w, st, t, k);
    }
  }

  lemma AskedShows(cfg: Config, jobs: seq<Job>, z': Zone, j: nat)
    requires CellsAsAsked(cfg, jobs, z') && j < |jobs|
    ensures if jobs[j].DeleteJob? then ShowsNothing(z', CellFor(jobs[j].e)) else Shows(cfg, z', jobs[j].e)
  {
    hide View, HeldAsAsked;
    assert CellFor(jobs[j].e) == CellOf(jobs[j]);
  }

  /** Labels do not show. */
  lemma ShowsStamped(cfg: Config, z: Zone, i: Instance, e: Record)
    requires Shows(cfg, z, e)
    ensures Shows(cfg, z, Stamp(i, e))
  {
    hide View;
    forall content
      ensures HeldAsAsked(cfg, Stamp(i, e), View(z, IndexAt(CellFor(Stamp(i, e)), content)), content)
    {
      var held := View(z, IndexAt(CellFor(e), content));
      assert HeldAsAsked(cfg, e, held, content);
      StampedAsks(cfg, i, e, held, content);
    }
  }

  lemma StampedAsks(cfg: Config, i: Instance, e: Record, held: Option<DnsRecord>, content: string)
    requires HeldAsAsked(cfg, e, held, content)
    ensures HeldAsAsked(cfg, Stamp(i, e), held, content)
  {
    var n := Stamp(i, e);
    if t, priority :| t in e.targets && NamesContent(cfg, e, t, content, priority) {
      assert t in n.targets && NamesContent(cfg, n, t, content, priority);
    }
    if t, priority :| t in n.targets && NamesContent(cfg, n, t, content, priority) {
      assert NamesContent(cfg, e, t, content, priority);
    }
    if held.Some? {
      var t :| t in e.targets && IsAskedAt(cfg, e, t, held.value);
      assert IsAskedAt(cfg, n, t, held.value);
    }
  }

  lemma CreatedNext(w: World, st: State, t: Turn, k: nat)
    requires ValidTurn(w, st, t) && k < |t.changes.create|
    ensures var e := t.changes.create[k]; Get(Next(w, st, t), SlotOf(w, e)) == Some(Stamp(t.inst, e))
  {
    hide PlanSlot, Claim, Reconcile.Wanted, VisibleTo;
    var e := t.changes.create[k];
    var s := SlotOf(w, e);
    InPart(InSlot(w, s), t.changes.create, k);
    ChangesAreDisjoint(w, st, t, s);
    TurnAt(w, st, t, s);
  }

  lemma DeletedNext(w: World, st: State, t: Turn, k: nat)
    requires ValidTurn(w, st, t) && k < |t.changes.delete|
    ensures Get(Next(w, st, t), SlotOf(w, t.changes.delete[k])) == None
  {
    var s := SlotOf(w, t.changes.delete[k]);
    InPart(InSlot(w, s), t.changes.delete, k);
    ChangesAreDisjoint(w, st, t, s);
    TurnAt(w, st, t, s);
  }

  lemma UpdatedNext(w: World, st: State, t: Turn, k: nat)
    requires ValidTurn(w, st, t) && k < |t.changes.updateNew|
    ensures var e := t.changes.updateNew[k]; Get(Next(w, st, t), SlotOf(w, e)) == Some(e)
  {
    var e := t.changes.updateNew[k];
    var s := SlotOf(w, e);
    InPart(InSlot(w, s), t.changes.updateNew, k);
    ChangesAreDisjoint(w, st, t, s);
    NextIsAfter(w, st, t, s);
    UpdatedAfter(t.inst, Get(st, s), Project(w, t.changes, s), e);
  }

  lemma NextIsAfter(w: World, st: State, t: Turn, s: Slot)
    requires ValidTurn(w, st, t)
    ensures Get(Next(w, st, t), s) == After(t.inst, Get(st, s), Project(w, t.changes, s))
  {
    TurnAt(w, st, t, s);
  }

  lemma UpdatedAfter(i: Instance, held: Option<Record>, p: Changes, e: Record)
    requires e in p.updateNew && |p.create| + |p.updateNew| + |p.delete| <= 1
    ensures After(i, held, p) == Some(e)
  {
  }

  /** A cell that no job names keeps its record. */
  lemma UnnamedSlotKept(w: World, st: State, t: Turn, cfg: Config, s: Slot)
    requires ValidTurn(w, st, t) && |t.changes.updateOld| == |t.changes.updateNew|
    requires forall j | 0 <= j < |JobsOf(cfg, t.changes)| :: SlotOf(w, JobsOf(cfg, t.changes)[j].e) != s
    ensures Get(Next(w, st, t), s) == Get(st, s)
  {
    var p := InSlot(w, s);
    JobsName(cfg, t.changes);
    forall r | r in Named(cfg, t.changes) ensures !p(r) {
      var k :| 0 <= k < |Named(cfg, t.changes)| && Named(cfg, t.changes)[k] == r;
      assert JobsOf(cfg, t.changes)[k].e == r;
    }
    FilterEmpty(p, Named(cfg, t.changes));
    NamedPart(cfg, t.changes, p);
    assert Part(p, t.changes) == Project(w, t.changes, s);
    TurnAt(w, st, t, s);
  }

  lemma KeptCellShows(cfg: Config, jobs: seq<Job>, z: Zone, z': Zone, r: Record)
    requires OthersKept(jobs, z, z') && !Plans(jobs, CellFor(r)) && Shows(cfg, z, r)
    ensures Shows(cfg, z', r)
  {
    hide View, HeldAsAsked, Plans;
    forall content ensures HeldAsAsked(cfg, r, View(z', IndexAt(CellFor(r), content)), content) {
      var ix := IndexAt(CellFor(r), content);
      assert Cell(ix.name, ix.recordType) == CellFor(r);
      assert View(z', ix) == View(z, ix);
    }
  }

  lemma KeptCellEmpty(jobs: seq<Job>, z: Zone, z': Zone, cell: Cell)
    requires OthersKept(jobs, z, z') && !Plans(jobs, cell) && ShowsNothing(z, cell)
    ensures ShowsNothing(z', cell)
  {
    hide View, Plans;
    forall content ensures View(z', IndexAt(cell, content)) == None {
      var ix := IndexAt(cell, content);
      assert Cell(ix.name, ix.recordType) == cell;
      assert View(z', ix) == View(z, ix);
    }
  }

  lemma SlotShows(w: World, st: State, t: Turn, cfg: Config, z: Zone, z': Zone, s: Slot)
    requires ValidTurn(w, st, t) && Expressible(cfg, w, st, t.desired) && |t.changes.updateOld| == |t.changes.updateNew|
    requires ShowsState(cfg, z, st)
    requires CellsAsAsked(cfg, JobsOf(cfg, t.changes), z') && OthersKept(JobsOf(cfg, t.changes), z, z')
    requires s in Next(w, st, t)
    ensures Shows(cfg, z', Next(w, st, t)[s])
  {
    var jobs := JobsOf(cfg, t.changes);
    if j :| 0 <= j < |jobs| && SlotOf(w, jobs[j].e) == s {
      NamedCellShows(w, st, t, cfg, z', j);
    } else {
      UnnamedSlotKept(w, st, t, cfg, s);
      assert s in st && Next(w, st, t)[s] == st[s];
      UnnamedCell(w, st, t, cfg, s);
      KeptCellShows(cfg, jobs, z, z', st[s]);
    }
  }

  lemma EmptyCellShows(w: World, st: State, t: Turn, cfg: Config, z: Zone, z': Zone, cell: Cell)
    requires ValidTurn(w, st, t) && Expressible(cfg, w, st, t.desired) && |t.changes.updateOld| == |t.changes.updateNew|
    requires ShowsState(cfg, z, st)
    requires CellsAsAsked(cfg, JobsOf(cfg, t.changes), z') && OthersKept(JobsOf(cfg, t.changes), z, z')
    requires forall s | s in Next(w, st, t) :: CellFor(Next(w, st, t)[s]) != cell
    ensures ShowsNothing(z', cell)
  {
    var jobs := JobsOf(cfg, t.changes);
    if j :| 0 <= j < |jobs| && CellOf(jobs[j]) == cell {
      NamedCellShows(w, st, t, cfg, z', j);
      assert CellFor(jobs[j].e) == cell;
      assert Get(Next(w, st, t), SlotOf(w, jobs[j].e)) == None;
    } else {
      forall s | s in st ensures CellFor(st[s]) != cell {
        KeptOrNamed(w, st, t, cfg, s);
      }
        KeptCellEmpty(jobs, z, z', cell);
    }
  }

  /** A record of the state stays as it is, or some job names its cell. */
  lemma KeptOrNamed(w: World, st: State, t: Turn, cfg: Config, s: Slot)
    requires ValidTurn(w, st, t) && Expressible(cfg, w, st, t.desired) && |t.changes.updateOld| == |t.changes.updateNew|
    requires s in st
    ensures (s in Next(w, st, t) && Next(w, st, t)[s] == st[s]) || Plans(JobsOf(cfg, t.changes), CellFor(st[s]))
  {
    var jobs := JobsOf(cfg, t.changes);
    if j :| 0 <= j < |jobs| && SlotOf(w, jobs[j].e) == s {
      JobKnown(w, st, t, cfg, j);
      StateKnown(st, t.desired, s);
      CellIsSlot(cfg, w, st, t.desired, jobs[j].e, st[s]);
      assert CellOf(jobs[j]) == CellFor(st[s]);
    } else {
      UnnamedSlotKept(w, st, t, cfg, s);
    }
  }

  /** One turn, carried out: its changes were submitted, whichever batches were rejected,
      without a failed call. */
  ghost predicate Submitted(cfg: Config, t: Turn, z: Zone, z': Zone,
                            records: RecordsMap, cs: seq<Change>, verdicts: seq<bool>) {
    && IsRecordsMap(records, z)
    && |t.changes.updateOld| == |t.changes.updateNew| && IsExpansion(cfg, JobsOf(cfg, t.changes), cs)
    && Ran(z, OpsOf(records, Ordered(records, cs)), verdicts, z', false)
  }

  /** Planner and submission composed: when a turn is planned on a state that the zone shows
      and carried out, the zone shows exactly the next state. */
  lemma ZoneFollowsTurn(w: World, st: State, t: Turn, cfg: Config, z: Zone, z': Zone,
                        records: RecordsMap, cs: seq<Change>, verdicts: seq<bool>)
    requires ValidTurn(w, st, t) && Expressible(cfg, w, st, t.desired)
    requires ShowsState(cfg, z, st) && Submitted(cfg, t, z, z', records, cs, verdicts)
    ensures ShowsState(cfg, z', Next(w, st, t)) && WellFormed(z')
  {
    hide Shows, ShowsNothing, Expressible, Mirrors, CellsAsWanted, CellsAsAsked, OthersKept, IsRecordsMap, Ran, WellFormed, IsExpansion, AllFit, ValidTurn;
    TurnFitsZone(w, st, t, cfg, records, z);
    PlanTakesEffect(cfg, JobsOf(cfg, t.changes), cs, z, records, verdicts, z');
    var next := Next(w, st, t);
    forall s | s in next ensures Shows(cfg, z', next[s]) {
      SlotShows(w, st, t, cfg, z, z', s);
    }
    forall cell: Cell | (forall s | s in next :: CellFor(next[s]) != cell) ensures ShowsNothing(z', cell) {
      EmptyCellShows(w, st, t, cfg, z, z', cell);
    }
  }

  /** What one turn of a run was submitted with. */
  datatype Submission = Submission(records: RecordsMap, changes: seq<Change>, verdicts: seq<bool>)

  /** A run of turns, each carried out on the zone the one before it left. */
  ghost predicate CarriedOut(cfg: Config, w: World, states: seq<State>, turns: seq<Turn>, zones: seq<Zone>, subs: seq<Submission>) {
    && IsRun(w, states, turns) && |zones| == |states| && |subs| == |turns|
    && forall k | 0 <= k < |turns| ::
         && Expressible(cfg, w, states[k], turns[k].desired)
         && Submitted(cfg, turns[k], zones[k], zones[k + 1], subs[k].records, subs[k].changes, subs[k].verdicts)
  }

  /** Through any run of any instances, the zone shows the state the planner reckons with. */
  lemma {:induction false} ZoneFollowsRun(cfg: Config, w: World, states: seq<State>, turns: seq<Turn>,
                                          zones: seq<Zone>, subs: seq<Submission>, n: nat)
    requires CarriedOut(cfg, w, states, turns, zones, subs) && n <= |turns|
    requires ShowsState(cfg, zones[0], states[0])
    ensures ShowsState(cfg, zones[n], states[n])
  {
    hide Expressible, Submitted, ShowsState, ValidTurn;
    if n > 0 {
      ZoneFollowsRun(cfg, w, states, turns, zones, subs, n - 1);
      var sub := subs[n - 1];
      ZoneFollowsTurn(w, states[n - 1], turns[n - 1], cfg, zones[n - 1], zones[n], sub.records, sub.changes, sub.verdicts);
    }
  }

  lemma UnnamedCell(w: World, st: State, t: Turn, cfg: Config, s: Slot)
    requires ValidTurn(w, st, t) && Expressible(cfg, w, st, t.desired) && |t.changes.updateOld| == |t.changes.updateNew|
    requires s in st && forall j | 0 <= j < |JobsOf(cfg, t.changes)| :: SlotOf(w, JobsOf(cfg, t.changes)[j].e) != s
    ensures !Plans(JobsOf(cfg, t.changes), CellFor(st[s]))
  {
    var jobs := JobsOf(cfg, t.changes);
    forall j | 0 <= j < |jobs| ensures CellOf(jobs[j]) != CellFor(st[s]) {
      JobKnown(w, st, t, cfg, j);
      StateKnown(st, t.desired, s);
      CellIsSlot(cfg, w, st, t.desired, jobs[j].e, st[s]);
      assert CellFor(jobs[j].e) == CellOf(jobs[j]);
    }
  }
}

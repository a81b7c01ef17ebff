/** What a Cloudflare run leaves behind: whichever batches are rejected, if every individual
    call succeeds the zone holds exactly what the plan wanted (provider/cloudflare/cloudflare.go,
    provider/cloudflare/cloudflare_batch.go). */
module CloudflareEffect {
  import opened Wrappers
  import opened Sorting
  import opened Records
  import opened PlanSpec
  import opened Cloudflare
  import opened CloudflareSubmit
  import opened CloudflareChanges

  datatype Cell = Cell(name: string, recordType: string)

  function CellOf(job: Job): Cell {
    Cell(job.e.dnsName, job.e.recordType)
  }

  function IndexAt(cell: Cell, content: string): Index {
    Index(cell.name, cell.recordType, content)
  }

  // ---- what targets say about a cell ----

  /** The target names this content. */
  predicate Names(cfg: Config, recordType: string, t: string, content: string) {
    var mx := Parsed(cfg, recordType, t);
    mx.Some? && mx.value.1 == content
  }

  /** Different targets name different contents. */
  ghost predicate Separate(cfg: Config, recordType: string, ts: seq<string>) {
    forall t, u, content | t in ts && u in ts && Names(cfg, recordType, t, content) && Names(cfg, recordType, u, content) :: t == u
  }

  /** The priority with which the targets name a content, if they do. */
  ghost function Priority(cfg: Config, recordType: string, ts: seq<string>, content: string): Option<int> {
    if exists t :: t in ts && Names(cfg, recordType, t, content) then
      var t :| t in ts && Names(cfg, recordType, t, content);
      Some(Parsed(cfg, recordType, t).value.0)
    else None
  }

  lemma PriorityIs(cfg: Config, recordType: string, ts: seq<string>, t: string, content: string)
    requires Separate(cfg, recordType, ts) && t in ts && Names(cfg, recordType, t, content)
    ensures Priority(cfg, recordType, ts, content) == Some(Parsed(cfg, recordType, t).value.0)
  {
  }

  /** The zone holds exactly these targets at the cell. */
  ghost predicate Holds(cfg: Config, records: RecordsMap, cell: Cell, ts: seq<string>) {
    forall content :: IndexAt(cell, content) in records <==> Priority(cfg, cell.recordType, ts, content).Some?
  }

  /** The job describes what the zone holds at its cell and names no target twice; different
      targets have different contents, as they do unless they are MX targets with one host.
      An update keeps the name and the type. */
  ghost predicate Fits(cfg: Config, records: RecordsMap, job: Job) {
    && NoDuplicates(job.e.targets) && Separate(cfg, job.e.recordType, job.e.targets)
    && match job
       case CreateJob(e) => Holds(cfg, records, CellOf(job), [])
       case DeleteJob(e) => Holds(cfg, records, CellOf(job), e.targets)
       case UpdateJob(was, e) =>
         && was.dnsName == e.dnsName && was.recordType == e.recordType
         && Separate(cfg, was.recordType, was.targets) && Holds(cfg, records, CellOf(job), was.targets)
  }

  /** What the zone should hold at the job's cell for one content. */
  ghost function Wanted(cfg: Config, job: Job, content: string): Option<DnsRecord> {
    var priority := Priority(cfg, job.e.recordType, job.e.targets, content);
    if !job.DeleteJob? && priority.Some? then Some(RecordFor(cfg, job.e, content, priority.value)) else None
  }

  // ---- indexes touched once, or by a delete and a create ----

  /** Two changes get along: they touch different indexes, or one makes room for the other. */
  predicate Compatible(a: Change, b: Change) {
    IndexOf(a.record) == IndexOf(b.record) ==> Replaces(a, b) || Replaces(b, a)
  }

  ghost predicate Tidy(cs: seq<Change>) {
    forall j, k | 0 <= j < k < |cs| :: Compatible(cs[j], cs[k])
  }

  ghost predicate Apart(a: seq<Change>, b: seq<Change>) {
    forall x, y | x in a && y in b :: Compatible(x, y)
  }

  lemma TidyAppend(a: seq<Change>, b: seq<Change>)
    requires Tidy(a) && Tidy(b) && Apart(a, b)
    ensures Tidy(a + b)
  {
    hide Compatible;
  }

  lemma {:induction false} TidyCounts(cs: seq<Change>, c: Change)
    requires Tidy(cs)
    ensures multiset(cs)[c] <= 1
  {
    if cs != [] {
      var init := cs[..|cs| - 1];
      assert cs == init + [cs[|cs| - 1]];
      TidyCounts(init, c);
      if c == cs[|cs| - 1] {
        assert !Compatible(c, c);
        assert c !in init;
      }
    }
  }

  lemma TidyUnambiguous(cs: seq<Change>)
    requires Tidy(cs)
    ensures Unambiguous(cs)
  {
    forall c ensures multiset(cs)[c] <= 1 { TidyCounts(cs, c); }
    forall a, b | a in cs && b in cs && a != b ensures Compatible(a, b) {
      var j :| 0 <= j < |cs| && cs[j] == a;
      var k :| 0 <= k < |cs| && cs[k] == b;
      assert Compatible(cs[if j < k then j else k], cs[if j < k then k else j]);
    }
  }

  // ---- one group ----

  /** c is the change of one of the targets. */
  ghost predicate IsChangeOf(cfg: Config, action: Cloudflare.Action, e: Record, ts: seq<string>, c: Change) {
    exists t :: t in ts && NewChange(cfg, action, e, t) == Some(c)
  }

  /** g has one change per target of ts that parses, all of them the given action at the cell of e. */
  ghost predicate Covers(cfg: Config, action: Cloudflare.Action, e: Record, ts: seq<string>, g: seq<Change>) {
    && Tidy(g)
    && forall c :: c in g <==> IsChangeOf(cfg, action, e, ts, c)
  }

  lemma {:induction false} TargetChangesCover(cfg: Config, action: Cloudflare.Action, e: Record, ts: seq<string>)
    requires NoDuplicates(ts) && Separate(cfg, e.recordType, ts)
    ensures Covers(cfg, action, e, ts, TargetChanges(cfg, action, e, ts))
  {
    if ts != [] {
      var n := |ts| - 1;
      var init, t := ts[..n], ts[n];
      assert ts == init + [t];
      NoDuplicatesSnoc(init, t);
      TargetChangesCover(cfg, action, e, init);
      CoversSnoc(cfg, action, e, init, TargetChanges(cfg, action, e, init), t);
    } else {
      assert forall c :: !IsChangeOf(cfg, action, e, ts, c);
    }
  }

  lemma CoversSnoc(cfg: Config, action: Cloudflare.Action, e: Record, init: seq<string>, g: seq<Change>, t: string)
    requires Covers(cfg, action, e, init, g) && t !in init && Separate(cfg, e.recordType, init + [t])
    ensures var c := NewChange(cfg, action, e, t);
            Covers(cfg, action, e, init + [t], g + if c.Some? then [c.value] else [])
  {
    var ts, c := init + [t], NewChange(cfg, action, e, t);
    forall d ensures IsChangeOf(cfg, action, e, ts, d) <==> IsChangeOf(cfg, action, e, init, d) || c == Some(d) {
      if c == Some(d) { assert t in ts; }
      if u :| u in init && NewChange(cfg, action, e, u) == Some(d) { assert u in ts; }
    }
    if c.Some? {
      forall d | d in g ensures Compatible(d, c.value) {
        var u :| u in init && NewChange(cfg, action, e, u) == Some(d);
        assert u in ts && t in ts;
        assert Names(cfg, e.recordType, u, d.record.content) && Names(cfg, e.recordType, t, c.value.record.content);
      }
      TidyAppend(g, [c.value]);
    }
  }

  ghost predicate Mentions(g: seq<Change>, content: string) {
    exists c :: c in g && c.record.content == content
  }

  ghost predicate Puts(g: seq<Change>, content: string) {
    exists c :: c in g && c.record.content == content && c.action != Delete
  }

  /** A group touches only its cell, fits the zone, and asks for what the job wants; it
      mentions whatever is there. */
  ghost predicate GroupWorks(cfg: Config, records: RecordsMap, job: Job, g: seq<Change>) {
    && Tidy(g) && AllApplicable(records, g)
    && (forall c | c in g :: c.record.name == job.e.dnsName && c.record.recordType == job.e.recordType)
    && (forall c | c in g && c.action != Delete :: Wanted(cfg, job, c.record.content) == Some(c.record))
    && (forall content :: Wanted(cfg, job, content).Some? ==> Puts(g, content))
    && (forall content :: IndexAt(CellOf(job), content) in records ==> Mentions(g, content))
  }

  /** The change of a target, where it parses, is in a covering group. */
  lemma Covered(cfg: Config, action: Cloudflare.Action, e: Record, ts: seq<string>, g: seq<Change>, content: string)
    requires Covers(cfg, action, e, ts, g) && Priority(cfg, e.recordType, ts, content).Some?
    ensures exists c :: c in g && c.record.content == content && c.action == action
              && IndexOf(c.record) == IndexAt(Cell(e.dnsName, e.recordType), content)
  {
    var t :| t in ts && Names(cfg, e.recordType, t, content);
    var c := NewChange(cfg, action, e, t).value;
    assert IsChangeOf(cfg, action, e, ts, c);
  }

  /** A change of a covering group is the change of a target. */
  lemma CoveredBy(cfg: Config, action: Cloudflare.Action, e: Record, ts: seq<string>, g: seq<Change>, c: Change)
    returns (t: string)
    requires Covers(cfg, action, e, ts, g) && c in g
    ensures t in ts && Names(cfg, e.recordType, t, c.record.content) && NewChange(cfg, action, e, t) == Some(c)
    ensures c.action == action && IndexOf(c.record) == IndexAt(Cell(e.dnsName, e.recordType), c.record.content)
    ensures Priority(cfg, e.recordType, ts, c.record.content).Some?
  {
    assert IsChangeOf(cfg, action, e, ts, c);
    t :| t in ts && NewChange(cfg, action, e, t) == Some(c);
  }

  /** A change made of one of the job's targets asks for what the job wants. */
  lemma AsksForWanted(cfg: Config, job: Job, action: Cloudflare.Action, t: string, c: Change)
    requires !job.DeleteJob? && Separate(cfg, job.e.recordType, job.e.targets)
    requires t in job.e.targets && NewChange(cfg, action, job.e, t) == Some(c)
    ensures Wanted(cfg, job, c.record.content) == Some(c.record)
  {
    PriorityIs(cfg, job.e.recordType, job.e.targets, t, c.record.content);
  }

  lemma CreateWorks(cfg: Config, records: RecordsMap, e: Record, g: seq<Change>)
    requires Fits(cfg, records, CreateJob(e)) && IsGroup(cfg, CreateJob(e), g)
    ensures GroupWorks(cfg, records, CreateJob(e), g)
  {
    hide Covers, NewChange, Separate, NoDuplicates;
    TargetChangesCover(cfg, Create, e, e.targets);
    CoversTidy(cfg, Create, e, e.targets, g);
    forall c | c in g
      ensures c.record.name == e.dnsName && c.record.recordType == e.recordType && Applicable(records, g, c)
      ensures Wanted(cfg, CreateJob(e), c.record.content) == Some(c.record)
    {
      var t := CoveredBy(cfg, Create, e, e.targets, g, c);
      AsksForWanted(cfg, CreateJob(e), Create, t, c);
    }
    forall content ensures Wanted(cfg, CreateJob(e), content).Some? ==> Puts(g, content) {
      if Wanted(cfg, CreateJob(e), content).Some? { Covered(cfg, Create, e, e.targets, g, content); }
    }
  }

  lemma CoversTidy(cfg: Config, action: Cloudflare.Action, e: Record, ts: seq<string>, g: seq<Change>)
    requires Covers(cfg, action, e, ts, g)
    ensures Tidy(g)
  {
  }

  lemma DeleteWorks(cfg: Config, records: RecordsMap, e: Record, g: seq<Change>)
    requires Fits(cfg, records, DeleteJob(e)) && IsGroup(cfg, DeleteJob(e), g)
    ensures GroupWorks(cfg, records, DeleteJob(e), g)
  {
    hide Covers, NewChange, Separate, NoDuplicates, Priority;
    TargetChangesCover(cfg, Delete, e, e.targets);
    CoversTidy(cfg, Delete, e, e.targets, g);
    forall c | c in g
      ensures c.record.name == e.dnsName && c.record.recordType == e.recordType && Applicable(records, g, c)
      ensures c.action == Delete
    {
      var _ := CoveredBy(cfg, Delete, e, e.targets, g, c);
    }
    forall content ensures IndexAt(CellOf(DeleteJob(e)), content) in records ==> Mentions(g, content) {
      if IndexAt(CellOf(DeleteJob(e)), content) in records { Covered(cfg, Delete, e, e.targets, g, content); }
    }
  }

  /** The three parts of an update group, each covering its share of the targets. */
  ghost predicate PartsAre(cfg: Config, was: Record, e: Record, removed: seq<string>, gd: seq<Change>,
                           add: seq<string>, gc: seq<Change>, leave: seq<string>, gu: seq<Change>) {
    && Covers(cfg, Delete, was, removed, gd) && Covers(cfg, Create, e, add, gc) && Covers(cfg, Update, e, leave, gu)
    && (forall t :: t in removed <==> t in was.targets && t !in e.targets)
    && (forall t :: t in add <==> t !in was.targets && t in e.targets)
    && (forall t :: t in leave <==> t in was.targets && t in e.targets)
  }

  lemma UpdateParts(cfg: Config, records: RecordsMap, was: Record, e: Record, g: seq<Change>)
    returns (removed: seq<string>, gd: seq<Change>, add: seq<string>, gc: seq<Change>, leave: seq<string>, gu: seq<Change>)
    requires Fits(cfg, records, UpdateJob(was, e)) && IsGroup(cfg, UpdateJob(was, e), g)
    ensures g == gd + gc + gu && PartsAre(cfg, was, e, removed, gd, add, gc, leave, gu)
  {
    hide Covers, TargetChanges, Added, Left, Members, Holds, NoDuplicates, Separate;
    removed :| IsUpdateGroup(cfg, was, e, removed, g);
    add, leave := Added(Members(was.targets), e.targets), Left(Members(was.targets), e.targets);
    AddedExactly(Members(was.targets), e.targets);
    LeftExactly(Members(was.targets), e.targets);
    gd, gc, gu := TargetChanges(cfg, Delete, was, removed), TargetChanges(cfg, Create, e, add), TargetChanges(cfg, Update, e, leave);
    EnumeratedMembers(removed, Members(was.targets) - Members(e.targets));
    EnumeratedMembers(add, Members(e.targets) - Members(was.targets));
    EnumeratedMembers(leave, Members(was.targets) * Members(e.targets));
    MembersExactly(was.targets);
    MembersExactly(e.targets);
    SeparatePart(cfg, was.recordType, was.targets, removed);
    SeparatePart(cfg, e.recordType, e.targets, add);
    SeparatePart(cfg, e.recordType, e.targets, leave);
    TargetChangesCover(cfg, Delete, was, removed);
    TargetChangesCover(cfg, Create, e, add);
    TargetChangesCover(cfg, Update, e, leave);
  }

  lemma SeparatePart(cfg: Config, recordType: string, ts: seq<string>, part: seq<string>)
    requires Separate(cfg, recordType, ts) && forall t | t in part :: t in ts
    ensures Separate(cfg, recordType, part)
  {
  }

  lemma EnumeratedMembers(s: seq<string>, all: set<string>)
    requires Enumerates(s, all)
    ensures forall t :: t in s <==> t in all
  {
    MembersExactly(s);
  }

  /** Groups over disjoint shares of one target list touch no index in common. */
  lemma SharesApart(cfg: Config, ts: seq<string>, a1: Cloudflare.Action, e1: Record, ts1: seq<string>, g1: seq<Change>,
                    a2: Cloudflare.Action, e2: Record, ts2: seq<string>, g2: seq<Change>)
    requires Covers(cfg, a1, e1, ts1, g1) && Covers(cfg, a2, e2, ts2, g2)
    requires e1.recordType == e2.recordType && Separate(cfg, e1.recordType, ts)
    requires (forall t | t in ts1 :: t in ts && t !in ts2) && (forall t | t in ts2 :: t in ts)
    ensures Apart(g1, g2)
  {
    hide Covers, NewChange;
    forall x, y | x in g1 && y in g2 ensures Compatible(x, y) {
      var t := CoveredBy(cfg, a1, e1, ts1, g1, x);
      var u := CoveredBy(cfg, a2, e2, ts2, g2, y);
    }
  }

  /** A delete and a create get along wherever they are. */
  lemma DeletesBesideCreates(cfg: Config, was: Record, removed: seq<string>, gd: seq<Change>, e: Record, add: seq<string>, gc: seq<Change>)
    requires Covers(cfg, Delete, was, removed, gd) && Covers(cfg, Create, e, add, gc)
    ensures Apart(gd, gc)
  {
    hide Covers;
    forall x, y | x in gd && y in gc ensures Compatible(x, y) {
      var _ := CoveredBy(cfg, Delete, was, removed, gd, x);
      var _ := CoveredBy(cfg, Create, e, add, gc, y);
    }
  }

  lemma UpdateWorks(cfg: Config, records: RecordsMap, was: Record, e: Record, g: seq<Change>)
    requires Fits(cfg, records, UpdateJob(was, e)) && IsGroup(cfg, UpdateJob(was, e), g)
    ensures GroupWorks(cfg, records, UpdateJob(was, e), g)
  {
    hide IsGroup, Holds, Separate, NoDuplicates, Covers, Wanted;
    var removed, gd, add, gc, leave, gu := UpdateParts(cfg, records, was, e, g);
    UpdateTidy(cfg, was, e, removed, gd, add, gc, leave, gu);
    UpdateApplies(cfg, records, was, e, removed, gd, add, gc, leave, gu);
    UpdateAsks(cfg, records, was, e, removed, gd, add, gc, leave, gu);
    UpdateReaches(cfg, records, was, e, removed, gd, add, gc, leave, gu);
  }

  lemma UpdateTidy(cfg: Config, was: Record, e: Record, removed: seq<string>, gd: seq<Change>,
                   add: seq<string>, gc: seq<Change>, leave: seq<string>, gu: seq<Change>)
    requires PartsAre(cfg, was, e, removed, gd, add, gc, leave, gu) && was.recordType == e.recordType
    requires Separate(cfg, was.recordType, was.targets) && Separate(cfg, e.recordType, e.targets)
    ensures Tidy(gd + gc + gu)
  {
    hide Separate, Compatible;
    DeletesBesideCreates(cfg, was, removed, gd, e, add, gc);
    SharesApart(cfg, was.targets, Delete, was, removed, gd, Update, e, leave, gu);
    SharesApart(cfg, e.targets, Create, e, add, gc, Update, e, leave, gu);
    TidyAppend(gd, gc);
    TidyAppend(gd + gc, gu);
  }

  /** The targets whose contents the zone holds are removed or left alone. */
  lemma HeldRemovedOrLeft(cfg: Config, records: RecordsMap, was: Record, e: Record, removed: seq<string>,
                          leave: seq<string>, content: string)
    requires Holds(cfg, records, CellOf(UpdateJob(was, e)), was.targets) && was.recordType == e.recordType
    requires forall t | t in was.targets :: t in removed || t in leave
    requires IndexAt(CellOf(UpdateJob(was, e)), content) in records
    ensures Priority(cfg, e.recordType, removed, content).Some? || Priority(cfg, e.recordType, leave, content).Some?
  {
    var t :| t in was.targets && Names(cfg, e.recordType, t, content);
  }

  lemma HeldNames(cfg: Config, records: RecordsMap, cell: Cell, ts: seq<string>, t: string, content: string)
    requires Holds(cfg, records, cell, ts) && t in ts && Names(cfg, cell.recordType, t, content)
    ensures IndexAt(cell, content) in records
  {
  }

  lemma UpdateApplies(cfg: Config, records: RecordsMap, was: Record, e: Record, removed: seq<string>, gd: seq<Change>,
                      add: seq<string>, gc: seq<Change>, leave: seq<string>, gu: seq<Change>)
    requires Fits(cfg, records, UpdateJob(was, e)) && PartsAre(cfg, was, e, removed, gd, add, gc, leave, gu)
    ensures AllApplicable(records, gd + gc + gu)
    ensures forall c | c in gd + gc + gu :: c.record.name == e.dnsName && c.record.recordType == e.recordType
  {
    hide Covers, Holds, Priority, NewChange, NoDuplicates;
    var cell := CellOf(UpdateJob(was, e));
    forall c | c in gd + gc + gu
      ensures c.record.name == e.dnsName && c.record.recordType == e.recordType && Applicable(records, gd + gc + gu, c)
    {
      if c in gd {
        var t := CoveredBy(cfg, Delete, was, removed, gd, c);
        HeldNames(cfg, records, cell, was.targets, t, c.record.content);
      } else if c in gc {
        CreateApplies(cfg, records, was, e, removed, gd, add, gc, leave, gu, c);
      } else {
        var t := CoveredBy(cfg, Update, e, leave, gu, c);
        HeldNames(cfg, records, cell, was.targets, t, c.record.content);
      }
    }
  }

  /** Where a create of an update finds its index occupied, a target with that content is removed. */
  lemma CreateApplies(cfg: Config, records: RecordsMap, was: Record, e: Record, removed: seq<string>, gd: seq<Change>,
                      add: seq<string>, gc: seq<Change>, leave: seq<string>, gu: seq<Change>, c: Change)
    requires Fits(cfg, records, UpdateJob(was, e)) && PartsAre(cfg, was, e, removed, gd, add, gc, leave, gu) && c in gc
    ensures c.record.name == e.dnsName && c.record.recordType == e.recordType && Applicable(records, gd + gc + gu, c)
  {
    hide Covers, Holds, NewChange, NoDuplicates;
    var content := c.record.content;
    var t := CoveredBy(cfg, Create, e, add, gc, c);
    if IndexAt(CellOf(UpdateJob(was, e)), content) in records {
      HeldRemovedOrLeft(cfg, records, was, e, removed, leave, content);
      assert Priority(cfg, e.recordType, leave, content) == None by {
        assert forall u | u in leave :: u in e.targets && u != t;
      }
      Covered(cfg, Delete, was, removed, gd, content);
      var d :| d in gd && d.record.content == content && d.action == Delete
               && IndexOf(d.record) == IndexAt(Cell(was.dnsName, was.recordType), content);
      assert d in gd + gc + gu;
    }
  }

  lemma UpdateAsks(cfg: Config, records: RecordsMap, was: Record, e: Record, removed: seq<string>, gd: seq<Change>,
                   add: seq<string>, gc: seq<Change>, leave: seq<string>, gu: seq<Change>)
    requires Fits(cfg, records, UpdateJob(was, e)) && PartsAre(cfg, was, e, removed, gd, add, gc, leave, gu)
    ensures forall c | c in gd + gc + gu && c.action != Delete ::
              Wanted(cfg, UpdateJob(was, e), c.record.content) == Some(c.record)
  {
    hide Covers, Holds, Priority, NewChange, NoDuplicates, Wanted, Separate;
    forall c | c in gd + gc + gu && c.action != Delete
      ensures Wanted(cfg, UpdateJob(was, e), c.record.content) == Some(c.record)
    {
      if c in gd {
        var _ := CoveredBy(cfg, Delete, was, removed, gd, c);
      } else if c in gc {
        var t := CoveredBy(cfg, Create, e, add, gc, c);
        AsksForWanted(cfg, UpdateJob(was, e), Create, t, c);
      } else {
        var t := CoveredBy(cfg, Update, e, leave, gu, c);
        AsksForWanted(cfg, UpdateJob(was, e), Update, t, c);
      }
    }
  }

  lemma UpdateReaches(cfg: Config, records: RecordsMap, was: Record, e: Record, removed: seq<string>, gd: seq<Change>,
                      add: seq<string>, gc: seq<Change>, leave: seq<string>, gu: seq<Change>)
    requires Fits(cfg, records, UpdateJob(was, e)) && PartsAre(cfg, was, e, removed, gd, add, gc, leave, gu)
    ensures forall content :: Wanted(cfg, UpdateJob(was, e), content).Some? ==> Puts(gd + gc + gu, content)
    ensures forall content :: IndexAt(CellOf(UpdateJob(was, e)), content) in records ==> Mentions(gd + gc + gu, content)
  {
    var job, g := UpdateJob(was, e), gd + gc + gu;
    forall content | Wanted(cfg, job, content).Some? ensures Puts(g, content) {
      PutReached(cfg, was, e, removed, gd, add, gc, leave, gu, content);
    }
    forall content | IndexAt(CellOf(job), content) in records ensures Mentions(g, content) {
      HeldReached(cfg, records, was, e, removed, gd, add, gc, leave, gu, content);
    }
  }

  lemma PutReached(cfg: Config, was: Record, e: Record, removed: seq<string>, gd: seq<Change>,
                   add: seq<string>, gc: seq<Change>, leave: seq<string>, gu: seq<Change>, content: string)
    requires PartsAre(cfg, was, e, removed, gd, add, gc, leave, gu)
    requires Priority(cfg, e.recordType, e.targets, content).Some?
    ensures Puts(gd + gc + gu, content)
  {
    hide Covers;
    var t :| t in e.targets && Names(cfg, e.recordType, t, content);
    var c: Change;
    if t in was.targets {
      Covered(cfg, Update, e, leave, gu, content);
      c :| c in gu && c.record.content == content && c.action == Update;
    } else {
      Covered(cfg, Create, e, add, gc, content);
      c :| c in gc && c.record.content == content && c.action == Create;
    }
    assert c in gd + gc + gu;
  }

  lemma HeldReached(cfg: Config, records: RecordsMap, was: Record, e: Record, removed: seq<string>, gd: seq<Change>,
                    add: seq<string>, gc: seq<Change>, leave: seq<string>, gu: seq<Change>, content: string)
    requires Fits(cfg, records, UpdateJob(was, e)) && PartsAre(cfg, was, e, removed, gd, add, gc, leave, gu)
    requires IndexAt(CellOf(UpdateJob(was, e)), content) in records
    ensures Mentions(gd + gc + gu, content)
  {
    hide Covers, Holds, Priority, NoDuplicates, Separate;
    HeldRemovedOrLeft(cfg, records, was, e, removed, leave, content);
    var c: Change;
    if Priority(cfg, e.recordType, removed, content).Some? {
      Covered(cfg, Delete, was, removed, gd, content);
      c :| c in gd && c.record.content == content && c.action == Delete;
    } else {
      Covered(cfg, Update, e, leave, gu, content);
      c :| c in gu && c.record.content == content && c.action == Update;
    }
    assert c in gd + gc + gu;
  }

  lemma GroupsWork(cfg: Config, records: RecordsMap, job: Job, g: seq<Change>)
    requires Fits(cfg, records, job) && IsGroup(cfg, job, g)
    ensures GroupWorks(cfg, records, job, g)
  {
    match job
    case CreateJob(e) => CreateWorks(cfg, records, e, g);
    case DeleteJob(e) => DeleteWorks(cfg, records, e, g);
    case UpdateJob(was, e) => UpdateWorks(cfg, records, was, e, g);
  }

  // ---- all groups ----

  ghost predicate DistinctCells(jobs: seq<Job>) {
    forall j, k | 0 <= j < k < |jobs| :: CellOf(jobs[j]) != CellOf(jobs[k])
  }

  ghost predicate AllFit(cfg: Config, records: RecordsMap, jobs: seq<Job>) {
    forall k | 0 <= k < |jobs| :: Fits(cfg, records, jobs[k])
  }

  ghost predicate AllWork(cfg: Config, records: RecordsMap, jobs: seq<Job>, groups: seq<seq<Change>>) {
    |groups| == |jobs| && forall k | 0 <= k < |jobs| :: GroupWorks(cfg, records, jobs[k], groups[k])
  }

  lemma {:induction false} ConcatMembers<T>(ss: seq<seq<T>>, x: T)
    ensures x in Concat(ss) <==> exists k :: 0 <= k < |ss| && x in ss[k]
  {
    if ss != [] {
      ConcatMembers(ss[1..], x);
      if k :| 0 <= k < |ss| && x in ss[k] {
        if k > 0 { assert x in ss[1..][k - 1]; }
      }
      if k :| 0 <= k < |ss[1..]| && x in ss[1..][k] {
        assert x in ss[k + 1];
      }
    }
  }

  /** Groups of distinct cells get along. */
  lemma {:induction false} ConcatTidy(cfg: Config, records: RecordsMap, jobs: seq<Job>, groups: seq<seq<Change>>)
    requires DistinctCells(jobs) && AllWork(cfg, records, jobs, groups)
    ensures Tidy(Concat(groups))
    decreases |jobs|
  {
    hide GroupWorks;
    if jobs != [] {
      assert forall j, k | 0 <= j < k < |jobs[1..]| :: jobs[1..][j] == jobs[j + 1] && jobs[1..][k] == jobs[k + 1];
      ConcatTidy(cfg, records, jobs[1..], groups[1..]);
      forall x, y | x in groups[0] && y in Concat(groups[1..]) ensures Compatible(x, y) {
        ConcatMembers(groups[1..], y);
        var k :| 0 <= k < |groups[1..]| && y in groups[1..][k];
        assert y in groups[k + 1] && CellOf(jobs[0]) != CellOf(jobs[k + 1]);
        InCell(cfg, records, jobs[0], groups[0], x);
        InCell(cfg, records, jobs[k + 1], groups[k + 1], y);
      }
      WorkIsTidy(cfg, records, jobs[0], groups[0]);
      TidyAppend(groups[0], Concat(groups[1..]));
    }
  }

  lemma InCell(cfg: Config, records: RecordsMap, job: Job, g: seq<Change>, c: Change)
    requires GroupWorks(cfg, records, job, g) && c in g
    ensures IndexOf(c.record) == IndexAt(CellOf(job), c.record.content)
  {
  }

  lemma WorkIsTidy(cfg: Config, records: RecordsMap, job: Job, g: seq<Change>)
    requires GroupWorks(cfg, records, job, g)
    ensures Tidy(g)
  {
  }

  lemma ConcatApplies(cfg: Config, records: RecordsMap, jobs: seq<Job>, groups: seq<seq<Change>>)
    requires AllWork(cfg, records, jobs, groups)
    ensures AllApplicable(records, Concat(groups))
  {
    forall c | c in Concat(groups) ensures Applicable(records, Concat(groups), c) {
      ConcatMembers(groups, c);
      var k :| 0 <= k < |groups| && c in groups[k];
      assert GroupWorks(cfg, records, jobs[k], groups[k]);
      forall d | d in groups[k] ensures d in Concat(groups) { ConcatMembers(groups, d); }
      ApplicableAmong(records, groups[k], Concat(groups), c);
    }
  }

  lemma ApplicableAmong(records: RecordsMap, g: seq<Change>, cs: seq<Change>, c: Change)
    requires Applicable(records, g, c) && forall d | d in g :: d in cs
    ensures Applicable(records, cs, c)
  {
  }

  /** The submitted order keeps unambiguous changes unambiguous, and puts deletes first. */
  lemma SentInOrder(records: RecordsMap, cs: seq<Change>, sent: seq<Change>)
    requires Tidy(cs) && AllApplicable(records, cs) && sent == Ordered(records, cs)
    ensures Unambiguous(sent) && AllApplicable(records, sent) && DeletesFirst(sent)
    ensures forall c :: c in sent <==> c in cs
  {
    OrderedPermutes(records, cs);
    forall c | c in cs ensures IsLive(records)(c) { assert Applicable(records, cs, c); }
    FilterEverything(IsLive(records), cs);
    TidyUnambiguous(cs);
    SameMultisetSameMembers(cs, sent);
    assert forall c :: c in sent <==> c in cs;
    forall c | c in sent ensures Applicable(records, sent, c) { ApplicableAmong(records, cs, sent, c); }
    OrderedDeletesFirst(records, cs);
  }

  lemma OrderedDeletesFirst(records: RecordsMap, cs: seq<Change>)
    ensures DeletesFirst(Ordered(records, cs))
  {
    var sent, deletes := Ordered(records, cs), Filter(IsFoundDelete(records), cs);
    forall k | |deletes| <= k < |sent| ensures sent[k].action != Delete {
      var rest := Filter(IsFoundPut(records), cs) + Filter(IsCreate, cs) + Filter(IsFallbackUpdate(records), cs);
      assert sent == deletes + rest;
      assert sent[k] == rest[k - |deletes|] && rest[k - |deletes|] in rest;
    }
    forall k | 0 <= k < |deletes| ensures sent[k].action == Delete {
      assert sent[k] == deletes[k] && deletes[k] in deletes;
    }
  }

  /** What ix holds after the whole submission, when no individual call failed. */
  lemma SubmittedView(z: Zone, records: RecordsMap, cs: seq<Change>, verdicts: seq<bool>, z': Zone, ix: Index)
    requires IsRecordsMap(records, z)
    requires Tidy(cs) && AllApplicable(records, cs)
    requires Ran(z, OpsOf(records, Ordered(records, cs)), verdicts, z', false)
    ensures WellFormed(z')
    ensures forall c | c in cs && IndexOf(c.record) == ix && c.action != Delete :: View(z', ix) == Some(c.record)
    ensures Touches(cs, ix) && (forall c | c in cs && IndexOf(c.record) == ix :: c.action == Delete) ==> View(z', ix) == None
    ensures !Touches(cs, ix) ==> View(z', ix) == View(z, ix)
  {
    hide IsRecordsMap, Tidy, AllApplicable, WellFormed, View, Unambiguous, DeletesFirst, Ran, Ordered, Effect;
    var sent := Ordered(records, cs);
    NothingFailed(z, OpsOf(records, sent), verdicts, z');
    SentInOrder(records, cs, sent);
    UnambiguousFits(records, sent);
    StepsEffect(z, records, sent, ix);
    forall c | c in cs && IndexOf(c.record) == ix && c.action != Delete ensures View(z', ix) == Some(c.record) {
      ExpectedPut(sent, View(z, ix), c);
    }
    if !Touches(cs, ix) {
      ExpectedUntouched(sent, View(z, ix), ix);
    } else if forall c | c in cs && IndexOf(c.record) == ix :: c.action == Delete {
      assert Touches(sent, ix);
      ExpectedDeleted(sent, View(z, ix), ix);
    }
  }

  /** What a cell should hold at one content, field by field: a record that e asks for at one of
      its targets, or nothing. */
  ghost predicate HeldAsAsked(cfg: Config, e: Record, held: Option<DnsRecord>, content: string) {
    && (held.Some? <==> exists t, priority :: t in e.targets && NamesContent(cfg, e, t, content, priority))
    && (held.Some? ==> held.value.content == content && exists t :: t in e.targets && IsAskedAt(cfg, e, t, held.value))
  }

  lemma WantedAsAsked(cfg: Config, job: Job, content: string)
    requires !job.DeleteJob?
    ensures HeldAsAsked(cfg, job.e, Wanted(cfg, job, content), content)
  {
    hide HasSettings;
    var e := job.e;
    if t, priority :| t in e.targets && NamesContent(cfg, e, t, content, priority) {
      assert Names(cfg, e.recordType, t, content);
    }
    if t :| t in e.targets && Names(cfg, e.recordType, t, content) {
      assert NamesContent(cfg, e, t, content, Parsed(cfg, e.recordType, t).value.0);
    }
    var priority := Priority(cfg, e.recordType, e.targets, content);
    if priority.Some? {
      RecordForSettings(cfg, e, content, priority.value);
      var t :| t in e.targets && Names(cfg, e.recordType, t, content) && priority.value == Parsed(cfg, e.recordType, t).value.0;
      assert IsAskedAt(cfg, e, t, Wanted(cfg, job, content).value);
    }
  }

  /** Every planned cell holds exactly the records its endpoint asks for; a deleted one holds
      none. */
  ghost predicate CellsAsAsked(cfg: Config, jobs: seq<Job>, z: Zone) {
    forall k, content | 0 <= k < |jobs| ::
      var held := View(z, IndexAt(CellOf(jobs[k]), content));
      if jobs[k].DeleteJob? then held == None else HeldAsAsked(cfg, jobs[k].e, held, content)
  }

  lemma WantedCellsAsAsked(cfg: Config, jobs: seq<Job>, z: Zone)
    requires CellsAsWanted(cfg, jobs, z)
    ensures CellsAsAsked(cfg, jobs, z)
  {
    hide HeldAsAsked, View;
    forall k, content | 0 <= k < |jobs|
      ensures var held := View(z, IndexAt(CellOf(jobs[k]), content));
              if jobs[k].DeleteJob? then held == None else HeldAsAsked(cfg, jobs[k].e, held, content)
    {
      assert View(z, IndexAt(CellOf(jobs[k]), content)) == Wanted(cfg, jobs[k], content);
      if !jobs[k].DeleteJob? { WantedAsAsked(cfg, jobs[k], content); }
    }
  }

  ghost predicate Plans(jobs: seq<Job>, cell: Cell) {
    exists k | 0 <= k < |jobs| :: CellOf(jobs[k]) == cell
  }

  /** Every planned cell holds exactly what its job wants, content by content. */
  ghost predicate CellsAsWanted(cfg: Config, jobs: seq<Job>, z: Zone) {
    forall k, t | 0 <= k < |jobs| :: View(z, IndexAt(CellOf(jobs[k]), t)) == Wanted(cfg, jobs[k], t)
  }

  /** Every other name and type is as before. */
  ghost predicate OthersKept(jobs: seq<Job>, z: Zone, z': Zone) {
    forall ix: Index | !Plans(jobs, Cell(ix.name, ix.recordType)) :: View(z', ix) == View(z, ix)
  }

  /** The plan takes effect: with distinct cells that describe the zone, and every individual
      call accepted, each planned cell ends up holding exactly what its job wants and every
      other name and type is left as it was. Batches may be rejected freely. */
  lemma PlanTakesEffect(cfg: Config, jobs: seq<Job>, cs: seq<Change>, z: Zone, records: RecordsMap,
                        verdicts: seq<bool>, z': Zone)
    requires IsRecordsMap(records, z)
    requires DistinctCells(jobs) && AllFit(cfg, records, jobs) && IsExpansion(cfg, jobs, cs)
    requires Ran(z, OpsOf(records, Ordered(records, cs)), verdicts, z', false)
    ensures WellFormed(z')
    ensures CellsAsWanted(cfg, jobs, z') && CellsAsAsked(cfg, jobs, z')
    ensures OthersKept(jobs, z, z')
  {
    hide CellsAsAsked, IsRecordsMap, Ran, Fits, GroupWorks, WellFormed, Ordered, View;
    var groups :| AreGroups(cfg, jobs, groups) && cs == Concat(groups);
    forall k | 0 <= k < |jobs| ensures GroupWorks(cfg, records, jobs[k], groups[k]) {
      GroupsWork(cfg, records, jobs[k], groups[k]);
    }
    ConcatTidy(cfg, records, jobs, groups);
    ConcatApplies(cfg, records, jobs, groups);
    SubmittedView(z, records, cs, verdicts, z', Index("", "", ""));
    forall k, t | 0 <= k < |jobs| ensures View(z', IndexAt(CellOf(jobs[k]), t)) == Wanted(cfg, jobs[k], t) {
      PlannedCell(cfg, jobs, groups, z, records, verdicts, z', k, t);
    }
    forall ix: Index | !Plans(jobs, Cell(ix.name, ix.recordType))
      ensures View(z', ix) == View(z, ix)
    {
      OtherCell(cfg, records, jobs, groups, ix);
      SubmittedView(z, records, cs, verdicts, z', ix);
    }
    WantedCellsAsAsked(cfg, jobs, z');
  }

  lemma OtherCell(cfg: Config, records: RecordsMap, jobs: seq<Job>, groups: seq<seq<Change>>, ix: Index)
    requires AllWork(cfg, records, jobs, groups) && !Plans(jobs, Cell(ix.name, ix.recordType))
    ensures !Touches(Concat(groups), ix)
  {
    hide GroupWorks;
    forall c | c in Concat(groups) ensures IndexOf(c.record) != ix {
      ConcatMembers(groups, c);
      var k :| 0 <= k < |groups| && c in groups[k];
      InCell(cfg, records, jobs[k], groups[k], c);
      assert CellOf(jobs[k]) != Cell(ix.name, ix.recordType);
    }
  }

  /** At a planned cell the changes that touch an index are those of the cell's group. */
  lemma TouchedByGroup(cfg: Config, records: RecordsMap, jobs: seq<Job>, groups: seq<seq<Change>>, k: nat, content: string, c: Change)
    requires DistinctCells(jobs) && AllWork(cfg, records, jobs, groups) && k < |jobs|
    requires IndexOf(c.record) == IndexAt(CellOf(jobs[k]), content)
    ensures c in Concat(groups) <==> c in groups[k]
  {
    hide GroupWorks;
    ConcatMembers(groups, c);
    if j :| 0 <= j < |groups| && c in groups[j] {
      InCell(cfg, records, jobs[j], groups[j], c);
      SameJob(jobs, j, k);
    }
  }

  lemma SameJob(jobs: seq<Job>, j: nat, k: nat)
    requires DistinctCells(jobs) && j < |jobs| && k < |jobs| && CellOf(jobs[j]) == CellOf(jobs[k])
    ensures j == k
  {
  }

  lemma PlannedCell(cfg: Config, jobs: seq<Job>, groups: seq<seq<Change>>, z: Zone, records: RecordsMap,
                    verdicts: seq<bool>, z': Zone, k: nat, content: string)
    requires IsRecordsMap(records, z) && k < |jobs|
    requires DistinctCells(jobs) && AllWork(cfg, records, jobs, groups)
    requires Tidy(Concat(groups)) && AllApplicable(records, Concat(groups))
    requires Ran(z, OpsOf(records, Ordered(records, Concat(groups))), verdicts, z', false)
    ensures View(z', IndexAt(CellOf(jobs[k]), content)) == Wanted(cfg, jobs[k], content)
  {
    hide Tidy, AllApplicable, Ran, Ordered, Wanted, Concat;
    var cs, ix := Concat(groups), IndexAt(CellOf(jobs[k]), content);
    assert GroupWorks(cfg, records, jobs[k], groups[k]);
    SubmittedView(z, records, cs, verdicts, z', ix);
    forall c: Change | IndexOf(c.record) == ix ensures c in cs <==> c in groups[k] {
      TouchedByGroup(cfg, records, jobs, groups, k, content, c);
    }
    if Wanted(cfg, jobs[k], content).Some? {
      var c :| c in groups[k] && c.record.content == content && c.action != Delete;
      InCell(cfg, records, jobs[k], groups[k], c);
    } else if Mentions(groups[k], content) {
      var c :| c in groups[k] && c.record.content == content;
      InCell(cfg, records, jobs[k], groups[k], c);
    } else {
      assert ix !in records && View(z, ix) == None;
    }
  }

  /** A run for one zone: build the changes, look the records up, submit. */
  method ApplyToZone(cfg: Config, changes: Changes, client: Client, records: RecordsMap) returns (failed: bool)
    requires |changes.updateOld| >= |changes.updateNew|
    requires IsRecordsMap(records, client.zone)
    requires DistinctCells(JobsOf(cfg, changes)) && AllFit(cfg, records, JobsOf(cfg, changes))
    modifies client
    ensures !failed ==> CellsAsAsked(cfg, JobsOf(cfg, changes), client.zone)
    ensures !failed ==> OthersKept(JobsOf(cfg, changes), old(client.zone), client.zone)
  {
    var cs := BuildChanges(cfg, changes);
    ghost var verdicts;
    failed, verdicts := SubmitZoneChanges(client, cs, records, cfg.batchChangeSize);
    if !failed {
      PlanTakesEffect(cfg, JobsOf(cfg, changes), cs, old(client.zone), records, verdicts, client.zone);
    }
  }
}

/** From a plan to Cloudflare changes: diffing target lists and expanding endpoints into one
    change per target, and what submitting them leaves in the zone
    (provider/provider.go, provider/cloudflare/cloudflare.go). */
module CloudflareChanges {
  import opened Wrappers
  import opened Sorting
  import opened Records
  import opened PlanSpec
  import opened Cloudflare
  import opened CloudflareSubmit

  // ---- Difference ----

  /** Position k of desired is the first occurrence of a current target. */
  predicate Stays(current: set<string>, desired: seq<string>, k: nat)
    requires k < |desired|
  {
    desired[k] in current && desired[k] !in desired[..k]
  }

  function Added(current: set<string>, desired: seq<string>): seq<string> {
    if desired == [] then []
    else
      var n := |desired| - 1;
      Added(current, desired[..n]) + if Stays(current, desired, n) then [] else [desired[n]]
  }

  function Left(current: set<string>, desired: seq<string>): seq<string> {
    if desired == [] then []
    else
      var n := |desired| - 1;
      Left(current, desired[..n]) + if Stays(current, desired, n) then [desired[n]] else []
  }

  ghost predicate NoDuplicates(s: seq<string>) {
    forall j, k | 0 <= j < k < |s| :: s[j] != s[k]
  }

  function Members(s: seq<string>): set<string> {
    set x | x in s
  }

  /** s lists every element of a set once. */
  ghost predicate Enumerates(s: seq<string>, all: set<string>) {
    NoDuplicates(s) && Members(s) == all
  }

  lemma MembersSnoc(s: seq<string>, x: string)
    ensures Members(s + [x]) == Members(s) + {x}
  {
  }

  lemma MembersExactly(s: seq<string>)
    ensures forall t :: t in s <==> t in Members(s)
  {
  }

  lemma NoDuplicatesSnoc(s: seq<string>, x: string)
    ensures NoDuplicates(s + [x]) <==> NoDuplicates(s) && x !in s
  {
    var t := s + [x];
    if NoDuplicates(t) {
      forall j, k | 0 <= j < k < |s| ensures s[j] != s[k] {
        assert t[j] != t[k];
      }
      forall j | 0 <= j < |s| ensures s[j] != x {
        assert t[j] != t[|s|];
      }
    }
  }

  method Difference(current: seq<string>, desired: seq<string>)
    returns (add: seq<string>, remove: seq<string>, leave: seq<string>)
    ensures add == Added(Members(current), desired)
    ensures leave == Left(Members(current), desired)
    ensures Enumerates(remove, Members(current) - Members(desired))
  {
    add, remove, leave := [], [], [];
    var index := Members(current);
    assert desired[..0] == [];
    for i := 0 to |desired|
      invariant add == Added(Members(current), desired[..i])
      invariant leave == Left(Members(current), desired[..i])
      invariant index == Members(current) - Members(desired[..i])
    {
      var x := desired[i];
      assert desired[..i + 1][..i] == desired[..i];
      assert Stays(Members(current), desired[..i + 1], i) <==> x in index;
      if x in index {
        leave := leave + [x];
      } else {
        add := add + [x];
      }
      index := index - {x};
    }
    assert desired[..|desired|] == desired;
    var todo := index;
    while todo != {}
      invariant Enumerates(remove, index - todo) && todo <= index
      decreases todo
    {
      var x :| x in todo;
      MembersSnoc(remove, x);
      NoDuplicatesSnoc(remove, x);
      assert x !in Members(remove);
      remove := remove + [x];
      todo := todo - {x};
    }
  }

  /** Splitting desired into the two lists loses no position. */
  lemma {:induction false} DifferencePartitions(current: set<string>, desired: seq<string>)
    ensures multiset(Added(current, desired)) + multiset(Left(current, desired)) == multiset(desired)
  {
    if desired != [] {
      var n := |desired| - 1;
      var init, x := desired[..n], desired[n];
      DifferencePartitions(current, init);
      assert desired == init + [x];
      assert multiset(desired) == multiset(init) + multiset{x};
      if Stays(current, desired, n) {
        assert multiset(Left(current, desired)) == multiset(Left(current, init)) + multiset{x};
      } else {
        assert multiset(Added(current, desired)) == multiset(Added(current, init)) + multiset{x};
      }
    }
  }

  /** The targets left alone are the common ones, each once. */
  lemma {:induction false} LeftExactly(current: set<string>, desired: seq<string>)
    ensures Enumerates(Left(current, desired), current * Members(desired))
  {
    if desired != [] {
      var n := |desired| - 1;
      LeftExactly(current, desired[..n]);
      var left := Left(current, desired[..n]);
      assert desired == desired[..n] + [desired[n]];
      MembersSnoc(desired[..n], desired[n]);
      MembersSnoc(left, desired[n]);
      NoDuplicatesSnoc(left, desired[n]);
      assert desired[n] in left ==> desired[n] in Members(left);
      assert desired[n] in Members(desired[..n]) <==> desired[n] in desired[..n];
      if Stays(current, desired, n) {
        assert current * Members(desired) == current * Members(desired[..n]) + {desired[n]};
      } else {
        assert current * Members(desired) == current * Members(desired[..n]);
      }
    }
  }

  /** For all inputs, the added targets are new and listed once exactly when desired repeats
      no target. A repeated target is added again even where it is already present. */
  lemma {:induction false} AddedExactly(current: set<string>, desired: seq<string>)
    ensures Enumerates(Added(current, desired), Members(desired) - current) <==> NoDuplicates(desired)
    ensures Members(desired) - current <= Members(Added(current, desired)) <= Members(desired)
  {
    if desired != [] {
      var n := |desired| - 1;
      AddedExactly(current, desired[..n]);
      assert desired == desired[..n] + [desired[n]];
      AddedExactlySnoc(current, desired[..n], desired[n]);
    }
  }

  lemma AddedExactlySnoc(current: set<string>, init: seq<string>, x: string)
    requires var before := Added(current, init);
             && (Enumerates(before, Members(init) - current) <==> NoDuplicates(init))
             && Members(init) - current <= Members(before) <= Members(init)
    ensures var after := Added(current, init + [x]);
            && (Enumerates(after, Members(init + [x]) - current) <==> NoDuplicates(init + [x]))
            && Members(init + [x]) - current <= Members(after) <= Members(init + [x])
  {
    hide NoDuplicates, Members;
    var desired, before := init + [x], Added(current, init);
    assert desired[..|init|] == init;
    MembersSnoc(init, x);
    NoDuplicatesSnoc(init, x);
    MembersSnoc(before, x);
    NoDuplicatesSnoc(before, x);
    MembersExactly(init);
    MembersExactly(before);
    if x in init {
      assert Added(current, desired) == before + [x];
      assert x in current ==> x !in Members(desired) - current;
      assert x !in current ==> x in Members(before);
    } else if x in current {
      assert Members(desired) - current == Members(init) - current;
      assert Added(current, desired) == before;
    } else {
      assert Added(current, desired) == before + [x];
      assert Members(desired) - current == (Members(init) - current) + {x};
      assert x !in Members(init) - current && x !in Members(before);
      assert Members(before) + {x} == (Members(init) - current) + {x} <==> Members(before) == Members(init) - current;
    }
  }

  // ---- one change per target ----

  /** The provider's configuration; parseBool and parseMX stand for the library parsers. */
  datatype Config = Config(
    proxiedByDefault: bool, proxiedKey: string, parseBool: string -> Option<bool>,
    parseMX: string -> Option<(int, string)>, customHostnames: bool, batchChangeSize: int)

  const PROXY_NOT_SUPPORTED := ["LOC", "MX", "NS", "SPF", "TXT", "SRV"]

  const DEFAULT_TTL := 1

  predicate ShouldBeProxied(cfg: Config, e: Record) {
    && e.recordType !in PROXY_NOT_SUPPORTED
    && var v := FirstProperty(e.providerSpecific, cfg.proxiedKey);
       if v.Some? && cfg.parseBool(v.value).Some? then cfg.parseBool(v.value).value else cfg.proxiedByDefault
  }

  /** The record an endpoint asks for at one target, once the MX priority is split off. */
  function RecordFor(cfg: Config, e: Record, content: string, priority: int): DnsRecord {
    DnsRecord(e.dnsName, e.recordType, content, if e.ttl > 0 then e.ttl else DEFAULT_TTL,
              ShouldBeProxied(cfg, e), priority)
  }

  const MX := "MX"

  /** The priority and content of a target; only MX targets carry a priority. */
  function Parsed(cfg: Config, recordType: string, target: string): Option<(int, string)> {
    if recordType == MX then cfg.parseMX(target) else Some((0, target))
  }

  /** newCloudFlareChange; None where it returns an error, which callers log and skip. */
  function NewChange(cfg: Config, action: Cloudflare.Action, e: Record, target: string): Option<Change> {
    match Parsed(cfg, e.recordType, target)
    case Some(mx) => Some(Change(action, RecordFor(cfg, e, mx.1, mx.0)))
    case None => None
  }

  /** The target names this content, with this priority; only MX targets are parsed. */
  ghost predicate NamesContent(cfg: Config, e: Record, target: string, content: string, priority: int) {
    if e.recordType == "MX" then cfg.parseMX(target) == Some((priority, content))
    else target == content && priority == 0
  }

  /** r has the TTL of the endpoint, or automatic if it has none, and is proxied as its first
      property of that name says, or as configured; some types are never proxied. */
  ghost predicate HasSettings(cfg: Config, e: Record, r: DnsRecord) {
    && (if e.ttl > 0 then r.ttl == e.ttl else r.ttl == 1)
    && (r.recordType in {"LOC", "MX", "NS", "SPF", "TXT", "SRV"} ==> !r.proxied)
    && (r.recordType !in {"LOC", "MX", "NS", "SPF", "TXT", "SRV"} ==>
          && ((forall p | p in e.providerSpecific :: p.name != cfg.proxiedKey) ==> r.proxied == cfg.proxiedByDefault)
          && forall k: nat | FirstNamedAt(e.providerSpecific, cfg.proxiedKey, k) ::
               var b := cfg.parseBool(e.providerSpecific[k].value);
               r.proxied == if b.Some? then b.value else cfg.proxiedByDefault)
  }

  /** r is a record that e asks for at this target. */
  ghost predicate IsAskedAt(cfg: Config, e: Record, target: string, r: DnsRecord) {
    && r.name == e.dnsName && r.recordType == e.recordType
    && NamesContent(cfg, e, target, r.content, r.priority) && HasSettings(cfg, e, r)
  }

  lemma RecordForSettings(cfg: Config, e: Record, content: string, priority: int)
    ensures HasSettings(cfg, e, RecordFor(cfg, e, content, priority))
  {
    FirstPropertyExactly(e.providerSpecific, cfg.proxiedKey);
    forall k: nat | FirstNamedAt(e.providerSpecific, cfg.proxiedKey, k)
      ensures FirstProperty(e.providerSpecific, cfg.proxiedKey) == Some(e.providerSpecific[k].value)
    {
    }
  }

  /** A target becomes one change of the record it asks for, unless it is an MX target that does
      not parse. */
  lemma NewChangeExactly(cfg: Config, action: Cloudflare.Action, e: Record, target: string)
    ensures var c := NewChange(cfg, action, e, target);
            && (c.None? <==> e.recordType == "MX" && cfg.parseMX(target).None?)
            && (c.Some? ==> c.value.action == action && IsAskedAt(cfg, e, target, c.value.record))
  {
    hide HasSettings;
    var mx := Parsed(cfg, e.recordType, target);
    if mx.Some? { RecordForSettings(cfg, e, mx.value.1, mx.value.0); }
  }

  function TargetChanges(cfg: Config, action: Cloudflare.Action, e: Record, targets: seq<string>): seq<Change> {
    if targets == [] then []
    else
      var n := |targets| - 1;
      var c := NewChange(cfg, action, e, targets[n]);
      TargetChanges(cfg, action, e, targets[..n]) + if c.Some? then [c.value] else []
  }

  method AppendTargets(cfg: Config, action: Cloudflare.Action, e: Record, targets: seq<string>, cs: seq<Change>)
    returns (cs': seq<Change>)
    ensures cs' == cs + TargetChanges(cfg, action, e, targets)
    ensures forall c | c in cs'[|cs|..] :: c.action == action && exists t | t in targets :: IsAskedAt(cfg, e, t, c.record)
  {
    hide NewChange, IsAskedAt;
    cs' := cs;
    assert targets[..0] == [];
    for i := 0 to |targets|
      invariant cs' == cs + TargetChanges(cfg, action, e, targets[..i])
    {
      assert targets[..i + 1][..i] == targets[..i];
      var change := NewChange(cfg, action, e, targets[i]);
      if change.Some? {
        cs' := cs' + [change.value];
      }
    }
    assert targets[..|targets|] == targets;
    TargetChangesAsked(cfg, action, e, targets);
    assert cs'[|cs|..] == TargetChanges(cfg, action, e, targets);
  }

  lemma {:induction false} TargetChangesAsked(cfg: Config, action: Cloudflare.Action, e: Record, targets: seq<string>)
    ensures forall c | c in TargetChanges(cfg, action, e, targets) ::
              c.action == action && exists t | t in targets :: IsAskedAt(cfg, e, t, c.record)
  {
    hide NewChange, IsAskedAt;
    if targets != [] {
      var n := |targets| - 1;
      TargetChangesAsked(cfg, action, e, targets[..n]);
      NewChangeExactly(cfg, action, e, targets[n]);
      forall c | c in TargetChanges(cfg, action, e, targets)
        ensures c.action == action && exists t | t in targets :: IsAskedAt(cfg, e, t, c.record)
      {
        if c in TargetChanges(cfg, action, e, targets[..n]) {
          var t :| t in targets[..n] && IsAskedAt(cfg, e, t, c.record);
          assert t in targets;
        } else {
          assert targets[n] in targets;
        }
      }
    }
  }

  /** One endpoint of the plan and what is to happen to it. */
  datatype Job = CreateJob(e: Record) | UpdateJob(was: Record, e: Record) | DeleteJob(e: Record)

  /** The changes a job expands to; the removed targets of an update come in set order. */
  ghost predicate IsGroup(cfg: Config, job: Job, g: seq<Change>) {
    match job
    case CreateJob(e) => g == TargetChanges(cfg, Create, e, e.targets)
    case DeleteJob(e) => g == TargetChanges(cfg, Delete, e, e.targets)
    case UpdateJob(was, e) =>
      exists removed :: IsUpdateGroup(cfg, was, e, removed, g)
  }

  ghost predicate IsUpdateGroup(cfg: Config, was: Record, e: Record, removed: seq<string>, g: seq<Change>) {
    && Enumerates(removed, Members(was.targets) - Members(e.targets))
    && g == TargetChanges(cfg, Delete, was, removed)
            + TargetChanges(cfg, Create, e, Added(Members(was.targets), e.targets))
            + TargetChanges(cfg, Update, e, Left(Members(was.targets), e.targets))
  }

  ghost predicate AreGroups(cfg: Config, jobs: seq<Job>, groups: seq<seq<Change>>) {
    |groups| == |jobs| && forall k | 0 <= k < |jobs| :: IsGroup(cfg, jobs[k], groups[k])
  }

  /** cs is, job by job, what the jobs expand to. */
  ghost predicate IsExpansion(cfg: Config, jobs: seq<Job>, cs: seq<Change>) {
    exists groups :: AreGroups(cfg, jobs, groups) && cs == Concat(groups)
  }

  lemma ExpansionStep(cfg: Config, jobs: seq<Job>, cs: seq<Change>, job: Job, g: seq<Change>)
    requires IsExpansion(cfg, jobs, cs) && IsGroup(cfg, job, g)
    ensures IsExpansion(cfg, jobs + [job], cs + g)
  {
    var groups :| AreGroups(cfg, jobs, groups) && cs == Concat(groups);
    assert AreGroups(cfg, jobs + [job], groups + [g]);
    ConcatSnoc(groups, g);
  }

  function CreateJobs(es: seq<Record>): (r: seq<Job>)
    ensures |r| == |es|
  {
    seq(|es|, k requires 0 <= k < |es| => CreateJob(es[k]))
  }

  function DeleteJobs(es: seq<Record>): (r: seq<Job>)
    ensures |r| == |es|
  {
    seq(|es|, k requires 0 <= k < |es| => DeleteJob(es[k]))
  }

  function UpdateJobs(was: seq<Record>, es: seq<Record>): (r: seq<Job>)
    requires |was| >= |es|
    ensures |r| == |es|
  {
    seq(|es|, k requires 0 <= k < |es| => UpdateJob(was[k], es[k]))
  }

  /** Deletes go last, or first when custom hostnames are in use. */
  function JobsOf(cfg: Config, changes: Changes): seq<Job>
    requires |changes.updateOld| >= |changes.updateNew|
  {
    (if cfg.customHostnames then DeleteJobs(changes.delete) else [])
    + CreateJobs(changes.create) + UpdateJobs(changes.updateOld, changes.updateNew)
    + (if cfg.customHostnames then [] else DeleteJobs(changes.delete))
  }

  /** With custom hostnames the deletes come first, otherwise last; creates come before
      updates. */
  lemma JobsInOrder(cfg: Config, changes: Changes, j: nat, k: nat)
    requires |changes.updateOld| >= |changes.updateNew| && j < k < |JobsOf(cfg, changes)|
    ensures var a, b := JobsOf(cfg, changes)[j], JobsOf(cfg, changes)[k];
            && (cfg.customHostnames && b.DeleteJob? ==> a.DeleteJob?)
            && (!cfg.customHostnames && a.DeleteJob? ==> b.DeleteJob?)
            && (b.CreateJob? ==> !a.UpdateJob?)
  {
  }

  method AppendDeletes(cfg: Config, es: seq<Record>, ghost jobs: seq<Job>, cs: seq<Change>) returns (cs': seq<Change>)
    requires IsExpansion(cfg, jobs, cs)
    ensures IsExpansion(cfg, jobs + DeleteJobs(es), cs')
  {
    cs' := cs;
    assert jobs + DeleteJobs(es[..0]) == jobs;
    for i := 0 to |es|
      invariant IsExpansion(cfg, jobs + DeleteJobs(es[..i]), cs')
    {
      ExpansionStep(cfg, jobs + DeleteJobs(es[..i]), cs', DeleteJob(es[i]), TargetChanges(cfg, Delete, es[i], es[i].targets));
      assert jobs + DeleteJobs(es[..i]) + [DeleteJob(es[i])] == jobs + DeleteJobs(es[..i + 1]);
      cs' := AppendTargets(cfg, Delete, es[i], es[i].targets, cs');
    }
    assert es[..|es|] == es;
  }

  method AppendCreates(cfg: Config, es: seq<Record>, ghost jobs: seq<Job>, cs: seq<Change>) returns (cs': seq<Change>)
    requires IsExpansion(cfg, jobs, cs)
    ensures IsExpansion(cfg, jobs + CreateJobs(es), cs')
  {
    cs' := cs;
    assert jobs + CreateJobs(es[..0]) == jobs;
    for i := 0 to |es|
      invariant IsExpansion(cfg, jobs + CreateJobs(es[..i]), cs')
    {
      ExpansionStep(cfg, jobs + CreateJobs(es[..i]), cs', CreateJob(es[i]), TargetChanges(cfg, Create, es[i], es[i].targets));
      assert jobs + CreateJobs(es[..i]) + [CreateJob(es[i])] == jobs + CreateJobs(es[..i + 1]);
      cs' := AppendTargets(cfg, Create, es[i], es[i].targets, cs');
    }
    assert es[..|es|] == es;
  }

  /** The body of the update loop: diff the targets, then deletes, creates, updates. */
  method AppendUpdate(cfg: Config, was: Record, e: Record, cs: seq<Change>) returns (cs': seq<Change>)
    ensures cs <= cs' && IsGroup(cfg, UpdateJob(was, e), cs'[|cs|..])
  {
    var add, remove, leave := Difference(was.targets, e.targets);
    cs' := AppendTargets(cfg, Delete, was, remove, cs);
    cs' := AppendTargets(cfg, Create, e, add, cs');
    cs' := AppendTargets(cfg, Update, e, leave, cs');
    ghost var g := TargetChanges(cfg, Delete, was, remove) + TargetChanges(cfg, Create, e, add) + TargetChanges(cfg, Update, e, leave);
    assert cs'[|cs|..] == g;
    assert IsUpdateGroup(cfg, was, e, remove, g);
  }

  method AppendUpdates(cfg: Config, was: seq<Record>, es: seq<Record>, ghost jobs: seq<Job>, cs: seq<Change>)
    returns (cs': seq<Change>)
    requires |was| >= |es|
    requires IsExpansion(cfg, jobs, cs)
    ensures IsExpansion(cfg, jobs + UpdateJobs(was, es), cs')
  {
    cs' := cs;
    assert jobs + UpdateJobs(was, es[..0]) == jobs;
    for i := 0 to |es|
      invariant IsExpansion(cfg, jobs + UpdateJobs(was, es[..i]), cs')
    {
      ghost var before := cs';
      cs' := AppendUpdate(cfg, was[i], es[i], cs');
      ExpansionStep(cfg, jobs + UpdateJobs(was, es[..i]), before, UpdateJob(was[i], es[i]), cs'[|before|..]);
      assert cs' == before + cs'[|before|..];
      assert jobs + UpdateJobs(was, es[..i]) + [UpdateJob(was[i], es[i])] == jobs + UpdateJobs(was, es[..i + 1]);
    }
    assert es[..|es|] == es;
  }

  /** ApplyChanges up to the call of submitChanges. The source indexes updateOld by the
      positions of updateNew. */
  method BuildChanges(cfg: Config, changes: Changes) returns (cs: seq<Change>)
    requires |changes.updateOld| >= |changes.updateNew|
    ensures IsExpansion(cfg, JobsOf(cfg, changes), cs)
  {
    cs := [];
    ghost var jobs: seq<Job> := [];
    assert AreGroups(cfg, [], []) && Concat<Change>([]) == [];
    if cfg.customHostnames {
      cs := AppendDeletes(cfg, changes.delete, jobs, cs);
      jobs := jobs + DeleteJobs(changes.delete);
    }
    cs := AppendCreates(cfg, changes.create, jobs, cs);
    jobs := jobs + CreateJobs(changes.create);
    cs := AppendUpdates(cfg, changes.updateOld, changes.updateNew, jobs, cs);
    jobs := jobs + UpdateJobs(changes.updateOld, changes.updateNew);
    if !cfg.customHostnames {
      cs := AppendDeletes(cfg, changes.delete, jobs, cs);
      jobs := jobs + DeleteJobs(changes.delete);
    }
    assert jobs == JobsOf(cfg, changes);
  }
}

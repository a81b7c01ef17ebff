/** Submitting Route 53 changes: one transaction per batch, group by group when a batch is
    rejected, with a queue of failed changes per zone (provider/aws/aws.go). */
module Route53Submit {
  import opened Sorting
  import opened Route53

  /** One API call and its answer. */
  datatype Call = Call(zone: string, changes: seq<Change>, fallback: bool, accepted: bool)

  // ---- accounting over a log of calls ----

  // What one call contributes.

  function AcceptedBy(c: Call): multiset<Change> {
    if c.accepted then multiset(c.changes) else multiset{}
  }

  function QueuedBy(c: Call): seq<Change> {
    if c.fallback && !c.accepted then c.changes else []
  }

  function RejectedBy(c: Call): multiset<Change> {
    if !c.fallback && !c.accepted && SingleGroup(c.changes) then multiset(c.changes) else multiset{}
  }

  /** Everything the API accepted. */
  function Accepted(log: seq<Call>): multiset<Change> {
    if log == [] then multiset{}
    else
      var c := log[|log| - 1];
      Accepted(log[..|log| - 1]) + AcceptedBy(c)
  }

  /** What the group-by-group fallback failed to submit, in order. */
  function RejectedGroups(log: seq<Call>): seq<Change> {
    if log == [] then []
    else
      var c := log[|log| - 1];
      RejectedGroups(log[..|log| - 1]) + QueuedBy(c)
  }

  predicate SingleGroup(cs: seq<Change>) {
    forall c, d | c in cs && d in cs :: GroupKey(c) == GroupKey(d)
  }

  /** Rejected batches of a single group: they are not tried again. */
  function RejectedWhole(log: seq<Call>): multiset<Change> {
    if log == [] then multiset{}
    else
      var c := log[|log| - 1];
      RejectedWhole(log[..|log| - 1]) + RejectedBy(c)
  }

  function Total(log: seq<Call>): multiset<Change> {
    Accepted(log) + multiset(RejectedGroups(log)) + RejectedWhole(log)
  }

  lemma AcceptedSnoc(log: seq<Call>, c: Call)
    ensures Accepted(log + [c]) == Accepted(log) + AcceptedBy(c)
  {
    assert (log + [c])[..|log|] == log;
  }

  lemma RejectedGroupsSnoc(log: seq<Call>, c: Call)
    ensures RejectedGroups(log + [c]) == RejectedGroups(log) + QueuedBy(c)
  {
    assert (log + [c])[..|log|] == log;
  }

  lemma RejectedWholeSnoc(log: seq<Call>, c: Call)
    ensures RejectedWhole(log + [c]) == RejectedWhole(log) + RejectedBy(c)
  {
    assert (log + [c])[..|log|] == log;
  }

  lemma LogLast(a: seq<Call>, b: seq<Call>)
    requires b != []
    ensures a + b == (a + b[..|b| - 1]) + [b[|b| - 1]] && b == b[..|b| - 1] + [b[|b| - 1]]
  {
  }

  lemma {:induction false} AcceptedAppend(a: seq<Call>, b: seq<Call>)
    ensures Accepted(a + b) == Accepted(a) + Accepted(b)
    decreases |b|
  {
    if b == [] {
      assert a + b == a;
    } else {
      var init, c := b[..|b| - 1], b[|b| - 1];
      AcceptedAppend(a, init);
      LogLast(a, b);
      AcceptedSnoc(a + init, c);
      AcceptedSnoc(init, c);
    }
  }

  lemma {:induction false} RejectedGroupsAppend(a: seq<Call>, b: seq<Call>)
    ensures RejectedGroups(a + b) == RejectedGroups(a) + RejectedGroups(b)
    decreases |b|
  {
    if b == [] {
      assert a + b == a;
    } else {
      var init, c := b[..|b| - 1], b[|b| - 1];
      RejectedGroupsAppend(a, init);
      LogLast(a, b);
      RejectedGroupsSnoc(a + init, c);
      RejectedGroupsSnoc(init, c);
      Assoc(RejectedGroups(a), RejectedGroups(init), QueuedBy(c));
    }
  }

  lemma {:induction false} RejectedWholeAppend(a: seq<Call>, b: seq<Call>)
    ensures RejectedWhole(a + b) == RejectedWhole(a) + RejectedWhole(b)
    decreases |b|
  {
    if b == [] {
      assert a + b == a;
    } else {
      var init, c := b[..|b| - 1], b[|b| - 1];
      RejectedWholeAppend(a, init);
      LogLast(a, b);
      RejectedWholeSnoc(a + init, c);
      RejectedWholeSnoc(init, c);
    }
  }

  lemma LogOfOne(c: Call)
    ensures Accepted([c]) == AcceptedBy(c) && RejectedGroups([c]) == QueuedBy(c) && RejectedWhole([c]) == RejectedBy(c)
  {
    AcceptedSnoc([], c);
    RejectedGroupsSnoc([], c);
    RejectedWholeSnoc([], c);
    assert [] + [c] == [c];
  }

  lemma LogAppend(a: seq<Call>, b: seq<Call>)
    ensures Total(a + b) == Total(a) + Total(b)
    ensures RejectedGroups(a + b) == RejectedGroups(a) + RejectedGroups(b)
    ensures Clean(a + b) <==> Clean(a) && Clean(b)
  {
    AcceptedAppend(a, b);
    RejectedGroupsAppend(a, b);
    RejectedWholeAppend(a, b);
    if RejectedWhole(a) + RejectedWhole(b) == multiset{} {
      assert |RejectedWhole(a)| + |RejectedWhole(b)| == |RejectedWhole(a) + RejectedWhole(b)|;
    }
  }

  /** Nothing was rejected for good or queued. */
  predicate Clean(log: seq<Call>) {
    RejectedGroups(log) == [] && RejectedWhole(log) == multiset{}
  }

  lemma CleanMeansAllAccepted(log: seq<Call>)
    ensures Clean(log) <==> Accepted(log) == Total(log)
  {
    if Accepted(log) == Total(log) {
      assert |Accepted(log)| == |Accepted(log)| + |multiset(RejectedGroups(log))| + |RejectedWhole(log)|;
      assert |multiset(RejectedGroups(log))| == |RejectedGroups(log)|;
    }
  }

  // ---- the shape of a call ----

  /** A call carries whole groups of src, upserts first, then deletes, then creates. */
  ghost predicate WellFormedCall(src: seq<Change>, cs: seq<Change>) {
    WholeGroups(src, cs) && Sorted(ChangeOrder(), cs) && InCallOrder(cs)
  }

  ghost predicate CallsFrom(z: string, src: seq<Change>, log: seq<Call>) {
    forall c | c in log :: c.zone == z && WellFormedCall(src, c.changes)
  }

  /** A group cut out of a well-formed batch is a well-formed call. */
  lemma GroupCall(src: seq<Change>, b: seq<Change>, k: string)
    requires WellFormedCall(src, b)
    ensures WellFormedCall(src, Filter(InGroup(k), b))
  {
    var g := Filter(InGroup(k), b);
    FilterSorted(ChangeOrder(), InGroup(k), b);
    SortedInCallOrder(g);
    forall c | c in g ensures Filter(InGroup(GroupKey(c)), g) == SortChanges(Filter(InGroup(GroupKey(c)), src)) {
      FilterEverything(InGroup(GroupKey(c)), g);
      assert c in b;
    }
  }

  lemma CalledFromSource(src: seq<Change>, call: seq<Change>, x: Change)
    requires WellFormedCall(src, call)
    ensures x in call ==> x in src
  {
    if x in call {
      var p := InGroup(GroupKey(x));
      assert x in Filter(p, call);
      assert x in SortChanges(Filter(p, src));
    }
  }

  // ---- what a zone is asked to submit ----

  function InQueue(queue: seq<Change>): Change -> bool { (c: Change) => c in queue }

  function NotInQueue(queue: seq<Change>): Change -> bool { (c: Change) => c !in queue }

  /** The changes of cs that batching does not drop. */
  function Survivors(l: Limits, cs: seq<Change>, queue: seq<Change>): multiset<Change> {
    var fresh_, retried := Filter(NotInQueue(queue), cs), Filter(InQueue(queue), cs);
    multiset(Filter(Surviving(l, fresh_), fresh_)) + multiset(Filter(Surviving(l, retried), retried))
  }

  /** findChangesInQueue splits its input. */
  lemma QueueSplits(cs: seq<Change>, queue: seq<Change>)
    ensures multiset(Filter(InQueue(queue), cs)) + multiset(Filter(NotInQueue(queue), cs)) == multiset(cs)
  {
    forall c ensures multiset(Filter(InQueue(queue), cs))[c] + multiset(Filter(NotInQueue(queue), cs))[c] == multiset(cs)[c] {
      FilterCounts(InQueue(queue), cs, c);
      FilterCounts(NotInQueue(queue), cs, c);
    }
  }

  method FindChangesInQueue(cs: seq<Change>, queue: seq<Change>) returns (found: seq<Change>, notFound: seq<Change>)
    ensures found == Filter(InQueue(queue), cs) && notFound == Filter(NotInQueue(queue), cs)
    ensures forall c :: (c in found <==> c in cs && c in queue) && (c in notFound <==> c in cs && c !in queue)
  {
    if queue == [] {
      FilterEmpty(InQueue(queue), cs);
      FilterEverything(NotInQueue(queue), cs);
      return [], cs;
    }
    found, notFound := [], [];
    var k := 0;
    while k < |cs|
      invariant 0 <= k <= |cs|
      invariant found == Filter(InQueue(queue), cs[..k]) && notFound == Filter(NotInQueue(queue), cs[..k])
    {
      FilterSnoc(InQueue(queue), cs[..k], cs[k]);
      FilterSnoc(NotInQueue(queue), cs[..k], cs[k]);
      assert cs[..k + 1] == cs[..k] + [cs[k]];
      if cs[k] in queue {
        found := found + [cs[k]];
      } else {
        notFound := notFound + [cs[k]];
      }
      k := k + 1;
    }
    assert cs[..k] == cs;
  }

  // ---- the submission loop ----

  function KeyIn(keys: set<string>): Change -> bool { (c: Change) => GroupKey(c) in keys }

  lemma KeyInStep(b: seq<Change>, done: set<string>, k: string)
    requires k !in done
    ensures multiset(Filter(KeyIn(done + {k}), b)) == multiset(Filter(KeyIn(done), b)) + multiset(Filter(InGroup(k), b))
  {
    forall x: Change
      ensures multiset(Filter(KeyIn(done + {k}), b))[x] ==
              (multiset(Filter(KeyIn(done), b)) + multiset(Filter(InGroup(k), b)))[x]
    {
      FilterCounts(KeyIn(done + {k}), b, x);
      FilterCounts(KeyIn(done), b, x);
      FilterCounts(InGroup(k), b, x);
    }
  }

  /** What one zone's submission must leave behind. */
  ghost predicate ZoneAccounted(l: Limits, z: string, cs: seq<Change>, queue: seq<Change>, log: seq<Call>,
                                queue': seq<Change>, failed: bool) {
    && Total(log) == Survivors(l, cs, queue)
    && queue' == RejectedGroups(log)
    && (failed <==> Accepted(log) != Survivors(l, cs, queue))
    && forall c | c in log :: c.zone == z &&
         (WellFormedCall(Filter(NotInQueue(queue), cs), c.changes) || WellFormedCall(Filter(InQueue(queue), cs), c.changes))
  }

  /** Each surviving change is accepted at most as often as it was asked for. */
  lemma AcceptedAtMostOnce(l: Limits, z: string, cs: seq<Change>, queue: seq<Change>, log: seq<Call>, queue': seq<Change>, failed: bool)
    requires ZoneAccounted(l, z, cs, queue, log, queue', failed)
    ensures Accepted(log) <= Survivors(l, cs, queue)
    ensures forall x | x in Accepted(log) :: Accepted(log)[x] <= multiset(cs)[x]
  {
    assert Accepted(log) <= Total(log);
    var a, b := Filter(NotInQueue(queue), cs), Filter(InQueue(queue), cs);
    SubMultisetFilter(Surviving(l, a), a);
    SubMultisetFilter(Surviving(l, b), b);
    QueueSplits(cs, queue);
  }

  // ---- how the pieces of a log add up ----

  /** log submitted exactly the changes in work, in well-formed calls cut from src. */
  ghost predicate Accounts(z: string, src: seq<Change>, work: multiset<Change>, log: seq<Call>, failed: bool) {
    CallsFrom(z, src, log) && Total(log) == work && failed == !Clean(log)
  }

  lemma AccountsJoin(z: string, src: seq<Change>, w1: multiset<Change>, a: seq<Call>, f1: bool,
                     w2: multiset<Change>, b: seq<Call>, f2: bool)
    requires Accounts(z, src, w1, a, f1)
    requires Accounts(z, src, w2, b, f2)
    ensures Accounts(z, src, w1 + w2, a + b, f1 || f2)
  {
    LogAppend(a, b);
  }

  lemma NothingSubmitted(z: string, src: seq<Change>)
    ensures Accounts(z, src, multiset{}, [], false)
  {
  }

  lemma NoGroupsYet(z: string, src: seq<Change>, b: seq<Change>)
    ensures Accounts(z, src, multiset(Filter(KeyIn({}), b)), [], false)
  {
    FilterEmpty(KeyIn({}), b);
  }

  /** The queue of z after a log of calls. */
  function QueueAfter(queues: map<string, seq<Change>>, z: string, log: seq<Call>): map<string, seq<Change>>
    requires z in queues
  {
    queues[z := queues[z] + RejectedGroups(log)]
  }

  lemma QueueAfterAppend(queues: map<string, seq<Change>>, z: string, a: seq<Call>, b: seq<Call>)
    requires z in queues
    ensures QueueAfter(QueueAfter(queues, z, a), z, b) == QueueAfter(queues, z, a + b)
  {
    RejectedGroupsAppend(a, b);
    Assoc(queues[z], RejectedGroups(a), RejectedGroups(b));
  }

  lemma GroupAccounted(z: string, src: seq<Change>, b: seq<Change>, done: set<string>,
                       groups: map<string, seq<Change>>, k: string, ok: bool)
    requires GroupedBy(b, groups) && k in groups && k !in done && WellFormedCall(src, b)
    ensures Accounts(z, src, multiset(groups[k]), [Call(z, groups[k], true, ok)], !ok)
    ensures multiset(Filter(KeyIn(done + {k}), b)) == multiset(Filter(KeyIn(done), b)) + multiset(groups[k])
  {
    GroupCall(src, b, k);
    KeyInStep(b, done, k);
    FallbackCallAccounted(z, src, groups[k], ok);
  }

  lemma FallbackCallAccounted(z: string, src: seq<Change>, g: seq<Change>, ok: bool)
    requires WellFormedCall(src, g) && g != []
    ensures Accounts(z, src, multiset(g), [Call(z, g, true, ok)], !ok)
  {
    LogOfOne(Call(z, g, true, ok));
  }

  lemma OneCall(c: Call)
    requires !c.fallback && c.changes != []
    ensures RejectedGroups([c]) == []
    ensures Total([c]) == if c.accepted || SingleGroup(c.changes) then multiset(c.changes) else multiset{}
    ensures Clean([c]) <==> c.accepted || !SingleGroup(c.changes)
  {
    LogOfOne(c);
    assert |multiset(c.changes)| == |c.changes|;
  }

  /** A batch that is accepted, or rejected with nothing smaller to try. */
  lemma BatchSettled(z: string, src: seq<Change>, b: seq<Change>, ok: bool)
    requires b != [] && WellFormedCall(src, b) && (ok || SingleGroup(b))
    ensures Accounts(z, src, multiset(b), [Call(z, b, false, ok)], !ok)
    ensures RejectedGroups([Call(z, b, false, ok)]) == []
  {
    OneCall(Call(z, b, false, ok));
  }

  /** A rejected batch whose groups were then tried one by one. */
  lemma BatchRetried(z: string, src: seq<Change>, b: seq<Change>, rest: seq<Call>, failed: bool)
    requires b != [] && WellFormedCall(src, b) && !SingleGroup(b)
    requires Accounts(z, src, multiset(b), rest, failed)
    ensures Accounts(z, src, multiset(b), [Call(z, b, false, false)] + rest, failed)
    ensures RejectedGroups([Call(z, b, false, false)] + rest) == RejectedGroups(rest)
  {
    var c := Call(z, b, false, false);
    OneCall(c);
    PrependNeutral(c, rest);
    CallsFromCons(z, src, c, rest);
  }

  lemma CallsFromCons(z: string, src: seq<Change>, c: Call, rest: seq<Call>)
    requires c.zone == z && WellFormedCall(src, c.changes) && CallsFrom(z, src, rest)
    ensures CallsFrom(z, src, [c] + rest)
  {
  }

  /** A rejected call that is retried in smaller ones leaves no trace in the sums. */
  lemma PrependNeutral(c: Call, rest: seq<Call>)
    requires Total([c]) == multiset{} && RejectedGroups([c]) == [] && Clean([c])
    ensures Total([c] + rest) == Total(rest)
    ensures RejectedGroups([c] + rest) == RejectedGroups(rest)
    ensures Clean([c] + rest) <==> Clean(rest)
  {
    LogAppend([c], rest);
  }

  lemma NothingLogged(z: string, src: seq<Change>, log: seq<Call>, failed: bool)
    requires Accounts(z, src, multiset{}, log, failed)
    ensures RejectedGroups(log) == [] && Accepted(log) == multiset{} && !failed
  {
    assert |multiset(RejectedGroups(log))| == |RejectedGroups(log)|;
    assert multiset(RejectedGroups(log)) <= Total(log);
  }

  lemma ZoneDone(l: Limits, z: string, cs: seq<Change>, queue: seq<Change>,
                 batches: seq<seq<Change>>, log1: seq<Call>, f1: bool, again: seq<seq<Change>>, log2: seq<Call>, f2: bool)
    requires IsBatching(l, Filter(NotInQueue(queue), cs), batches)
    requires IsBatching(l, Filter(InQueue(queue), cs), again)
    requires Accounts(z, Filter(NotInQueue(queue), cs), multiset(Concat(batches)), log1, f1)
    requires Accounts(z, Filter(InQueue(queue), cs), multiset(Concat(again)), log2, f2)
    ensures ZoneAccounted(l, z, cs, queue, log1 + log2, RejectedGroups(log1 + log2), f1 || f2)
  {
    BatchingConserves(l, Filter(NotInQueue(queue), cs), batches);
    BatchingConserves(l, Filter(InQueue(queue), cs), again);
    LogAppend(log1, log2);
    CleanMeansAllAccepted(log1 + log2);
  }

  // ---- which logs the loops can produce ----

  /** Every call of log carries one group of b, as the fallback does. */
  ghost predicate AllGroups(z: string, b: seq<Change>, log: seq<Call>) {
    forall c | c in log :: c.zone == z && c.fallback && exists k :: c.changes == Filter(InGroup(k), b)
  }

  /** What one batch can leave in the log: it is accepted; it is rejected and a single group;
      or it is rejected and each of its groups is then tried once, with any answers. */
  ghost predicate BatchLog(z: string, b: seq<Change>, log: seq<Call>) {
    || log == [Call(z, b, false, true)]
    || (SingleGroup(b) && log == [Call(z, b, false, false)])
    || (!SingleGroup(b) && exists rest :: Retries(z, b, rest) && log == [Call(z, b, false, false)] + rest)
  }

  ghost predicate Retries(z: string, b: seq<Change>, rest: seq<Call>) {
    AllGroups(z, b, rest) && Total(rest) == multiset(b)
  }

  ghost predicate NextLog(z: string, b: seq<Change>, log: seq<Call>) {
    if b == [] then log == [] else BatchLog(z, b, log)
  }

  /** parts holds, batch by batch, what each batch left in the log. */
  ghost predicate PartsLog(z: string, bs: seq<seq<Change>>, parts: seq<seq<Call>>) {
    |parts| == |bs| && forall k | 0 <= k < |bs| :: NextLog(z, bs[k], parts[k])
  }

  /** What a list of batches can leave in the log, batch after batch. */
  ghost predicate BatchesLog(z: string, bs: seq<seq<Change>>, log: seq<Call>) {
    exists parts :: PartsLog(z, bs, parts) && log == Concat(parts)
  }

  /** What the submission of a zone can leave in the log: first the new changes, then the
      retried ones. */
  ghost predicate ZoneLog(l: Limits, z: string, cs: seq<Change>, queue: seq<Change>, log: seq<Call>) {
    exists batches, again ::
      && IsBatching(l, Filter(NotInQueue(queue), cs), batches)
      && IsBatching(l, Filter(InQueue(queue), cs), again)
      && BatchesLog(z, batches + again, log)
  }

  lemma PartsLogStep(z: string, bs: seq<seq<Change>>, k: nat, parts: seq<seq<Call>>, part: seq<Call>)
    requires k < |bs| && PartsLog(z, bs[..k], parts) && NextLog(z, bs[k], part)
    ensures PartsLog(z, bs[..k + 1], parts + [part])
    ensures Concat(parts + [part]) == Concat(parts) + part
  {
    assert bs[..k + 1] == bs[..k] + [bs[k]];
    ConcatSnoc(parts, part);
  }

  lemma BatchesLogAppend(z: string, a: seq<seq<Change>>, la: seq<Call>, b: seq<seq<Change>>, lb: seq<Call>)
    requires BatchesLog(z, a, la) && BatchesLog(z, b, lb)
    ensures BatchesLog(z, a + b, la + lb)
  {
    var pa :| PartsLog(z, a, pa) && la == Concat(pa);
    var pb :| PartsLog(z, b, pb) && lb == Concat(pb);
    ConcatAppend(pa, pb);
    assert PartsLog(z, a + b, pa + pb);
  }

  /** The state of the batch loop once it is through with bs. */
  ghost predicate BatchLoop(z: string, src: seq<Change>, dryRun: bool, bs: seq<seq<Change>>, parts: seq<seq<Call>>,
                            log: seq<Call>, failed: bool, queues: map<string, seq<Change>>, queues': map<string, seq<Change>>,
                            calls: seq<Call>, calls': seq<Call>)
    requires z in queues
  {
    && Progress(z, src, Work(dryRun, bs), log, failed, queues, queues', calls, calls')
    && (dryRun || (PartsLog(z, bs, parts) && log == Concat(parts)))
  }

  lemma BatchLoopStart(z: string, src: seq<Change>, dryRun: bool, queues: map<string, seq<Change>>, calls: seq<Call>)
    requires z in queues
    ensures BatchLoop(z, src, dryRun, [], [], [], false, queues, queues, calls, calls)
  {
    ProgressStart(z, src, queues, calls);
  }

  lemma BatchLoopStep(z: string, src: seq<Change>, dryRun: bool, batches: seq<seq<Change>>, k: nat, parts: seq<seq<Call>>,
                      log: seq<Call>, f: bool, more: seq<Call>, g: bool,
                      q0: map<string, seq<Change>>, q1: map<string, seq<Change>>, q2: map<string, seq<Change>>,
                      c0: seq<Call>, c1: seq<Call>, c2: seq<Call>)
    requires k < |batches| && z in q0 && z in q1
    requires BatchLoop(z, src, dryRun, batches[..k], parts, log, f, q0, q1, c0, c1)
    requires Progress(z, src, WorkOf(dryRun, batches[k]), more, g, q1, q2, c1, c2)
    requires !dryRun ==> NextLog(z, batches[k], more)
    ensures BatchLoop(z, src, dryRun, batches[..k + 1], parts + [more], log + more, f || g, q0, q2, c0, c2)
  {
    ProgressStep(z, src, Work(dryRun, batches[..k]), log, f, WorkOf(dryRun, batches[k]), more, g, q0, q1, q2, c0, c1, c2);
    WorkSnoc(dryRun, batches, k);
    if !dryRun { PartsLogStep(z, batches, k, parts, more); }
  }

  lemma AllGroupsSnoc(z: string, b: seq<Change>, log: seq<Call>, k: string, ok: bool)
    requires AllGroups(z, b, log)
    ensures AllGroups(z, b, log + [Call(z, Filter(InGroup(k), b), true, ok)])
  {
  }

  /** The calls in log were added, account for work, and left their rejects in the queue of z. */
  ghost predicate Progress(z: string, src: seq<Change>, work: multiset<Change>, log: seq<Call>, failed: bool,
                           queues: map<string, seq<Change>>, queues': map<string, seq<Change>>,
                           calls: seq<Call>, calls': seq<Call>)
    requires z in queues
  {
    calls' == calls + log && Accounts(z, src, work, log, failed) && queues' == QueueAfter(queues, z, log)
  }

  lemma ProgressStart(z: string, src: seq<Change>, queues: map<string, seq<Change>>, calls: seq<Call>)
    requires z in queues
    ensures Progress(z, src, multiset{}, [], false, queues, queues, calls, calls)
  {
    SameEntry(queues, z);
    NothingSubmitted(z, src);
    assert calls + [] == calls;
  }

  lemma ProgressStep(z: string, src: seq<Change>, w1: multiset<Change>, log: seq<Call>, f: bool,
                     w2: multiset<Change>, more: seq<Call>, g: bool,
                     q0: map<string, seq<Change>>, q1: map<string, seq<Change>>, q2: map<string, seq<Change>>,
                     c0: seq<Call>, c1: seq<Call>, c2: seq<Call>)
    requires z in q0 && z in q1
    requires Progress(z, src, w1, log, f, q0, q1, c0, c1)
    requires Progress(z, src, w2, more, g, q1, q2, c1, c2)
    ensures Progress(z, src, w1 + w2, log + more, f || g, q0, q2, c0, c2)
  {
    AccountsJoin(z, src, w1, log, f, w2, more, g);
    QueueAfterAppend(q0, z, log, more);
    Assoc(c0, log, more);
  }

  class AWSProvider {
    const limits: Limits
    const dryRun: bool
    var failedChangesQueue: map<string, seq<Change>>
    ghost var calls: seq<Call>

    constructor (limits: Limits, dryRun: bool)
      ensures this.limits == limits && this.dryRun == dryRun
      ensures failedChangesQueue == map[] && calls == []
    {
      this.limits, this.dryRun := limits, dryRun;
      failedChangesQueue := map[];
      calls := [];
    }

    function Queue(z: string): seq<Change>
      reads this
    {
      QueueIn(failedChangesQueue, z)
    }

    /** The API answers as it likes; a rejected call changes nothing. */
    method ChangeResourceRecordSets(z: string, cs: seq<Change>, ghost fallback: bool) returns (ok: bool)
      modifies this`calls
      ensures calls == old(calls) + [Call(z, cs, fallback, ok)]
    {
      ok := *;
      calls := calls + [Call(z, cs, fallback, ok)];
    }

    /** One group of the one-by-one loop. */
    method SubmitGroup(z: string, changes: seq<Change>) returns (ok: bool)
      requires z in failedChangesQueue
      modifies this
      ensures calls == old(calls) + [Call(z, changes, true, ok)]
      ensures failedChangesQueue == QueueAfter(old(failedChangesQueue), z, [Call(z, changes, true, ok)])
    {
      ok := ChangeResourceRecordSets(z, changes, true);
      LogOfOne(Call(z, changes, true, ok));
      assert [] + changes == changes;
      if !ok {
        failedChangesQueue := failedChangesQueue[z := failedChangesQueue[z] + changes];
      } else {
        SameEntry(failedChangesQueue, z);
      }
    }

    /** The one-by-one loop after a rejected batch, in an arbitrary order of groups. */
    method SubmitGroups(z: string, b: seq<Change>, groups: map<string, seq<Change>>, ghost src: seq<Change>)
      returns (failed: bool, ghost log: seq<Call>)
      requires GroupedBy(b, groups) && WellFormedCall(src, b)
      requires z in failedChangesQueue
      modifies this
      ensures calls == old(calls) + log
      ensures Accounts(z, src, multiset(b), log, failed)
      ensures AllGroups(z, b, log)
      ensures failedChangesQueue == QueueAfter(old(failedChangesQueue), z, log)
    {
      failed, log := false, [];
      ghost var before, logged := failedChangesQueue, calls;
      SameEntry(failedChangesQueue, z);
      var todo := groups.Keys;
      ghost var done: set<string> := {};
      NoGroupsYet(z, src, b);
      while todo != {}
        invariant Splits(groups.Keys, done, todo)
        invariant calls == old(calls) + log
        invariant Accounts(z, src, multiset(Filter(KeyIn(done), b)), log, failed)
        invariant AllGroups(z, b, log)
        invariant failedChangesQueue == QueueAfter(before, z, log)
        decreases todo
      {
        var k :| k in todo;
        SplitsStep(groups.Keys, done, todo, k);
        var ok := SubmitGroup(z, groups[k]);
        ghost var call := Call(z, groups[k], true, ok);
        GroupAccounted(z, src, b, done, groups, k, ok);
        AccountsJoin(z, src, multiset(Filter(KeyIn(done), b)), log, failed, multiset(groups[k]), [call], !ok);
        QueueAfterAppend(before, z, log, [call]);
        Assoc(logged, log, [call]);
        AllGroupsSnoc(z, b, log, k, ok);
        log := log + [call];
        if !ok {
          failed := true;
        }
        todo, done := todo - {k}, done + {k};
      }
      SplitsEnd(groups.Keys, done, todo);
      FilterEverything(KeyIn(done), b);
    }

    /** One batch: as a whole, then, if it is rejected and has several groups, one by one. */
    method SubmitBatch(z: string, b: seq<Change>, ghost src: seq<Change>) returns (failed: bool, ghost log: seq<Call>)
      requires b != [] && WellFormedCall(src, b)
      requires z in failedChangesQueue
      modifies this
      ensures calls == old(calls) + log
      ensures Accounts(z, src, multiset(b), log, failed)
      ensures BatchLog(z, b, log)
      ensures failedChangesQueue == QueueAfter(old(failedChangesQueue), z, log)
    {
      hide WellFormedCall;
      ghost var before := calls;
      var ok := ChangeResourceRecordSets(z, b, false);
      var several := false;
      if !ok {
        var groups := GroupChanges(b);
        SeveralGroups(b, groups);
        several := |groups| > 1;
        if several {
          ghost var rest;
          failed, rest := SubmitGroups(z, b, groups, src);
          BatchRetried(z, src, b, rest, failed);
          Assoc(before, [Call(z, b, false, false)], rest);
          log := [Call(z, b, false, false)] + rest;
          assert Retries(z, b, rest);
        }
      }
      if !several {
        BatchSettled(z, src, b, ok);
        SameEntry(failedChangesQueue, z);
        failed, log := !ok, [Call(z, b, false, ok)];
      }
    }

    /** The body of the batch loop: empty batches and dry runs are skipped. */
    method SubmitNext(z: string, b: seq<Change>, ghost src: seq<Change>) returns (failed: bool, ghost log: seq<Call>)
      requires WellFormedCall(src, b)
      requires z in failedChangesQueue
      modifies this
      ensures Progress(z, src, WorkOf(dryRun, b), log, failed, old(failedChangesQueue), failedChangesQueue, old(calls), calls)
      ensures !dryRun ==> NextLog(z, b, log)
    {
      if |b| == 0 || dryRun {
        ProgressStart(z, src, failedChangesQueue, calls);
        return false, [];
      }
      failed, log := SubmitBatch(z, b, src);
    }

    /** The loop over the batches of one batching, in order. */
    method BatchesLoop(z: string, batches: seq<seq<Change>>, ghost src: seq<Change>)
      returns (failed: bool, ghost log: seq<Call>, ghost parts: seq<seq<Call>>)
      requires z in failedChangesQueue
      requires forall k | 0 <= k < |batches| :: WellFormedCall(src, batches[k])
      modifies this
      ensures BatchLoop(z, src, dryRun, batches, parts, log, failed, old(failedChangesQueue), failedChangesQueue, old(calls), calls)
    {
      failed, log, parts := false, [], [];
      ghost var before, logged := failedChangesQueue, calls;
      BatchLoopStart(z, src, dryRun, before, logged);
      var k := 0;
      assert batches[..0] == [];
      while k < |batches|
        invariant 0 <= k <= |batches|
        invariant z in failedChangesQueue
        invariant BatchLoop(z, src, dryRun, batches[..k], parts, log, failed, before, failedChangesQueue, logged, calls)
      {
        ghost var queues, called := failedChangesQueue, calls;
        var f, more := SubmitNext(z, batches[k], src);
        BatchLoopStep(z, src, dryRun, batches, k, parts, log, failed, more, f,
                      before, queues, failedChangesQueue, logged, called, calls);
        log, parts := log + more, parts + [more];
        failed := failed || f;
        k := k + 1;
      }
      assert batches[..k] == batches;
    }

    method SubmitBatches(z: string, batches: seq<seq<Change>>, ghost src: seq<Change>)
      returns (failed: bool, ghost log: seq<Call>)
      requires z in failedChangesQueue
      requires forall k | 0 <= k < |batches| :: WellFormedCall(src, batches[k])
      modifies this
      ensures calls == old(calls) + log
      ensures Accounts(z, src, Work(dryRun, batches), log, failed)
      ensures !dryRun ==> BatchesLog(z, batches, log)
      ensures failedChangesQueue == QueueAfter(old(failedChangesQueue), z, log)
    {
      ghost var parts;
      failed, log, parts := BatchesLoop(z, batches, src);
    }

    /** Both batchings of a zone: new changes first, then retried ones. */
    method SubmitBoth(z: string, new_: seq<Change>, retried: seq<Change>)
      returns (failed: bool, ghost log1: seq<Call>, ghost f1: bool, ghost batches: seq<seq<Change>>,
               ghost log2: seq<Call>, ghost f2: bool, ghost again: seq<seq<Change>>)
      requires z in failedChangesQueue && failedChangesQueue[z] == []
      modifies this
      ensures calls == old(calls) + (log1 + log2)
      ensures failed == (f1 || f2)
      ensures IsBatching(limits, new_, batches) && IsBatching(limits, retried, again)
      ensures !dryRun ==> BatchesLog(z, batches + again, log1 + log2)
      ensures Accounts(z, new_, Work(dryRun, batches), log1, f1)
      ensures Accounts(z, retried, Work(dryRun, again), log2, f2)
      ensures failedChangesQueue == QueueAfter(old(failedChangesQueue), z, log1 + log2)
    {
      ghost var before, logged := failedChangesQueue, calls;
      var bs := BatchChangeSet(new_, limits);
      var rs := BatchChangeSet(retried, limits);
      BatchesWellFormed(limits, new_, bs);
      BatchesWellFormed(limits, retried, rs);
      var g1, g2;
      g1, log1 := SubmitBatches(z, bs, new_);
      g2, log2 := SubmitBatches(z, rs, retried);
      QueueAfterAppend(before, z, log1, log2);
      Assoc(logged, log1, log2);
      if !dryRun { BatchesLogAppend(z, bs, log1, rs, log2); }
      failed, f1, f2, batches, again := g1 || g2, g1, g2, bs, rs;
    }

    /** submitChanges for one zone whose changes are split and whose queue is cleared. */
    method SubmitSplit(z: string, ghost cs: seq<Change>, ghost queue: seq<Change>, new_: seq<Change>, retried: seq<Change>)
      returns (failed: bool, ghost log: seq<Call>)
      requires new_ == Filter(NotInQueue(queue), cs) && retried == Filter(InQueue(queue), cs)
      requires z in failedChangesQueue && failedChangesQueue[z] == []
      modifies this
      ensures calls == old(calls) + log
      ensures ZoneResult(this, z, cs, queue, log, Queue(z), failed)
      ensures failedChangesQueue == QueueAfter(old(failedChangesQueue), z, log)
    {
      ghost var log1, f1, batches, log2, f2, again;
      failed, log1, f1, batches, log2, f2, again := SubmitBoth(z, new_, retried);
      log := log1 + log2;
      BothDone(this, z, cs, queue, batches, log1, f1, again, log2, f2);
      assert Queue(z) == [] + RejectedGroups(log) == RejectedGroups(log);
    }

    /** submitChanges for one zone. */
    method SubmitZone(z: string, cs: seq<Change>) returns (failed: bool, ghost log: seq<Call>)
      modifies this
      ensures calls == old(calls) + log
      ensures ZoneResult(this, z, cs, old(Queue(z)), log, Queue(z), failed)
      ensures forall y :: y != z ==> QueueIn(failedChangesQueue, y) == QueueIn(old(failedChangesQueue), y)
    {
      ghost var queue := Queue(z);
      var retried, new_ := FindChangesInQueue(cs, Queue(z));
      failedChangesQueue := failedChangesQueue[z := []];
      failed, log := SubmitSplit(z, cs, queue, new_, retried);
    }

    /** submitChanges: every zone once, in an arbitrary order. */
    method SubmitChanges(changesByZone: map<string, seq<Change>>) returns (ok: bool, ghost log: seq<Call>, ghost failed: set<string>)
      modifies this
      ensures calls == old(calls) + log
      ensures ZonesSubmitted(GoodZone(this, changesByZone, old(failedChangesQueue)), old(failedChangesQueue),
                             log, failedChangesQueue, failed, changesByZone.Keys)
      ensures ok == (failed == {})
    {
      log := [];
      ghost var logged, before := calls, failedChangesQueue;
      ghost var good := GoodZone(this, changesByZone, before);
      var failedZones: set<string> := {};
      var todo := changesByZone.Keys;
      ghost var done: set<string> := {};
      while todo != {}
        invariant Splits(changesByZone.Keys, done, todo)
        invariant calls == logged + log
        invariant ZonesSubmitted(good, before, log, failedChangesQueue, failedZones, done)
        decreases todo
      {
        var z :| z in todo;
        SplitsStep(changesByZone.Keys, done, todo, z);
        ghost var queues := failedChangesQueue;
        var f, more := SubmitZone(z, changesByZone[z]);
        ZonesStep(good, before, log, queues, failedZones, done, z, more, failedChangesQueue, f);
        Assoc(logged, log, more);
        log := log + more;
        if f {
          failedZones := failedZones + {z};
        }
        todo, done := todo - {z}, done + {z};
      }
      SplitsEnd(changesByZone.Keys, done, todo);
      ok, failed := failedZones == {}, failedZones;
    }
  }

  function QueueIn(queues: map<string, seq<Change>>, z: string): seq<Change> {
    if z in queues then queues[z] else []
  }

  /** What is good for one zone: its log, its queue afterwards and whether it failed. */
  type Verdict = (string, seq<Call>, seq<Change>, bool) -> bool

  ghost function GoodZone(p: AWSProvider, byZone: map<string, seq<Change>>, before: map<string, seq<Change>>): Verdict {
    (z: string, log: seq<Call>, q: seq<Change>, f: bool) =>
      z in byZone && ZoneResult(p, z, byZone[z], QueueIn(before, z), log, q, f)
  }

  /** The zones in done have been submitted, each with a good outcome; the other queues are as before. */
  ghost predicate ZonesSubmitted(good: Verdict, before: map<string, seq<Change>>, log: seq<Call>,
                                 queues: map<string, seq<Change>>, failed: set<string>, done: set<string>) {
    && failed <= done
    && (forall c | c in log :: c.zone in done)
    && (forall z | z in done :: good(z, Filter(InZone(z), log), QueueIn(queues, z), z in failed))
    && (forall z :: z !in done ==> QueueIn(queues, z) == QueueIn(before, z))
  }

  lemma ZonesStep(good: Verdict, before: map<string, seq<Change>>, log: seq<Call>,
                  queues: map<string, seq<Change>>, failed: set<string>, done: set<string>,
                  z: string, more: seq<Call>, queues': map<string, seq<Change>>, f: bool)
    requires ZonesSubmitted(good, before, log, queues, failed, done) && z !in done
    requires forall c | c in more :: c.zone == z
    requires good(z, more, QueueIn(queues', z), f)
    requires forall y :: y != z ==> QueueIn(queues', y) == QueueIn(queues, y)
    ensures ZonesSubmitted(good, before, log + more, queues', if f then failed + {z} else failed, done + {z})
  {
    ZoneLogs(z, log, more, done);
  }

  /** submitChanges returns nil exactly when every surviving change of every zone was accepted. */
  lemma NilIffAllAccepted(p: AWSProvider, byZone: map<string, seq<Change>>, before: map<string, seq<Change>>,
                          log: seq<Call>, queues: map<string, seq<Change>>, failed: set<string>)
    requires ZonesSubmitted(GoodZone(p, byZone, before), before, log, queues, failed, byZone.Keys) && !p.dryRun
    ensures failed == {} <==>
            forall z | z in byZone ::
              Accepted(Filter(InZone(z), log)) == Survivors(p.limits, byZone[z], QueueIn(before, z))
  {
    forall z | z in byZone
      ensures z in failed <==> Accepted(Filter(InZone(z), log)) != Survivors(p.limits, byZone[z], QueueIn(before, z))
    {
      assert GoodZone(p, byZone, before)(z, Filter(InZone(z), log), QueueIn(queues, z), z in failed);
      assert ZoneAccounted(p.limits, z, byZone[z], QueueIn(before, z), Filter(InZone(z), log), QueueIn(queues, z), z in failed);
    }
    if failed != {} {
      var z :| z in failed;
      assert z in byZone;
    }
  }

  /** Outside a dry run, what a zone could not submit by groups is exactly its failed queue. */
  lemma QueueIsRejected(p: AWSProvider, byZone: map<string, seq<Change>>, before: map<string, seq<Change>>,
                        log: seq<Call>, queues: map<string, seq<Change>>, failed: set<string>, z: string)
    requires ZonesSubmitted(GoodZone(p, byZone, before), before, log, queues, failed, byZone.Keys) && !p.dryRun
    requires z in byZone
    ensures QueueIn(queues, z) == RejectedGroups(Filter(InZone(z), log))
    ensures Accepted(Filter(InZone(z), log)) <= Survivors(p.limits, byZone[z], QueueIn(before, z))
  {
    var l := Filter(InZone(z), log);
    assert GoodZone(p, byZone, before)(z, l, QueueIn(queues, z), z in failed);
    AcceptedAtMostOnce(p.limits, z, byZone[z], QueueIn(before, z), l, QueueIn(queues, z), z in failed);
  }

  lemma BothDone(p: AWSProvider, z: string, cs: seq<Change>, queue: seq<Change>,
                 batches: seq<seq<Change>>, log1: seq<Call>, f1: bool, again: seq<seq<Change>>, log2: seq<Call>, f2: bool)
    requires IsBatching(p.limits, Filter(NotInQueue(queue), cs), batches)
    requires IsBatching(p.limits, Filter(InQueue(queue), cs), again)
    requires Accounts(z, Filter(NotInQueue(queue), cs), Work(p.dryRun, batches), log1, f1)
    requires Accounts(z, Filter(InQueue(queue), cs), Work(p.dryRun, again), log2, f2)
    requires !p.dryRun ==> BatchesLog(z, batches + again, log1 + log2)
    ensures ZoneResult(p, z, cs, queue, log1 + log2, RejectedGroups(log1 + log2), f1 || f2)
  {
    if p.dryRun {
      NothingLogged(z, Filter(NotInQueue(queue), cs), log1, f1);
      NothingLogged(z, Filter(InQueue(queue), cs), log2, f2);
      RejectedGroupsAppend(log1, log2);
      AcceptedAppend(log1, log2);
    } else {
      ZoneDone(p.limits, z, cs, queue, batches, log1, f1, again, log2, f2);
    }
  }

  function InZone(z: string): Call -> bool { (c: Call) => c.zone == z }

  /** Calls for one more zone leave the logs of the zones done so far alone. */
  lemma ZoneLogs(z: string, log: seq<Call>, more: seq<Call>, done: set<string>)
    requires forall c | c in log :: c.zone in done
    requires forall c | c in more :: c.zone == z
    requires z !in done
    ensures Filter(InZone(z), log + more) == more
    ensures forall y | y in done :: Filter(InZone(y), log + more) == Filter(InZone(y), log)
  {
    FilterAppend(InZone(z), log, more);
    FilterEmpty(InZone(z), log);
    FilterEverything(InZone(z), more);
    forall y | y in done ensures Filter(InZone(y), log + more) == Filter(InZone(y), log) {
      FilterAppend(InZone(y), log, more);
      FilterEmpty(InZone(y), more);
    }
  }

  lemma Assoc<T>(a: seq<T>, b: seq<T>, c: seq<T>)
    ensures (a + b) + c == a + (b + c)
  {
  }

  /** What batches amount to: nothing in a dry run. */
  ghost function Work(dryRun: bool, batches: seq<seq<Change>>): multiset<Change> {
    if dryRun then multiset{} else multiset(Concat(batches))
  }

  /** The same for one batch. */
  ghost function WorkOf(dryRun: bool, batch: seq<Change>): multiset<Change> {
    if dryRun then multiset{} else multiset(batch)
  }

  lemma WorkSnoc(dryRun: bool, batches: seq<seq<Change>>, k: nat)
    requires k < |batches|
    ensures Work(dryRun, batches[..k + 1]) ==
            Work(dryRun, batches[..k]) + WorkOf(dryRun, batches[k])
  {
    ConcatSnoc(batches[..k], batches[k]);
    assert batches[..k + 1] == batches[..k] + [batches[k]];
  }

  ghost predicate ZoneResult(p: AWSProvider, z: string, cs: seq<Change>, queue: seq<Change>, log: seq<Call>,
                             queue': seq<Change>, failed: bool) {
    && (forall c | c in log :: c.zone == z)
    && if p.dryRun then Accepted(log) == multiset{} && queue' == [] && !failed
    else ZoneAccounted(p.limits, z, cs, queue, log, queue', failed) && ZoneLog(p.limits, z, cs, queue, log)
  }

  lemma BatchesWellFormed(l: Limits, cs: seq<Change>, bs: seq<seq<Change>>)
    requires IsBatching(l, cs, bs)
    ensures forall k | 0 <= k < |bs| :: WellFormedCall(cs, bs[k])
  {
    forall k | 0 <= k < |bs| ensures WellFormedCall(cs, bs[k]) {
      BatchingAtomic(l, cs, bs, bs[k]);
    }
  }

  /** A batch has several groups exactly when its grouping has several entries. */
  lemma SeveralGroups(b: seq<Change>, groups: map<string, seq<Change>>)
    requires GroupedBy(b, groups) && b != []
    ensures |groups| > 1 <==> !SingleGroup(b)
  {
    assert |groups| == |groups.Keys|;
    if SingleGroup(b) {
      OneGroup(b, groups);
    } else {
      var c, d :| c in b && d in b && GroupKey(c) != GroupKey(d);
      TwoGroups(b, groups, c, d);
    }
  }

  lemma TwoGroups(b: seq<Change>, groups: map<string, seq<Change>>, c: Change, d: Change)
    requires GroupedBy(b, groups) && c in b && d in b && GroupKey(c) != GroupKey(d)
    ensures |groups.Keys| > 1
  {
    SubsetSize({GroupKey(c), GroupKey(d)}, groups.Keys);
  }

  lemma OneGroup(b: seq<Change>, groups: map<string, seq<Change>>)
    requires GroupedBy(b, groups) && b != [] && SingleGroup(b)
    ensures groups.Keys == {GroupKey(b[0])}
  {
    assert b[0] in b;
    forall j | j in groups.Keys ensures j == GroupKey(b[0]) {
      var c := groups[j][0];
      assert c in Filter(InGroup(j), b);
    }
  }

  lemma SubsetSize<T>(a: set<T>, b: set<T>)
    requires a <= b
    ensures |a| <= |b|
  {
    assert b == a + (b - a);
  }

  lemma SameEntry(m: map<string, seq<Change>>, z: string)
    requires z in m
    ensures m[z := m[z] + []] == m
  {
    assert m[z] + [] == m[z];
  }

}

/** What the failed queue of a Route 53 zone holds after a submission, and when it misses
    changes that were rejected (provider/aws/aws.go). */
module Route53Queue {
  import opened Sorting
  import opened Route53
  import opened Route53Submit

  /** The queue holds every surviving change that was not accepted. */
  ghost predicate QueueComplete(l: Limits, cs: seq<Change>, queue: seq<Change>, log: seq<Call>, queue': seq<Change>) {
    multiset(queue') == Survivors(l, cs, queue) - Accepted(log)
  }

  /** The call's changes are not lost: it was accepted, or it was itself a retry, or it was a
      batch with changes that do not belong together, which is retried group by group. */
  ghost predicate NotGivenUp(call: Call) {
    || call.accepted || call.fallback || call.changes == []
    || exists c, d | c in call.changes && d in call.changes :: !Related(c, d)
  }

  lemma SingleGroupExactly(b: seq<Change>)
    ensures SingleGroup(b) <==> forall c, d | c in b && d in b :: Related(c, d)
  {
    forall c: Change, d: Change ensures GroupKey(c) == GroupKey(d) <==> Related(c, d) { SameKeyExactly(c, d); }
  }

  lemma {:induction false} GivenUpExactly(log: seq<Call>)
    ensures RejectedWhole(log) == multiset{} <==> forall call | call in log :: NotGivenUp(call)
  {
    if log != [] {
      var init, last := log[..|log| - 1], log[|log| - 1];
      GivenUpExactly(init);
      SingleGroupExactly(last.changes);
      assert log == init + [last];
      assert |RejectedWhole(log)| == |RejectedWhole(init)| + |RejectedBy(last)|;
      assert RejectedBy(last) == multiset{} <==> NotGivenUp(last) by { assert |multiset(last.changes)| == |last.changes|; }
    }
  }

  /** After any submission of a zone the queue is complete exactly when no batch was given up
      as a whole. */
  lemma QueueCompleteExactly(l: Limits, z: string, cs: seq<Change>, queue: seq<Change>, log: seq<Call>,
                             queue': seq<Change>, failed: bool)
    requires ZoneAccounted(l, z, cs, queue, log, queue', failed)
    ensures QueueComplete(l, cs, queue, log, queue') <==> forall call | call in log :: NotGivenUp(call)
  {
    hide NotGivenUp, RejectedWhole, RejectedGroups, Accepted, Survivors, Total, QueueComplete, WellFormedCall;
    GivenUpExactly(log);
    CompleteByTotal(l, cs, queue, log);
  }

  // ---- before any call is made ----

  ghost predicate SeveralGroupsEach(bs: seq<seq<Change>>) {
    forall k | 0 <= k < |bs| && bs[k] != [] :: exists c, d | c in bs[k] && d in bs[k] :: !Related(c, d)
  }

  lemma {:induction false} RetriesLoseNothing(z: string, b: seq<Change>, rest: seq<Call>)
    requires AllGroups(z, b, rest)
    ensures RejectedWhole(rest) == multiset{}
  {
    if rest != [] {
      assert rest[|rest| - 1] in rest;
      RetriesLoseNothing(z, b, rest[..|rest| - 1]);
    }
  }

  lemma BatchLosesNothing(z: string, b: seq<Change>, log: seq<Call>)
    requires NextLog(z, b, log) && (b != [] ==> !SingleGroup(b))
    ensures RejectedWhole(log) == multiset{}
  {
    if b != [] {
      if log == [Call(z, b, false, true)] {
        LogOfOne(Call(z, b, false, true));
      } else {
        var rest :| Retries(z, b, rest) && log == [Call(z, b, false, false)] + rest;
        LogOfOne(Call(z, b, false, false));
        RetriesLoseNothing(z, b, rest);
        RejectedWholeAppend([Call(z, b, false, false)], rest);
      }
    }
  }

  lemma {:induction false} PartsLoseNothing(z: string, bs: seq<seq<Change>>, parts: seq<seq<Call>>)
    requires PartsLog(z, bs, parts) && forall k | 0 <= k < |bs| && bs[k] != [] :: !SingleGroup(bs[k])
    ensures RejectedWhole(Concat(parts)) == multiset{}
    decreases |parts|
  {
    if parts != [] {
      BatchLosesNothing(z, bs[0], parts[0]);
      PartsLoseNothing(z, bs[1..], parts[1..]);
      RejectedWholeAppend(parts[0], Concat(parts[1..]));
    }
  }

  /** The API accepts every batch but one. */
  function OneRejected(z: string, bs: seq<seq<Change>>, bad: nat): (parts: seq<seq<Call>>)
    ensures |parts| == |bs|
  {
    seq(|bs|, k requires 0 <= k < |bs| => if bs[k] == [] then [] else [Call(z, bs[k], false, k != bad)])
  }

  lemma {:induction false} GivenUp(log: seq<Call>, c: Call)
    requires c in log && RejectedBy(c) != multiset{}
    ensures RejectedWhole(log) != multiset{}
  {
    if c != log[|log| - 1] {
      GivenUp(log[..|log| - 1], c);
    }
    assert |RejectedWhole(log)| == |RejectedWhole(log[..|log| - 1])| + |RejectedBy(log[|log| - 1])|;
  }

  lemma {:induction false} InConcat<T>(ss: seq<seq<T>>, k: nat, x: T)
    requires k < |ss| && x in ss[k]
    ensures x in Concat(ss)
  {
    if k > 0 { InConcat(ss[1..], k - 1, x); }
  }

  lemma SingleGroupCanBeLost(z: string, bs: seq<seq<Change>>, bad: nat)
    requires bad < |bs| && bs[bad] != [] && SingleGroup(bs[bad])
    ensures PartsLog(z, bs, OneRejected(z, bs, bad))
    ensures RejectedWhole(Concat(OneRejected(z, bs, bad))) != multiset{}
  {
    var parts, c := OneRejected(z, bs, bad), Call(z, bs[bad], false, false);
    assert |multiset(bs[bad])| == |bs[bad]|;
    InConcat(parts, bad, c);
    GivenUp(Concat(parts), c);
  }

  /** For every list of batches: nothing is given up, whatever the API answers, exactly when
      every batch has several groups. */
  lemma NothingGivenUpExactly(z: string, bs: seq<seq<Change>>)
    ensures (forall log :: BatchesLog(z, bs, log) ==> RejectedWhole(log) == multiset{}) <==> SeveralGroupsEach(bs)
  {
    forall k | 0 <= k < |bs| ensures SingleGroup(bs[k]) <==> forall c, d | c in bs[k] && d in bs[k] :: Related(c, d) {
      SingleGroupExactly(bs[k]);
    }
    if SeveralGroupsEach(bs) {
      forall log | BatchesLog(z, bs, log) ensures RejectedWhole(log) == multiset{} {
        var parts :| PartsLog(z, bs, parts) && log == Concat(parts);
        PartsLoseNothing(z, bs, parts);
      }
    } else {
      var bad :| 0 <= bad < |bs| && bs[bad] != [] && SingleGroup(bs[bad]);
      SingleGroupCanBeLost(z, bs, bad);
      assert BatchesLog(z, bs, Concat(OneRejected(z, bs, bad)));
    }
  }

  // ---- the totals of every possible log ----

  lemma BatchTotal(z: string, b: seq<Change>, log: seq<Call>)
    requires NextLog(z, b, log)
    ensures Total(log) == multiset(b)
  {
    if b != [] {
      if log == [Call(z, b, false, true)] {
        OneCall(Call(z, b, false, true));
      } else {
        OneCall(Call(z, b, false, false));
        if !SingleGroup(b) {
          var rest :| Retries(z, b, rest) && log == [Call(z, b, false, false)] + rest;
          LogAppend([Call(z, b, false, false)], rest);
        }
      }
    }
  }

  lemma {:induction false} PartsTotal(z: string, bs: seq<seq<Change>>, parts: seq<seq<Call>>)
    requires PartsLog(z, bs, parts)
    ensures Total(Concat(parts)) == multiset(Concat(bs))
    decreases |bs|
  {
    if bs != [] {
      BatchTotal(z, bs[0], parts[0]);
      PartsTotal(z, bs[1..], parts[1..]);
      LogAppend(parts[0], Concat(parts[1..]));
    }
  }

  lemma ZoneTotal(l: Limits, z: string, cs: seq<Change>, queue: seq<Change>,
                  batches: seq<seq<Change>>, again: seq<seq<Change>>, log: seq<Call>)
    requires IsBatching(l, Filter(NotInQueue(queue), cs), batches)
    requires IsBatching(l, Filter(InQueue(queue), cs), again)
    requires BatchesLog(z, batches + again, log)
    ensures Total(log) == Survivors(l, cs, queue)
  {
    var parts :| PartsLog(z, batches + again, parts) && log == Concat(parts);
    PartsTotal(z, batches + again, parts);
    ConcatAppend(batches, again);
    BatchingConserves(l, Filter(NotInQueue(queue), cs), batches);
    BatchingConserves(l, Filter(InQueue(queue), cs), again);
  }

  /** Before the first call: the queue will hold every change that is not accepted, whatever
      the API answers, exactly when no batch of the zone is a single group. */
  lemma QueueAlwaysCompleteExactly(l: Limits, z: string, cs: seq<Change>, queue: seq<Change>,
                                   batches: seq<seq<Change>>, again: seq<seq<Change>>)
    requires IsBatching(l, Filter(NotInQueue(queue), cs), batches)
    requires IsBatching(l, Filter(InQueue(queue), cs), again)
    ensures (forall log :: BatchesLog(z, batches + again, log) ==> QueueComplete(l, cs, queue, log, RejectedGroups(log)))
            <==> SeveralGroupsEach(batches + again)
  {
    forall log | BatchesLog(z, batches + again, log)
      ensures QueueComplete(l, cs, queue, log, RejectedGroups(log)) <==> RejectedWhole(log) == multiset{}
    {
      ZoneTotal(l, z, cs, queue, batches, again, log);
      CompleteByTotal(l, cs, queue, log);
    }
    NothingGivenUpExactly(z, batches + again);
  }

  lemma CompleteByTotal(l: Limits, cs: seq<Change>, queue: seq<Change>, log: seq<Call>)
    requires Total(log) == Survivors(l, cs, queue)
    ensures QueueComplete(l, cs, queue, log, RejectedGroups(log)) <==> RejectedWhole(log) == multiset{}
  {
    var q := multiset(RejectedGroups(log));
    assert Survivors(l, cs, queue) - Accepted(log) == q + RejectedWhole(log);
    if q + RejectedWhole(log) == q {
      assert |q + RejectedWhole(log)| == |q| + |RejectedWhole(log)|;
    }
  }

  // ---- what travels together ----

  /** Related changes of a zone that are both new or both retried are in the same calls. */
  lemma RelatedTravelTogether(l: Limits, z: string, cs: seq<Change>, queue: seq<Change>, log: seq<Call>,
                              queue': seq<Change>, failed: bool, call: Call, c: Change, d: Change)
    requires ZoneAccounted(l, z, cs, queue, log, queue', failed) && call in log
    requires c in cs && d in cs && Related(c, d) && (c in queue <==> d in queue)
    ensures c in call.changes <==> d in call.changes
  {
    hide GroupKey, Related, WholeGroups;
    SameKeyExactly(c, d);
    var new_, retried := Filter(NotInQueue(queue), cs), Filter(InQueue(queue), cs);
    if WellFormedCall(new_, call.changes) {
      SameCalls(new_, call.changes, c, d);
    } else {
      SameCalls(retried, call.changes, c, d);
    }
  }

  lemma SameCalls(src: seq<Change>, call: seq<Change>, c: Change, d: Change)
    requires WellFormedCall(src, call) && GroupKey(c) == GroupKey(d) && (c in src <==> d in src)
    ensures c in call <==> d in call
  {
    if c in src {
      if c in call { WholeGroupMembers(src, call, c, d); }
      if d in call { WholeGroupMembers(src, call, d, c); }
    } else {
      CalledFromSource(src, call, c);
      CalledFromSource(src, call, d);
    }
  }

  /** A call of the group-by-group fallback carries related changes only. */
  lemma FallbackCallsAreRelated(l: Limits, z: string, cs: seq<Change>, queue: seq<Change>, log: seq<Call>,
                                call: Call, c: Change, d: Change)
    requires ZoneLog(l, z, cs, queue, log) && call in log && call.fallback
    requires c in call.changes && d in call.changes
    ensures Related(c, d)
  {
    hide GroupKey, Related, IsBatching;
    var batches, again :| IsBatching(l, Filter(NotInQueue(queue), cs), batches)
      && IsBatching(l, Filter(InQueue(queue), cs), again) && BatchesLog(z, batches + again, log);
    var bs := batches + again;
    var parts :| PartsLog(z, bs, parts) && log == Concat(parts);
    InSomePart(parts, call);
    var k :| 0 <= k < |parts| && call in parts[k];
    FallbackOfOneGroup(z, bs[k], parts[k], call, c, d);
    SameKeyExactly(c, d);
  }

  lemma {:induction false} InSomePart<T>(parts: seq<seq<T>>, x: T)
    requires x in Concat(parts)
    ensures exists k :: 0 <= k < |parts| && x in parts[k]
  {
    if x in parts[0] {
    } else {
      InSomePart(parts[1..], x);
      var k :| 0 <= k < |parts[1..]| && x in parts[1..][k];
      assert x in parts[k + 1];
    }
  }

  lemma FallbackOfOneGroup(z: string, b: seq<Change>, part: seq<Call>, call: Call, c: Change, d: Change)
    requires NextLog(z, b, part) && call in part && call.fallback && c in call.changes && d in call.changes
    ensures GroupKey(c) == GroupKey(d)
  {
    assert b != [];
    var rest :| Retries(z, b, rest) && part == [Call(z, b, false, false)] + rest;
    assert call in rest;
    var g :| call.changes == Filter(InGroup(g), b);
    assert InGroup(g)(c) && InGroup(g)(d);
  }

  /** Position j of the joined parts lies in some part, i places behind its start. */
  lemma {:induction false} PartOf<T>(parts: seq<seq<T>>, j: nat) returns (p: nat, i: nat)
    requires j < |Concat(parts)|
    ensures p < |parts| && i < |parts[p]| && i <= j
    ensures Concat(parts)[j] == parts[p][i] && Concat(parts)[j - i] == parts[p][0]
  {
    if j < |parts[0]| {
      return 0, j;
    }
    p, i := PartOf(parts[1..], j - |parts[0]|);
    p := p + 1;
  }

  lemma FallbackInPart(z: string, b: seq<Change>, part: seq<Call>, i: nat)
    requires NextLog(z, b, part) && i < |part| && part[i].fallback
    ensures i > 0 && part[0] == Call(z, b, false, false)
    ensures forall c | c in part[i].changes :: c in b
  {
    hide GroupKey, Total, SingleGroup;
    var rest :| Retries(z, b, rest) && part == [Call(z, b, false, false)] + rest;
    assert part[i] == rest[i - 1] && rest[i - 1] in rest;
    var g :| part[i].changes == Filter(InGroup(g), b);
  }

  /** The group-by-group fallback only follows the rejection of a batch as a whole, and tries
      nothing that was not in that batch. */
  lemma FallbackFollowsRejection(l: Limits, z: string, cs: seq<Change>, queue: seq<Change>, log: seq<Call>, j: nat)
    returns (k: nat)
    requires ZoneLog(l, z, cs, queue, log) && j < |log| && log[j].fallback
    ensures k < j && !log[k].fallback && !log[k].accepted
    ensures forall c | c in log[j].changes :: c in log[k].changes
  {
    hide IsBatching, NextLog;
    var batches, again :| IsBatching(l, Filter(NotInQueue(queue), cs), batches)
      && IsBatching(l, Filter(InQueue(queue), cs), again) && BatchesLog(z, batches + again, log);
    var parts :| PartsLog(z, batches + again, parts) && log == Concat(parts);
    var p, i := PartOf(parts, j);
    FallbackInPart(z, (batches + again)[p], parts[p], i);
    k := j - i;
  }

  lemma FilterFits(l: Limits, p: Change -> bool, b: seq<Change>)
    requires Fits(l, b)
    ensures Fits(l, Filter(p, b))
  {
    SubMultisetFilter(p, b);
    CountsMonotone(Filter(p, b), b);
  }

  lemma NextLogFits(l: Limits, z: string, b: seq<Change>, log: seq<Call>, call: Call)
    requires NextLog(z, b, log) && call in log && Fits(l, b)
    ensures Fits(l, call.changes)
  {
    hide Fits, Total;
    if call.changes != b {
      var rest :| Retries(z, b, rest) && log == [Call(z, b, false, false)] + rest;
      assert call in rest;
      var g :| call.changes == Filter(InGroup(g), b);
      FilterFits(l, InGroup(g), b);
    }
  }

  /** Every call of a zone stays within the three limits, retries included. */
  lemma CallsWithinLimits(l: Limits, z: string, cs: seq<Change>, queue: seq<Change>, log: seq<Call>, call: Call)
    requires ZoneLog(l, z, cs, queue, log) && call in log
    ensures |call.changes| <= l.size
    ensures Sum((c: Change) => c.sizeBytes, call.changes) <= l.bytes
    ensures Sum((c: Change) => c.sizeValues, call.changes) <= l.values
  {
    hide IsBatching, NextLog;
    var new_, retried := Filter(NotInQueue(queue), cs), Filter(InQueue(queue), cs);
    var batches, again :| IsBatching(l, new_, batches) && IsBatching(l, retried, again) && BatchesLog(z, batches + again, log);
    var bs := batches + again;
    var parts :| PartsLog(z, bs, parts) && log == Concat(parts);
    InSomePart(parts, call);
    var k :| 0 <= k < |parts| && call in parts[k];
    if k < |batches| { BatchingAtomic(l, new_, batches, bs[k]); } else { BatchingAtomic(l, retried, again, bs[k]); }
    NextLogFits(l, z, bs[k], parts[k], call);
    CountsAreSums(call.changes);
  }

  lemma OneChangeSorted(c: Change)
    ensures SortChanges([c]) == [c] && SortChanges([]) == []
    ensures WellFormedCall([c], [c])
  {
    assert SortChanges([c])[0] in SortChanges([c]);
    FilterEverything(InGroup(GroupKey(c)), [c]);
  }

  lemma OneChangeBatches(l: Limits, c: Change)
    requires Fits(l, [c])
    ensures Filter(NotInQueue([]), [c]) == [c] && Filter(InQueue([]), [c]) == []
    ensures IsBatching(l, [c], [[c]]) && IsBatching(l, [], [[]])
  {
    hide SortChanges, NamesOf, GroupsOf, Fits, Pack, SortEach;
    OneChangeIsNew(c);
    OneChangeSorted(c);
    assert Fits(l, []) by { FitsPart(l, [], [c]); assert [] + [c] == [c]; }
  }

  lemma OneChangeIsNew(c: Change)
    ensures Filter(NotInQueue([]), [c]) == [c] && Filter(InQueue([]), [c]) == []
  {
    FilterEverything(NotInQueue([]), [c]);
    FilterEmpty(InQueue([]), [c]);
  }

  lemma OneChangeLog(z: string, c: Change)
    ensures BatchesLog(z, [[c]] + [[]], [Call(z, [c], false, false)])
  {
    var log := [Call(z, [c], false, false)];
    var parts := [log] + [[]];
    ConcatSnoc([log], []);
    ConcatSnoc([], log);
    assert [] + [log] == [log];
    assert PartsLog(z, [[c]] + [[]], parts);
  }

  /** The smallest case: one change that fits and is rejected makes the zone fail, and the
      queue stays empty. */
  lemma RejectedChangeNotQueued(l: Limits, z: string, c: Change)
    requires Fits(l, [c])
    ensures ZoneLog(l, z, [c], [], [Call(z, [c], false, false)])
    ensures ZoneAccounted(l, z, [c], [], [Call(z, [c], false, false)], [], true)
    ensures !QueueComplete(l, [c], [], [Call(z, [c], false, false)], [])
  {
    var call := Call(z, [c], false, false);
    OneChangeBatches(l, c);
    OneChangeLog(z, c);
    ZoneTotal(l, z, [c], [], [[c]], [[]], [call]);
    LogOfOne(call);
    OneChangeSorted(c);
    CompleteByTotal(l, [c], [], [call]);
  }
}

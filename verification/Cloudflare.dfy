/** A Cloudflare zone and what record changes do to it: records by ID, the lookup table from
    name, type and content to ID, and the effect of a run of single operations
    (provider/cloudflare/cloudflare.go). */
module Cloudflare {
  import opened Wrappers
  import opened Sorting

  /** One DNS record of a zone; Cloudflare keeps one record per target. */
  datatype DnsRecord = DnsRecord(
    name: string, recordType: string, content: string, ttl: int, proxied: bool, priority: int)

  datatype Index = Index(name: string, recordType: string, content: string)

  function IndexOf(r: DnsRecord): Index {
    Index(r.name, r.recordType, r.content)
  }

  type Id = nat

  /** A zone: its records by ID, and the next ID the server will hand out. */
  datatype Zone = Zone(records: map<Id, DnsRecord>, next: Id)

  /** The lookup table read before submitting: index to record ID. */
  type RecordsMap = map<Index, Id>

  datatype Action = Create | Delete | Update

  datatype Change = Change(action: Action, record: DnsRecord)

  // ---- what single operations do to a zone ----

  datatype Op = Del(id: Id) | Put(id: Id, record: DnsRecord) | Post(record: DnsRecord)

  function Step(z: Zone, op: Op): Zone {
    match op
    case Del(id) => z.(records := z.records - {id})
    case Put(id, r) => if id in z.records then z.(records := z.records[id := r]) else z
    case Post(r) => Zone(z.records[z.next := r], z.next + 1)
  }

  function Steps(z: Zone, ops: seq<Op>): Zone {
    if ops == [] then z else Step(Steps(z, ops[..|ops| - 1]), ops[|ops| - 1])
  }

  lemma {:induction false} StepsAppend(z: Zone, a: seq<Op>, b: seq<Op>)
    ensures Steps(z, a + b) == Steps(Steps(z, a), b)
    decreases |b|
  {
    if b == [] {
      assert a + b == a;
    } else {
      StepsAppend(z, a, b[..|b| - 1]);
      assert (a + b)[..|a + b| - 1] == a + b[..|b| - 1];
    }
  }

  // ---- what a zone says about an index ----

  /** No two records agree on name, type and content, and IDs are handed out in order. */
  ghost predicate WellFormed(z: Zone) {
    && (forall a, b | a in z.records && b in z.records && IndexOf(z.records[a]) == IndexOf(z.records[b]) :: a == b)
    && (forall a | a in z.records :: a < z.next)
  }

  ghost predicate At(z: Zone, ix: Index, id: Id) {
    id in z.records && IndexOf(z.records[id]) == ix
  }

  ghost function View(z: Zone, ix: Index): Option<DnsRecord> {
    if exists id :: At(z, ix, id) then
      var id :| At(z, ix, id);
      Some(z.records[id])
    else None
  }

  lemma ViewIs(z: Zone, ix: Index, id: Id)
    requires WellFormed(z) && At(z, ix, id)
    ensures View(z, ix) == Some(z.records[id])
  {
  }

  /** The lookup table describes the zone. */
  ghost predicate Describes(records: RecordsMap, z: Zone) {
    forall ix :: if ix in records then At(z, ix, records[ix]) else View(z, ix) == None
  }

  /** getDNSRecordsMap, as far as lookups see it. */
  ghost predicate IsRecordsMap(records: RecordsMap, z: Zone) {
    WellFormed(z) && Describes(records, z)
  }

  // ---- changes as operations ----

  /** The operation a change stands for; without a record to act on there is none. */
  function OpOf(records: RecordsMap, c: Change): Option<Op> {
    var ix := IndexOf(c.record);
    match c.action
    case Create => Some(Post(c.record))
    case Delete => if ix in records then Some(Del(records[ix])) else None
    case Update => if ix in records then Some(Put(records[ix], c.record)) else None
  }

  function OpsOf(records: RecordsMap, cs: seq<Change>): seq<Op> {
    if cs == [] then []
    else
      var o := OpOf(records, cs[|cs| - 1]);
      OpsOf(records, cs[..|cs| - 1]) + if o.Some? then [o.value] else []
  }

  lemma OpsOfSnoc(records: RecordsMap, cs: seq<Change>, c: Change)
    ensures OpsOf(records, cs + [c]) == OpsOf(records, cs) + if OpOf(records, c).Some? then [OpOf(records, c).value] else []
  {
    assert (cs + [c])[..|cs|] == cs;
  }

  lemma {:induction false} OpsOfAppend(records: RecordsMap, a: seq<Change>, b: seq<Change>)
    ensures OpsOf(records, a + b) == OpsOf(records, a) + OpsOf(records, b)
    decreases |b|
  {
    if b == [] {
      assert a + b == a;
    } else {
      OpsOfAppend(records, a, b[..|b| - 1]);
      assert (a + b)[..|a + b| - 1] == a + b[..|b| - 1];
    }
  }

  /** What a change wants its index to hold. */
  function Effect(c: Change): Option<DnsRecord> {
    if c.action == Delete then None else Some(c.record)
  }

  /** One change makes room for the other at the same index. */
  predicate Replaces(a: Change, b: Change) {
    a.action == Delete && b.action == Create
  }

  /** A change among cs fits the zone: creates are new or made room for, deletes and updates
      have a record. */
  ghost predicate Applicable(records: RecordsMap, cs: seq<Change>, c: Change) {
    var ix := IndexOf(c.record);
    if c.action == Create then ix in records ==> exists d | d in cs :: d.action == Delete && IndexOf(d.record) == ix
    else ix in records
  }

  ghost predicate AllApplicable(records: RecordsMap, cs: seq<Change>) {
    forall c | c in cs :: Applicable(records, cs, c)
  }

  /** No index is touched twice, except by a delete and a create. */
  ghost predicate Unambiguous(cs: seq<Change>) {
    && (forall a, b | a in cs && b in cs && a != b && IndexOf(a.record) == IndexOf(b.record) :: Replaces(a, b) || Replaces(b, a))
    && (forall c :: multiset(cs)[c] <= 1)
  }

  /** Deletes come before creates. */
  ghost predicate DeletesFirst(cs: seq<Change>) {
    forall j, k | 0 <= j < k < |cs| :: !Replaces(cs[k], cs[j])
  }

  ghost predicate Touches(cs: seq<Change>, ix: Index) {
    exists c | c in cs :: IndexOf(c.record) == ix
  }

  /** After the changes cs, c finds what it needs: a create a free index, the others the
      record that was looked up. */
  ghost predicate FitsAfter(records: RecordsMap, cs: seq<Change>, c: Change) {
    var ix := IndexOf(c.record);
    if c.action == Create then
      (ix in records ==> Touches(cs, ix)) && forall d | d in cs && IndexOf(d.record) == ix :: d.action == Delete
    else ix in records && !Touches(cs, ix)
  }

  ghost predicate FitsInOrder(records: RecordsMap, cs: seq<Change>) {
    forall k | 0 <= k < |cs| :: FitsAfter(records, cs[..k], cs[k])
  }

  /** What ix holds after the changes: the last one that touches it decides. */
  ghost function Expected(cs: seq<Change>, before: Option<DnsRecord>, ix: Index): Option<DnsRecord> {
    if cs == [] then before
    else if IndexOf(cs[|cs| - 1].record) == ix then Effect(cs[|cs| - 1])
    else Expected(cs[..|cs| - 1], before, ix)
  }

  lemma {:induction false} ExpectedUntouched(cs: seq<Change>, before: Option<DnsRecord>, ix: Index)
    requires !Touches(cs, ix)
    ensures Expected(cs, before, ix) == before
  {
    if cs != [] {
      assert cs[|cs| - 1] in cs;
      ExpectedUntouched(cs[..|cs| - 1], before, ix);
    }
  }

  /** Of an index that only deletes touch, nothing is left. */
  lemma {:induction false} ExpectedDeleted(cs: seq<Change>, before: Option<DnsRecord>, ix: Index)
    requires before == None || Touches(cs, ix)
    requires forall d | d in cs && IndexOf(d.record) == ix :: d.action == Delete
    ensures Expected(cs, before, ix) == None
  {
    if cs != [] {
      var last := cs[|cs| - 1];
      assert last in cs;
      if IndexOf(last.record) != ix {
        assert Touches(cs, ix) ==> Touches(cs[..|cs| - 1], ix) by { TouchedBefore(cs, ix); }
        ExpectedDeleted(cs[..|cs| - 1], before, ix);
      }
    }
  }

  lemma TouchedBefore(cs: seq<Change>, ix: Index)
    requires cs != [] && IndexOf(cs[|cs| - 1].record) != ix
    ensures Touches(cs, ix) <==> Touches(cs[..|cs| - 1], ix)
  {
    assert cs == cs[..|cs| - 1] + [cs[|cs| - 1]];
  }

  /** A create or an update that nothing later undoes decides what its index holds. */
  lemma {:induction false} ExpectedPut(cs: seq<Change>, before: Option<DnsRecord>, c: Change)
    requires c in cs && c.action != Delete && Unambiguous(cs) && DeletesFirst(cs)
    ensures Expected(cs, before, IndexOf(c.record)) == Some(c.record)
  {
    var last := cs[|cs| - 1];
    assert last in cs;
    var k :| 0 <= k < |cs| && cs[k] == c;
    if last != c {
      assert IndexOf(last.record) != IndexOf(c.record) by { assert !Replaces(last, c); }
      UnambiguousPrefix(cs);
      assert c in cs[..|cs| - 1] by { assert cs[..|cs| - 1][k] == c; }
      ExpectedPut(cs[..|cs| - 1], before, c);
    }
  }

  lemma UnambiguousPrefix(cs: seq<Change>)
    requires Unambiguous(cs) && cs != []
    ensures Unambiguous(cs[..|cs| - 1])
    ensures cs[|cs| - 1] !in cs[..|cs| - 1]
  {
    var init, last := cs[..|cs| - 1], cs[|cs| - 1];
    assert cs == init + [last];
    assert multiset(cs)[last] <= 1;
    forall c ensures multiset(init)[c] <= 1 {
      assert multiset(cs)[c] <= 1;
    }
    assert multiset(init)[last] == 0;
  }

  /** Applied with the deletes first, unambiguous changes each find what they need. */
  lemma UnambiguousFits(records: RecordsMap, cs: seq<Change>)
    requires Unambiguous(cs) && DeletesFirst(cs) && AllApplicable(records, cs)
    ensures FitsInOrder(records, cs)
  {
    forall k | 0 <= k < |cs| ensures FitsAfter(records, cs[..k], cs[k]) {
      UnambiguousFitsAt(records, cs, k);
    }
  }

  lemma UnambiguousFitsAt(records: RecordsMap, cs: seq<Change>, k: nat)
    requires Unambiguous(cs) && DeletesFirst(cs) && AllApplicable(records, cs) && k < |cs|
    ensures FitsAfter(records, cs[..k], cs[k])
  {
    var c := cs[k];
    var ix := IndexOf(c.record);
    forall d | d in cs[..k] && IndexOf(d.record) == ix ensures Replaces(d, c) {
      var j :| 0 <= j < k && cs[..k][j] == d;
      assert cs[j] == d && d in cs && !Replaces(c, d);
      OncePlaced(cs, j, k);
    }
    assert Applicable(records, cs, c);
    if c.action == Create && ix in records {
      var d :| d in cs && d.action == Delete && IndexOf(d.record) == ix;
      var j :| 0 <= j < |cs| && cs[j] == d;
      assert Replaces(d, c);
      assert j < k;
      assert cs[..k][j] == d;
    }
  }

  /** A change that occurs once stands at one position. */
  lemma {:induction false} OncePlaced(cs: seq<Change>, j: nat, k: nat)
    requires Unambiguous(cs) && j < k < |cs|
    ensures cs[j] != cs[k]
  {
    UnambiguousPrefix(cs);
    if k < |cs| - 1 {
      OncePlaced(cs[..|cs| - 1], j, k);
    } else {
      assert cs[..|cs| - 1][j] in cs[..|cs| - 1];
    }
  }

  // ---- one operation ----

  ghost predicate OpFits(z: Zone, op: Op, target: Index) {
    match op
    case Del(id) => At(z, target, id)
    case Put(id, r) => At(z, target, id) && IndexOf(r) == target
    case Post(r) => IndexOf(r) == target && View(z, target) == None
  }

  lemma StepWellFormed(z: Zone, op: Op, target: Index)
    requires WellFormed(z) && OpFits(z, op, target)
    ensures WellFormed(Step(z, op))
  {
    var z' := Step(z, op);
    if op.Post? {
      forall a, b | a in z'.records && b in z'.records && IndexOf(z'.records[a]) == IndexOf(z'.records[b])
        ensures a == b
      {
        if a != b {
          var other := if a == z.next then b else a;
          assert At(z, IndexOf(z.records[other]), other);
        }
      }
    }
  }

  lemma StepElsewhere(z: Zone, op: Op, ix: Index, target: Index)
    requires WellFormed(z) && OpFits(z, op, target) && ix != target
    ensures forall id :: At(Step(z, op), ix, id) <==> At(z, ix, id)
    ensures View(Step(z, op), ix) == View(z, ix)
  {
    StepWellFormed(z, op, target);
    var z' := Step(z, op);
    assert forall id :: At(z', ix, id) <==> At(z, ix, id);
    if id :| At(z, ix, id) {
      assert At(z', ix, id);
      ViewIs(z, ix, id);
      ViewIs(z', ix, id);
    }
  }

  lemma StepAtTarget(z: Zone, op: Op, target: Index)
    requires WellFormed(z) && OpFits(z, op, target)
    ensures View(Step(z, op), target) == match op case Del(_) => None case Put(_, r) => Some(r) case Post(r) => Some(r)
  {
    StepWellFormed(z, op, target);
    var z' := Step(z, op);
    match op
    case Del(id) =>
      forall i ensures !At(z', target, i) {
        assert At(z', target, i) ==> At(z, target, i);
      }
    case Put(id, r) =>
      ViewIs(z', target, id);
    case Post(r) =>
      ViewIs(z', target, z.next);
  }

  /** Applying changes each of which finds what it needs puts every index into the state that
      the last change touching it asks for, and leaves every other index alone. Record IDs
      looked up before the first call stay right throughout. */
  lemma {:induction false} StepsEffect(z: Zone, records: RecordsMap, cs: seq<Change>, ix: Index)
    requires IsRecordsMap(records, z) && FitsInOrder(records, cs)
    ensures WellFormed(Steps(z, OpsOf(records, cs)))
    ensures View(Steps(z, OpsOf(records, cs)), ix) == Expected(cs, View(z, ix), ix)
    ensures !Touches(cs, ix) ==> forall id :: At(Steps(z, OpsOf(records, cs)), ix, id) <==> At(z, ix, id)
    decreases |cs|
  {
    if cs != [] {
      var init, last := cs[..|cs| - 1], cs[|cs| - 1];
      var target := IndexOf(last.record);
      FitsInOrderPrefix(records, cs);
      StepsEffect(z, records, init, target);
      StepsEffect(z, records, init, ix);
      var z1, op := Steps(z, OpsOf(records, init)), OpOf(records, last).value;
      StepsSnoc(z, records, init, last);
      LastFits(z, records, init, last, z1);
      StepWellFormed(z1, op, target);
      if ix == target {
        assert last in cs;
        StepAtTarget(z1, op, target);
      } else {
        TouchedBefore(cs, ix);
        StepElsewhere(z1, op, ix, target);
      }
    }
  }

  lemma FitsInOrderPrefix(records: RecordsMap, cs: seq<Change>)
    requires FitsInOrder(records, cs) && cs != []
    ensures FitsInOrder(records, cs[..|cs| - 1]) && FitsAfter(records, cs[..|cs| - 1], cs[|cs| - 1])
  {
    var init := cs[..|cs| - 1];
    forall k | 0 <= k < |init| ensures FitsAfter(records, init[..k], init[k]) {
      assert init[..k] == cs[..k];
    }
  }

  lemma StepsSnoc(z: Zone, records: RecordsMap, init: seq<Change>, last: Change)
    requires OpOf(records, last).Some?
    ensures Steps(z, OpsOf(records, init + [last])) == Step(Steps(z, OpsOf(records, init)), OpOf(records, last).value)
  {
    var op := OpOf(records, last).value;
    OpsOfSnoc(records, init, last);
    assert (OpsOf(records, init) + [op])[..|OpsOf(records, init)|] == OpsOf(records, init);
  }

  lemma LastFits(z: Zone, records: RecordsMap, init: seq<Change>, last: Change, z1: Zone)
    requires IsRecordsMap(records, z) && FitsAfter(records, init, last)
    requires var target := IndexOf(last.record);
             && View(z1, target) == Expected(init, View(z, target), target)
             && (!Touches(init, target) ==> forall id :: At(z1, target, id) <==> At(z, target, id))
    ensures OpOf(records, last).Some? && OpFits(z1, OpOf(records, last).value, IndexOf(last.record))
  {
    var target := IndexOf(last.record);
    if last.action == Create {
      ExpectedDeleted(init, View(z, target), target);
    } else {
      assert At(z, target, records[target]);
    }
  }
}

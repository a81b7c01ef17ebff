/** Turning plan updates into Route 53 changes: an UPSERT where Route 53 allows it, a
    DELETE/CREATE pair where it does not (provider/aws/aws.go). */
module Route53Updates {
  import opened Wrappers
  import opened Sorting
  import opened Records
  import opened Route53
  import opened Route53Submit

  const OWNED_RECORD_LABEL := "ownedRecord"

  const POLICY_PROPERTIES := [
    "aws/weight", "aws/region", "aws/failover", "aws/failover",
    "aws/geolocation-continent-code", "aws/geolocation-country-code", "aws/geolocation-subdivision-code"]

  function ValueOf(o: Option<string>): string {
    if o.Some? then o.value else ""
  }

  /** requiresDeleteCreate. */
  predicate RequiresDeleteCreate(o: Record, n: Record) {
    || o.recordType != n.recordType
    || (o.recordType == "A" && ValueOf(FirstProperty(o.providerSpecific, "alias")) != ValueOf(FirstProperty(n.providerSpecific, "alias")))
    || o.setIdentifier != n.setIdentifier
    || exists p | p in POLICY_PROPERTIES ::
         FirstProperty(o.providerSpecific, p).Some? != FirstProperty(n.providerSpecific, p).Some?
  }

  ghost predicate HasProperty(r: Record, name: string) {
    exists p | p in r.providerSpecific :: p.name == name
  }

  /** The first alias property of the record has this value. */
  ghost predicate AliasIs(r: Record, v: string) {
    exists k: nat :: FirstNamedAt(r.providerSpecific, "alias", k) && r.providerSpecific[k].value == v
  }

  /** Route 53 can turn o into n in place: type and set identifier stay, an A record stays an
      alias or none, and no routing property comes or goes. */
  ghost predicate CanUpsert(o: Record, n: Record) {
    && o.recordType == n.recordType && o.setIdentifier == n.setIdentifier
    && (o.recordType == "A" ==> forall v | v != "" :: AliasIs(o, v) <==> AliasIs(n, v))
    && (HasProperty(o, "aws/weight") <==> HasProperty(n, "aws/weight"))
    && (HasProperty(o, "aws/region") <==> HasProperty(n, "aws/region"))
    && (HasProperty(o, "aws/failover") <==> HasProperty(n, "aws/failover"))
    && (HasProperty(o, "aws/geolocation-continent-code") <==> HasProperty(n, "aws/geolocation-continent-code"))
    && (HasProperty(o, "aws/geolocation-country-code") <==> HasProperty(n, "aws/geolocation-country-code"))
    && (HasProperty(o, "aws/geolocation-subdivision-code") <==> HasProperty(n, "aws/geolocation-subdivision-code"))
  }

  lemma SamePolicies(o: Record, n: Record)
    ensures (forall p | p in POLICY_PROPERTIES ::
               FirstProperty(o.providerSpecific, p).Some? == FirstProperty(n.providerSpecific, p).Some?)
            <==> && (HasProperty(o, "aws/weight") <==> HasProperty(n, "aws/weight"))
                 && (HasProperty(o, "aws/region") <==> HasProperty(n, "aws/region"))
                 && (HasProperty(o, "aws/failover") <==> HasProperty(n, "aws/failover"))
                 && (HasProperty(o, "aws/geolocation-continent-code") <==> HasProperty(n, "aws/geolocation-continent-code"))
                 && (HasProperty(o, "aws/geolocation-country-code") <==> HasProperty(n, "aws/geolocation-country-code"))
                 && (HasProperty(o, "aws/geolocation-subdivision-code") <==> HasProperty(n, "aws/geolocation-subdivision-code"))
  {
    hide HasProperty, FirstProperty;
    forall p ensures FirstProperty(o.providerSpecific, p).Some? <==> HasProperty(o, p) { HasPropertyExactly(o, p); }
    forall p ensures FirstProperty(n.providerSpecific, p).Some? <==> HasProperty(n, p) { HasPropertyExactly(n, p); }
    var ps := POLICY_PROPERTIES;
    assert ps[0] in ps && ps[1] in ps && ps[2] in ps && ps[4] in ps && ps[5] in ps && ps[6] in ps;
  }

  lemma HasPropertyExactly(r: Record, p: string)
    ensures FirstProperty(r.providerSpecific, p).Some? <==> HasProperty(r, p)
  {
    FirstPropertyExactly(r.providerSpecific, p);
  }

  lemma SameAlias(o: Record, n: Record)
    ensures ValueOf(FirstProperty(o.providerSpecific, "alias")) == ValueOf(FirstProperty(n.providerSpecific, "alias"))
            <==> forall v | v != "" :: AliasIs(o, v) <==> AliasIs(n, v)
  {
    hide FirstProperty;
    var a, b := FirstProperty(o.providerSpecific, "alias"), FirstProperty(n.providerSpecific, "alias");
    AliasExactly(o);
    AliasExactly(n);
    if forall v | v != "" :: AliasIs(o, v) <==> AliasIs(n, v) {
      if ValueOf(a) != "" { assert AliasIs(n, ValueOf(a)); }
      if ValueOf(b) != "" { assert AliasIs(o, ValueOf(b)); }
    }
  }

  lemma AliasExactly(r: Record)
    ensures forall v :: AliasIs(r, v) <==> FirstProperty(r.providerSpecific, "alias") == Some(v)
  {
    FirstPropertyExactly(r.providerSpecific, "alias");
  }

  /** An update needs a delete and a create exactly when Route 53 cannot do it in place. */
  lemma RequiresDeleteCreateExactly(o: Record, n: Record)
    ensures RequiresDeleteCreate(o, n) <==> !CanUpsert(o, n)
  {
    hide HasProperty, FirstProperty, AliasIs, POLICY_PROPERTIES;
    SamePolicies(o, n);
    SameAlias(o, n);
  }

  function TargetBytes(ts: seq<string>): nat {
    if ts == [] then 0 else |ts[0]| + TargetBytes(ts[1..])
  }

  /** newChange, as far as batching looks at the result. An alias record carries one target. */
  function NewChange(id: nat, action: Action, r: Record, isAlias: Record -> bool): Change {
    var targets := if isAlias(r) && r.targets != [] then [r.targets[0]] else r.targets;
    var factor := if action == UPSERT then 2 else 1;
    Change(id, action, r.dnsName, r.recordType,
           if OWNED_RECORD_LABEL in r.labels then r.labels[OWNED_RECORD_LABEL] else "",
           factor * TargetBytes(targets), factor * |targets|)
  }

  lemma {:induction false} BytesAreLength(ts: seq<string>)
    ensures TargetBytes(ts) == |Concat(ts)|
  {
    if ts != [] { BytesAreLength(ts[1..]); }
  }

  /** The change names the record and, for a registry record, the record it belongs to; an alias
      counts one target, and an upsert counts everything twice. */
  lemma NewChangeExactly(id: nat, action: Action, r: Record, isAlias: Record -> bool)
    ensures var c := NewChange(id, action, r, isAlias);
            var ts := if isAlias(r) && r.targets != [] then r.targets[..1] else r.targets;
            && c.id == id && c.action == action && c.name == r.dnsName && c.recordType == r.recordType
            && ("ownedRecord" in r.labels ==> c.ownedRecord == r.labels["ownedRecord"])
            && ("ownedRecord" !in r.labels ==> c.ownedRecord == "")
            && (action != UPSERT ==> c.sizeBytes == |Concat(ts)| && c.sizeValues == |ts|)
            && (action == UPSERT ==> c.sizeBytes == |Concat(ts)| + |Concat(ts)| && c.sizeValues == |ts| + |ts|)
  {
    var ts := if isAlias(r) && r.targets != [] then r.targets[..1] else r.targets;
    assert r.targets != [] ==> r.targets[..1] == [r.targets[0]];
    BytesAreLength(ts);
  }

  function NewChanges(firstId: nat, action: Action, rs: seq<Record>, isAlias: Record -> bool): (r: seq<Change>)
    ensures |r| == |rs|
    ensures forall k | 0 <= k < |rs| :: r[k] == NewChange(firstId + k, action, rs[k], isAlias)
  {
    seq(|rs|, k requires 0 <= k < |rs| => NewChange(firstId + k, action, rs[k], isAlias))
  }

  /** The new records, the old records to delete and the records to upsert, pair by pair. */
  datatype Split = Split(deletes: seq<Record>, creates: seq<Record>, updates: seq<Record>)

  /** The loop of createUpdateChanges over the first n pairs. A new record without an old
      one at its index is skipped. */
  function SplitPairs(news: seq<Record>, olds: seq<Record>, n: nat): Split
    requires n <= |news|
  {
    if n == 0 then Split([], [], [])
    else
      var s := SplitPairs(news, olds, n - 1);
      if n - 1 >= |olds| then s
      else if RequiresDeleteCreate(olds[n - 1], news[n - 1])
      then s.(deletes := s.deletes + [olds[n - 1]], creates := s.creates + [news[n - 1]])
      else s.(updates := s.updates + [news[n - 1]])
  }

  /** Creates, then upserts, then deletes. */
  function Combined(s: Split, firstId: nat, isAlias: Record -> bool): seq<Change> {
    NewChanges(firstId, CREATE, s.creates, isAlias)
    + NewChanges(firstId + |s.creates|, UPSERT, s.updates, isAlias)
    + NewChanges(firstId + |s.creates| + |s.updates|, DELETE, s.deletes, isAlias)
  }

  /** createUpdateChanges. */
  method CreateUpdateChanges(news: seq<Record>, olds: seq<Record>, firstId: nat, isAlias: Record -> bool)
    returns (combined: seq<Change>)
    ensures combined == Combined(SplitPairs(news, olds, |news|), firstId, isAlias)
  {
    hide NewChanges, RequiresDeleteCreate;
    var deletes: seq<Record>, creates: seq<Record>, updates: seq<Record> := [], [], [];
    var i := 0;
    while i < |news|
      invariant 0 <= i <= |news|
      invariant Split(deletes, creates, updates) == SplitPairs(news, olds, i)
    {
      if i < |olds| {
        if RequiresDeleteCreate(olds[i], news[i]) {
          deletes := deletes + [olds[i]];
          creates := creates + [news[i]];
        } else {
          updates := updates + [news[i]];
        }
      }
      i := i + 1;
    }
    combined := NewChanges(firstId, CREATE, creates, isAlias)
                + NewChanges(firstId + |creates|, UPSERT, updates, isAlias)
                + NewChanges(firstId + |creates| + |updates|, DELETE, deletes, isAlias);
  }

  /** o and r are the two halves of one update among the first n that needs replacing. */
  ghost predicate Replaced(news: seq<Record>, olds: seq<Record>, n: nat, o: Record, r: Record)
    requires n <= |news|
  {
    exists j :: 0 <= j < n && j < |olds| && o == olds[j] && r == news[j] && !CanUpsert(olds[j], news[j])
  }

  lemma ReplacedGrows(news: seq<Record>, olds: seq<Record>, n: nat, o: Record, r: Record)
    requires 0 < n <= |news| && Replaced(news, olds, n - 1, o, r)
    ensures Replaced(news, olds, n, o, r)
  {
  }

  /** The replaced pairs keep their pairing: delete k and create k come from one update. */
  lemma {:induction false} SplitKeepsPairs(news: seq<Record>, olds: seq<Record>, n: nat)
    requires n <= |news|
    ensures var s := SplitPairs(news, olds, n);
            && |s.deletes| == |s.creates|
            && forall k | 0 <= k < |s.deletes| :: Replaced(news, olds, n, s.deletes[k], s.creates[k])
  {
    hide RequiresDeleteCreate, CanUpsert;
    if n > 0 {
      if n - 1 < |olds| { RequiresDeleteCreateExactly(olds[n - 1], news[n - 1]); }
      SplitKeepsPairs(news, olds, n - 1);
      var s, before := SplitPairs(news, olds, n), SplitPairs(news, olds, n - 1);
      forall k | 0 <= k < |s.deletes| ensures Replaced(news, olds, n, s.deletes[k], s.creates[k]) {
        if k < |before.deletes| {
          assert s.deletes[k] == before.deletes[k] && s.creates[k] == before.creates[k];
          ReplacedGrows(news, olds, n, before.deletes[k], before.creates[k]);
        } else {
          assert s.deletes[k] == olds[n - 1] && s.creates[k] == news[n - 1];
        }
      }
    }
  }

  ghost predicate PairAt(s: Split, k: nat, o: Record, n: Record) {
    k < |s.deletes| && k < |s.creates| && s.deletes[k] == o && s.creates[k] == n
  }

  lemma SplitGrows(news: seq<Record>, olds: seq<Record>, n: nat)
    requires 0 < n <= |news|
    ensures var s, before := SplitPairs(news, olds, n), SplitPairs(news, olds, n - 1);
            before.deletes <= s.deletes && before.creates <= s.creates && before.updates <= s.updates
  {
  }

  /** Every pair appears: an update that needs it is in deletes and creates at one index,
      any other is upserted. */
  lemma {:induction false} SplitCovers(news: seq<Record>, olds: seq<Record>, n: nat, j: nat)
    requires j < n <= |news| && j < |olds|
    ensures var s := SplitPairs(news, olds, n);
            if !CanUpsert(olds[j], news[j]) then exists k: nat :: PairAt(s, k, olds[j], news[j])
            else news[j] in s.updates
  {
    hide RequiresDeleteCreate, CanUpsert;
    RequiresDeleteCreateExactly(olds[j], news[j]);
    SplitKeepsPairs(news, olds, n - 1);
    SplitGrows(news, olds, n);
    var s, before := SplitPairs(news, olds, n), SplitPairs(news, olds, n - 1);
    if j < n - 1 {
      SplitCovers(news, olds, n - 1, j);
      if !CanUpsert(olds[j], news[j]) {
        var k: nat :| PairAt(before, k, olds[j], news[j]);
        assert PairAt(s, k, olds[j], news[j]);
      }
    } else if !CanUpsert(olds[j], news[j]) {
      assert PairAt(s, |before.deletes|, olds[j], news[j]);
    }
  }

  lemma InOneOfThree<T>(a: seq<T>, b: seq<T>, c: seq<T>, x: T)
    requires x in a || x in c
    ensures x in a + b + c
  {
  }

  lemma CombinedHolds(s: Split, firstId: nat, isAlias: Record -> bool, k: nat)
    requires k < |s.deletes| && k < |s.creates|
    ensures NewChange(firstId + k, CREATE, s.creates[k], isAlias) in Combined(s, firstId, isAlias)
    ensures NewChange(firstId + |s.creates| + |s.updates| + k, DELETE, s.deletes[k], isAlias) in Combined(s, firstId, isAlias)
  {
    hide NewChange;
    var cs := NewChanges(firstId, CREATE, s.creates, isAlias);
    var us := NewChanges(firstId + |s.creates|, UPSERT, s.updates, isAlias);
    var ds := NewChanges(firstId + |s.creates| + |s.updates|, DELETE, s.deletes, isAlias);
    InOneOfThree(cs, us, ds, cs[k]);
    InOneOfThree(cs, us, ds, ds[k]);
  }

  /** d and c are the two changes that update j was turned into. */
  ghost predicate AreHalves(news: seq<Record>, olds: seq<Record>, isAlias: Record -> bool, j: nat, d: Change, c: Change)
    requires j < |news| && j < |olds|
  {
    && d == NewChange(d.id, DELETE, olds[j], isAlias)
    && c == NewChange(c.id, CREATE, news[j], isAlias)
  }

  /** Both halves of every replacement are among the changes createUpdateChanges returns. */
  lemma ReplacementInChanges(news: seq<Record>, olds: seq<Record>, firstId: nat, isAlias: Record -> bool,
                             combined: seq<Change>, j: nat)
    returns (d: Change, c: Change)
    requires j < |news| && j < |olds| && !CanUpsert(olds[j], news[j])
    requires combined == Combined(SplitPairs(news, olds, |news|), firstId, isAlias)
    ensures d in combined && c in combined && AreHalves(news, olds, isAlias, j, d, c)
  {
    SplitCovers(news, olds, |news|, j);
    var s := SplitPairs(news, olds, |news|);
    var k: nat :| PairAt(s, k, olds[j], news[j]);
    CombinedHolds(s, firstId, isAlias, k);
    d := NewChange(firstId + |s.creates| + |s.updates| + k, DELETE, olds[j], isAlias);
    c := NewChange(firstId + k, CREATE, news[j], isAlias);
  }

  /** A call carries both changes, d before c, or neither. */
  ghost predicate CarriesWhole(call: seq<Change>, d: Change, c: Change) {
    && (d in call <==> c in call)
    && forall j, k | 0 <= j < |call| && 0 <= k < |call| && call[j] == d && call[k] == c :: j < k
  }

  lemma CallCarriesWhole(src: seq<Change>, call: seq<Change>, d: Change, c: Change)
    requires WellFormedCall(src, call) && GroupKey(d) == GroupKey(c)
    requires d.action == DELETE && c.action == CREATE && (d in src <==> c in src)
    ensures CarriesWhole(call, d, c)
  {
    if d in src {
      PairTravelsTogether(src, call, d, c);
    } else {
      CalledFromSource(src, call, d);
      CalledFromSource(src, call, c);
    }
  }

  /** The record whose changes go together with those of r: the one it belongs to, or itself. */
  function Owned(r: Record): string {
    if "ownedRecord" in r.labels && r.labels["ownedRecord"] != "" then r.labels["ownedRecord"] else r.dnsName
  }

  predicate SameGroup(o: Record, n: Record) {
    Owned(o) == Owned(n)
  }

  lemma CallsCarryWhole(l: Limits, z: string, cs: seq<Change>, queue: seq<Change>, log: seq<Call>,
                        queue': seq<Change>, failed: bool, d: Change, c: Change)
    requires ZoneAccounted(l, z, cs, queue, log, queue', failed)
    requires d in cs && c in cs && d !in queue && c !in queue
    requires d.action == DELETE && c.action == CREATE && GroupKey(d) == GroupKey(c)
    ensures forall call | call in log :: CarriesWhole(call.changes, d, c)
  {
    hide WellFormedCall, CarriesWhole, GroupKey;
    var new_, retried := Filter(NotInQueue(queue), cs), Filter(InQueue(queue), cs);
    assert d in new_ && c in new_ && d !in retried && c !in retried;
    forall call | call in log ensures CarriesWhole(call.changes, d, c) {
      if WellFormedCall(new_, call.changes) {
        CallCarriesWhole(new_, call.changes, d, c);
      } else {
        CallCarriesWhole(retried, call.changes, d, c);
      }
    }
  }

  /** A replacement is never torn, whatever the API answers: when a zone is submitted with the
      changes made from plan updates, none of which waits in the failed queue, every call in
      the log carries both halves of each replacement within one group, DELETE first, or
      neither. */
  lemma ReplacementTravelsTogether(l: Limits, z: string, cs: seq<Change>, queue: seq<Change>, log: seq<Call>,
                                   queue': seq<Change>, failed: bool,
                                   news: seq<Record>, olds: seq<Record>, firstId: nat, isAlias: Record -> bool, j: nat)
    requires ZoneAccounted(l, z, cs, queue, log, queue', failed)
    requires forall x | x in Combined(SplitPairs(news, olds, |news|), firstId, isAlias) :: x in cs && x !in queue
    requires j < |news| && j < |olds| && !CanUpsert(olds[j], news[j]) && SameGroup(olds[j], news[j])
    ensures exists d, c ::
              && d in cs && c in cs && AreHalves(news, olds, isAlias, j, d, c)
              && forall call | call in log :: CarriesWhole(call.changes, d, c)
  {
    hide Combined, SplitPairs, CanUpsert, CarriesWhole;
    var d, c := ReplacementInChanges(news, olds, firstId, isAlias, Combined(SplitPairs(news, olds, |news|), firstId, isAlias), j);
    CallsCarryWhole(l, z, cs, queue, log, queue', failed, d, c);
    assert d in cs && c in cs && AreHalves(news, olds, isAlias, j, d, c);
  }
}

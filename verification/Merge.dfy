/** Merging endpoints that several objects contribute to one DNS record (endpoint/utils.go). */
module Merge {
  import opened Wrappers
  import opened Sorting
  import opened Strings

  const CNAME := "CNAME"

  /** The value of an endpoint; refs holds the keys of the objects it was derived from. */
  datatype Item = Item(
    dnsName: string, recordType: string, setIdentifier: string, ttl: int, targets: seq<string>, refs: seq<string>)

  datatype Key = Key(dnsName: string, recordType: string, setIdentifier: string, ttl: int, target: string)

  class Endpoint {
    const dnsName: string
    const recordType: string
    const setIdentifier: string
    const ttl: int
    var targets: seq<string>
    var refs: seq<string>

    constructor (v: Item)
      ensures Value() == v
    {
      dnsName, recordType, setIdentifier, ttl := v.dnsName, v.recordType, v.setIdentifier, v.ttl;
      targets, refs := v.targets, v.refs;
    }

    function Value(): Item
      reads this
    {
      Item(dnsName, recordType, setIdentifier, ttl, targets, refs)
    }
  }

  function Values(es: seq<Endpoint>): (r: seq<Item>)
    reads es
    ensures |r| == |es| && forall j | 0 <= j < |es| :: r[j] == es[j].Value()
  {
    seq(|es|, j requires 0 <= j < |es| reads es => es[j].Value())
  }

  /** The key an endpoint merges under; a CNAME without targets is dropped. */
  function KeyOf(v: Item): Option<Key> {
    if v.recordType != CNAME then Some(Key(v.dnsName, v.recordType, v.setIdentifier, v.ttl, ""))
    else if v.targets == [] then None
    else Some(Key(v.dnsName, v.recordType, v.setIdentifier, v.ttl, v.targets[0]))
  }

  function AddRef(refs: seq<string>, ref: string): seq<string> {
    if ref in refs then refs else refs + [ref]
  }

  function AddRefs(refs: seq<string>, more: seq<string>): seq<string> {
    if more == [] then refs else AddRef(AddRefs(refs, more[..|more| - 1]), more[|more| - 1])
  }

  /** slices.Compact: of equal neighbours keep one. */
  function Compact(s: seq<string>): seq<string> {
    if |s| <= 1 then s
    else
      var init := Compact(s[..|s| - 1]);
      if s[|s| - 1] == s[|s| - 2] then init else init + [s[|s| - 1]]
  }

  ghost predicate StrictlySorted(s: seq<string>) {
    forall i, j | 0 <= i < j < |s| :: Less(s[i], s[j])
  }

  // ---- what the items of one key make together ----

  predicate HasKey(vs: seq<Item>, key: Key, n: nat)
    requires n <= |vs|
  {
    exists j | 0 <= j < n :: KeyOf(vs[j]) == Some(key)
  }

  /** The first item of its key. */
  predicate IsFirst(vs: seq<Item>, f: nat)
    requires f < |vs|
  {
    KeyOf(vs[f]).Some? && !HasKey(vs, KeyOf(vs[f]).value, f)
  }

  /** All targets of a key among the first n items, in order. */
  function Targets(vs: seq<Item>, key: Key, n: nat): seq<string>
    requires n <= |vs|
  {
    if n == 0 then []
    else Targets(vs, key, n - 1) + if KeyOf(vs[n - 1]) == Some(key) then vs[n - 1].targets else []
  }

  function Refs(vs: seq<Item>, key: Key, n: nat): seq<string>
    requires n <= |vs|
  {
    if n == 0 then []
    else if KeyOf(vs[n - 1]) != Some(key) then Refs(vs, key, n - 1)
    else if !HasKey(vs, key, n - 1) then vs[n - 1].refs
    else AddRefs(Refs(vs, key, n - 1), vs[n - 1].refs)
  }

  function Union(vs: seq<Item>, key: Key): seq<string> {
    Compact(Sort(Less, Targets(vs, key, |vs|)))
  }

  /** The first item of a key with everything the others of that key add to it. */
  function MergedItem(vs: seq<Item>, f: nat): Item
    requires f < |vs| && KeyOf(vs[f]).Some?
  {
    var key := KeyOf(vs[f]).value;
    vs[f].(targets := Union(vs, key), refs := Refs(vs, key, |vs|))
  }

  // ---- the first loop ----

  /** What the first item of a key has gathered from the first n items. */
  function Gathered(vs: seq<Item>, n: nat, f: nat): Item
    requires n <= |vs| && f < |vs| && KeyOf(vs[f]).Some?
  {
    vs[f].(targets := Targets(vs, KeyOf(vs[f]).value, n), refs := Refs(vs, KeyOf(vs[f]).value, n))
  }

  lemma {:induction false} NothingGathered(vs: seq<Item>, key: Key, n: nat)
    requires n <= |vs| && !HasKey(vs, key, n)
    ensures Targets(vs, key, n) == []
    decreases n
  {
    if n > 0 { NothingGathered(vs, key, n - 1); }
  }

  /** The gathered targets begin with those of the first item; its references are all kept. */
  lemma {:induction false} FirstLeads(vs: seq<Item>, f: nat, n: nat)
    requires f < n <= |vs| && IsFirst(vs, f)
    ensures vs[f].targets <= Targets(vs, KeyOf(vs[f]).value, n)
    ensures forall r | r in vs[f].refs :: r in Refs(vs, KeyOf(vs[f]).value, n)
    decreases n
  {
    var key := KeyOf(vs[f]).value;
    if n == f + 1 {
      NothingGathered(vs, key, f);
    } else {
      FirstLeads(vs, f, n - 1);
      assert HasKey(vs, key, n - 1);
      AddRefsKeeps(Refs(vs, key, n - 1), vs[n - 1].refs);
    }
  }

  lemma {:induction false} AddRefsKeeps(refs: seq<string>, more: seq<string>)
    ensures forall r | r in refs :: r in AddRefs(refs, more)
  {
    if more != [] { AddRefsKeeps(refs, more[..|more| - 1]); }
  }

  lemma {:induction false} AddRefsIdle(refs: seq<string>, more: seq<string>)
    requires forall r | r in more :: r in refs
    ensures AddRefs(refs, more) == refs
  {
    if more != [] { AddRefsIdle(refs, more[..|more| - 1]); }
  }

  /** A list may name one object twice; then it says the same both times. */
  ghost predicate Consistent(vs: seq<Item>, es: seq<Endpoint>)
    requires |vs| == |es|
  {
    forall j, k | 0 <= j < |es| && 0 <= k < |es| && es[j] == es[k] :: vs[j] == vs[k]
  }

  /** The items agree, but for the order and number of their targets behind the first. */
  ghost predicate Alike(a: Item, b: Item) {
    && a == b.(targets := a.targets)
    && (forall t :: t in a.targets <==> t in b.targets)
    && (a.targets == [] <==> b.targets == [])
    && (a.targets != [] ==> a.targets[0] == b.targets[0])
  }

  /** The map holds, for each key seen, the first object of that key. */
  ghost predicate Indexed(vs: seq<Item>, es: seq<Endpoint>, m: map<Key, Endpoint>, firsts: map<Key, nat>, n: nat)
    requires |vs| == |es| && n <= |vs|
  {
    && m.Keys == firsts.Keys
    && (forall k | k in m :: firsts[k] < n && IsFirst(vs, firsts[k]) && KeyOf(vs[firsts[k]]) == Some(k) && m[k] == es[firsts[k]])
    && (forall j | 0 <= j < n && KeyOf(vs[j]).Some? :: KeyOf(vs[j]).value in m)
  }

  /** e is the first object of a key seen among the first n. */
  ghost predicate Leads(vs: seq<Item>, es: seq<Endpoint>, n: nat, e: Endpoint)
    requires |vs| == |es| && n <= |vs|
  {
    exists f | 0 <= f < n :: IsFirst(vs, f) && es[f] == e
  }

  /** The first objects have gathered what their keys saw; all others are as they were. */
  ghost predicate StateIs(vs: seq<Item>, es: seq<Endpoint>, n: nat)
    requires |vs| == |es| && n <= |vs|
    reads es
  {
    && (forall f | 0 <= f < n && IsFirst(vs, f) :: Alike(es[f].Value(), Gathered(vs, n, f)))
    && (forall j | 0 <= j < |es| && !Leads(vs, es, n, es[j]) :: es[j].Value() == vs[j])
  }

  lemma FirstUnique(vs: seq<Item>, f: nat, j: nat)
    requires f < |vs| && j < |vs| && IsFirst(vs, f) && IsFirst(vs, j)
    ensures KeyOf(vs[f]) == KeyOf(vs[j]) ==> f == j
  {
  }

  /** An item that is not the first of its key adds to that first item only. */
  lemma LaterStep(vs: seq<Item>, es: seq<Endpoint>, n: nat)
    requires |vs| == |es| && n < |vs| && !IsFirst(vs, n)
    ensures forall j | 0 <= j < n && IsFirst(vs, j) && KeyOf(vs[j]) != KeyOf(vs[n]) :: Gathered(vs, n + 1, j) == Gathered(vs, n, j)
    ensures forall e :: Leads(vs, es, n + 1, e) <==> Leads(vs, es, n, e)
  {
  }

  lemma FirstStep(vs: seq<Item>, n: nat)
    requires n < |vs| && IsFirst(vs, n)
    ensures forall j | 0 <= j < n && IsFirst(vs, j) :: Gathered(vs, n + 1, j) == Gathered(vs, n, j)
    ensures Gathered(vs, n + 1, n) == vs[n]
  {
    var key := KeyOf(vs[n]).value;
    NothingGathered(vs, key, n);
    forall j | 0 <= j < n && IsFirst(vs, j) ensures Gathered(vs, n + 1, j) == Gathered(vs, n, j) {
      assert KeyOf(vs[j]).value != key;
    }
  }

  lemma JoinStep(vs: seq<Item>, n: nat, f: nat)
    requires f < n < |vs| && IsFirst(vs, f) && KeyOf(vs[n]) == KeyOf(vs[f])
    ensures Gathered(vs, n + 1, f) ==
            Gathered(vs, n, f).(targets := Gathered(vs, n, f).targets + vs[n].targets,
                                refs := AddRefs(Gathered(vs, n, f).refs, vs[n].refs))
  {
    assert HasKey(vs, KeyOf(vs[f]).value, n);
  }

  /** Joining another endpoint, or the same one once more, keeps what the key has gathered. */
  lemma JoinAlike(vs: seq<Item>, n: nat, f: nat, was: Item, added: Item, now: Item)
    requires f < n < |vs| && IsFirst(vs, f) && KeyOf(vs[n]) == KeyOf(vs[f])
    requires Alike(was, Gathered(vs, n, f))
    requires added == vs[n] || (added == was && vs[n] == vs[f])
    requires now == was.(targets := was.targets + added.targets, refs := AddRefs(was.refs, added.refs))
    ensures Alike(now, Gathered(vs, n + 1, f))
  {
    hide KeyOf, Targets, Refs, AddRefs;
    JoinStep(vs, n, f);
    if added != vs[n] {
      var g := Gathered(vs, n, f);
      FirstLeads(vs, f, n);
      assert forall t | t in vs[f].targets :: t in g.targets;
      AddRefsIdle(was.refs, was.refs);
      AddRefsIdle(g.refs, vs[f].refs);
    }
  }

  lemma KeyAlike(vs: seq<Item>, f: nat, n: nat, v: Item)
    requires f < n <= |vs| && IsFirst(vs, f) && Alike(v, Gathered(vs, n, f))
    ensures KeyOf(v) == KeyOf(vs[f])
  {
    hide Targets, Refs, HasKey;
    FirstLeads(vs, f, n);
    var g := Gathered(vs, n, f);
    assert vs[f].targets != [] ==> g.targets[0] == vs[f].targets[0];
  }

  /** The key of an endpoint is what it was, although the endpoint may have gathered targets. */
  lemma KeyStill(vs: seq<Item>, es: seq<Endpoint>, i: nat)
    requires |vs| == |es| && i < |es| && Consistent(vs, es) && StateIs(vs, es, i)
    ensures KeyOf(es[i].Value()) == KeyOf(vs[i])
  {
    if Leads(vs, es, i, es[i]) {
      var f :| 0 <= f < i && IsFirst(vs, f) && es[f] == es[i];
      KeyAlike(vs, f, i, es[f].Value());
    }
  }

  /** Objects that lead different keys are different. */
  lemma LeadersApart(vs: seq<Item>, es: seq<Endpoint>, f: nat, j: nat)
    requires |vs| == |es| && f < |es| && j < |es| && Consistent(vs, es) && IsFirst(vs, f) && IsFirst(vs, j)
    ensures es[f] == es[j] ==> f == j
  {
    if es[f] == es[j] { FirstUnique(vs, f, j); }
  }

  method AppendRefs(e: Endpoint, more: seq<string>)
    modifies e`refs
    ensures e.refs == AddRefs(old(e.refs), more)
  {
    assert more[..0] == [];
    for i := 0 to |more|
      invariant e.refs == AddRefs(old(e.refs), more[..i])
    {
      assert more[..i + 1][..i] == more[..i];
      if more[i] !in e.refs { e.refs := e.refs + [more[i]]; }
    }
    assert more[..|more|] == more;
  }

  /** Append an endpoint to the first one of its key, which may be that endpoint itself. */
  method Join(existing: Endpoint, ep: Endpoint)
    modifies existing`targets, existing`refs
    ensures existing.targets == old(existing.targets) + old(ep.targets)
    ensures existing.refs == AddRefs(old(existing.refs), old(ep.refs))
  {
    existing.targets := existing.targets + ep.targets;
    AppendRefs(existing, ep.refs);
  }

  lemma IndexedAt(vs: seq<Item>, es: seq<Endpoint>, m: map<Key, Endpoint>, firsts: map<Key, nat>, n: nat)
    requires |vs| == |es| && n <= |vs| && Indexed(vs, es, m, firsts, n)
    ensures m.Keys == firsts.Keys
    ensures forall k | k in m ::
              firsts[k] < n && IsFirst(vs, firsts[k]) && KeyOf(vs[firsts[k]]) == Some(k) && m[k] == es[firsts[k]]
  {
  }

  lemma Skipped(vs: seq<Item>, es: seq<Endpoint>, i: nat)
    requires |vs| == |es| && i < |es| && StateIs(vs, es, i) && KeyOf(vs[i]).None?
    ensures StateIs(vs, es, i + 1)
  {
    hide Alike, Gathered;
    LaterStep(vs, es, i);
  }

  lemma IndexedJoin(vs: seq<Item>, es: seq<Endpoint>, m: map<Key, Endpoint>, firsts: map<Key, nat>, n: nat)
    requires |vs| == |es| && n < |vs| && Indexed(vs, es, m, firsts, n)
    requires KeyOf(vs[n]).Some? ==> KeyOf(vs[n]).value in m
    ensures Indexed(vs, es, m, firsts, n + 1)
  {
  }

  lemma IndexedFirst(vs: seq<Item>, es: seq<Endpoint>, m: map<Key, Endpoint>, firsts: map<Key, nat>, n: nat, key: Key)
    requires |vs| == |es| && n < |vs| && Indexed(vs, es, m, firsts, n)
    requires KeyOf(vs[n]) == Some(key) && key !in m
    ensures IsFirst(vs, n)
    ensures Indexed(vs, es, m[key := es[n]], firsts[key := n], n + 1)
  {
  }

  /** The first object of a key takes in the endpoint at position i. */
  method JoinAt(es: seq<Endpoint>, ghost vs: seq<Item>, existing: Endpoint, ghost f: nat, i: nat)
    requires |vs| == |es| && f < i < |es| && Consistent(vs, es) && StateIs(vs, es, i)
    requires IsFirst(vs, f) && existing == es[f] && KeyOf(vs[i]) == KeyOf(vs[f])
    modifies existing
    ensures StateIs(vs, es, i + 1)
  {
    hide Alike, Gathered, Consistent, KeyOf;
    ghost var was, added := existing.Value(), es[i].Value();
    assert Leads(vs, es, i, es[f]);
    assert added == vs[i] || (added == was && vs[i] == vs[f]) by { JoinedFrom(vs, es, f, i); }
    KeyTaken(vs, f, i);
    LaterStep(vs, es, i);
    Join(existing, es[i]);
    JoinAlike(vs, i, f, was, added, existing.Value());
    forall j | 0 <= j < i + 1 && IsFirst(vs, j) ensures Alike(es[j].Value(), Gathered(vs, i + 1, j)) {
      LeadersApart(vs, es, f, j);
      if j != f { FirstUnique(vs, f, j); }
    }
  }

  lemma KeyTaken(vs: seq<Item>, f: nat, i: nat)
    requires f < i < |vs| && IsFirst(vs, f) && KeyOf(vs[i]) == KeyOf(vs[f])
    ensures !IsFirst(vs, i)
  {
  }

  lemma JoinedFrom(vs: seq<Item>, es: seq<Endpoint>, f: nat, i: nat)
    requires |vs| == |es| && f < i < |es| && Consistent(vs, es) && StateIs(vs, es, i)
    requires IsFirst(vs, f) && KeyOf(vs[i]) == KeyOf(vs[f])
    ensures es[i].Value() == vs[i] || (es[i] == es[f] && vs[i] == vs[f])
  {
    if Leads(vs, es, i, es[i]) {
      var g :| 0 <= g < i && IsFirst(vs, g) && es[g] == es[i];
      FirstUnique(vs, f, g);
    }
  }

  /** Filing one endpoint. */
  method File(es: seq<Endpoint>, ghost vs: seq<Item>, m: map<Key, Endpoint>, ghost firsts: map<Key, nat>, i: nat)
    returns (m': map<Key, Endpoint>, ghost firsts': map<Key, nat>)
    requires |vs| == |es| && i < |es| && Consistent(vs, es)
    requires Indexed(vs, es, m, firsts, i) && StateIs(vs, es, i)
    modifies es
    ensures Indexed(vs, es, m', firsts', i + 1) && StateIs(vs, es, i + 1)
  {
    hide Indexed, StateIs, Consistent, IsFirst;
    m', firsts' := m, firsts;
    var ep := es[i];
    var key := KeyOf(ep.Value());
    KeyStill(vs, es, i);
    IndexedAt(vs, es, m, firsts, i);
    if key.None? {
      Skipped(vs, es, i);
      IndexedJoin(vs, es, m, firsts, i);
    } else if key.value in m {
      IndexedJoin(vs, es, m, firsts, i);
      JoinAt(es, vs, m[key.value], firsts[key.value], i);
    } else {
      IndexedFirst(vs, es, m, firsts, i, key.value);
      FirstFiled(vs, es, i);
      m' := m[key.value := ep];
      firsts' := firsts[key.value := i];
    }
  }

  lemma FirstFiled(vs: seq<Item>, es: seq<Endpoint>, i: nat)
    requires |vs| == |es| && i < |es| && Consistent(vs, es) && StateIs(vs, es, i) && IsFirst(vs, i)
    ensures StateIs(vs, es, i + 1)
  {
    FirstStep(vs, i);
    forall f | 0 <= f < i && IsFirst(vs, f) ensures es[f] != es[i] { LeadersApart(vs, es, f, i); }
    forall j | 0 <= j < |es| && !Leads(vs, es, i + 1, es[j]) ensures es[j].Value() == vs[j] {
      LeadsGrows(vs, es, i, es[j]);
    }
  }

  lemma LeadsGrows(vs: seq<Item>, es: seq<Endpoint>, n: nat, e: Endpoint)
    requires |vs| == |es| && n < |vs|
    ensures Leads(vs, es, n, e) ==> Leads(vs, es, n + 1, e)
  {
  }

  /** The first loop: file every endpoint under its key, appending to the first of that key. */
  method Gather(es: seq<Endpoint>, ghost vs: seq<Item>) returns (m: map<Key, Endpoint>, ghost firsts: map<Key, nat>)
    requires |vs| == |es| && Consistent(vs, es) && forall j | 0 <= j < |es| :: es[j].Value() == vs[j]
    modifies es
    ensures Indexed(vs, es, m, firsts, |vs|) && StateIs(vs, es, |vs|)
  {
    m, firsts := map[], map[];
    for i := 0 to |es|
      invariant Indexed(vs, es, m, firsts, i)
      invariant StateIs(vs, es, i)
    {
      m, firsts := File(es, vs, m, firsts, i);
    }
  }

  // ---- the second loop ----

  /** The keys in done have been sorted and compacted as well. */
  ghost predicate FinishedState(vs: seq<Item>, es: seq<Endpoint>, done: set<Key>)
    requires |vs| == |es|
    reads es
  {
    && (forall f | 0 <= f < |es| && IsFirst(vs, f) ::
          if KeyOf(vs[f]).value in done then es[f].Value() == MergedItem(vs, f)
          else Alike(es[f].Value(), Gathered(vs, |vs|, f)))
    && (forall j | 0 <= j < |es| && !Leads(vs, es, |vs|, es[j]) :: es[j].Value() == vs[j])
  }

  /** The result so far: the first objects of the finished keys, each once. */
  ghost predicate Collected(vs: seq<Item>, es: seq<Endpoint>, done: set<Key>, fs: seq<nat>, result: seq<Endpoint>)
    requires |vs| == |es|
  {
    && |result| == |fs|
    && (forall x | 0 <= x < |fs| :: fs[x] < |vs| && IsFirst(vs, fs[x]) && KeyOf(vs[fs[x]]).value in done && result[x] == es[fs[x]])
    && (forall x, y | 0 <= x < y < |fs| :: fs[x] != fs[y])
    && (forall f | 0 <= f < |vs| && IsFirst(vs, f) && KeyOf(vs[f]).value in done :: f in fs)
  }

  lemma CollectedStep(vs: seq<Item>, es: seq<Endpoint>, done: set<Key>, fs: seq<nat>, result: seq<Endpoint>, f: nat)
    requires |vs| == |es| && Collected(vs, es, done, fs, result)
    requires f < |vs| && IsFirst(vs, f) && KeyOf(vs[f]).value !in done
    ensures Collected(vs, es, done + {KeyOf(vs[f]).value}, fs + [f], result + [es[f]])
  {
    forall g | 0 <= g < |vs| && IsFirst(vs, g) && KeyOf(vs[g]).value in done + {KeyOf(vs[f]).value} ensures g in fs + [f] {
      FirstUnique(vs, f, g);
    }
  }

  /** Two strictly increasing sequences with the same members are equal. */
  lemma {:induction false} StrictUnique(a: seq<string>, b: seq<string>)
    requires StrictlySorted(a) && StrictlySorted(b) && forall t :: t in a <==> t in b
    ensures a == b
    decreases |a|
  {
    if a == [] {
      assert forall k | 0 <= k < |b| :: b[k] in b;
    } else {
      StrictHeads(a, b);
      forall t ensures t in a[1..] <==> t in b[1..] {
        StrictTail(a, t);
        StrictTail(b, t);
      }
      StrictUnique(a[1..], b[1..]);
      assert a == [a[0]] + a[1..] && b == [b[0]] + b[1..];
    }
  }

  lemma StrictTail(a: seq<string>, t: string)
    requires StrictlySorted(a) && a != []
    ensures t in a[1..] <==> t in a && t != a[0]
  {
    LessAsymmetric(a[0], a[0]);
    assert a == [a[0]] + a[1..];
    if t in a[1..] {
      var k :| 0 <= k < |a[1..]| && a[1..][k] == t;
      assert Less(a[0], a[k + 1]);
    }
  }

  lemma StrictHeads(a: seq<string>, b: seq<string>)
    requires StrictlySorted(a) && StrictlySorted(b) && a != [] && forall t :: t in a <==> t in b
    ensures b != [] && a[0] == b[0]
  {
    assert a[0] in b;
    assert b[0] in a;
    var j :| 0 <= j < |b| && b[j] == a[0];
    var k :| 0 <= k < |a| && a[k] == b[0];
    assert j > 0 ==> Less(b[0], a[0]);
    assert k > 0 ==> Less(a[0], b[0]);
    LessAsymmetric(a[0], b[0]);
  }

  lemma SortCompactMembers(a: seq<string>)
    ensures StrictlySorted(Compact(Sort(Less, a)))
    ensures forall t :: t in Compact(Sort(Less, a)) <==> t in a
  {
    LessIsOrder(a);
    SortSorted(Less, a);
    CompactSorted(Sort(Less, a));
  }

  /** Sorting and compacting depends on the members alone. */
  lemma SortCompactAlike(a: seq<string>, b: seq<string>)
    requires forall t :: t in a <==> t in b
    ensures Compact(Sort(Less, a)) == Compact(Sort(Less, b))
  {
    SortCompactMembers(a);
    SortCompactMembers(b);
    StrictUnique(Compact(Sort(Less, a)), Compact(Sort(Less, b)));
  }

  /** Sorting and compacting the targets of one key. */
  method FinishOne(es: seq<Endpoint>, ghost vs: seq<Item>, ep: Endpoint, ghost f: nat, ghost done: set<Key>)
    requires |vs| == |es| && f < |vs| && Consistent(vs, es) && IsFirst(vs, f) && ep == es[f]
    requires KeyOf(vs[f]).value !in done && FinishedState(vs, es, done)
    modifies ep`targets
    ensures FinishedState(vs, es, done + {KeyOf(vs[f]).value})
  {
    assert Alike(ep.Value(), Gathered(vs, |vs|, f));
    SortCompactAlike(ep.targets, Targets(vs, KeyOf(vs[f]).value, |vs|));
    ep.targets := Compact(Sort(Less, ep.targets));
    assert ep.Value() == MergedItem(vs, f);
    assert Leads(vs, es, |vs|, es[f]);
    forall g | 0 <= g < |es| && IsFirst(vs, g)
      ensures if KeyOf(vs[g]).value in done + {KeyOf(vs[f]).value} then es[g].Value() == MergedItem(vs, g)
              else Alike(es[g].Value(), Gathered(vs, |vs|, g))
    {
      LeadersApart(vs, es, f, g);
      FirstUnique(vs, f, g);
    }
  }

  /** The map ranged over in any order. */
  method Finish(es: seq<Endpoint>, ghost vs: seq<Item>, m: map<Key, Endpoint>, ghost firsts: map<Key, nat>)
    returns (result: seq<Endpoint>, ghost fs: seq<nat>)
    requires |vs| == |es| && Consistent(vs, es)
    requires Indexed(vs, es, m, firsts, |vs|) && StateIs(vs, es, |vs|)
    modifies es
    ensures FinishedState(vs, es, m.Keys) && Collected(vs, es, m.Keys, fs, result)
  {
    result, fs := [], [];
    var todo := m.Keys;
    ghost var done: set<Key> := {};
    while todo != {}
      invariant Splits(m.Keys, done, todo)
      invariant FinishedState(vs, es, done)
      invariant Collected(vs, es, done, fs, result)
      decreases todo
    {
      var key :| key in todo;
      SplitsStep(m.Keys, done, todo, key);
      ghost var f := firsts[key];
      FinishOne(es, vs, m[key], f, done);
      CollectedStep(vs, es, done, fs, result, f);
      result := result + [m[key]];
      fs := fs + [f];
      todo, done := todo - {key}, done + {key};
    }
    SplitsEnd(m.Keys, done, todo);
  }

  /** fs lists the first items of all keys, each once. */
  ghost predicate AreFirsts(vs: seq<Item>, fs: seq<nat>) {
    && (forall x, y | 0 <= x < y < |fs| :: fs[x] != fs[y])
    && (forall f: nat :: f in fs <==> f < |vs| && IsFirst(vs, f))
  }

  /** With every key collected, the objects not collected lead no key. */
  lemma OthersLeadNothing(vs: seq<Item>, es: seq<Endpoint>, keys: set<Key>, fs: seq<nat>, result: seq<Endpoint>)
    requires |vs| == |es| && Collected(vs, es, keys, fs, result)
    requires forall j | 0 <= j < |vs| && KeyOf(vs[j]).Some? :: KeyOf(vs[j]).value in keys
    ensures AreFirsts(vs, fs)
    ensures forall e | e !in result :: !Leads(vs, es, |vs|, e)
  {
    forall e | Leads(vs, es, |vs|, e) ensures e in result {
      var f :| 0 <= f < |vs| && IsFirst(vs, f) && es[f] == e;
      assert f in fs;
      var x :| 0 <= x < |fs| && fs[x] == f;
      assert result[x] == e;
    }
  }

  /** MergeEndpoints: the first object of every key comes back, holding everything the key's
      endpoints contributed; all other objects are left as they were. One object may occur
      several times. */
  method MergeEndpoints(es: seq<Endpoint>) returns (result: seq<Endpoint>, ghost fs: seq<nat>)
    modifies es
    ensures AreFirsts(old(Values(es)), fs)
    ensures |result| == |fs| && forall x | 0 <= x < |fs| :: fs[x] < |es| && result[x] == es[fs[x]]
    ensures forall f | 0 <= f < |es| && IsFirst(old(Values(es)), f) :: es[f].Value() == MergedItem(old(Values(es)), f)
    ensures forall j | 0 <= j < |es| && es[j] !in result :: es[j].Value() == old(Values(es))[j]
  {
    if |es| == 0 { return es, []; }
    ghost var vs := Values(es);
    var m;
    ghost var firsts;
    m, firsts := Gather(es, vs);
    result, fs := Finish(es, vs, m, firsts);
    OthersLeadNothing(vs, es, m.Keys, fs, result);
  }

  // ---- what the merged targets are ----

  lemma {:induction false} CompactSorted(s: seq<string>)
    requires Sorted(Less, s)
    ensures StrictlySorted(Compact(s))
    ensures forall t :: t in Compact(s) <==> t in s
    ensures s != [] ==> Compact(s) != [] && Compact(s)[|Compact(s)| - 1] == s[|s| - 1]
  {
    if |s| > 1 {
      var n := |s| - 1;
      var init, x := Compact(s[..n]), s[n];
      CompactSorted(s[..n]);
      assert s == s[..n] + [x];
      if x != s[n - 1] {
        LessTotal(x, s[n - 1]);
        assert !Less(s[n], s[n - 1]);
        forall i | 0 <= i < |init| ensures Less(init[i], x) {
          if i < |init| - 1 { Strings.LessTransitive(init[i], s[n - 1], x); }
        }
      }
    }
  }

  lemma {:induction false} CompactFixpoint(s: seq<string>)
    requires StrictlySorted(s)
    ensures Compact(s) == s
  {
    hide Less;
    if |s| > 1 {
      var n := |s| - 1;
      var init := s[..n];
      assert StrictlySorted(init);
      CompactFixpoint(init);
      assert Less(s[n - 1], s[n]);
      LessAsymmetric(s[n - 1], s[n]);
      assert Compact(s) == Compact(init) + [s[n]];
      assert s == init + [s[n]];
    }
  }

  lemma {:induction false} TargetsExactly(vs: seq<Item>, key: Key, n: nat, t: string)
    requires n <= |vs|
    ensures t in Targets(vs, key, n) <==> exists j :: 0 <= j < n && KeyOf(vs[j]) == Some(key) && t in vs[j].targets
    decreases n
  {
    if n > 0 { TargetsExactly(vs, key, n - 1, t); }
  }

  /** The merged targets are the union over the key's endpoints, sorted and without
      repetition. */
  lemma UnionExactly(vs: seq<Item>, key: Key)
    ensures StrictlySorted(Union(vs, key))
    ensures forall t :: t in Union(vs, key) <==>
                        exists j :: 0 <= j < |vs| && KeyOf(vs[j]) == Some(key) && t in vs[j].targets
  {
    var all := Targets(vs, key, |vs|);
    SortCompactMembers(all);
    forall t ensures t in Union(vs, key) <==> exists j :: 0 <= j < |vs| && KeyOf(vs[j]) == Some(key) && t in vs[j].targets {
      TargetsExactly(vs, key, |vs|, t);
    }
  }

  // ---- which endpoints merge, and into what ----

  /** Two endpoints contribute to one record: name, type, set identifier and TTL agree and, for
      CNAMEs, the first target. */
  predicate Contribute(a: Item, b: Item) {
    && a.dnsName == b.dnsName && a.recordType == b.recordType && a.setIdentifier == b.setIdentifier && a.ttl == b.ttl
    && (a.recordType == "CNAME" ==> a.targets != [] && b.targets != [] && a.targets[0] == b.targets[0])
  }

  lemma ContributeExactly(a: Item, b: Item)
    ensures KeyOf(a).Some? && KeyOf(a) == KeyOf(b) <==> Contribute(a, b)
    ensures KeyOf(a).None? <==> a.recordType == "CNAME" && a.targets == []
  {
  }

  /** An endpoint comes back exactly when it is no CNAME without targets and none before it
      contributes to the same record. */
  lemma FirstExactly(vs: seq<Item>, f: nat)
    requires f < |vs|
    ensures IsFirst(vs, f) <==> && (vs[f].recordType == "CNAME" ==> vs[f].targets != [])
                                && forall j | 0 <= j < f :: !Contribute(vs[j], vs[f])
  {
    ContributeExactly(vs[f], vs[f]);
    forall j | 0 <= j < f ensures Contribute(vs[j], vs[f]) <==> KeyOf(vs[j]).Some? && KeyOf(vs[j]) == KeyOf(vs[f]) {
      ContributeExactly(vs[j], vs[f]);
    }
  }

  /** It keeps everything but its targets, which become the union of what contributes, sorted and
      without repetition, and its references, to which it adds those of the others, each once. */
  lemma MergedExactly(vs: seq<Item>, f: nat)
    requires f < |vs| && IsFirst(vs, f)
    ensures var n := MergedItem(vs, f);
            && n.dnsName == vs[f].dnsName && n.recordType == vs[f].recordType
            && n.setIdentifier == vs[f].setIdentifier && n.ttl == vs[f].ttl
            && StrictlySorted(n.targets)
            && (forall t :: t in n.targets <==> exists j :: 0 <= j < |vs| && Contribute(vs[j], vs[f]) && t in vs[j].targets)
            && vs[f].refs <= n.refs
            && (forall r :: r in n.refs <==> exists j :: 0 <= j < |vs| && Contribute(vs[j], vs[f]) && r in vs[j].refs)
            && (forall x, y | 0 <= x < y < |n.refs| && y >= |vs[f].refs| :: n.refs[x] != n.refs[y])
  {
    hide KeyOf, Contribute, Union, Refs;
    var key := KeyOf(vs[f]).value;
    UnionExactly(vs, key);
    RefsExactly(vs, f, |vs|);
    forall j | 0 <= j < |vs| ensures KeyOf(vs[j]) == Some(key) <==> Contribute(vs[j], vs[f]) {
      ContributeExactly(vs[j], vs[f]);
    }
  }

  lemma {:induction false} RefsExactly(vs: seq<Item>, f: nat, n: nat)
    requires f < n <= |vs| && IsFirst(vs, f)
    ensures var key := KeyOf(vs[f]).value; var refs := Refs(vs, key, n);
            && vs[f].refs <= refs
            && (forall r :: r in refs <==> exists j :: 0 <= j < n && KeyOf(vs[j]) == Some(key) && r in vs[j].refs)
            && (forall x, y | 0 <= x < y < |refs| && y >= |vs[f].refs| :: refs[x] != refs[y])
    decreases n
  {
    hide KeyOf, AddRefs;
    var key := KeyOf(vs[f]).value;
    if n == f + 1 {
      assert !HasKey(vs, key, f);
      assert forall j | 0 <= j < f :: KeyOf(vs[j]) != Some(key);
    } else {
      RefsExactly(vs, f, n - 1);
      assert HasKey(vs, key, n - 1);
      if KeyOf(vs[n - 1]) == Some(key) { AddRefsExactly(vs[f].refs, Refs(vs, key, n - 1), vs[n - 1].refs); }
    }
  }

  lemma {:induction false} AddRefsExactly(first: seq<string>, refs: seq<string>, more: seq<string>)
    requires first <= refs && forall x, y | 0 <= x < y < |refs| && y >= |first| :: refs[x] != refs[y]
    ensures var r := AddRefs(refs, more);
            && first <= r && (forall t :: t in r <==> t in refs || t in more)
            && forall x, y | 0 <= x < y < |r| && y >= |first| :: r[x] != r[y]
    decreases |more|
  {
    if more != [] {
      var init := more[..|more| - 1];
      assert more == init + [more[|more| - 1]];
      AddRefsExactly(first, refs, init);
    }
  }

  // ---- merging again ----

  ghost predicate OneTargetPerCNAME(vs: seq<Item>) {
    forall v | v in vs && v.recordType == CNAME :: |v.targets| <= 1
  }

  /** With at most one target per CNAME, merging does not change the key. */
  lemma MergedKey(vs: seq<Item>, f: nat)
    requires OneTargetPerCNAME(vs) && f < |vs| && KeyOf(vs[f]).Some?
    ensures KeyOf(MergedItem(vs, f)) == KeyOf(vs[f])
  {
    if vs[f].recordType == CNAME {
      var key := KeyOf(vs[f]).value;
      var u := Union(vs, key);
      UnionExactly(vs, key);
      assert vs[f] in vs && vs[f].targets[0] in u;
      forall t | t in u ensures t == key.target {
        var j :| 0 <= j < |vs| && KeyOf(vs[j]) == Some(key) && t in vs[j].targets;
        assert vs[j] in vs;
      }
      assert u[0] in u;
    }
  }

  lemma {:induction false} LoneTargets(vs: seq<Item>, x: nat, key: Key, n: nat)
    requires x < n <= |vs| && KeyOf(vs[x]) == Some(key)
    requires forall j | 0 <= j < |vs| && j != x :: KeyOf(vs[j]) != Some(key)
    ensures Targets(vs, key, n) == vs[x].targets && Refs(vs, key, n) == vs[x].refs
    decreases n
  {
    if n == x + 1 {
      NothingGathered(vs, key, x);
    } else {
      LoneTargets(vs, x, key, n - 1);
    }
  }

  /** after holds the merged endpoints. */
  ghost predicate AreMerged(vs: seq<Item>, fs: seq<nat>, after: seq<Item>) {
    && AreFirsts(vs, fs) && |after| == |fs|
    && forall x | 0 <= x < |fs| :: fs[x] < |vs| && IsFirst(vs, fs[x]) && after[x] == MergedItem(vs, fs[x])
  }

  /** Merging after again changes nothing: every endpoint is the first and only one of its key. */
  ghost predicate MergesToItself(after: seq<Item>) {
    forall x | 0 <= x < |after| :: IsFirst(after, x) && MergedItem(after, x) == after[x]
  }

  /** The least of a key's targets. */
  function Least(vs: seq<Item>, key: Key): Option<string> {
    if Union(vs, key) == [] then None else Some(Union(vs, key)[0])
  }

  /** Two CNAMEs of one name, set identifier and TTL that were kept apart by their first
      targets but have the same least target. */
  ghost predicate Clash(vs: seq<Item>, f: nat, g: nat)
    requires f < |vs| && g < |vs|
  {
    && f != g && IsFirst(vs, f) && IsFirst(vs, g)
    && vs[f].recordType == CNAME && vs[g].recordType == CNAME
    && vs[f].dnsName == vs[g].dnsName && vs[f].setIdentifier == vs[g].setIdentifier && vs[f].ttl == vs[g].ttl
    && Least(vs, KeyOf(vs[f]).value) == Least(vs, KeyOf(vs[g]).value)
  }

  lemma UnionNotEmpty(vs: seq<Item>, f: nat)
    requires f < |vs| && KeyOf(vs[f]).Some? && vs[f].targets != []
    ensures Union(vs, KeyOf(vs[f]).value) != []
  {
    UnionExactly(vs, KeyOf(vs[f]).value);
    assert vs[f].targets[0] in Union(vs, KeyOf(vs[f]).value);
  }

  /** The key of a merged item: a CNAME is filed under its least target. */
  lemma KeyAfter(vs: seq<Item>, f: nat)
    requires f < |vs| && KeyOf(vs[f]).Some?
    ensures var u := Union(vs, KeyOf(vs[f]).value);
            && (vs[f].recordType != CNAME ==> KeyOf(MergedItem(vs, f)) == KeyOf(vs[f]))
            && (vs[f].recordType == CNAME ==> u != [] && KeyOf(MergedItem(vs, f)) == Some(KeyOf(vs[f]).value.(target := u[0])))
  {
    if vs[f].recordType == CNAME { UnionNotEmpty(vs, f); }
  }

  /** Two merged items get the same key exactly when they clash. */
  lemma SameKeyAfterExactly(vs: seq<Item>, f: nat, g: nat)
    requires f < |vs| && g < |vs| && f != g && IsFirst(vs, f) && IsFirst(vs, g)
    ensures KeyOf(MergedItem(vs, f)) == KeyOf(MergedItem(vs, g)) <==> Clash(vs, f, g)
  {
    KeyAfter(vs, f);
    KeyAfter(vs, g);
    FirstUnique(vs, f, g);
  }

  /** An endpoint that is alone under its key is left as it is. */
  lemma LoneMerges(vs: seq<Item>, after: seq<Item>, x: nat, f: nat)
    requires f < |vs| && KeyOf(vs[f]).Some? && x < |after| && after[x] == MergedItem(vs, f)
    requires forall y | 0 <= y < |after| && y != x :: KeyOf(after[y]) != KeyOf(after[x])
    ensures IsFirst(after, x) && MergedItem(after, x) == after[x]
  {
    KeyAfter(vs, f);
    LoneTargets(after, x, KeyOf(after[x]).value, |after|);
    UnionExactly(vs, KeyOf(vs[f]).value);
    StrictIsSorted(after[x].targets);
    SortFixpoint(Less, after[x].targets);
    CompactFixpoint(after[x].targets);
  }

  /** Merging is a normal form exactly when no two CNAMEs clash: then, and only then, merging
      the merged endpoints again leaves every one as it is. */
  lemma MergeAgainExactly(vs: seq<Item>, fs: seq<nat>, after: seq<Item>)
    requires AreMerged(vs, fs, after)
    ensures MergesToItself(after) <==> !exists f: nat, g: nat :: f < |vs| && g < |vs| && Clash(vs, f, g)
  {
    hide Clash, MergedItem, KeyOf;
    if f: nat, g: nat :| f < |vs| && g < |vs| && Clash(vs, f, g) {
      ClashSpoils(vs, fs, after, f, g);
    } else {
      forall x | 0 <= x < |after| ensures IsFirst(after, x) && MergedItem(after, x) == after[x] {
        WithoutClashKept(vs, fs, after, x);
      }
    }
  }

  lemma ClashSpoils(vs: seq<Item>, fs: seq<nat>, after: seq<Item>, f: nat, g: nat)
    requires AreMerged(vs, fs, after)
    requires f < |vs| && g < |vs| && Clash(vs, f, g)
    ensures !MergesToItself(after)
  {
    hide MergedItem, KeyOf;
    assert f in fs && g in fs;
    var x :| 0 <= x < |fs| && fs[x] == f;
    var y :| 0 <= y < |fs| && fs[y] == g;
    SameKeyAfterExactly(vs, f, g);
    var later := if x < y then y else x;
    assert !IsFirst(after, later);
  }

  lemma WithoutClashKept(vs: seq<Item>, fs: seq<nat>, after: seq<Item>, x: nat)
    requires AreMerged(vs, fs, after) && x < |after|
    requires forall f: nat, g: nat | f < |vs| && g < |vs| :: !Clash(vs, f, g)
    ensures IsFirst(after, x) && MergedItem(after, x) == after[x]
  {
    hide Clash, KeyOf;
    forall y | 0 <= y < |after| && y != x ensures KeyOf(after[y]) != KeyOf(after[x]) {
      SameKeyAfterExactly(vs, fs[x], fs[y]);
    }
    LoneMerges(vs, after, x, fs[x]);
  }

  /** In particular merging is a normal form when every CNAME has at most one target. */
  lemma MergeAgain(vs: seq<Item>, fs: seq<nat>, after: seq<Item>)
    requires OneTargetPerCNAME(vs) && AreMerged(vs, fs, after)
    ensures MergesToItself(after)
  {
    forall f: nat, g: nat | f < |vs| && g < |vs| ensures !Clash(vs, f, g) {
      if Clash(vs, f, g) {
        MergedKey(vs, f);
        MergedKey(vs, g);
        SameKeyAfterExactly(vs, f, g);
        FirstUnique(vs, f, g);
      }
    }
    MergeAgainExactly(vs, fs, after);
  }

  lemma StrictIsSorted(s: seq<string>)
    requires StrictlySorted(s)
    ensures Sorted(Less, s)
  {
    forall i, j | 0 <= i < j < |s| ensures !Less(s[j], s[i]) { LessAsymmetric(s[i], s[j]); }
  }

  /** CNAMEs of one name, the second with the other's least target. */
  const CLASHING := [Item("x", CNAME, "", 0, ["b", "a"], []), Item("x", CNAME, "", 0, ["a"], [])]

  lemma ClashingTargets()
    ensures Targets(CLASHING, KeyOf(CLASHING[0]).value, 2) == ["b", "a"]
    ensures Targets(CLASHING, KeyOf(CLASHING[1]).value, 2) == ["a"]
  {
    var k0, k1 := KeyOf(CLASHING[0]).value, KeyOf(CLASHING[1]).value;
    assert Targets(CLASHING, k0, 0) == [] && Targets(CLASHING, k1, 0) == [];
    assert Targets(CLASHING, k0, 1) == ["b", "a"] && Targets(CLASHING, k1, 1) == [];
  }

  lemma LeastIs(vs: seq<Item>, key: Key, t: string, rest: set<string>)
    requires forall x :: x in Targets(vs, key, |vs|) <==> x == t || x in rest
    requires forall x | x in rest :: Less(t, x)
    ensures Union(vs, key) != [] && Union(vs, key)[0] == t
  {
    var u := Union(vs, key);
    UnionExactly(vs, key);
    TargetsExactly(vs, key, |vs|, t);
    assert t in u;
    var i :| 0 <= i < |u| && u[i] == t;
    if i > 0 {
      assert u[0] in u && Less(u[0], t);
      TargetsExactly(vs, key, |vs|, u[0]);
      LessAsymmetric(u[0], t);
    }
  }

  lemma ClashingFirsts()
    ensures AreFirsts(CLASHING, [0, 1])
  {
    assert KeyOf(CLASHING[0]).value.target == "b" && KeyOf(CLASHING[1]).value.target == "a";
    assert "b" != "a";
    assert !HasKey(CLASHING, KeyOf(CLASHING[0]).value, 0);
    assert !HasKey(CLASHING, KeyOf(CLASHING[1]).value, 1);
  }

  lemma ClashingClash()
    ensures Clash(CLASHING, 0, 1)
  {
    ClashingFirsts();
    assert 0 in [0, 1] && 1 in [0, 1];
    ClashingTargets();
    assert Less("a", "b");
    LeastIs(CLASHING, KeyOf(CLASHING[0]).value, "a", {"b"});
    LeastIs(CLASHING, KeyOf(CLASHING[1]).value, "a", {});
  }

  /** Two endpoints that the first merge keeps apart and the second merge joins. */
  lemma SecondMergeCanJoin(after: seq<Item>)
    requires AreMerged(CLASHING, [0, 1], after)
    ensures !MergesToItself(after) && KeyOf(after[0]) == KeyOf(after[1])
  {
    ClashingClash();
    MergeAgainExactly(CLASHING, [0, 1], after);
    SameKeyAfterExactly(CLASHING, 0, 1);
  }
}

/** DNS records, their keys, and the small predicates the planner asks of them
    (endpoint/endpoint.go, plan/plan.go). */
module Records {
  import opened Wrappers
  import opened Sorting
  import opened Targets

  const OWNER_LABEL := "owner"
  const RESOURCE_LABEL := "resource"
  const CNAME := "CNAME"

  datatype Property = Property(name: string, value: string)

  datatype Record = Record(
    dnsName: string, targets: seq<string>, recordType: string, setIdentifier: string,
    ttl: int, labels: map<string, string>, providerSpecific: seq<Property>)

  /** An Endpoint object. The planner only ever writes its labels. */
  class Endpoint {
    const dnsName: string
    const targets: seq<string>
    const recordType: string
    const setIdentifier: string
    const ttl: int
    const providerSpecific: seq<Property>
    var labels: map<string, string>

    constructor (r: Record)
      ensures Value() == r
    {
      dnsName, targets, recordType, setIdentifier := r.dnsName, r.targets, r.recordType, r.setIdentifier;
      ttl, providerSpecific, labels := r.ttl, r.providerSpecific, r.labels;
    }

    function Value(): Record
      reads this
    {
      Record(dnsName, targets, recordType, setIdentifier, ttl, labels, providerSpecific)
    }
  }

  /** What all instances of the tool share: the libraries and the managed record types. */
  datatype World = World(net: Net, normalize: string -> string, managed: seq<string>, excluded: seq<string>)

  /** planKey: the normalized name and the set identifier. */
  datatype PlanKey = PlanKey(dnsName: string, setIdentifier: string)

  /** One cell of the plan table: a row and a record type. */
  datatype Slot = Slot(key: PlanKey, recordType: string)

  function KeyOf(w: World, r: Record): PlanKey {
    PlanKey(w.normalize(r.dnsName), r.setIdentifier)
  }

  function SlotOf(w: World, r: Record): Slot {
    Slot(KeyOf(w, r), r.recordType)
  }

  // Named predicates, so that every filter below is one fixed term.

  function InRow(w: World, key: PlanKey): Record -> bool { (r: Record) => KeyOf(w, r) == key }

  function InSlot(w: World, slot: Slot): Record -> bool { (r: Record) => SlotOf(w, r) == slot }

  function OfType(recordType: string): Record -> bool { (r: Record) => r.recordType == recordType }

  function OwnedBy(owner: string): Record -> bool { (r: Record) => IsOwnedBy(r, owner) }

  function HasResource(resource: string): Record -> bool { (r: Record) => Label(r, RESOURCE_LABEL) == resource }

  /** A map lookup in Go: a missing label reads as the empty string. */
  function Label(r: Record, key: string): string {
    if key in r.labels then r.labels[key] else ""
  }

  /** GetProviderSpecificProperty: the value of the first property of that name. */
  function FirstProperty(ps: seq<Property>, name: string): Option<string> {
    if ps == [] then None
    else if ps[0].name == name then Some(ps[0].value)
    else FirstProperty(ps[1..], name)
  }

  /** Position k holds the first property of that name. */
  predicate FirstNamedAt(ps: seq<Property>, name: string, k: nat) {
    k < |ps| && ps[k].name == name && forall j | 0 <= j < k :: ps[j].name != name
  }

  lemma {:induction false} FirstPropertyExactly(ps: seq<Property>, name: string)
    ensures forall v :: FirstProperty(ps, name) == Some(v) <==> exists k: nat :: FirstNamedAt(ps, name, k) && ps[k].value == v
    ensures FirstProperty(ps, name).Some? <==> exists p | p in ps :: p.name == name
  {
    if ps != [] {
      var rest := ps[1..];
      assert ps == [ps[0]] + rest;
      FirstPropertyExactly(rest, name);
      forall v
        ensures FirstProperty(ps, name) == Some(v) <==> exists k: nat :: FirstNamedAt(ps, name, k) && ps[k].value == v
      {
        FirstPropertyStep(ps, name, v);
      }
    }
  }

  lemma FirstPropertyStep(ps: seq<Property>, name: string, v: string)
    requires ps != []
    requires FirstProperty(ps[1..], name) == Some(v) <==> exists k: nat :: FirstNamedAt(ps[1..], name, k) && ps[1..][k].value == v
    ensures FirstProperty(ps, name) == Some(v) <==> exists k: nat :: FirstNamedAt(ps, name, k) && ps[k].value == v
  {
    if ps[0].name == name {
      assert FirstNamedAt(ps, name, 0);
      assert forall k: nat | FirstNamedAt(ps, name, k) :: k == 0;
    } else {
      if k: nat :| FirstNamedAt(ps[1..], name, k) && ps[1..][k].value == v {
        assert forall j | 0 < j < k + 1 :: ps[j] == ps[1..][j - 1];
        assert FirstNamedAt(ps, name, k + 1);
      }
      if k: nat :| FirstNamedAt(ps, name, k) && ps[k].value == v {
        assert k > 0;
        assert FirstNamedAt(ps[1..], name, k - 1);
      }
    }
  }

  predicate IsOwnedBy(r: Record, owner: string) {
    OWNER_LABEL in r.labels && r.labels[OWNER_LABEL] == owner
  }

  predicate IsManagedRecord(w: World, recordType: string) {
    recordType !in w.excluded && recordType in w.managed
  }

  /** inheritOwner as a function on values. */
  function InheritOwner(from: Record, to: Record): (r: Record) {
    to.(labels := to.labels[OWNER_LABEL := Label(from, OWNER_LABEL)])
  }

  predicate ShouldUpdateTTL(desired: Record, current: Record) {
    desired.ttl > 0 && desired.ttl != current.ttl
  }

  /** The properties by name; of two entries with one name the later wins. */
  function PropertyMap(ps: seq<Property>): map<string, string> {
    if ps == [] then map[]
    else PropertyMap(ps[..|ps| - 1])[ps[|ps| - 1].name := ps[|ps| - 1].value]
  }

  /** Scan the current properties, crossing off the desired ones that agree. */
  predicate LeftoverOrMismatch(wanted: map<string, string>, current: seq<Property>) {
    if current == [] then |wanted| > 0
    else if current[0].name in wanted then
      || wanted[current[0].name] != current[0].value
      || LeftoverOrMismatch(wanted - {current[0].name}, current[1..])
    else true
  }

  predicate ProviderSpecificChanged(desired: Record, current: Record) {
    LeftoverOrMismatch(PropertyMap(desired.providerSpecific), current.providerSpecific)
  }

  ghost predicate UniqueNames(ps: seq<Property>) {
    forall i, j | 0 <= i < j < |ps| :: ps[i].name != ps[j].name
  }

  lemma {:induction false} PropertyMapKeys(ps: seq<Property>)
    ensures forall n :: n in PropertyMap(ps) <==> exists i :: 0 <= i < |ps| && ps[i].name == n
  {
    if ps != [] {
      var init := ps[..|ps| - 1];
      PropertyMapKeys(init);
      forall n ensures n in PropertyMap(ps) <==> exists i :: 0 <= i < |ps| && ps[i].name == n {
        if n in PropertyMap(init) {
          var i :| 0 <= i < |init| && init[i].name == n;
          assert ps[i].name == n;
        }
        if i :| 0 <= i < |ps| && ps[i].name == n {
          assert i < |init| ==> init[i].name == n;
        }
      }
    }
  }

  /** Position k holds the last property of that name. */
  predicate LastNamedAt(ps: seq<Property>, name: string, k: nat) {
    k < |ps| && ps[k].name == name && forall j | k < j < |ps| :: ps[j].name != name
  }

  /** Each name maps to the value of its last property. */
  lemma {:induction false} PropertyMapExactly(ps: seq<Property>, k: nat)
    requires k < |ps| && LastNamedAt(ps, ps[k].name, k)
    ensures ps[k].name in PropertyMap(ps) && PropertyMap(ps)[ps[k].name] == ps[k].value
  {
    if k < |ps| - 1 {
      var init := ps[..|ps| - 1];
      assert init[k] == ps[k] && ps[|ps| - 1].name != ps[k].name;
      PropertyMapExactly(init, k);
    }
  }

  lemma {:induction false} PropertyMapCons(p: Property, ps: seq<Property>)
    ensures PropertyMap([p] + ps) == map[p.name := p.value] + PropertyMap(ps)
  {
    if ps == [] {
      assert [p] + ps == [p] && [p][..0] == [];
    } else {
      PropertyMapCons(p, ps[..|ps| - 1]);
      assert ([p] + ps)[..|ps|] == [p] + ps[..|ps| - 1];
    }
  }

  lemma UniqueNamesCons(c: Property, rest: seq<Property>)
    ensures UniqueNames([c] + rest) <==> c.name !in PropertyMap(rest) && UniqueNames(rest)
  {
    var ps := [c] + rest;
    PropertyMapKeys(rest);
    if UniqueNames(ps) {
      forall i | 0 <= i < |rest| ensures rest[i].name != c.name {
        assert ps[0].name != ps[i + 1].name;
      }
      forall i, j | 0 <= i < j < |rest| ensures rest[i].name != rest[j].name {
        assert ps[i + 1].name != ps[j + 1].name;
      }
    }
    if c.name !in PropertyMap(rest) && UniqueNames(rest) {
      forall i, j | 0 <= i < j < |ps| ensures ps[i].name != ps[j].name {
        assert ps[j] == rest[j - 1];
        assert i > 0 ==> ps[i] == rest[i - 1];
      }
    }
  }

  lemma CrossOff(m: map<string, string>, wanted: map<string, string>, name: string, value: string)
    requires name !in m
    ensures map[name := value] + m == wanted <==>
            name in wanted && wanted[name] == value && m == wanted - {name}
  {
    if map[name := value] + m == wanted {
      assert m == wanted - {name};
    }
    if name in wanted && wanted[name] == value && m == wanted - {name} {
      assert map[name := value] + m == wanted;
    }
  }

  lemma {:induction false} ScanExactly(wanted: map<string, string>, current: seq<Property>)
    ensures !LeftoverOrMismatch(wanted, current) <==> UniqueNames(current) && PropertyMap(current) == wanted
    decreases |current|
  {
    if current == [] {
      assert |wanted| == 0 <==> wanted == map[];
    } else {
      var c, rest := current[0], current[1..];
      assert current == [c] + rest;
      UniqueNamesCons(c, rest);
      PropertyMapCons(c, rest);
      ScanExactly(wanted - {c.name}, rest);
      if c.name !in PropertyMap(rest) {
        CrossOff(PropertyMap(rest), wanted, c.name, c.value);
      } else {
        assert PropertyMap(rest) != wanted - {c.name};
      }
    }
  }

  /** For all inputs, the property comparison reports "unchanged" exactly when the current
      names are unique and both lists denote the same name-to-value map. */
  lemma ProviderSpecificExactly(desired: Record, current: Record)
    ensures !ProviderSpecificChanged(desired, current) <==>
            && UniqueNames(current.providerSpecific)
            && PropertyMap(desired.providerSpecific) == PropertyMap(current.providerSpecific)
  {
    ScanExactly(PropertyMap(desired.providerSpecific), current.providerSpecific);
  }
}

/** The structural diff of two configurations. */
module Drift {
  import opened Wrappers
  import opened Config

  datatype Resource = InterfaceResource(name: string) | NeighborResource(ip: Address) | AclResource(acl: string)

  datatype Field =
    DescriptionField | IpAddressField | MtuField | AdminStateField | AclInField | AclOutField | RemoteAsField

  /** A value before it is turned into text; the text of each kind names the value uniquely. */
  datatype Value =
    | Text(text: string)
    | Number(number: int)
    | Network(cidr: Cidr)
    | State(adminState: AdminState)
    | Identity(resource: Resource)

  datatype DriftEntry =
    DriftEntry(resource: Resource, field: Option<Field>, oldValue: Option<Value>, newValue: Option<Value>)
  {
    predicate Valid() {
      oldValue.Some? || newValue.Some?
    }

    function Mirror(): DriftEntry {
      DriftEntry(resource, field, newValue, oldValue)
    }
  }

  datatype DriftReport = DriftReport(added: seq<DriftEntry>, removed: seq<DriftEntry>, changed: seq<DriftEntry>)

  /** One compared resource of a configuration. */
  datatype Item = InterfaceItem(interface: Interface) | NeighborItem(neighbor: BgpNeighbor) | AclItem(acl: Acl)

  function Key(item: Item): Resource {
    match item
    case InterfaceItem(i) => InterfaceResource(i.name)
    case NeighborItem(n) => NeighborResource(n.neighborIp)
    case AclItem(a) => AclResource(a.name)
  }

  /** The compared fields: a list's entries are not among them. */
  function Fields(resource: Resource): seq<Field> {
    match resource
    case InterfaceResource(_) => [DescriptionField, IpAddressField, MtuField, AdminStateField, AclInField, AclOutField]
    case NeighborResource(_) => [RemoteAsField]
    case AclResource(_) => []
  }

  function AsText(text: Option<string>): Option<Value> {
    if text.Some? then Some(Text(text.value)) else None
  }

  function ValueOf(item: Item, field: Field): Option<Value> {
    match item
    case InterfaceItem(i) =>
      (match field
       case DescriptionField => AsText(i.description)
       case IpAddressField => if i.ipAddress.Some? then Some(Network(i.ipAddress.value)) else None
       case MtuField => if i.mtu.Some? then Some(Number(i.mtu.value)) else None
       case AdminStateField => Some(State(i.adminState))
       case AclInField => AsText(i.aclIn)
       case AclOutField => AsText(i.aclOut)
       case RemoteAsField => None)
    case NeighborItem(n) => if field.RemoteAsField? then Some(Number(n.remoteAs)) else None
    case AclItem(_) => None
  }

  /** The last item with a key, as a dictionary built from the list holds it. */
  function Find(items: seq<Item>, key: Resource): Option<Item> {
    if items == [] then None
    else if Key(items[|items| - 1]) == key then Some(items[|items| - 1])
    else Find(items[..|items| - 1], key)
  }

  function FieldChanges(fields: seq<Field>, was: Item, now: Item): seq<DriftEntry> {
    if fields == [] then []
    else
      var n := |fields| - 1;
      var before := FieldChanges(fields[..n], was, now);
      var left, right := ValueOf(was, fields[n]), ValueOf(now, fields[n]);
      if left != right then before + [DriftEntry(Key(was), Some(fields[n]), left, right)] else before
  }

  function Removed(baseline: seq<Item>, current: seq<Item>): seq<DriftEntry> {
    if baseline == [] then []
    else
      var before, item := Removed(baseline[..|baseline| - 1], current), baseline[|baseline| - 1];
      if Find(current, Key(item)).None? then before + [DriftEntry(Key(item), None, Some(Identity(Key(item))), None)]
      else before
  }

  function Added(baseline: seq<Item>, current: seq<Item>): seq<DriftEntry> {
    if current == [] then []
    else
      var before, item := Added(baseline, current[..|current| - 1]), current[|current| - 1];
      if Find(baseline, Key(item)).None? then before + [DriftEntry(Key(item), None, None, Some(Identity(Key(item))))]
      else before
  }

  function ItemChanges(item: Item, current: seq<Item>): seq<DriftEntry> {
    var found := Find(current, Key(item));
    if found.Some? then FieldChanges(Fields(Key(item)), item, found.value) else []
  }

  function Changed(baseline: seq<Item>, current: seq<Item>): seq<DriftEntry> {
    if baseline == [] then []
    else Changed(baseline[..|baseline| - 1], current) + ItemChanges(baseline[|baseline| - 1], current)
  }

  function InterfaceItems(interfaces: seq<Interface>): seq<Item> {
    seq(|interfaces|, i requires 0 <= i < |interfaces| => InterfaceItem(interfaces[i]))
  }

  function NeighborItems(neighbors: seq<BgpNeighbor>): seq<Item> {
    seq(|neighbors|, i requires 0 <= i < |neighbors| => NeighborItem(neighbors[i]))
  }

  function AclItems(acls: seq<Acl>): seq<Item> {
    seq(|acls|, i requires 0 <= i < |acls| => AclItem(acls[i]))
  }

  function Items(c: Configuration): seq<Item> {
    InterfaceItems(c.interfaces) + NeighborItems(c.bgpNeighbors) + AclItems(c.acls)
  }

  /** The diff of two lists of resources. */
  function Diff(baseline: seq<Item>, current: seq<Item>): DriftReport {
    DriftReport(Added(baseline, current), Removed(baseline, current), Changed(baseline, current))
  }

  // The detector as it runs

  /** The three lists that the helpers append to. */
  class Report {
    var added: seq<DriftEntry>
    var removed: seq<DriftEntry>
    var changed: seq<DriftEntry>

    constructor ()
      ensures Observed() == DriftReport([], [], [])
    {
      added, removed, changed := [], [], [];
    }

    function Observed(): DriftReport
      reads this
    {
      DriftReport(added, removed, changed)
    }

    /** One collection: the shape that the three helpers share. */
    method DiffCollection(baseline: seq<Item>, current: seq<Item>)
      modifies this
      ensures Observed() == Joined(old(Observed()), Diff(baseline, current))
    {
      DiffBaseline(baseline, current);
      DiffCurrent(baseline, current);
    }

    method DiffBaseline(baseline: seq<Item>, current: seq<Item>)
      modifies this`removed, this`changed
      ensures removed == old(removed) + Removed(baseline, current)
      ensures changed == old(changed) + Changed(baseline, current)
    {
      for i := 0 to |baseline|
        invariant removed == old(removed) + Removed(baseline[..i], current)
        invariant changed == old(changed) + Changed(baseline[..i], current)
      {
        assert baseline[..i + 1][..i] == baseline[..i];
        var item := baseline[i];
        var found := Find(current, Key(item));
        if found.None? {
          var entry := DriftEntry(Key(item), None, Some(Identity(Key(item))), None);
          Associate(old(removed), Removed(baseline[..i], current), [entry]);
          removed := removed + [entry];
        } else {
          var entries := DiffFields(item, found.value);
          changed := changed + entries;
        }
        Associate(old(changed), Changed(baseline[..i], current), ItemChanges(item, current));
      }
      assert baseline[..|baseline|] == baseline;
    }

    method DiffCurrent(baseline: seq<Item>, current: seq<Item>)
      modifies this`added
      ensures added == old(added) + Added(baseline, current)
    {
      for i := 0 to |current|
        invariant added == old(added) + Added(baseline, current[..i])
      {
        assert current[..i + 1][..i] == current[..i];
        var item := current[i];
        if Find(baseline, Key(item)).None? {
          added := added + [DriftEntry(Key(item), None, None, Some(Identity(Key(item))))];
        }
      }
      assert current[..|current|] == current;
    }

    method DiffFields(baseline: Item, current: Item) returns (entries: seq<DriftEntry>)
      ensures entries == FieldChanges(Fields(Key(baseline)), baseline, current)
    {
      var fields := Fields(Key(baseline));
      entries := [];
      for i := 0 to |fields|
        invariant entries == FieldChanges(fields[..i], baseline, current)
      {
        assert fields[..i + 1][..i] == fields[..i];
        if ValueOf(baseline, fields[i]) != ValueOf(current, fields[i]) {
          entries := entries
            + [DriftEntry(Key(baseline), Some(fields[i]), ValueOf(baseline, fields[i]), ValueOf(current, fields[i]))];
        }
      }
      assert fields[..|fields|] == fields;
    }
  }

  lemma {:induction false} Associate(a: seq<DriftEntry>, b: seq<DriftEntry>, c: seq<DriftEntry>)
    ensures a + b + c == a + (b + c)
  {
  }

  function Joined(a: DriftReport, b: DriftReport): DriftReport {
    DriftReport(a.added + b.added, a.removed + b.removed, a.changed + b.changed)
  }

  /** `DriftDetector.compare`: one diff of all resources, although the code walks three collections. */
  method Compare(baseline: Configuration, current: Configuration) returns (r: DriftReport)
    ensures r == Diff(Items(baseline), Items(current))
  {
    var report := new Report();
    report.DiffCollection(InterfaceItems(baseline.interfaces), InterfaceItems(current.interfaces));
    JoinedFromEmpty(Diff(InterfaceItems(baseline.interfaces), InterfaceItems(current.interfaces)));
    report.DiffCollection(NeighborItems(baseline.bgpNeighbors), NeighborItems(current.bgpNeighbors));
    report.DiffCollection(AclItems(baseline.acls), AclItems(current.acls));
    OneDiff(baseline, current);
    r := report.Observed();
  }

  lemma JoinedFromEmpty(d: DriftReport)
    ensures Joined(DriftReport([], [], []), d) == d
  {
  }

  // Collections of different kinds do not meet

  ghost predicate Apart(a: seq<Item>, b: seq<Item>) {
    forall i, j | 0 <= i < |a| && 0 <= j < |b| :: Key(a[i]) != Key(b[j])
  }

  lemma {:induction false} FindIn(items: seq<Item>, key: Resource)
    ensures Find(items, key).Some? <==> exists i | 0 <= i < |items| :: Key(items[i]) == key
    ensures Find(items, key).Some? ==> Find(items, key).value in items && Key(Find(items, key).value) == key
  {
    if items != [] {
      var n := |items| - 1;
      FindIn(items[..n], key);
      if Find(items[..n], key).Some? {
        var i :| 0 <= i < n && Key(items[..n][i]) == key;
        assert Key(items[i]) == key;
      }
    }
  }

  lemma {:induction false} FindSplits(a: seq<Item>, b: seq<Item>, key: Resource)
    ensures Find(a + b, key) == if Find(b, key).Some? then Find(b, key) else Find(a, key)
  {
    if b == [] {
      assert a + b == a;
    } else {
      assert (a + b)[..|a + b| - 1] == a + b[..|b| - 1];
      FindSplits(a, b[..|b| - 1], key);
    }
  }

  /** The rest of a list does not matter to the resources of another kind. */
  ghost predicate SameFor(items: seq<Item>, current: seq<Item>, wider: seq<Item>) {
    forall i | 0 <= i < |items| :: Find(current, Key(items[i])) == Find(wider, Key(items[i]))
  }

  lemma {:induction false} WiderIsSame(items: seq<Item>, current: seq<Item>, wider: seq<Item>)
    requires SameFor(items, current, wider)
    ensures Removed(items, current) == Removed(items, wider)
    ensures Changed(items, current) == Changed(items, wider)
    ensures Added(current, items) == Added(wider, items)
  {
    if items != [] {
      WiderIsSame(items[..|items| - 1], current, wider);
    }
  }

  lemma {:induction false} RemovedAppends(a: seq<Item>, b: seq<Item>, other: seq<Item>)
    ensures Removed(a + b, other) == Removed(a, other) + Removed(b, other)
  {
    if b == [] {
      assert a + b == a;
    } else {
      assert (a + b)[..|a + b| - 1] == a + b[..|b| - 1];
      RemovedAppends(a, b[..|b| - 1], other);
    }
  }

  lemma {:induction false} ChangedAppends(a: seq<Item>, b: seq<Item>, other: seq<Item>)
    ensures Changed(a + b, other) == Changed(a, other) + Changed(b, other)
  {
    if b == [] {
      assert a + b == a;
    } else {
      assert (a + b)[..|a + b| - 1] == a + b[..|b| - 1];
      ChangedAppends(a, b[..|b| - 1], other);
    }
  }

  lemma {:induction false} AddedAppends(a: seq<Item>, b: seq<Item>, other: seq<Item>)
    ensures Added(other, a + b) == Added(other, a) + Added(other, b)
  {
    if b == [] {
      assert a + b == a;
    } else {
      assert (a + b)[..|a + b| - 1] == a + b[..|b| - 1];
      AddedAppends(a, b[..|b| - 1], other);
    }
  }

  lemma ApartIsSame(items: seq<Item>, current: seq<Item>, other: seq<Item>)
    requires Apart(items, other)
    ensures SameFor(items, current, current + other) && SameFor(items, current, other + current)
  {
    forall i | 0 <= i < |items|
      ensures Find(current, Key(items[i])) == Find(current + other, Key(items[i])) ==
              Find(other + current, Key(items[i]))
    {
      FindIn(other, Key(items[i]));
      FindSplits(current, other, Key(items[i]));
      FindSplits(other, current, Key(items[i]));
    }
  }

  lemma DiffSplits(a: seq<Item>, b: seq<Item>, c: seq<Item>, d: seq<Item>)
    requires Apart(a, d) && Apart(b, c)
    requires Apart(c, b) && Apart(d, a)
    ensures Diff(a + b, c + d) == Joined(Diff(a, c), Diff(b, d))
  {
    ApartIsSame(a, c, d);
    ApartIsSame(b, d, c);
    ApartIsSame(c, a, b);
    ApartIsSame(d, b, a);
    WiderIsSame(a, c, c + d);
    WiderIsSame(b, d, c + d);
    WiderIsSame(c, a, a + b);
    WiderIsSame(d, b, a + b);
    RemovedAppends(a, b, c + d);
    ChangedAppends(a, b, c + d);
    AddedAppends(c, d, a + b);
  }

  lemma OneDiff(b: Configuration, c: Configuration)
    ensures Diff(Items(b), Items(c)) ==
            Joined(Joined(Diff(InterfaceItems(b.interfaces), InterfaceItems(c.interfaces)),
                          Diff(NeighborItems(b.bgpNeighbors), NeighborItems(c.bgpNeighbors))),
                   Diff(AclItems(b.acls), AclItems(c.acls)))
  {
    var bi, bn, ba := InterfaceItems(b.interfaces), NeighborItems(b.bgpNeighbors), AclItems(b.acls);
    var ci, cn, ca := InterfaceItems(c.interfaces), NeighborItems(c.bgpNeighbors), AclItems(c.acls);
    DiffSplits(bi, bn, ci, cn);
    DiffSplits(bi + bn, ba, ci + cn, ca);
  }
}

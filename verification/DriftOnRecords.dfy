/** A drift report in terms of the compared records, field by field. */
module DriftOnRecords {
  import opened Wrappers
  import opened Config
  import opened Drift
  import opened DriftProperties

  // Which records are compared: each of the baseline with the last one of its name

  ghost predicate LastInterface(all: seq<Interface>, j: Interface) {
    exists k | 0 <= k < |all| :: all[k] == j && forall l | k < l < |all| :: all[l].name != j.name
  }

  ghost predicate LastNeighbor(all: seq<BgpNeighbor>, n: BgpNeighbor) {
    exists k | 0 <= k < |all| :: all[k] == n && forall l | k < l < |all| :: all[l].neighborIp != n.neighborIp
  }

  ghost predicate Matched(i: Interface, now: Configuration, j: Interface) {
    i.name == j.name && LastInterface(now.interfaces, j)
  }

  ghost predicate MatchedNeighbor(m: BgpNeighbor, now: Configuration, n: BgpNeighbor) {
    m.neighborIp == n.neighborIp && LastNeighbor(now.bgpNeighbors, n)
  }

  // What an entry says

  /** The entry reports one of the six compared fields of two interfaces of one name, which differ in it. */
  ghost predicate ReportsInterface(e: DriftEntry, i: Interface, j: Interface) {
    && e.resource == InterfaceResource(i.name) && e.field.Some?
    && match e.field.value
       case DescriptionField =>
         i.description != j.description && TextIs(e.oldValue, i.description) && TextIs(e.newValue, j.description)
       case IpAddressField =>
         i.ipAddress != j.ipAddress && NetworkIs(e.oldValue, i.ipAddress) && NetworkIs(e.newValue, j.ipAddress)
       case MtuField =>
         i.mtu != j.mtu && NumberIs(e.oldValue, i.mtu) && NumberIs(e.newValue, j.mtu)
       case AdminStateField =>
         && i.adminState != j.adminState
         && e.oldValue == Some(State(i.adminState)) && e.newValue == Some(State(j.adminState))
       case AclInField =>
         i.aclIn != j.aclIn && TextIs(e.oldValue, i.aclIn) && TextIs(e.newValue, j.aclIn)
       case AclOutField =>
         i.aclOut != j.aclOut && TextIs(e.oldValue, i.aclOut) && TextIs(e.newValue, j.aclOut)
       case RemoteAsField => false
  }

  ghost predicate TextIs(v: Option<Value>, text: Option<string>) {
    match text
    case None => v == None
    case Some(t) => v == Some(Text(t))
  }

  ghost predicate NetworkIs(v: Option<Value>, cidr: Option<Cidr>) {
    match cidr
    case None => v == None
    case Some(c) => v == Some(Network(c))
  }

  ghost predicate NumberIs(v: Option<Value>, number: Option<int>) {
    match number
    case None => v == None
    case Some(n) => v == Some(Number(n))
  }

  ghost predicate ReportsNeighbor(e: DriftEntry, m: BgpNeighbor, n: BgpNeighbor) {
    m.remoteAs != n.remoteAs
    && e == DriftEntry(NeighborResource(m.neighborIp), Some(RemoteAsField),
                       Some(Number(m.remoteAs)), Some(Number(n.remoteAs)))
  }

  /** The entry names a resource that is in one configuration and not in the other, and nothing more. */
  ghost predicate OnlyIn(here: Configuration, there: Configuration, r: Resource) {
    match r
    case InterfaceResource(name) =>
      (exists i :: i in here.interfaces && i.name == name) && forall j | j in there.interfaces :: j.name != name
    case NeighborResource(ip) =>
      && (exists m :: m in here.bgpNeighbors && m.neighborIp == ip)
      && forall n | n in there.bgpNeighbors :: n.neighborIp != ip
    case AclResource(name) =>
      (exists a :: a in here.acls && a.name == name) && forall b | b in there.acls :: b.name != name
  }

  // Lists of resources and their records

  lemma {:induction false} FindLast(items: seq<Item>, key: Resource) returns (k: int)
    ensures Find(items, key).Some? ==>
              && 0 <= k < |items| && items[k] == Find(items, key).value && Key(items[k]) == key
              && forall l | k < l < |items| :: Key(items[l]) != key
    ensures Find(items, key).None? ==> forall l | 0 <= l < |items| :: Key(items[l]) != key
  {
    k := |items| - 1;
    if items != [] && Key(items[k]) != key {
      k := FindLast(items[..k], key);
    }
  }

  lemma {:induction false} LastIsFound(items: seq<Item>, k: int)
    requires 0 <= k < |items| && forall l | k < l < |items| :: Key(items[l]) != Key(items[k])
    ensures Find(items, Key(items[k])) == Some(items[k])
  {
    var m := FindLast(items, Key(items[k]));
  }

  lemma ItemAt(c: Configuration, k: int)
    requires 0 <= k < |Items(c)|
    ensures |Items(c)| == |c.interfaces| + |c.bgpNeighbors| + |c.acls|
    ensures Items(c)[k] ==
            if k < |c.interfaces| then InterfaceItem(c.interfaces[k])
            else if k < |c.interfaces| + |c.bgpNeighbors| then NeighborItem(c.bgpNeighbors[k - |c.interfaces|])
            else AclItem(c.acls[k - |c.interfaces| - |c.bgpNeighbors|])
  {
  }

  lemma {:induction false} InterfaceFound(c: Configuration, name: string)
    ensures forall j: Interface | j.name == name ::
              LastInterface(c.interfaces, j) <==> Find(Items(c), InterfaceResource(name)) == Some(InterfaceItem(j))
    ensures Find(Items(c), InterfaceResource(name)).Some? ==>
              Find(Items(c), InterfaceResource(name)).value.InterfaceItem?
    ensures Find(Items(c), InterfaceResource(name)).None? <==> forall j | j in c.interfaces :: j.name != name
  {
    hide Find;
    var items := Items(c);
    var k := FindLast(items, InterfaceResource(name));
    forall l | 0 <= l < |items|
      ensures items[l].InterfaceItem? <==> l < |c.interfaces|
      ensures l < |c.interfaces| ==> items[l] == InterfaceItem(c.interfaces[l])
    {
      ItemAt(c, l);
    }
    assert |c.interfaces| <= |items|;
    if Find(items, InterfaceResource(name)).Some? {
      assert forall l | k < l < |c.interfaces| :: Key(items[l]) == InterfaceResource(c.interfaces[l].name);
      assert LastInterface(c.interfaces, c.interfaces[k]);
    }
    forall j: Interface | j.name == name && LastInterface(c.interfaces, j)
      ensures Find(items, InterfaceResource(name)) == Some(InterfaceItem(j))
    {
      var m :| 0 <= m < |c.interfaces| && c.interfaces[m] == j && forall l | m < l < |c.interfaces| ::
          c.interfaces[l].name != j.name;
      assert items[m] == InterfaceItem(j);
      LastIsFound(items, m);
    }
    forall j | j in c.interfaces && Find(items, InterfaceResource(name)).None? ensures j.name != name {
      var m :| 0 <= m < |c.interfaces| && c.interfaces[m] == j;
      assert Key(items[m]) == InterfaceResource(j.name);
    }
  }

  lemma {:induction false} NeighborFound(c: Configuration, ip: Address)
    ensures forall n: BgpNeighbor | n.neighborIp == ip ::
              LastNeighbor(c.bgpNeighbors, n) <==> Find(Items(c), NeighborResource(ip)) == Some(NeighborItem(n))
    ensures Find(Items(c), NeighborResource(ip)).Some? ==> Find(Items(c), NeighborResource(ip)).value.NeighborItem?
    ensures Find(Items(c), NeighborResource(ip)).None? <==> forall n | n in c.bgpNeighbors :: n.neighborIp != ip
  {
    hide Find;
    var items, base := Items(c), |c.interfaces|;
    var k := FindLast(items, NeighborResource(ip));
    forall l | 0 <= l < |items|
      ensures items[l].NeighborItem? <==> base <= l < base + |c.bgpNeighbors|
      ensures base <= l < base + |c.bgpNeighbors| ==> items[l] == NeighborItem(c.bgpNeighbors[l - base])
    {
      ItemAt(c, l);
    }
    assert base + |c.bgpNeighbors| <= |items|;
    if Find(items, NeighborResource(ip)).Some? {
      forall l | k - base < l < |c.bgpNeighbors| ensures c.bgpNeighbors[l].neighborIp != ip {
        assert Key(items[base + l]) == NeighborResource(c.bgpNeighbors[l].neighborIp);
      }
      assert LastNeighbor(c.bgpNeighbors, c.bgpNeighbors[k - base]);
    }
    forall n: BgpNeighbor | n.neighborIp == ip && LastNeighbor(c.bgpNeighbors, n)
      ensures Find(items, NeighborResource(ip)) == Some(NeighborItem(n))
    {
      var m :| 0 <= m < |c.bgpNeighbors| && c.bgpNeighbors[m] == n
        && forall l | m < l < |c.bgpNeighbors| :: c.bgpNeighbors[l].neighborIp != n.neighborIp;
      assert items[base + m] == NeighborItem(n);
      LastIsFound(items, base + m);
    }
    forall n | n in c.bgpNeighbors && Find(items, NeighborResource(ip)).None? ensures n.neighborIp != ip {
      var m :| 0 <= m < |c.bgpNeighbors| && c.bgpNeighbors[m] == n;
      assert Key(items[base + m]) == NeighborResource(n.neighborIp);
    }
  }

  lemma {:induction false} HasKeyOnRecords(c: Configuration, r: Resource)
    ensures HasKey(Items(c), r) <==>
            match r
            case InterfaceResource(name) => exists i :: i in c.interfaces && i.name == name
            case NeighborResource(ip) => exists m :: m in c.bgpNeighbors && m.neighborIp == ip
            case AclResource(name) => exists a :: a in c.acls && a.name == name
  {
    var items, m, n := Items(c), |c.interfaces|, |c.bgpNeighbors|;
    if HasKey(items, r) {
      var k :| 0 <= k < |items| && Key(items[k]) == r;
      ItemAt(c, k);
      if k < m {
        assert c.interfaces[k] in c.interfaces;
      } else if k < m + n {
        assert c.bgpNeighbors[k - m] in c.bgpNeighbors;
      } else {
        assert c.acls[k - m - n] in c.acls;
      }
    }
    forall i | 0 <= i < m ensures HasKey(items, InterfaceResource(c.interfaces[i].name)) {
      assert Key(items[i]) == InterfaceResource(c.interfaces[i].name);
    }
    forall i | 0 <= i < n ensures HasKey(items, NeighborResource(c.bgpNeighbors[i].neighborIp)) {
      assert Key(items[m + i]) == NeighborResource(c.bgpNeighbors[i].neighborIp);
    }
    forall i | 0 <= i < |c.acls| ensures HasKey(items, AclResource(c.acls[i].name)) {
      assert Key(items[m + n + i]) == AclResource(c.acls[i].name);
    }
  }

  // The report

  /** Added and removed entries are exactly the resources that only one side has, each with its name as the
      one value. */
  lemma {:induction false} WholeResourcesAreExact(was: Configuration, now: Configuration, e: DriftEntry)
    ensures e in Diff(Items(was), Items(now)).added <==>
            OnlyIn(now, was, e.resource) && e == DriftEntry(e.resource, None, None, Some(Identity(e.resource)))
    ensures e in Diff(Items(was), Items(now)).removed <==>
            OnlyIn(was, now, e.resource) && e == DriftEntry(e.resource, None, Some(Identity(e.resource)), None)
  {
    hide Items, HasKey, Added, Removed;
    RemovedAre(Items(was), Items(now), e);
    AddedAre(Items(was), Items(now), e);
    HasKeyOnRecords(was, e.resource);
    HasKeyOnRecords(now, e.resource);
  }

  lemma {:induction false} AddedAre(baseline: seq<Item>, current: seq<Item>, e: DriftEntry)
    ensures e in Added(baseline, current) <==>
            && e == DriftEntry(e.resource, None, None, Some(Identity(e.resource)))
            && HasKey(current, e.resource) && !HasKey(baseline, e.resource)
  {
    hide HasKey, Added, Removed;
    RemovedAre(current, baseline, e.Mirror());
    AddedMirrorsRemoved(baseline, current);
    var added, removed := Added(baseline, current), Removed(current, baseline);
    if e in added {
      var i :| 0 <= i < |added| && added[i] == e;
      assert removed[i] == e.Mirror();
    }
    if e.Mirror() in removed {
      var i :| 0 <= i < |removed| && removed[i] == e.Mirror();
      assert added[i] == e;
    }
  }

  /** What the code reads of two interfaces of one name is their six fields. */
  lemma ReadsInterfaces(i: Interface, j: Interface, e: DriftEntry)
    requires i.name == j.name
    ensures ReportsInterface(e, i, j) <==>
            && e.resource == InterfaceResource(i.name)
            && e.field.Some? && e.field.value in Fields(Key(InterfaceItem(i)))
            && e.oldValue == ValueOf(InterfaceItem(i), e.field.value)
            && e.newValue == ValueOf(InterfaceItem(j), e.field.value)
            && e.oldValue != e.newValue
  {
    hide Fields;
    InterfaceFields(i.name);
  }

  lemma InterfaceFields(name: string)
    ensures forall f :: f in Fields(InterfaceResource(name)) <==> f != RemoteAsField
  {
    var all := Fields(InterfaceResource(name));
    assert all[0] == DescriptionField && all[1] == IpAddressField && all[2] == MtuField;
    assert all[3] == AdminStateField && all[4] == AclInField && all[5] == AclOutField;
  }

  lemma ReadsNeighbors(m: BgpNeighbor, n: BgpNeighbor, e: DriftEntry)
    requires m.neighborIp == n.neighborIp
    ensures ReportsNeighbor(e, m, n) <==>
            && e.resource == NeighborResource(m.neighborIp)
            && e.field.Some? && e.field.value in Fields(Key(NeighborItem(m)))
            && e.oldValue == ValueOf(NeighborItem(m), e.field.value)
            && e.newValue == ValueOf(NeighborItem(n), e.field.value)
            && e.oldValue != e.newValue
  {
    var all := Fields(Key(NeighborItem(m)));
    assert all[0] == RemoteAsField;
  }

  ghost predicate SomeInterfaceSays(was: Configuration, now: Configuration, e: DriftEntry) {
    exists i, j :: i in was.interfaces && Matched(i, now, j) && ReportsInterface(e, i, j)
  }

  ghost predicate SomeNeighborSays(was: Configuration, now: Configuration, e: DriftEntry) {
    exists m, n :: m in was.bgpNeighbors && MatchedNeighbor(m, now, n) && ReportsNeighbor(e, m, n)
  }

  /** A changed entry is exactly one record field of a matched pair of interfaces, or the remote AS of a
      matched pair of neighbors, that differs, with its two values; lists are never compared. */
  lemma {:induction false} ChangedOnRecords(was: Configuration, now: Configuration, e: DriftEntry)
    ensures e in Diff(Items(was), Items(now)).changed <==>
            SomeInterfaceSays(was, now, e) || SomeNeighborSays(was, now, e)
  {
    hide Changed, Find, ReportsInterface, ReportsNeighbor, Matched, MatchedNeighbor, ValueOf;
    ChangedAre(Items(was), Items(now), e);
    if e in Changed(Items(was), Items(now)) {
      var item :| item in Items(was) && Reports(item, Items(now), e);
      ReportIsOnRecords(was, now, item, e);
    }
    if SomeInterfaceSays(was, now, e) {
      var i, j :| i in was.interfaces && Matched(i, now, j) && ReportsInterface(e, i, j);
      InterfaceSays(was, now, i, j, e);
    }
    if SomeNeighborSays(was, now, e) {
      var m, n :| m in was.bgpNeighbors && MatchedNeighbor(m, now, n) && ReportsNeighbor(e, m, n);
      NeighborSays(was, now, m, n, e);
    }
  }

  lemma {:induction false} InterfaceSays(
    was: Configuration, now: Configuration, i: Interface, j: Interface, e: DriftEntry)
    requires i in was.interfaces && Matched(i, now, j) && ReportsInterface(e, i, j)
    ensures InterfaceItem(i) in Items(was) && Reports(InterfaceItem(i), Items(now), e)
  {
    hide Find, Items, ReportsInterface, ValueOf, Fields;
    InterfaceIsItem(was, i);
    InterfaceFound(now, i.name);
    ReadsInterfaces(i, j, e);
  }

  lemma {:induction false} NeighborSays(
    was: Configuration, now: Configuration, m: BgpNeighbor, n: BgpNeighbor, e: DriftEntry)
    requires m in was.bgpNeighbors && MatchedNeighbor(m, now, n) && ReportsNeighbor(e, m, n)
    ensures NeighborItem(m) in Items(was) && Reports(NeighborItem(m), Items(now), e)
  {
    hide Find, ReportsNeighbor, ValueOf, Fields;
    var k :| 0 <= k < |was.bgpNeighbors| && was.bgpNeighbors[k] == m;
    assert Items(was)[|was.interfaces| + k] == NeighborItem(m);
    NeighborFound(now, m.neighborIp);
    ReadsNeighbors(m, n, e);
  }

  lemma {:induction false} ReportIsOnRecords(was: Configuration, now: Configuration, item: Item, e: DriftEntry)
    requires item in Items(was) && Reports(item, Items(now), e)
    ensures SomeInterfaceSays(was, now, e) || SomeNeighborSays(was, now, e)
  {
    hide Find, ReportsInterface, ReportsNeighbor, ValueOf, LastInterface, LastNeighbor;
    var k :| 0 <= k < |Items(was)| && Items(was)[k] == item;
    ItemAt(was, k);
    var found := Find(Items(now), Key(item)).value;
    match item
    case InterfaceItem(i) =>
      InterfaceFound(now, i.name);
      FindIn(Items(now), Key(item));
      ReadsInterfaces(i, found.interface, e);
      assert i in was.interfaces && Matched(i, now, found.interface);
    case NeighborItem(m) =>
      NeighborFound(now, m.neighborIp);
      FindIn(Items(now), Key(item));
      ReadsNeighbors(m, found.neighbor, e);
      assert m in was.bgpNeighbors && MatchedNeighbor(m, now, found.neighbor);
    case AclItem(_) =>
  }

  /** Nothing is changed exactly when every matched pair agrees in all record fields that are compared. */
  lemma {:induction false} NothingChangedIff(was: Configuration, now: Configuration)
    ensures Diff(Items(was), Items(now)).changed == [] <==>
            && (forall i, j | i in was.interfaces && Matched(i, now, j) ::
                  && i.description == j.description && i.ipAddress == j.ipAddress && i.mtu == j.mtu
                  && i.adminState == j.adminState && i.aclIn == j.aclIn && i.aclOut == j.aclOut)
            && (forall m, n | m in was.bgpNeighbors && MatchedNeighbor(m, now, n) :: m.remoteAs == n.remoteAs)
  {
    hide Changed, Matched, MatchedNeighbor, Items;
    var changed := Diff(Items(was), Items(now)).changed;
    if changed != [] {
      ChangedOnRecords(was, now, changed[0]);
    }
    forall i, j | i in was.interfaces && Matched(i, now, j) && changed == []
      ensures i.description == j.description && i.ipAddress == j.ipAddress && i.mtu == j.mtu
      ensures i.adminState == j.adminState && i.aclIn == j.aclIn && i.aclOut == j.aclOut
    {
      if e :| ReportsInterface(e, i, j) { ChangedOnRecords(was, now, e); }
      DifferenceIsSaid(i, j);
    }
    forall m, n | m in was.bgpNeighbors && MatchedNeighbor(m, now, n)
        && changed == [] ensures m.remoteAs == n.remoteAs {
      var e := DriftEntry(NeighborResource(m.neighborIp), Some(RemoteAsField),
                          Some(Number(m.remoteAs)), Some(Number(n.remoteAs)));
      ChangedOnRecords(was, now, e);
    }
  }

  lemma DifferenceIsSaid(i: Interface, j: Interface)
    ensures (exists e :: ReportsInterface(e, i, j)) <==>
            || i.description != j.description || i.ipAddress != j.ipAddress || i.mtu != j.mtu
            || i.adminState != j.adminState || i.aclIn != j.aclIn || i.aclOut != j.aclOut
  {
    var r := InterfaceResource(i.name);
    var text := (t: Option<string>) => if t.Some? then Some(Text(t.value)) else None;
    assert i.description != j.description ==>
        ReportsInterface(DriftEntry(r, Some(DescriptionField), text(i.description), text(j.description)), i, j);
    assert i.ipAddress != j.ipAddress ==>
        ReportsInterface(DriftEntry(r, Some(IpAddressField),
          if i.ipAddress.Some? then Some(Network(i.ipAddress.value)) else None,
          if j.ipAddress.Some? then Some(Network(j.ipAddress.value)) else None), i, j);
    assert i.mtu != j.mtu ==>
        ReportsInterface(DriftEntry(r, Some(MtuField), if i.mtu.Some? then Some(Number(i.mtu.value)) else None,
                                    if j.mtu.Some? then Some(Number(j.mtu.value)) else None), i, j);
    assert i.adminState != j.adminState ==>
        ReportsInterface(DriftEntry(r, Some(AdminStateField), Some(State(i.adminState)), Some(State(j.adminState))),
                         i, j);
    assert i.aclIn != j.aclIn ==>
        ReportsInterface(DriftEntry(r, Some(AclInField), text(i.aclIn), text(j.aclIn)), i, j);
    assert i.aclOut != j.aclOut ==>
        ReportsInterface(DriftEntry(r, Some(AclOutField), text(i.aclOut), text(j.aclOut)), i, j);
  }

  // The order of the report

  /** The place of a compared field among those of its resource. */
  function Place(field: Field): nat {
    match field
    case DescriptionField => 0
    case IpAddressField => 1
    case MtuField => 2
    case AdminStateField => 3
    case AclInField => 4
    case AclOutField => 5
    case RemoteAsField => 0
  }

  lemma {:induction false} FieldsInOrder(fields: seq<Field>, was: Item, now: Item, p: nat, q: nat)
    requires forall a, b | 0 <= a < b < |fields| :: Place(fields[a]) < Place(fields[b])
    requires p < q < |FieldChanges(fields, was, now)|
    ensures var es := FieldChanges(fields, was, now);
            es[p].field.Some? && es[q].field.Some? && Place(es[p].field.value) < Place(es[q].field.value)
  {
    var n := |fields| - 1;
    var before, all := FieldChanges(fields[..n], was, now), FieldChanges(fields, was, now);
    FieldChangesAre(fields[..n], was, now, all[p]);
    if q < |before| {
      FieldsInOrder(fields[..n], was, now, p, q);
    } else {
      assert all[p] == before[p] && all[p] in before;
    }
  }

  /** Changed entries come in the order of the baseline's resources, those of one resource in the order of
      its compared fields. */
  lemma {:induction false} ChangedInOrder(baseline: seq<Item>, current: seq<Item>, p: nat, q: nat)
    returns (a: nat, b: nat)
    requires p < q < |Changed(baseline, current)|
    ensures a <= b < |baseline|
    ensures var es := Changed(baseline, current);
            && Key(baseline[a]) == es[p].resource && Key(baseline[b]) == es[q].resource
            && es[p].field.Some? && es[q].field.Some?
            && (a == b ==> Place(es[p].field.value) < Place(es[q].field.value))
  {
    var n := |baseline| - 1;
    var before, last := Changed(baseline[..n], current), ItemChanges(baseline[n], current);
    if q < |before| {
      a, b := ChangedInOrder(baseline[..n], current, p, q);
    } else if p < |before| {
      a := ChangedComesFrom(baseline[..n], current, p);
      b := n;
      LastChanges(baseline[n], current, q - |before|);
    } else {
      a, b := n, n;
      LastChanges(baseline[n], current, p - |before|);
      LastChanges(baseline[n], current, q - |before|);
      FieldsArePlaced(Key(baseline[n]));
      FieldsInOrder(Fields(Key(baseline[n])), baseline[n], Find(current, Key(baseline[n])).value,
                    p - |before|, q - |before|);
    }
  }

  lemma {:induction false} LastChanges(item: Item, current: seq<Item>, p: nat)
    requires p < |ItemChanges(item, current)|
    ensures Find(current, Key(item)).Some?
    ensures ItemChanges(item, current)[p].resource == Key(item) && ItemChanges(item, current)[p].field.Some?
  {
    hide FieldChanges, Find;
    FieldChangesAre(Fields(Key(item)), item, Find(current, Key(item)).value, ItemChanges(item, current)[p]);
  }

  lemma FieldsArePlaced(resource: Resource)
    ensures forall a, b | 0 <= a < b < |Fields(resource)| :: Place(Fields(resource)[a]) < Place(Fields(resource)[b])
  {
  }

  lemma {:induction false} ChangedComesFrom(baseline: seq<Item>, current: seq<Item>, p: nat) returns (a: nat)
    requires p < |Changed(baseline, current)|
    ensures a < |baseline| && Key(baseline[a]) == Changed(baseline, current)[p].resource
    ensures Changed(baseline, current)[p].field.Some?
  {
    var n := |baseline| - 1;
    var before := Changed(baseline[..n], current);
    if p < |before| {
      a := ChangedComesFrom(baseline[..n], current, p);
    } else {
      a := n;
      LastChanges(baseline[n], current, p - |before|);
    }
  }

  /** Removed entries come in the order of the baseline's resources; so, mirrored, do added ones in that of
      the current ones. */
  lemma {:induction false} RemovedInOrder(baseline: seq<Item>, current: seq<Item>, p: nat, q: nat)
    returns (a: nat, b: nat)
    requires p < q < |Removed(baseline, current)|
    ensures a < b < |baseline|
    ensures Key(baseline[a]) == Removed(baseline, current)[p].resource
    ensures Key(baseline[b]) == Removed(baseline, current)[q].resource
  {
    var n := |baseline| - 1;
    var before := Removed(baseline[..n], current);
    if q < |before| {
      a, b := RemovedInOrder(baseline[..n], current, p, q);
    } else {
      a := RemovedComesFrom(baseline[..n], current, p);
      b := n;
    }
  }

  lemma {:induction false} RemovedComesFrom(baseline: seq<Item>, current: seq<Item>, p: nat) returns (a: nat)
    requires p < |Removed(baseline, current)|
    ensures a < |baseline| && Key(baseline[a]) == Removed(baseline, current)[p].resource
  {
    var n := |baseline| - 1;
    if p < |Removed(baseline[..n], current)| {
      a := RemovedComesFrom(baseline[..n], current, p);
    } else {
      a := n;
    }
  }
}

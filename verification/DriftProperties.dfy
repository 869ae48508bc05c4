/** What a drift report says, exactly. */
module DriftProperties {
  import opened Wrappers
  import opened Config
  import opened Drift

  ghost predicate UniqueKeys(items: seq<Item>) {
    forall i, j | 0 <= i < j < |items| :: Key(items[i]) != Key(items[j])
  }

  ghost predicate HasKey(items: seq<Item>, key: Resource) {
    exists i | 0 <= i < |items| :: Key(items[i]) == key
  }

  lemma {:induction false} FindUnique(items: seq<Item>, item: Item)
    requires UniqueKeys(items) && item in items
    ensures Find(items, Key(item)) == Some(item)
  {
    FindIn(items, Key(item));
    var i :| 0 <= i < |items| && items[i] == item;
    var j :| 0 <= j < |items| && items[j] == Find(items, Key(item)).value;
    assert i == j;
  }

  // Membership, for any lists

  lemma {:induction false} RemovedAre(baseline: seq<Item>, current: seq<Item>, e: DriftEntry)
    ensures e in Removed(baseline, current) <==>
            && e == DriftEntry(e.resource, None, Some(Identity(e.resource)), None)
            && HasKey(baseline, e.resource) && !HasKey(current, e.resource)
  {
    if baseline != [] {
      var n := |baseline| - 1;
      RemovedAre(baseline[..n], current, e);
      FindIn(current, Key(baseline[n]));
      HasKeySnoc(baseline, e.resource);
    }
  }

  lemma HasKeySnoc(items: seq<Item>, key: Resource)
    requires items != []
    ensures HasKey(items, key) <==> HasKey(items[..|items| - 1], key) || Key(items[|items| - 1]) == key
  {
    var front := items[..|items| - 1];
    if HasKey(front, key) {
      var i :| 0 <= i < |front| && Key(front[i]) == key;
      assert Key(items[i]) == key;
    }
    if HasKey(items, key) && Key(items[|items| - 1]) != key {
      var i :| 0 <= i < |items| && Key(items[i]) == key;
      assert Key(front[i]) == key;
    }
  }

  /** What one comparison adds, the other removes, entry by entry and in the same order. */
  lemma {:induction false} AddedMirrorsRemoved(baseline: seq<Item>, current: seq<Item>)
    ensures |Added(baseline, current)| == |Removed(current, baseline)|
    ensures forall i | 0 <= i < |Added(baseline, current)| ::
              Added(baseline, current)[i] == Removed(current, baseline)[i].Mirror()
  {
    if current != [] {
      AddedMirrorsRemoved(baseline, current[..|current| - 1]);
    }
  }

  lemma {:induction false} FieldChangesAre(fields: seq<Field>, was: Item, now: Item, e: DriftEntry)
    ensures e in FieldChanges(fields, was, now) <==>
            && e.resource == Key(was) && e.field.Some? && e.field.value in fields
            && e.oldValue == ValueOf(was, e.field.value) && e.newValue == ValueOf(now, e.field.value)
            && e.oldValue != e.newValue
  {
    if fields != [] {
      var n := |fields| - 1;
      FieldChangesAre(fields[..n], was, now, e);
      assert fields == fields[..n] + [fields[n]];
    }
  }

  /** The change that an item of the baseline reports. */
  ghost predicate Reports(item: Item, current: seq<Item>, e: DriftEntry) {
    && Find(current, Key(item)).Some?
    && e.resource == Key(item) && e.field.Some? && e.field.value in Fields(Key(item))
    && e.oldValue == ValueOf(item, e.field.value)
    && e.newValue == ValueOf(Find(current, Key(item)).value, e.field.value)
    && e.oldValue != e.newValue
  }

  lemma {:induction false} ChangedAre(baseline: seq<Item>, current: seq<Item>, e: DriftEntry)
    ensures e in Changed(baseline, current) <==> exists item :: item in baseline && Reports(item, current, e)
  {
    hide Find, FieldChanges, Fields, ValueOf;
    if baseline != [] {
      var n := |baseline| - 1;
      var item := baseline[n];
      ChangedAre(baseline[..n], current, e);
      if Find(current, Key(item)).Some? {
        FieldChangesAre(Fields(Key(item)), item, Find(current, Key(item)).value, e);
      }
      assert e in ItemChanges(item, current) <==> Reports(item, current, e);
      assert baseline == baseline[..n] + [item];
    }
  }

  // The report

  /** No report ever holds an entry without an old and a new value; added and removed entries are
      whole-resource, changed ones name a compared field that differs. */
  lemma {:induction false} EntriesAreValid(baseline: seq<Item>, current: seq<Item>, e: DriftEntry)
    ensures e in Added(baseline, current) ==> e.Valid() && e.field == None && e.oldValue == None
    ensures e in Removed(baseline, current) ==> e.Valid() && e.field == None && e.newValue == None
    ensures e in Changed(baseline, current) ==> e.Valid() && e.field.Some? && e.oldValue != e.newValue
  {
    RemovedAre(baseline, current, e);
    ChangedAre(baseline, current, e);
    AddedMirrorsRemoved(baseline, current);
    if e in Added(baseline, current) {
      var i :| 0 <= i < |Added(baseline, current)| && Added(baseline, current)[i] == e;
      RemovedAre(current, baseline, Removed(current, baseline)[i]);
    }
  }

  /** Each compared field is set in both or in neither. */
  ghost predicate FieldsAlike(item: Item, other: Item) {
    forall field | field in Fields(Key(item)) :: ValueOf(item, field).Some? <==> ValueOf(other, field).Some?
  }

  /** No compared field was set or unset in a resource that both sides have. */
  ghost predicate SetAlike(baseline: seq<Item>, current: seq<Item>) {
    forall item | item in baseline && Find(current, Key(item)).Some? ::
      FieldsAlike(item, Find(current, Key(item)).value)
  }

  ghost predicate AllHaveBoth(entries: seq<DriftEntry>) {
    forall e | e in entries :: e.oldValue.Some? && e.newValue.Some?
  }

  /** The documentation says that a changed entry has both values. That holds of all changed entries
      exactly when no optional field was set or unset between the two, whether or not keys repeat. */
  lemma {:induction false} ChangedHasBothIff(baseline: seq<Item>, current: seq<Item>)
    ensures AllHaveBoth(Changed(baseline, current)) <==> SetAlike(baseline, current)
  {
    if SetAlike(baseline, current) {
      forall e | e in Changed(baseline, current) ensures e.oldValue.Some? && e.newValue.Some? {
        ChangedAre(baseline, current, e);
      }
    }
    if AllHaveBoth(Changed(baseline, current)) {
      forall item | item in baseline && Find(current, Key(item)).Some?
        ensures FieldsAlike(item, Find(current, Key(item)).value)
      {
        NothingSetOrUnset(baseline, current, item);
      }
    }
  }

  lemma {:induction false} NothingSetOrUnset(baseline: seq<Item>, current: seq<Item>, item: Item)
    requires AllHaveBoth(Changed(baseline, current)) && item in baseline && Find(current, Key(item)).Some?
    ensures FieldsAlike(item, Find(current, Key(item)).value)
  {
    var other := Find(current, Key(item)).value;
    forall field | field in Fields(Key(item)) ensures ValueOf(item, field).Some? <==> ValueOf(other, field).Some? {
      var e := DriftEntry(Key(item), Some(field), ValueOf(item, field), ValueOf(other, field));
      ChangedAre(baseline, current, e);
      assert e.oldValue != e.newValue ==> Reports(item, current, e);
    }
  }

  predicate OptionsAlike(i: Interface, j: Interface) {
    && (i.description.Some? <==> j.description.Some?) && (i.ipAddress.Some? <==> j.ipAddress.Some?)
    && (i.mtu.Some? <==> j.mtu.Some?)
    && (i.aclIn.Some? <==> j.aclIn.Some?) && (i.aclOut.Some? <==> j.aclOut.Some?)
  }

  /** The interface's optional fields are set as in the one it is compared with, if there is one. */
  ghost predicate InterfaceSetAlike(i: Interface, now: Configuration) {
    match Find(Items(now), InterfaceResource(i.name))
    case Some(InterfaceItem(j)) => OptionsAlike(i, j)
    case _ => true
  }

  /** Of two configurations only the five optional fields of their interfaces matter. */
  lemma {:induction false} ConfigurationsHaveBothIff(was: Configuration, now: Configuration)
    ensures AllHaveBoth(Changed(Items(was), Items(now))) <==>
            forall i | i in was.interfaces :: InterfaceSetAlike(i, now)
  {
    ChangedHasBothIff(Items(was), Items(now));
    if SetAlike(Items(was), Items(now)) {
      forall i | i in was.interfaces ensures InterfaceSetAlike(i, now) {
        InterfaceIsItem(was, i);
        AlikeIff(InterfaceItem(i), now);
      }
    }
    if forall i | i in was.interfaces :: InterfaceSetAlike(i, now) {
      forall item | item in Items(was) && Find(Items(now), Key(item)).Some?
        ensures FieldsAlike(item, Find(Items(now), Key(item)).value)
      {
        AlikeIff(item, now);
        ItemIsInterface(was, item);
      }
    }
  }

  lemma {:induction false} InterfaceIsItem(c: Configuration, i: Interface)
    requires i in c.interfaces
    ensures InterfaceItem(i) in Items(c)
  {
    var k :| 0 <= k < |c.interfaces| && c.interfaces[k] == i;
    assert Items(c)[k] == InterfaceItem(i);
  }

  lemma {:induction false} ItemIsInterface(c: Configuration, item: Item)
    requires item in Items(c)
    ensures item.InterfaceItem? ==> item.interface in c.interfaces
  {
  }

  lemma {:induction false} AlikeIff(item: Item, now: Configuration)
    ensures Find(Items(now), Key(item)).Some? ==>
              (FieldsAlike(item, Find(Items(now), Key(item)).value) <==>
               (item.InterfaceItem? ==> InterfaceSetAlike(item.interface, now)))
  {
    FindIn(Items(now), Key(item));
    var found := Find(Items(now), Key(item));
    if found.Some? { FieldsAlikeIff(item, found.value); }
  }

  lemma {:induction false} FieldsAlikeIff(item: Item, other: Item)
    requires Key(item) == Key(other)
    ensures item.InterfaceItem? ==>
              other.InterfaceItem? && (FieldsAlike(item, other) <==> OptionsAlike(item.interface, other.interface))
    ensures !item.InterfaceItem? ==> FieldsAlike(item, other)
  {
    if item.InterfaceItem? {
      var all := Fields(Key(item));
      assert all[0].DescriptionField? && all[1].IpAddressField? && all[2].MtuField?;
      assert all[4].AclInField? && all[5].AclOutField?;
      assert all[0] in all && all[1] in all && all[2] in all && all[4] in all && all[5] in all;
    }
  }

  /** Two configurations of one device whose only change has no old value. */
  lemma {:induction false} ChangedMayLackAValue() returns (was: Configuration, now: Configuration, e: DriftEntry)
    ensures UniqueKeys(Items(was)) && UniqueKeys(Items(now)) && was.hostname == now.hostname
    ensures e in Changed(Items(was), Items(now)) && e.oldValue == None && e.newValue.Some?
  {
    var plain := Interface("eth0", None, None, None, Up, None, None);
    var other := plain.(description := Some("uplink"));
    was, now := Configuration("leaf-1", [plain], [], []), Configuration("leaf-1", [other], [], []);
    OneInterface(was, plain);
    OneInterface(now, other);
    e := DriftEntry(Key(InterfaceItem(plain)), Some(DescriptionField), None, Some(Text("uplink")));
    assert Fields(e.resource)[0] == DescriptionField;
    ChangesAreExact(Items(was), Items(now), InterfaceItem(plain), InterfaceItem(other), e);
  }

  lemma OneInterface(c: Configuration, i: Interface)
    requires c.interfaces == [i] && c.bgpNeighbors == [] && c.acls == []
    ensures Items(c) == [InterfaceItem(i)]
  {
  }

  ghost predicate IsReported(entries: seq<DriftEntry>, key: Resource) {
    exists e :: e in entries && e.resource == key
  }

  /** The current resources are the baseline's without the removed ones and with the added ones. */
  lemma {:induction false} KeysAreExact(baseline: seq<Item>, current: seq<Item>, key: Resource)
    ensures IsReported(Removed(baseline, current), key) <==> HasKey(baseline, key) && !HasKey(current, key)
    ensures IsReported(Added(baseline, current), key) <==> HasKey(current, key) && !HasKey(baseline, key)
    ensures HasKey(current, key) <==>
            (HasKey(baseline, key) && !IsReported(Removed(baseline, current), key))
            || IsReported(Added(baseline, current), key)
  {
    RemovedAre(baseline, current, DriftEntry(key, None, Some(Identity(key)), None));
    RemovedAre(current, baseline, DriftEntry(key, None, Some(Identity(key)), None));
    if IsReported(Removed(baseline, current), key) {
      var e :| e in Removed(baseline, current) && e.resource == key;
      RemovedAre(baseline, current, e);
    }
    AddedMirrorsRemoved(baseline, current);
    if IsReported(Added(baseline, current), key) {
      var e :| e in Added(baseline, current) && e.resource == key;
      var i :| 0 <= i < |Added(baseline, current)| && Added(baseline, current)[i] == e;
      RemovedAre(current, baseline, Removed(current, baseline)[i]);
    }
    if HasKey(current, key) && !HasKey(baseline, key) {
      var gone := DriftEntry(key, None, Some(Identity(key)), None);
      var i :| 0 <= i < |Removed(current, baseline)| && Removed(current, baseline)[i] == gone;
      assert Added(baseline, current)[i] in Added(baseline, current);
    }
  }

  /** With unique keys a compared field of a resource that both sides have is reported, with its two
      values, exactly when they differ. */
  lemma {:induction false} ChangesAreExact(baseline: seq<Item>, current: seq<Item>, was: Item, now: Item, e: DriftEntry)
    requires UniqueKeys(baseline) && UniqueKeys(current)
    requires was in baseline && now in current && Key(was) == Key(now) == e.resource
    ensures e in Changed(baseline, current) <==>
            && e.field.Some? && e.field.value in Fields(e.resource)
            && e.oldValue == ValueOf(was, e.field.value) && e.newValue == ValueOf(now, e.field.value)
            && e.oldValue != e.newValue
  {
    ChangedAre(baseline, current, e);
    FindUnique(current, now);
    if e in Changed(baseline, current) {
      var item :| item in baseline && Reports(item, current, e);
      FindUnique(baseline, item);
      FindUnique(baseline, was);
    }
    assert Reports(was, current, e) ==> e in Changed(baseline, current);
  }

  lemma {:induction false} ChangesMirror(baseline: seq<Item>, current: seq<Item>, e: DriftEntry)
    requires UniqueKeys(baseline) && UniqueKeys(current) && e in Changed(baseline, current)
    ensures e.Mirror() in Changed(current, baseline)
  {
    ChangedAre(baseline, current, e);
    var was :| was in baseline && Reports(was, current, e);
    FindIn(current, Key(was));
    var now := Find(current, Key(was)).value;
    ChangesAreExact(current, baseline, now, was, e.Mirror());
  }

  ghost predicate NoRepeats(entries: seq<DriftEntry>) {
    forall i, j | 0 <= i < j < |entries| :: entries[i] != entries[j]
  }

  /** Swapping the arguments mirrors the report: additions and removals in order, changes up to order. */
  lemma {:induction false} SwappingMirrors(baseline: seq<Item>, current: seq<Item>, e: DriftEntry)
    requires UniqueKeys(baseline) && UniqueKeys(current)
    ensures |Added(baseline, current)| == |Removed(current, baseline)|
    ensures forall i | 0 <= i < |Added(baseline, current)| ::
              Added(baseline, current)[i] == Removed(current, baseline)[i].Mirror()
    ensures e in Changed(baseline, current) <==> e.Mirror() in Changed(current, baseline)
    ensures NoRepeats(Changed(baseline, current)) && NoRepeats(Changed(current, baseline))
  {
    AddedMirrorsRemoved(baseline, current);
    if e in Changed(baseline, current) { ChangesMirror(baseline, current, e); }
    if e.Mirror() in Changed(current, baseline) { ChangesMirror(current, baseline, e.Mirror()); }
    ChangesNeverRepeat(baseline, current);
    ChangesNeverRepeat(current, baseline);
  }

  lemma {:induction false} FieldsNeverRepeat(fields: seq<Field>, was: Item, now: Item)
    requires forall i, j | 0 <= i < j < |fields| :: fields[i] != fields[j]
    ensures NoRepeats(FieldChanges(fields, was, now))
  {
    if fields != [] {
      var n := |fields| - 1;
      FieldsNeverRepeat(fields[..n], was, now);
      var before := FieldChanges(fields[..n], was, now);
      forall i | 0 <= i < |before| ensures before[i].field != Some(fields[n]) {
        FieldChangesAre(fields[..n], was, now, before[i]);
      }
    }
  }

  lemma {:induction false} ChangesNeverRepeat(baseline: seq<Item>, current: seq<Item>)
    requires UniqueKeys(baseline)
    ensures NoRepeats(Changed(baseline, current))
  {
    hide Find, FieldChanges, ValueOf;
    if baseline != [] {
      var n := |baseline| - 1;
      var item := baseline[n];
      ChangesNeverRepeat(baseline[..n], current);
      var before, last := Changed(baseline[..n], current), ItemChanges(item, current);
      if Find(current, Key(item)).Some? {
        FieldsNeverRepeat(Fields(Key(item)), item, Find(current, Key(item)).value);
      }
      forall i, j | 0 <= i < |before| && 0 <= j < |last| ensures before[i] != last[j] {
        ChangedAre(baseline[..n], current, before[i]);
        var other :| other in baseline[..n] && Reports(other, current, before[i]);
        var k :| 0 <= k < n && baseline[k] == other;
        FieldChangesAre(Fields(Key(item)), item, Find(current, Key(item)).value, last[j]);
      }
    }
  }

  // Comparing a configuration with itself

  /** Two items agree on every compared field. */
  ghost predicate SameCompared(a: Item, b: Item) {
    forall k | 0 <= k < |Fields(Key(a))| :: ValueOf(a, Fields(Key(a))[k]) == ValueOf(b, Fields(Key(a))[k])
  }

  /** A configuration has no drift from itself just when every resource agrees with the last one of its
      key, which is not a matter of course. */
  lemma {:induction false} SelfComparison(items: seq<Item>)
    ensures Added(items, items) == [] && Removed(items, items) == []
    ensures Changed(items, items) == [] <==>
            forall i | 0 <= i < |items| ::
              Find(items, Key(items[i])).Some? && SameCompared(items[i], Find(items, Key(items[i])).value)
  {
    forall e ensures e !in Removed(items, items) { RemovedAre(items, items, e); }
    assert Removed(items, items) == [] by {
      if Removed(items, items) != [] { assert Removed(items, items)[0] in Removed(items, items); }
    }
    AddedMirrorsRemoved(items, items);
    forall i | 0 <= i < |items| ensures Find(items, Key(items[i])).Some? { FindIn(items, Key(items[i])); }
    if Changed(items, items) != [] {
      var e := Changed(items, items)[0];
      ChangedAre(items, items, e);
      var item :| item in items && Reports(item, items, e);
      var i :| 0 <= i < |items| && items[i] == item;
      var k :| 0 <= k < |Fields(Key(item))| && Fields(Key(item))[k] == e.field.value;
      assert !SameCompared(items[i], Find(items, Key(items[i])).value);
    } else {
      forall i | 0 <= i < |items| ensures SameCompared(items[i], Find(items, Key(items[i])).value) {
        NoChangeIsSame(items, i);
      }
    }
  }

  lemma {:induction false} NoChangeIsSame(items: seq<Item>, i: nat)
    requires i < |items| && Find(items, Key(items[i])).Some? && Changed(items, items) == []
    ensures SameCompared(items[i], Find(items, Key(items[i])).value)
  {
    var item, last := items[i], Find(items, Key(items[i])).value;
    forall k | 0 <= k < |Fields(Key(item))|
      ensures ValueOf(item, Fields(Key(item))[k]) == ValueOf(last, Fields(Key(item))[k])
    {
      var field := Fields(Key(item))[k];
      var e := DriftEntry(Key(item), Some(field), ValueOf(item, field), ValueOf(last, field));
      ChangedAre(items, items, e);
      assert item in items;
      assert ValueOf(item, field) != ValueOf(last, field) ==> Reports(item, items, e);
    }
  }
}

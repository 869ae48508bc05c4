/** Drift between configurations that the adapters produced. */
module DriftOfParsed {
  import opened Wrappers
  import opened Config
  import opened Adapters
  import opened RoundTrip
  import opened Drift
  import opened DriftProperties

  /** Neighbors with one address have one remote AS: the only thing an adapter leaves open. */
  ghost predicate OneRemoteAsEach(neighbors: seq<BgpNeighbor>) {
    forall i, j | 0 <= i < j < |neighbors| && neighbors[i].neighborIp == neighbors[j].neighborIp ::
      neighbors[i].remoteAs == neighbors[j].remoteAs
  }

  lemma InterfaceIsLast(vendor: Vendor, c: Configuration, i: Interface)
    requires WellFormed(vendor, c) && i in c.interfaces
    ensures Find(Items(c), InterfaceResource(i.name)) == Some(InterfaceItem(i))
  {
    var items := Items(c);
    FindIn(items, InterfaceResource(i.name));
    var k :| 0 <= k < |c.interfaces| && c.interfaces[k] == i;
    assert items[k] == InterfaceItem(i);
    var found := Find(items, InterfaceResource(i.name));
    assert found.Some?;
    var m :| 0 <= m < |items| && items[m] == found.value;
    assert m < |c.interfaces|;
    InterfaceNamesAt(c.interfaces);
    var names := InterfaceNames(c.interfaces);
    assert names[k] == names[m];
    assert k == m;
  }

  lemma NeighborOfItem(c: Configuration, item: Item) returns (i: nat)
    requires item in Items(c) && item.NeighborItem?
    ensures i < |c.bgpNeighbors| && item == NeighborItem(c.bgpNeighbors[i])
  {
    var k :| 0 <= k < |Items(c)| && Items(c)[k] == item;
    i := k - |c.interfaces|;
  }

  lemma NeighborsAreItems(c: Configuration, i: nat)
    requires i < |c.bgpNeighbors|
    ensures |c.interfaces| + i < |Items(c)| && Items(c)[|c.interfaces| + i] == NeighborItem(c.bgpNeighbors[i])
  {
  }

  lemma NeighborIsLikeItsLast(c: Configuration, item: Item)
    requires OneRemoteAsEach(c.bgpNeighbors) && item in Items(c) && item.NeighborItem?
    requires Find(Items(c), Key(item)).Some?
    ensures SameCompared(item, Find(Items(c), Key(item)).value)
  {
    FindIn(Items(c), Key(item));
    var last := Find(Items(c), Key(item)).value;
    var i := NeighborOfItem(c, item);
    var j := NeighborOfItem(c, last);
    assert item.neighbor.neighborIp == last.neighbor.neighborIp;
    assert item.neighbor.remoteAs == last.neighbor.remoteAs;
  }

  lemma ItemIsLikeItsLast(vendor: Vendor, c: Configuration, item: Item)
    requires WellFormed(vendor, c) && OneRemoteAsEach(c.bgpNeighbors) && item in Items(c)
    requires Find(Items(c), Key(item)).Some?
    ensures SameCompared(item, Find(Items(c), Key(item)).value)
  {
    if item.NeighborItem? {
      NeighborIsLikeItsLast(c, item);
    } else if item.InterfaceItem? {
      assert item.interface in c.interfaces by {
        var k :| 0 <= k < |Items(c)| && Items(c)[k] == item;
        assert c.interfaces[k] == item.interface;
      }
      InterfaceIsLast(vendor, c, item.interface);
    }
  }

  lemma TwoRemoteAsesDiffer(c: Configuration, i: nat, j: nat)
    requires i < j < |c.bgpNeighbors| && c.bgpNeighbors[i].neighborIp == c.bgpNeighbors[j].neighborIp
    requires c.bgpNeighbors[i].remoteAs != c.bgpNeighbors[j].remoteAs
    ensures exists k | 0 <= k < |Items(c)| ::
              Find(Items(c), Key(Items(c)[k])).Some?
              && !SameCompared(Items(c)[k], Find(Items(c), Key(Items(c)[k])).value)
  {
    NeighborsAreItems(c, i);
    NeighborsAreItems(c, j);
    var a, b := |c.interfaces| + i, |c.interfaces| + j;
    var key := Key(Items(c)[a]);
    FindIn(Items(c), key);
    var last := Find(Items(c), key).value;
    assert Fields(key)[0] == RemoteAsField;
    if ValueOf(last, RemoteAsField) == ValueOf(Items(c)[a], RemoteAsField) {
      assert !SameCompared(Items(c)[b], last);
    } else {
      assert !SameCompared(Items(c)[a], last);
    }
  }

  /** For a configuration that an adapter produced, the promise that it has no drift from itself holds
      exactly when no neighbor is declared twice with two remote ASes. */
  lemma ParsedHasNoSelfDriftIff(vendor: Vendor, c: Configuration)
    requires WellFormed(vendor, c)
    ensures Diff(Items(c), Items(c)) == DriftReport([], [], []) <==> OneRemoteAsEach(c.bgpNeighbors)
  {
    var items := Items(c);
    SelfComparison(items);
    if OneRemoteAsEach(c.bgpNeighbors) {
      forall i | 0 <= i < |items|
        ensures Find(items, Key(items[i])).Some? && SameCompared(items[i], Find(items, Key(items[i])).value)
      {
        FindIn(items, Key(items[i]));
        ItemIsLikeItsLast(vendor, c, items[i]);
      }
    } else {
      var i, j :| 0 <= i < j < |c.bgpNeighbors| && c.bgpNeighbors[i].neighborIp == c.bgpNeighbors[j].neighborIp
                  && c.bgpNeighbors[i].remoteAs != c.bgpNeighbors[j].remoteAs;
      TwoRemoteAsesDiffer(c, i, j);
    }
  }

  /** A text whose drift from itself is not empty: one neighbor, two remote ASes. */
  lemma SelfDriftExists(vendor: Vendor) returns (lines: seq<Line>)
    ensures Parse(vendor, lines).Success?
    ensures var c := Parse(vendor, lines).value;
            Diff(Items(c), Items(c)) != DriftReport([], [], [])
  {
    var neighbors := [BgpNeighbor(1, 65000), BgpNeighbor(1, 65001)];
    var c := Configuration("edge", [], neighbors, []);
    lines := Render(c);
    ParseOfRender(vendor, c);
    assert !OneRemoteAsEach(c.bgpNeighbors) by {
      assert neighbors[0].neighborIp == neighbors[1].neighborIp && neighbors[0].remoteAs != neighbors[1].remoteAs;
    }
    ParsedHasNoSelfDriftIff(vendor, c);
  }
}

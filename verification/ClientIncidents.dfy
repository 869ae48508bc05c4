/** How the dashboard merges incident responses that arrive in any order, and why it converges. */
module ClientIncidents {
  import opened Wrappers
  import opened Incidents

  /** A response as the client compares it: `updatedAt` is the parsed instant, `None` if it does not
      parse; `body` stands for every other server-owned field. */
  datatype Response = Response(id: nat, status: Status, occurrenceCount: nat, updatedAt: Option<int>, body: Incident)

  /** `pickIncident` */
  function Pick(current: Response, incoming: Response): Response {
    if current.updatedAt.Some? && incoming.updatedAt.Some? && current.updatedAt != incoming.updatedAt then
      if incoming.updatedAt.value > current.updatedAt.value then incoming else current
    else if current.status.Resolved? && !incoming.status.Resolved? then current
    else if incoming.status.Resolved? && !current.status.Resolved? then incoming
    else if current.updatedAt.Some? && incoming.updatedAt.Some?
            && current.occurrenceCount != incoming.occurrenceCount then
      if current.occurrenceCount > incoming.occurrenceCount then current else incoming
    else incoming
  }

  /** The last entry with an identifier, as a `Map` built from the list holds it. */
  function Find(list: seq<Response>, id: nat): (r: Option<Response>)
    ensures r.Some? ==> r.value in list && r.value.id == id
    ensures r.None? ==> forall x | x in list :: x.id != id
  {
    if list == [] then None
    else if list[|list| - 1].id == id then Some(list[|list| - 1])
    else Find(list[..|list| - 1], id)
  }

  function MergeEach(incoming: seq<Response>, current: seq<Response>): seq<Response> {
    if incoming == [] then []
    else
      var last := incoming[|incoming| - 1];
      var held := Find(current, last.id);
      MergeEach(incoming[..|incoming| - 1], current) + [if held.Some? then Pick(held.value, last) else last]
  }

  function Missing(current: seq<Response>, incoming: seq<Response>): seq<Response> {
    if current == [] then []
    else
      var before, last := Missing(current[..|current| - 1], incoming), current[|current| - 1];
      if Find(incoming, last.id).None? then before + [last] else before
  }

  /** `mergeIncidentLists`: the incoming order, then what only the client still holds. */
  function Merge(incoming: seq<Response>, current: seq<Response>): seq<Response> {
    MergeEach(incoming, current) + Missing(current, incoming)
  }

  // The order behind the choice

  ghost predicate RankLess(a: Response, b: Response)
    requires a.updatedAt.Some? && b.updatedAt.Some?
  {
    || a.updatedAt.value < b.updatedAt.value
    || (a.updatedAt == b.updatedAt && !a.status.Resolved? && b.status.Resolved?)
    || (a.updatedAt == b.updatedAt && a.status.Resolved? == b.status.Resolved? && a.occurrenceCount < b.occurrenceCount)
  }

  /** With parsed instants the choice is the greater rank, the incoming response winning a tie. */
  lemma PickIsGreatest(current: Response, incoming: Response)
    requires current.updatedAt.Some? && incoming.updatedAt.Some?
    ensures Pick(current, incoming) == if RankLess(incoming, current) then current else incoming
  {
  }

  /** If either instant does not parse, a resolved response is kept and otherwise the incoming one is taken. */
  lemma PickWithoutInstant(current: Response, incoming: Response)
    requires current.updatedAt.None? || incoming.updatedAt.None?
    ensures Pick(current, incoming) ==
            if current.status.Resolved? && !incoming.status.Resolved? then current else incoming
  {
  }

  /** Whatever the timestamps, a resolved incident is only replaced by a resolved one or by a
      response with a strictly later instant. */
  lemma PickKeepsResolved(current: Response, incoming: Response)
    requires current.status.Resolved? && !Pick(current, incoming).status.Resolved?
    ensures current.updatedAt.Some? && incoming.updatedAt.Some? && current.updatedAt.value < incoming.updatedAt.value
  {
  }

  // Server versions

  ghost predicate Monotone(parse: int -> int) {
    forall s, t | s <= t :: parse(s) <= parse(t)
  }

  /** A row as served and read back; parsing may drop the sub-millisecond part of an instant. */
  function Rendered(row: Incident, parse: int -> int): Response {
    Response(row.incidentId, row.status, row.occurrenceCount, Some(parse(row.updatedAt)), row)
  }

  /** Every change the server makes to a row raises its rank, even through a lossy clock. */
  lemma ServerOrderIsRankOrder(before: Incident, after: Incident, parse: int -> int)
    requires Monotone(parse) && Follows(before, after)
    requires !before.status.Acknowledged? && !after.status.Acknowledged?
    ensures after == before || RankLess(Rendered(before, parse), Rendered(after, parse))
  {
    assert parse(before.updatedAt) <= parse(after.updatedAt);
  }

  /** The committed states of a server over time. */
  ghost predicate History(h: seq<Table>) {
    && (forall i | 0 <= i < |h| :: SoundTable(h[i]))
    && (forall i, j | 0 <= i <= j < |h| :: TableFollows(h[i], h[j]))
  }

  function Later(i: nat, j: nat): nat {
    if i < j then j else i
  }

  /** Of two versions of one incident the client keeps the later, whichever it already holds. */
  lemma PickKeepsLaterVersion(h: seq<Table>, parse: int -> int, id: nat, i: nat, j: nat)
    requires History(h) && Monotone(parse) && i < |h| && j < |h| && id < |h[i]| && id < |h[j]|
    ensures id < |h[Later(i, j)]|
    ensures Pick(Rendered(h[i][id], parse), Rendered(h[j][id], parse)) == Rendered(h[Later(i, j)][id], parse)
  {
    if i <= j {
      assert Follows(h[i][id], h[j][id]);
      ServerOrderIsRankOrder(h[i][id], h[j][id], parse);
      PickIsGreatest(Rendered(h[i][id], parse), Rendered(h[j][id], parse));
    } else {
      assert Follows(h[j][id], h[i][id]);
      ServerOrderIsRankOrder(h[j][id], h[i][id], parse);
      PickIsGreatest(Rendered(h[i][id], parse), Rendered(h[j][id], parse));
    }
  }

  // Merging keeps identifiers

  ghost predicate DistinctIds(list: seq<Response>) {
    forall i, j | 0 <= i < j < |list| :: list[i].id != list[j].id
  }

  lemma {:induction false} FindUnique(list: seq<Response>, r: Response)
    requires DistinctIds(list) && r in list
    ensures Find(list, r.id) == Some(r)
  {
    var i :| 0 <= i < |list| && list[i] == r;
    var found := Find(list, r.id);
    assert found.Some?;
    var j :| 0 <= j < |list| && list[j] == found.value;
    assert i == j;
  }

  lemma {:induction false} MergeEachAt(incoming: seq<Response>, current: seq<Response>)
    ensures |MergeEach(incoming, current)| == |incoming|
    ensures forall i | 0 <= i < |incoming| ::
              MergeEach(incoming, current)[i] ==
              var held := Find(current, incoming[i].id);
              if held.Some? then Pick(held.value, incoming[i]) else incoming[i]
  {
    if incoming != [] {
      MergeEachAt(incoming[..|incoming| - 1], current);
    }
  }

  lemma {:induction false} MissingHas(current: seq<Response>, incoming: seq<Response>, r: Response)
    ensures r in Missing(current, incoming) <==> r in current && Find(incoming, r.id).None?
  {
    hide Find;
    if current != [] {
      MissingHas(current[..|current| - 1], incoming, r);
      assert current == current[..|current| - 1] + [current[|current| - 1]];
    }
  }

  lemma {:induction false} MissingDistinct(current: seq<Response>, incoming: seq<Response>)
    requires DistinctIds(current)
    ensures DistinctIds(Missing(current, incoming))
  {
    hide Find;
    if current != [] {
      var front, last := current[..|current| - 1], current[|current| - 1];
      MissingDistinct(front, incoming);
      forall r | r in Missing(front, incoming) ensures r.id != last.id {
        MissingHas(front, incoming, r);
        var k :| 0 <= k < |front| && front[k] == r;
        assert current[k] == r;
      }
    }
  }

  lemma {:induction false} MissingAre(current: seq<Response>, incoming: seq<Response>)
    requires DistinctIds(current)
    ensures DistinctIds(Missing(current, incoming))
    ensures forall r :: r in Missing(current, incoming) <==> r in current && Find(incoming, r.id).None?
  {
    hide Missing, Find, DistinctIds;
    MissingDistinct(current, incoming);
    forall r ensures r in Missing(current, incoming) <==> r in current && Find(incoming, r.id).None? {
      MissingHas(current, incoming, r);
    }
  }

  lemma PickKeepsId(current: Response, incoming: Response)
    requires current.id == incoming.id
    ensures Pick(current, incoming).id == incoming.id
  {
  }

  /** Merging neither drops nor duplicates an incident: each identifier of either list appears once,
      with the chosen response where both lists have it. */
  lemma {:induction false} MergeIsExact(incoming: seq<Response>, current: seq<Response>, id: nat)
    requires DistinctIds(incoming) && DistinctIds(current)
    ensures DistinctIds(Merge(incoming, current))
    ensures Find(Merge(incoming, current), id) ==
            match (Find(incoming, id), Find(current, id))
            case (Some(i), Some(c)) => Some(Pick(c, i))
            case (Some(i), None) => Some(i)
            case (None, held) => held
  {
    hide MergeEach, Missing, Find, Pick;
    var each, missing := MergeEach(incoming, current), Missing(current, incoming);
    var merged := Merge(incoming, current);
    MergeEachAt(incoming, current);
    MissingAre(current, incoming);
    forall i | 0 <= i < |each| ensures each[i].id == incoming[i].id {
      var held := Find(current, incoming[i].id);
      if held.Some? { PickKeepsId(held.value, incoming[i]); }
    }
    forall i, r | 0 <= i < |each| && r in missing ensures each[i].id != r.id {
      assert incoming[i] in incoming;
    }
    assert DistinctIds(merged);
    var i := Find(incoming, id);
    if i.Some? {
      var k :| 0 <= k < |incoming| && incoming[k] == i.value;
      assert merged[k] == each[k];
      FindUnique(merged, merged[k]);
    } else if Find(current, id).Some? {
      assert Find(current, id).value in merged;
      FindUnique(merged, Find(current, id).value);
    } else {
      forall r | r in merged ensures r.id != id {
        var k :| 0 <= k < |merged| && merged[k] == r;
        if k < |each| { assert incoming[k] in incoming; } else { assert merged[k] == missing[k - |each|]; }
      }
    }
  }

  ghost predicate InOrder(list: seq<Response>, a: Response, b: Response) {
    exists p, q :: 0 <= p < q < |list| && list[p] == a && list[q] == b
  }

  /** The merged list has the incoming order, and then what only the client held in the order it had. */
  lemma {:induction false} MergeKeepsOrder(incoming: seq<Response>, current: seq<Response>)
    ensures |Merge(incoming, current)| >= |incoming|
    ensures forall i | 0 <= i < |incoming| :: Merge(incoming, current)[i].id == incoming[i].id
    ensures forall i, j | |incoming| <= i < j < |Merge(incoming, current)| ::
              InOrder(current, Merge(incoming, current)[i], Merge(incoming, current)[j])
  {
    hide Find, Pick;
    var merged, missing, n := Merge(incoming, current), Missing(current, incoming), |incoming|;
    MergeEachAt(incoming, current);
    forall i | 0 <= i < n ensures merged[i].id == incoming[i].id {
      var held := Find(current, incoming[i].id);
      if held.Some? { PickKeepsId(held.value, incoming[i]); }
    }
    forall i, j | n <= i < j < |merged|
      ensures InOrder(current, merged[i], merged[j])
    {
      var p, q := MissingInOrder(current, incoming, i - n, j - n);
      assert current[p] == merged[i] && current[q] == merged[j];
    }
  }

  lemma {:induction false} MissingInOrder(current: seq<Response>, incoming: seq<Response>, i: nat, j: nat)
    returns (p: nat, q: nat)
    requires i < j < |Missing(current, incoming)|
    ensures p < q < |current|
    ensures current[p] == Missing(current, incoming)[i] && current[q] == Missing(current, incoming)[j]
  {
    hide Find;
    var n := |current| - 1;
    var before := Missing(current[..n], incoming);
    if j < |before| {
      p, q := MissingInOrder(current[..n], incoming, i, j);
    } else {
      q := n;
      MissingHas(current[..n], incoming, before[i]);
      p :| 0 <= p < n && current[..n][p] == before[i];
    }
  }

  // Deliveries

  /** A list or a single resolve response, with the server state it was read from. */
  datatype Delivery = GetList(list: seq<Response>, at: nat) | PostOne(response: Response, at: nat)

  function FirstIndex(list: seq<Response>, id: nat): (i: nat)
    requires exists k | 0 <= k < |list| :: list[k].id == id
    ensures i < |list| && list[i].id == id
  {
    if list[0].id == id then 0 else 1 + FirstIndex(list[1..], id)
  }

  lemma {:induction false} FirstIndexIsFirst(list: seq<Response>, id: nat)
    requires exists k | 0 <= k < |list| :: list[k].id == id
    ensures forall k | 0 <= k < FirstIndex(list, id) :: list[k].id != id
  {
    if list[0].id != id {
      FirstIndexIsFirst(list[1..], id);
      assert forall k | 1 <= k < |list| :: list[k] == list[1..][k - 1];
    }
  }

  /** What `resolveIncident` does with a response: replace the shown incident, never insert one. */
  function Replace(shown: seq<Response>, r: Response): seq<Response> {
    if exists k | 0 <= k < |shown| :: shown[k].id == r.id then
      var i := FirstIndex(shown, r.id);
      shown[i := Pick(shown[i], r)]
    else shown
  }

  function Deliver(shown: seq<Response>, d: Delivery): seq<Response> {
    match d
    case GetList(list, _) => Merge(list, shown)
    case PostOne(r, _) => Replace(shown, r)
  }

  function DeliverAll(shown: seq<Response>, ds: seq<Delivery>): seq<Response> {
    if ds == [] then shown else Deliver(DeliverAll(shown, ds[..|ds| - 1]), ds[|ds| - 1])
  }

  /** Rendered from one server state of the history, the list in any order. */
  ghost predicate Genuine(d: Delivery, h: seq<Table>, parse: int -> int) {
    d.at < |h| &&
    match d
    case GetList(list, at) =>
      DistinctIds(list)
      && forall id: nat :: Find(list, id) == if id < |h[at]| then Some(Rendered(h[at][id], parse)) else None
    case PostOne(r, at) => r.id < |h[at]| && r == Rendered(h[at][r.id], parse)
  }

  /** The delivery says something about an incident. */
  predicate Carries(d: Delivery, h: seq<Table>, id: nat) {
    d.at < |h| && id < |h[d.at]| && (d.PostOne? ==> d.response.id == id)
  }

  /** The client shows exactly this version of an incident, or does not show it at all. */
  ghost predicate Shows(shown: seq<Response>, h: seq<Table>, parse: int -> int, id: nat, version: Option<nat>) {
    match version
    case None => Find(shown, id).None?
    case Some(i) => i < |h| && id < |h[i]| && Find(shown, id) == Some(Rendered(h[i][id], parse))
  }

  /** The version of an incident on display after a delivery: the later of the two, except that a
      resolve response never introduces an incident. */
  function Advance(version: Option<nat>, h: seq<Table>, d: Delivery, id: nat): Option<nat> {
    if !Carries(d, h, id) then version
    else match version
      case None => if d.GetList? then Some(d.at) else None
      case Some(i) => Some(Later(i, d.at))
  }

  lemma {:induction false} ReplaceIsExact(shown: seq<Response>, r: Response, id: nat)
    requires DistinctIds(shown)
    ensures DistinctIds(Replace(shown, r))
    ensures Find(Replace(shown, r), id) ==
            if id == r.id && Find(shown, id).Some? then Some(Pick(Find(shown, id).value, r)) else Find(shown, id)
  {
    if exists k | 0 <= k < |shown| :: shown[k].id == r.id {
      var i := FirstIndex(shown, r.id);
      var after := shown[i := Pick(shown[i], r)];
      PickKeepsId(shown[i], r);
      assert forall k | 0 <= k < |shown| :: after[k].id == shown[k].id;
      assert shown[i] in shown;
      FindUnique(shown, shown[i]);
      assert after[i] in after;
      FindUnique(after, after[i]);
      var held := Find(shown, id);
      if id != r.id && held.Some? {
        var k :| 0 <= k < |shown| && shown[k] == held.value;
        assert after[k] in after;
        FindUnique(after, after[k]);
      } else if id != r.id {
        forall x | x in after ensures x.id != id {
          var k :| 0 <= k < |after| && after[k] == x;
          assert shown[k] in shown;
        }
      }
    }
  }

  /** A resolve response touches one place of the list at most, that of its incident. */
  lemma {:induction false} ReplaceKeepsPlaces(shown: seq<Response>, r: Response)
    ensures |Replace(shown, r)| == |shown|
    ensures forall k | 0 <= k < |shown| ::
              Replace(shown, r)[k].id == shown[k].id
              && (shown[k].id != r.id ==> Replace(shown, r)[k] == shown[k])
  {
    if exists k | 0 <= k < |shown| :: shown[k].id == r.id {
      PickKeepsId(shown[FirstIndex(shown, r.id)], r);
    }
  }

  /** One delivery moves an incident it carries to the later of the held and the delivered version, and
      leaves every other incident alone. */
  lemma DeliveryAdvances(
    shown: seq<Response>, h: seq<Table>, parse: int -> int, version: Option<nat>, d: Delivery, id: nat)
    requires History(h) && Monotone(parse) && DistinctIds(shown) && Genuine(d, h, parse)
    requires Shows(shown, h, parse, id, version)
    ensures DistinctIds(Deliver(shown, d))
    ensures Shows(Deliver(shown, d), h, parse, id, Advance(version, h, d, id))
  {
    if Carries(d, h, id) && version.Some? {
      PickKeepsLaterVersion(h, parse, id, version.value, d.at);
    }
    match d
    case GetList(list, at) => MergeIsExact(list, shown, id);
    case PostOne(r, at) => ReplaceIsExact(shown, r, id);
  }

  /** So what is shown only moves forward: nothing shown disappears, no version goes back, and a shown
      resolution is never undone. */
  lemma {:induction false} ShownMovesForward(
    shown: seq<Response>, h: seq<Table>, parse: int -> int, i: nat, d: Delivery, id: nat)
    requires History(h) && Monotone(parse) && DistinctIds(shown) && Genuine(d, h, parse)
    requires Shows(shown, h, parse, id, Some(i))
    ensures var next := Advance(Some(i), h, d, id);
            && next.Some? && i <= next.value
            && Shows(Deliver(shown, d), h, parse, id, next)
            && (Find(shown, id).value.status.Resolved? ==> Find(Deliver(shown, d), id) == Find(shown, id))
  {
    DeliveryAdvances(shown, h, parse, Some(i), d, id);
    var next := Advance(Some(i), h, d, id);
    assert Follows(h[i][id], h[next.value][id]);
  }

  // Whole runs

  ghost predicate AllGenuine(ds: seq<Delivery>, h: seq<Table>, parse: int -> int) {
    forall d | d in ds :: Genuine(d, h, parse)
  }

  function AdvanceAll(h: seq<Table>, ds: seq<Delivery>, id: nat): Option<nat> {
    if ds == [] then None else Advance(AdvanceAll(h, ds[..|ds| - 1], id), h, ds[|ds| - 1], id)
  }

  lemma {:induction false} RunShows(h: seq<Table>, parse: int -> int, ds: seq<Delivery>, id: nat)
    requires History(h) && Monotone(parse) && AllGenuine(ds, h, parse)
    ensures DistinctIds(DeliverAll([], ds))
    ensures Shows(DeliverAll([], ds), h, parse, id, AdvanceAll(h, ds, id))
  {
    if ds != [] {
      var front := ds[..|ds| - 1];
      RunShows(h, parse, front, id);
      DeliveryAdvances(DeliverAll([], front), h, parse, AdvanceAll(h, front, id), ds[|ds| - 1], id);
    }
  }

  /** A resolution is only ever requested for an incident on display: some list carried it before. */
  ghost predicate PostsFollowLists(ds: seq<Delivery>, h: seq<Table>, id: nat) {
    forall j | 0 <= j < |ds| && ds[j].PostOne? && Carries(ds[j], h, id) ::
      exists i | 0 <= i < j :: ds[i].GetList? && Carries(ds[i], h, id)
  }

  /** The version on display is the latest one that any delivery carried. */
  ghost predicate IsLatest(ds: seq<Delivery>, h: seq<Table>, id: nat, version: Option<nat>) {
    match version
    case None => forall i | 0 <= i < |ds| :: !Carries(ds[i], h, id)
    case Some(v) =>
      && (exists i | 0 <= i < |ds| :: Carries(ds[i], h, id) && ds[i].at == v)
      && (forall i | 0 <= i < |ds| && Carries(ds[i], h, id) :: ds[i].at <= v)
  }

  lemma {:induction false} ShownIsLatest(h: seq<Table>, ds: seq<Delivery>, id: nat)
    requires PostsFollowLists(ds, h, id)
    ensures IsLatest(ds, h, id, AdvanceAll(h, ds, id))
  {
    if ds != [] {
      var front, last := ds[..|ds| - 1], ds[|ds| - 1];
      assert PostsFollowLists(front, h, id) by {
        forall j | 0 <= j < |front| && front[j].PostOne? && Carries(front[j], h, id)
          ensures exists i | 0 <= i < j :: front[i].GetList? && Carries(front[i], h, id)
        {
          var i :| 0 <= i < j && ds[i].GetList? && Carries(ds[i], h, id);
          assert front[i] == ds[i];
        }
      }
      ShownIsLatest(h, front, id);
      if last.PostOne? && Carries(last, h, id) {
        var i :| 0 <= i < |front| && ds[i].GetList? && Carries(ds[i], h, id);
        assert Carries(front[i], h, id);
      }
      LatestGrows(h, front, last, id, AdvanceAll(h, front, id));
      assert ds == front + [last];
    }
  }

  lemma LatestGrows(h: seq<Table>, front: seq<Delivery>, last: Delivery, id: nat, version: Option<nat>)
    requires IsLatest(front, h, id, version)
    requires last.PostOne? && Carries(last, h, id) ==> version.Some?
    ensures IsLatest(front + [last], h, id, Advance(version, h, last, id))
  {
    var ds, next := front + [last], Advance(version, h, last, id);
    if Carries(last, h, id) && (version.None? || version.value < last.at) {
      assert ds[|front|] == last;
    } else if version.Some? {
      var i :| 0 <= i < |front| && Carries(front[i], h, id) && front[i].at == version.value;
      assert ds[i] == front[i];
    }
  }

  /** Delay, reordering and duplication do not matter: two runs that received the same responses show
      the same incidents at the same versions. */
  lemma {:induction false} DeliveriesConverge(
    h: seq<Table>, parse: int -> int, ds: seq<Delivery>, es: seq<Delivery>, id: nat)
    requires History(h) && Monotone(parse) && AllGenuine(ds, h, parse) && AllGenuine(es, h, parse)
    requires PostsFollowLists(ds, h, id) && PostsFollowLists(es, h, id)
    requires forall d :: d in ds <==> d in es
    ensures Find(DeliverAll([], ds), id) == Find(DeliverAll([], es), id)
  {
    RunShows(h, parse, ds, id);
    RunShows(h, parse, es, id);
    ShownIsLatest(h, ds, id);
    ShownIsLatest(h, es, id);
    LatestIsOne(h, ds, es, id, AdvanceAll(h, ds, id), AdvanceAll(h, es, id));
  }

  lemma LatestIsOne(h: seq<Table>, ds: seq<Delivery>, es: seq<Delivery>, id: nat, v: Option<nat>, w: Option<nat>)
    requires forall d :: d in ds <==> d in es
    requires IsLatest(ds, h, id, v) && IsLatest(es, h, id, w)
    ensures v == w
  {
    LatestBelow(h, ds, es, id, v, w);
    LatestBelow(h, es, ds, id, w, v);
  }

  lemma LatestBelow(h: seq<Table>, ds: seq<Delivery>, es: seq<Delivery>, id: nat, v: Option<nat>, w: Option<nat>)
    requires forall d | d in ds :: d in es
    requires IsLatest(ds, h, id, v) && IsLatest(es, h, id, w)
    ensures v.Some? ==> w.Some? && v.value <= w.value
  {
    if v.Some? {
      var i :| 0 <= i < |ds| && Carries(ds[i], h, id) && ds[i].at == v.value;
      assert ds[i] in es;
      var j :| 0 <= j < |es| && es[j] == ds[i];
      assert Carries(es[j], h, id);
    }
  }
}

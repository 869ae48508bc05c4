/** The server's runs and the client's deliveries put together. */
module EndToEnd {
  import opened Wrappers
  import opened OperationalState
  import opened Incidents
  import opened Ingestion
  import opened Runs
  import Client = ClientIncidents
  import Hook = IncidentsHook
  import Received = HookDeliveries

  /** The incident table after each event of a run, the initial one first. */
  function Tables(db: Db, events: seq<Event>): (h: seq<Table>) {
    if events == [] then [db.incidents] else Tables(db, events[..|events| - 1]) + [Run(db, events).incidents]
  }

  lemma {:induction false} TablesAre(db: Db, events: seq<Event>)
    ensures |Tables(db, events)| == |events| + 1
    ensures Tables(db, events)[|events|] == Run(db, events).incidents
  {
    if events != [] {
      TablesAre(db, events[..|events| - 1]);
    }
  }

  lemma HistoryGrows(h: seq<Table>, rows: Table)
    requires Client.History(h) && h != [] && SoundTable(rows) && TableFollows(h[|h| - 1], rows)
    ensures Client.History(h + [rows])
  {
    var g := h + [rows];
    forall i, j | 0 <= i <= j < |g| ensures TableFollows(g[i], g[j]) {
      if j == |h| {
        TableFollowsItself(rows);
        if i < |h| { TableFollowsTransitive(h[i], h[|h| - 1], rows); }
      }
    }
  }

  /** Whatever mix of services runs, failing or not, its committed incident tables are a history the
      client's merge can rely on. */
  lemma {:induction false} RunsAreHistories(db: Db, events: seq<Event>)
    requires db.Sound() && ValidEvents(events)
    ensures Client.History(Tables(db, events))
  {
    TableFollowsItself(db.incidents);
    if events != [] {
      var n := |events| - 1;
      RunsAreHistories(db, events[..n]);
      TablesAre(db, events[..n]);
      RunIsSafe(db, events[..n]);
      StepIsSafe(Run(db, events[..n]), events[n]);
      HistoryGrows(Tables(db, events[..n]), Run(db, events).incidents);
    }
  }

  /** A client that has received one list read after the last event shows exactly the server's table,
      whatever else it received, in whatever order, however often. */
  lemma {:induction false} DeliveriesCatchUp(
    db: Db, events: seq<Event>, parse: int -> int, ds: seq<Client.Delivery>, id: nat)
    requires db.Sound() && ValidEvents(events) && Client.Monotone(parse)
    requires Client.AllGenuine(ds, Tables(db, events), parse)
    requires Client.PostsFollowLists(ds, Tables(db, events), id)
    requires exists k | 0 <= k < |ds| :: ds[k].GetList? && ds[k].at == |events|
    ensures Client.Find(Client.DeliverAll([], ds), id) ==
            var rows := Run(db, events).incidents;
            if id < |rows| then Some(Client.Rendered(rows[id], parse)) else None
  {
    var h := Tables(db, events);
    RunsAreHistories(db, events);
    TablesAre(db, events);
    Client.RunShows(h, parse, ds, id);
    Client.ShownIsLatest(h, ds, id);
    var k :| 0 <= k < |ds| && ds[k].GetList? && ds[k].at == |events|;
    LatestIsFinal(h, ds, k, id, Client.AdvanceAll(h, ds, id));
  }

  /** The hook beside the server: after any run of it that keeps its list and at some point was given one
      read after the server's last event, the list on display is exactly the server's table. */
  lemma {:induction false} ClientCatchesUp(
    db: Db, events: seq<Event>, parse: int -> int, es: seq<Hook.Event>, at: seq<nat>, id: nat)
    requires db.Sound() && ValidEvents(events) && Client.Monotone(parse)
    requires Hook.AllEnabled(Hook.Initial(), es) && |at| == |es|
    requires Hook.GenuineRun(Hook.Initial(), es, at, Tables(db, events), parse)
    requires Received.KeepsList(es) && Received.Receives(es, at, |events|)
    ensures Hook.Run(Hook.Initial(), es).view.Shown?
    ensures Client.Find(Hook.Run(Hook.Initial(), es).view.data, id) ==
            var rows := Run(db, events).incidents;
            if id < |rows| then Some(Client.Rendered(rows[id], parse)) else None
  {
    RunsAreHistories(db, events);
    Received.RunIsTracked(es, at, Tables(db, events), parse);
    Received.ReceivedIsDelivered(es, at, |events|);
    DeliveriesCatchUp(db, events, parse, Received.Deliveries(es, at), id);
  }

  lemma LatestIsFinal(h: seq<Table>, ds: seq<Client.Delivery>, k: nat, id: nat, version: Option<nat>)
    requires Client.History(h) && h != [] && Client.IsLatest(ds, h, id, version)
    requires k < |ds| && ds[k].GetList? && ds[k].at == |h| - 1
    ensures version == if id < |h[|h| - 1]| then Some(|h| - 1) else None
  {
    if id < |h[|h| - 1]| {
      assert Client.Carries(ds[k], h, id);
    }
    forall i | 0 <= i < |ds| && ds[i].at < |h| ensures |h[ds[i].at]| <= |h[|h| - 1]| {
      assert TableFollows(h[ds[i].at], h[|h| - 1]);
    }
  }

  // One lab, end to end

  /** The collections a run commits that name known routers and, by then, registered devices. */
  ghost function Offered(db: Db, events: seq<Event>): seq<Fabric> {
    if events == [] then []
    else
      var n := |events| - 1;
      var before, last := Offered(db, events[..n]), events[n];
      if last.FabricEvent? && last.commits && PassesChecks(Run(db, events[..n]), last.fabric) then
        before + [last.fabric]
      else before
  }

  lemma OneLabStep(now: Db, e: Event, lab: string)
    requires now.Sound() && ValidEvent(e) && SoleWriter(now, lab) && OneLabEvent(now, e, lab)
    ensures Step(now, e).StateRow(lab) ==
            if e.FabricEvent? && e.commits && PassesChecks(now, e.fabric) then
              match Write(now.StateRow(lab), e.fabric)
              case Success((stored, _)) => Some(stored)
              case Failure(_) => now.StateRow(lab)
            else now.StateRow(lab)
  {
    hide Lifecycle, DeriveLab, Candidates, FirstMissing, Registered;
    if e.FabricEvent? && e.commits && DeriveLab(e.fabric).Success? {
      SoleWriterNeverStale(now, e.fabric, lab);
      RedeliveryOrNew(now, e.fabric, lab);
    }
  }

  lemma RedeliveryOrNew(db: Db, fabric: Fabric, lab: string)
    requires DeriveLab(fabric) == Success(lab)
    ensures Write(db.StateRow(lab), fabric).Success? <==> IsNew(db, fabric) || IsReplay(db, fabric)
  {
    if db.StateRow(lab).Some? { RedeliveryIsUnchanged(db.StateRow(lab).value, fabric); }
  }

  /** In one-lab runs the stored state is what the latest-write rule alone would keep of the offered
      collections: no other check of the transaction ever interferes. */
  lemma {:induction false} OneLabStateIsDelivered(db: Db, events: seq<Event>, lab: string)
    requires db.Sound() && ValidEvents(events) && SoleWriter(db, lab) && OneLabRun(db, events, lab)
    requires db.StateRow(lab) == None
    ensures Run(db, events).StateRow(lab) == OperationalState.Deliver(None, Offered(db, events))
  {
    hide Step, PassesChecks, SoleWriter, Write;
    if events != [] {
      var n := |events| - 1;
      var front := events[..n];
      OneLabStateIsDelivered(db, front, lab);
      SoleWriterRun(db, front, lab);
      RunIsSafe(db, front);
      OneLabStep(Run(db, front), events[n], lab);
      if events[n].FabricEvent? {
        var offered := Offered(db, front);
        assert (offered + [events[n].fabric])[..|offered|] == offered;
      }
    }
  }

  /** So a further collection is accepted exactly when it is newer than every collection offered
      before, whatever resolutions, configurations and telemetry came in between. */
  lemma {:induction false} OneLabAcceptsStrictMaxima(db: Db, events: seq<Event>, fabric: Fabric, lab: string)
    requires db.Sound() && ValidEvents(events) && SoleWriter(db, lab) && OneLabRun(db, events, lab)
    requires db.StateRow(lab) == None
    requires fabric.Valid() && DeriveLab(fabric) == Success(lab) && PassesChecks(Run(db, events), fabric)
    requires Consistent(Offered(db, events) + [fabric])
    ensures Ingest(Run(db, events), fabric).Success? && IsNew(Run(db, events), fabric) <==>
            forall i | 0 <= i < |Offered(db, events)| :: Offered(db, events)[i].collectedAt < fabric.collectedAt
  {
    OneLabStateIsDelivered(db, events, lab);
    RunIsSafe(db, events);
    AcceptedOnTop(Offered(db, events), fabric);
    NewCollectionsSucceed(db, events, fabric, lab);
  }

  lemma {:induction false} AcceptedOnTop(offered: seq<Fabric>, fabric: Fabric)
    requires Consistent(offered + [fabric])
    ensures Accepts(OperationalState.Deliver(None, offered), fabric) <==>
            forall i | 0 <= i < |offered| :: offered[i].collectedAt < fabric.collectedAt
  {
    var all := offered + [fabric];
    assert all[..|offered|] == offered;
    AcceptedAreStrictMaxima(all, |offered|);
  }

  lemma {:induction false} NewCollectionsSucceed(db: Db, events: seq<Event>, fabric: Fabric, lab: string)
    requires db.Sound() && ValidEvents(events) && SoleWriter(db, lab) && OneLabRun(db, events, lab)
    requires fabric.Valid() && DeriveLab(fabric) == Success(lab) && PassesChecks(Run(db, events), fabric)
    ensures IsNew(Run(db, events), fabric) ==> Ingest(Run(db, events), fabric).Success?
    ensures IsNew(Run(db, events), fabric) <==> Accepts(Run(db, events).StateRow(lab), fabric)
  {
    SoleWriterRun(db, events, lab);
    RunIsSafe(db, events);
    SoleWriterNeverStale(Run(db, events), fabric, lab);
  }
}

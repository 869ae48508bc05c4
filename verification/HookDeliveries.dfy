/** A whole run of the incident hook as the deliveries its list has received. */
module HookDeliveries {
  import opened Wrappers
  import opened Incidents
  import opened ClientIncidents
  import opened IncidentsHook

  /** The responses a run lets through to the list, in order, each with the server version it was read at. */
  ghost function Deliveries(es: seq<Event>, at: seq<nat>): seq<Delivery>
    requires AllEnabled(Initial(), es) && |at| == |es|
  {
    if es == [] then []
    else
      var n := |es| - 1;
      var before, last := Deliveries(es[..n], at[..n]), Applied(Run(Initial(), es[..n]), es[n], at[n]);
      if last.None? then before else before + [last.value]
  }

  /** Once there is a list on display it stays: no foreground failure replaces it. */
  ghost predicate KeepsList(es: seq<Event>)
    requires AllEnabled(Initial(), es)
  {
    es == []
    || (KeepsList(es[..|es| - 1])
        && (Run(Initial(), es[..|es| - 1]).view.Shown? ==> Run(Initial(), es).view.Shown?))
  }

  /** Some list delivered the incident. */
  ghost predicate Listed(ds: seq<Delivery>, h: seq<Table>, id: nat) {
    exists i | 0 <= i < |ds| :: ds[i].GetList? && Carries(ds[i], h, id)
  }

  ghost predicate AllListed(ids: set<nat>, ds: seq<Delivery>, h: seq<Table>) {
    forall id | id in ids :: Listed(ds, h, id)
  }

  function Ids(list: seq<Response>): set<nat> {
    set r | r in list :: r.id
  }

  function CommittedIds(s: State): set<nat> {
    if s.committed.Shown? then Ids(s.committed.data) else {}
  }

  ghost predicate AllFollow(ds: seq<Delivery>, h: seq<Table>) {
    forall id :: PostsFollowLists(ds, h, id)
  }

  /** The list on display is what the deliveries so far make of an empty one, and every incident with a
      request, or that the handlers can request, came with one of them. */
  ghost predicate Tracks(s: State, ds: seq<Delivery>, h: seq<Table>, parse: int -> int) {
    && AllGenuine(ds, h, parse) && AllFollow(ds, h)
    && (if s.view.Shown? then s.view.data == DeliverAll([], ds) else ds == [])
    && (s.committed.Shown? ==> s.view.Shown?)
    && AllListed(CommittedIds(s), ds, h) && AllListed(s.active.Keys, ds, h)
  }

  // What one delivery does

  lemma {:induction false} MergeIntoNothing(list: seq<Response>)
    ensures Merge(list, []) == list
  {
    if list != [] { MergeIntoNothing(list[..|list| - 1]); }
  }

  lemma ListedStays(ds: seq<Delivery>, d: Delivery, h: seq<Table>, ids: set<nat>)
    requires AllListed(ids, ds, h)
    ensures AllListed(ids, ds + [d], h)
  {
    forall id | id in ids ensures Listed(ds + [d], h, id) {
      var i :| 0 <= i < |ds| && ds[i].GetList? && Carries(ds[i], h, id);
      assert (ds + [d])[i] == ds[i];
    }
  }

  lemma {:induction false} FollowGrows(ds: seq<Delivery>, d: Delivery, h: seq<Table>, id: nat)
    requires PostsFollowLists(ds, h, id)
    requires d.PostOne? && Carries(d, h, id) ==> Listed(ds, h, id)
    ensures PostsFollowLists(ds + [d], h, id)
  {
    var all := ds + [d];
    forall j | 0 <= j < |all| && all[j].PostOne? && Carries(all[j], h, id)
      ensures exists i | 0 <= i < j :: all[i].GetList? && Carries(all[i], h, id)
    {
      var i :| 0 <= i < j && i < |ds| && ds[i].GetList? && Carries(ds[i], h, id);
      assert all[i] == ds[i];
    }
  }

  /** What is on display was listed: a resolve response never introduces an incident. */
  lemma {:induction false} ShownWasListed(ds: seq<Delivery>, h: seq<Table>, id: nat)
    ensures AdvanceAll(h, ds, id).Some? ==> Listed(ds, h, id)
  {
    if ds != [] {
      var front, last := ds[..|ds| - 1], ds[|ds| - 1];
      ShownWasListed(front, h, id);
      assert ds == front + [last];
      if Listed(front, h, id) {
        var i :| 0 <= i < |front| && front[i].GetList? && Carries(front[i], h, id);
        assert ds[i] == front[i];
      }
    }
  }

  lemma {:induction false} AllShownWereListed(ds: seq<Delivery>, h: seq<Table>, parse: int -> int)
    requires History(h) && Monotone(parse) && AllGenuine(ds, h, parse)
    ensures AllListed(Ids(DeliverAll([], ds)), ds, h)
  {
    forall id | id in Ids(DeliverAll([], ds)) ensures Listed(ds, h, id) {
      RunShows(h, parse, ds, id);
      ShownWasListed(ds, h, id);
    }
  }

  // What one event does

  /** A delivery comes to a list on display, or is the first list. */
  lemma {:induction false} AppliedDelivers(
    s: State, e: Event, at: nat, ds: seq<Delivery>, h: seq<Table>, parse: int -> int)
    requires Tracks(s, ds, h, parse) && Enabled(s, e) && Applied(s, e, at).Some?
    requires s.view.Shown? ==> Step(s, e).view.Shown?
    ensures Step(s, e).view.Shown? && Step(s, e).view.data == DeliverAll([], ds + [Applied(s, e, at).value])
    ensures e.Resolved? ==> s.posts[e.post].incident in s.active && Listed(ds, h, e.response.id)
  {
    hide Listed, AllFollow, AllGenuine, Merge;
    var d := Applied(s, e, at).value;
    assert (ds + [d])[..|ds|] == ds;
    if e.Resolved? {
      assert e.response.id in s.active.Keys;
      assert s.view.Shown? by { assert Listed(ds, h, e.response.id); ListedMeansSome(ds, h, e.response.id); }
    } else {
      MergeIntoNothing(d.list);
    }
  }

  lemma ListedMeansSome(ds: seq<Delivery>, h: seq<Table>, id: nat)
    requires Listed(ds, h, id)
    ensures ds != []
  {
  }

  lemma DeliveryIsTracked(s: State, e: Event, at: nat, ds: seq<Delivery>, h: seq<Table>, parse: int -> int)
    requires Tracks(s, ds, h, parse) && Enabled(s, e) && Applied(s, e, at).Some?
    requires GenuineEvent(s, e, at, h, parse) && (s.view.Shown? ==> Step(s, e).view.Shown?)
    ensures Tracks(Step(s, e), ds + [Applied(s, e, at).value], h, parse)
  {
    hide Listed, PostsFollowLists, Genuine, Carries, DeliverAll, Merge, Replace;
    var d := Applied(s, e, at).value;
    AppliedDelivers(s, e, at, ds, h, parse);
    ListedStays(ds, d, h, CommittedIds(s));
    ListedStays(ds, d, h, s.active.Keys);
    forall id ensures PostsFollowLists(ds + [d], h, id) {
      CarriedIsItsOwn(d, h, id);
      FollowGrows(ds, d, h, id);
    }
    assert Step(s, e).active.Keys <= s.active.Keys && CommittedIds(Step(s, e)) == CommittedIds(s);
  }

  lemma CarriedIsItsOwn(d: Delivery, h: seq<Table>, id: nat)
    ensures d.PostOne? && Carries(d, h, id) ==> d.response.id == id
  {
  }

  lemma NothingIsTracked(s: State, e: Event, at: nat, ds: seq<Delivery>, h: seq<Table>, parse: int -> int)
    requires Tracks(s, ds, h, parse) && Enabled(s, e) && Applied(s, e, at).None?
    requires History(h) && Monotone(parse) && (s.view.Shown? ==> Step(s, e).view.Shown?)
    ensures Tracks(Step(s, e), ds, h, parse)
  {
    hide Listed, AllFollow, AllGenuine, DeliverAll, Merge, Replace, CanResolve;
    var t := Step(s, e);
    if s.view.Shown? { ListChangesByDelivery(s, e, at); }
    AllShownWereListed(ds, h, parse);
    RequestedAreCommitted(s, e);
    assert t.active.Keys <= s.active.Keys + CommittedIds(s);
  }

  /** Only incidents on the committed list are requested. */
  lemma RequestedAreCommitted(s: State, e: Event)
    requires Enabled(s, e)
    ensures Step(s, e).active.Keys <= s.active.Keys + CommittedIds(s)
  {
    if e.Resolve? && CanResolve(s, e.incident) {
      var k :| 0 <= k < |s.committed.data| && s.committed.data[k].id == e.incident;
      assert s.committed.data[k] in s.committed.data;
    }
  }

  // Whole runs

  lemma {:induction false} RunIsTracked(es: seq<Event>, at: seq<nat>, h: seq<Table>, parse: int -> int)
    requires History(h) && Monotone(parse) && AllEnabled(Initial(), es) && |at| == |es|
    requires GenuineRun(Initial(), es, at, h, parse) && KeepsList(es)
    ensures Tracks(Run(Initial(), es), Deliveries(es, at), h, parse)
  {
    if es != [] {
      var n := |es| - 1;
      var s, ds := Run(Initial(), es[..n]), Deliveries(es[..n], at[..n]);
      RunIsTracked(es[..n], at[..n], h, parse);
      if Applied(s, es[n], at[n]).Some? {
        DeliveryIsTracked(s, es[n], at[n], ds, h, parse);
      } else {
        NothingIsTracked(s, es[n], at[n], ds, h, parse);
      }
    }
  }

  /** A list read at a server version, let through to the display at some point of the run. */
  ghost predicate Receives(es: seq<Event>, at: seq<nat>, version: nat)
    requires AllEnabled(Initial(), es) && |at| == |es|
  {
    es != []
    && (Receives(es[..|es| - 1], at[..|es| - 1], version)
        || (es[|es| - 1].Fetched? && at[|es| - 1] == version
            && Run(Initial(), es[..|es| - 1]).net.Current(es[|es| - 1].request)))
  }

  lemma {:induction false} ReceivedIsDelivered(es: seq<Event>, at: seq<nat>, version: nat)
    requires AllEnabled(Initial(), es) && |at| == |es| && Receives(es, at, version)
    ensures exists k | 0 <= k < |Deliveries(es, at)| ::
            Deliveries(es, at)[k].GetList? && Deliveries(es, at)[k].at == version
  {
    var n := |es| - 1;
    var before, all := Deliveries(es[..n], at[..n]), Deliveries(es, at);
    if Receives(es[..n], at[..n], version) {
      ReceivedIsDelivered(es[..n], at[..n], version);
      var k :| 0 <= k < |before| && before[k].GetList? && before[k].at == version;
      assert all[k] == before[k];
    } else {
      assert all[|before|] == GetList(es[n].list, version);
    }
  }
}

/** The live network snapshot: the same request protocol, with a reconciliation that never goes back in time. */
module NetworkStateHook {
  import opened Wrappers
  import opened RequestProtocol

  /** A snapshot response: `collectedAt` is the parsed instant, `body` every other field. */
  datatype Snapshot = Snapshot(collectionId: string, collectedAt: int, body: string)

  /** An API error that says nothing was ingested yet is told apart from every other failure. */
  datatype FetchError = NotFound(message: string) | Other(failure: Failure)

  datatype View =
    | Loading
    | NoSnapshot(isRefreshing: bool, lastUpdatedAt: int)
    | Shown(data: Snapshot, lastUpdatedAt: int, isRefreshing: bool, refreshError: Option<string>)
    | Broken(message: string)

  datatype State = State(net: Requests, view: View)

  datatype Event =
    | Mount
    | Unmount
    | Refresh
    | Poll
    | Fetched(request: nat, incoming: Snapshot, now: int)
    | FetchFailed(request: nat, error: FetchError, now: int)

  /** `reconcileNetworkState` */
  function Reconcile(current: Option<Snapshot>, incoming: Snapshot): Snapshot {
    if current.None? then incoming
    else if incoming.collectedAt > current.value.collectedAt then incoming
    else if incoming.collectedAt < current.value.collectedAt then current.value
    else if incoming.collectionId == current.value.collectionId then incoming
    else current.value
  }

  function Initial(): State {
    State(Idle(), Loading)
  }

  function AsFailure(error: FetchError): Failure {
    if error.NotFound? then Reported(error.message) else error.failure
  }

  predicate Enabled(s: State, e: Event) {
    match e
    case Fetched(id, _, _) => id in s.net.outstanding
    case FetchFailed(id, error, _) => s.net.CanFail(id, AsFailure(error))
    case _ => true
  }

  function Requested(view: View): View {
    if view.Shown? then view.(isRefreshing := true)
    else if view.NoSnapshot? then NoSnapshot(true, view.lastUpdatedAt)
    else Loading
  }

  function Kept(view: View): Option<Snapshot> {
    if view.Shown? then Some(view.data) else None
  }

  function Failed(view: View, error: FetchError, now: int): View
    requires AsFailure(error).Reported?
  {
    var message := AsFailure(error).message;
    if view.Shown? then view.(isRefreshing := false, refreshError := Some(message))
    else if error.NotFound? then NoSnapshot(false, now)
    else Broken(message)
  }

  function Step(s: State, e: Event): State
    requires Enabled(s, e)
  {
    match e
    case Mount => s.(net := s.net.Mount())
    case Unmount => s.(net := s.net.Unmount())
    case Refresh => State(s.net.Begin(false), Requested(s.view))
    case Poll => if s.net.inFlight.Some? then s else s.(net := s.net.Begin(true))
    case Fetched(id, incoming, now) =>
      if s.net.Current(id) then
        State(s.net.Finish(id, true), Shown(Reconcile(Kept(s.view), incoming), now, false, None))
      else s.(net := s.net.Finish(id, false))
    case FetchFailed(id, error, now) =>
      if s.net.Current(id) && AsFailure(error).Reported? then
        State(s.net.Finish(id, true), Failed(s.view, error, now))
      else s.(net := s.net.Finish(id, false))
  }

  /** A visible wait always has a live request behind it. */
  ghost predicate WaitsAreReal(s: State) {
    s.net.mounted
    && (s.view.Loading? || ((s.view.Shown? || s.view.NoSnapshot?) && s.view.isRefreshing)) ==>
      s.net.inFlight.Some?
  }

  ghost predicate Sound(s: State) {
    s.net.Sound() && WaitsAreReal(s)
  }

  lemma StepIsSound(s: State, e: Event)
    requires Sound(s) && Enabled(s, e)
    ensures Sound(Step(s, e))
  {
    UnmountIsSound(s.net);
    BeginIsSound(s.net, false);
    BeginIsSound(s.net, true);
    match e
    case Fetched(id, _, _) => EndIsSound(s.net, id, Aborted);
    case FetchFailed(id, error, _) => EndIsSound(s.net, id, AsFailure(error));
    case _ =>
  }

  /** Whatever order responses settle in, the snapshot on display only changes through the live
      request, is never taken away, and its collection instant never decreases; at one instant the
      collection never changes. */
  lemma SnapshotNeverGoesBack(s: State, e: Event)
    requires Sound(s) && Enabled(s, e) && s.view.Shown?
    ensures var next := Step(s, e).view;
            && next.Shown?
            && s.view.data.collectedAt <= next.data.collectedAt
            && (s.view.data.collectedAt == next.data.collectedAt ==>
                  s.view.data.collectionId == next.data.collectionId)
            && (next.data != s.view.data ==> e.Fetched? && s.net.Live(e.request) && next.data == e.incoming)
  {
    if e.Fetched? && s.net.mounted { OneLiveRequest(s.net, e.request); }
  }

  predicate AllEnabled(s: State, es: seq<Event>)
    decreases |es|, 0
  {
    es == [] || (AllEnabled(s, es[..|es| - 1]) && Enabled(Run(s, es[..|es| - 1]), es[|es| - 1]))
  }

  function Run(s: State, es: seq<Event>): State
    requires AllEnabled(s, es)
    decreases |es|, 1
  {
    if es == [] then s else Step(Run(s, es[..|es| - 1]), es[|es| - 1])
  }

  /** Over every run: one live request at most, a poll held back only by it, every wait backed by it,
      and what an earlier moment showed is never newer than what a later one shows. */
  lemma {:induction false} RunsNeverGoBack(es: seq<Event>, n: nat, id: nat)
    requires n <= |es| && AllEnabled(Initial(), es)
    ensures AllEnabled(Initial(), es[..n])
    ensures var s := Run(Initial(), es);
            && Sound(s)
            && (s.net.mounted ==> (s.net.Live(id) <==> s.net.inFlight == Some(id)))
            && var earlier := Run(Initial(), es[..n]).view;
               earlier.Shown? ==> s.view.Shown? && earlier.data.collectedAt <= s.view.data.collectedAt
  {
    if n == |es| {
      assert es[..n] == es;
    }
    if es != [] {
      var front := es[..|es| - 1];
      if n < |es| { assert front[..n] == es[..n]; }
      RunsNeverGoBack(front, if n < |es| then n else 0, id);
      StepIsSound(Run(Initial(), front), es[|es| - 1]);
      if Run(Initial(), front).view.Shown? {
        SnapshotNeverGoesBack(Run(Initial(), front), es[|es| - 1]);
      }
    }
    var s := Run(Initial(), es);
    if s.net.mounted { OneLiveRequest(s.net, id); }
  }

  // What is shown, stated on the responses alone

  /** A response replaces what is shown exactly when nothing was shown, it is newer, or it is another
      reading of the same collection at the same instant; it always ends the wait and clears the error. */
  lemma FetchedShows(s: State, request: nat, incoming: Snapshot, now: int)
    requires request in s.net.outstanding
    ensures var next := Step(s, Fetched(request, incoming, now)).view;
            if s.net.Current(request) then
              && next.Shown? && next.lastUpdatedAt == now && !next.isRefreshing && next.refreshError == None
              && (next.data == incoming || (s.view.Shown? && next.data == s.view.data))
              && (next.data == incoming <==>
                    || !s.view.Shown? || incoming == s.view.data
                    || s.view.data.collectedAt < incoming.collectedAt
                    || (s.view.data.collectedAt == incoming.collectedAt
                        && s.view.data.collectionId == incoming.collectionId))
            else next == s.view
  {
  }

  /** A reported failure of the current request keeps a snapshot and notes the error beside it; with none,
      a "not found" says that there is nothing yet and anything else is shown as an error. */
  lemma FailureShows(s: State, request: nat, error: FetchError, now: int)
    requires Enabled(s, FetchFailed(request, error, now))
    ensures var next := Step(s, FetchFailed(request, error, now)).view;
            if !s.net.Current(request) || (error.Other? && error.failure.Aborted?) then next == s.view
            else
              var message := if error.NotFound? then error.message else error.failure.message;
              if s.view.Shown? then
                next == Shown(s.view.data, s.view.lastUpdatedAt, false, Some(message))
              else next == if error.NotFound? then NoSnapshot(false, now) else Broken(message)
  {
  }

  /** Only a refresh starts a visible wait, and it keeps what is shown; a poll shows nothing of itself. */
  lemma RequestShows(s: State)
    ensures Step(s, Poll).view == s.view && Step(s, Mount).view == s.view && Step(s, Unmount).view == s.view
    ensures var next := Step(s, Refresh).view;
            if s.view.Shown? then
              next == Shown(s.view.data, s.view.lastUpdatedAt, true, s.view.refreshError)
            else next == if s.view.NoSnapshot? then NoSnapshot(true, s.view.lastUpdatedAt) else Loading
  {
  }

  /** The responses that a run lets through to the display, in order. */
  ghost function LetThrough(es: seq<Event>): seq<Snapshot>
    requires AllEnabled(Initial(), es)
  {
    if es == [] then []
    else
      var front, last := es[..|es| - 1], es[|es| - 1];
      if last.Fetched? && Run(Initial(), front).net.Current(last.request) then LetThrough(front) + [last.incoming]
      else LetThrough(front)
  }

  /** The `k`-th response: none is newer, the collection is that of the first one as new as it, and no
      later one is of that collection and instant. */
  ghost predicate IsLatest(all: seq<Snapshot>, k: int) {
    && 0 <= k < |all|
    && (forall i | 0 <= i < |all| :: all[i].collectedAt <= all[k].collectedAt)
    && (forall i | 0 <= i < |all| && all[i].collectedAt == all[k].collectedAt
                   && (forall j | 0 <= j < i :: all[j].collectedAt < all[k].collectedAt) ::
          all[i].collectionId == all[k].collectionId)
    && (forall i | k < i < |all| && all[i].collectedAt == all[k].collectedAt ::
          all[i].collectionId != all[k].collectionId)
  }

  /** Over every run the display shows the newest of all responses let through, whatever the order they
      came in, and it shows one as soon as there was one. */
  lemma {:induction false} ShownIsLatest(es: seq<Event>) returns (k: int)
    requires AllEnabled(Initial(), es)
    ensures Run(Initial(), es).view.Shown? <==> LetThrough(es) != []
    ensures LetThrough(es) != [] ==>
              IsLatest(LetThrough(es), k) && Run(Initial(), es).view.data == LetThrough(es)[k]
  {
    k := 0;
    if es != [] {
      var front, last := es[..|es| - 1], es[|es| - 1];
      var s, before := Run(Initial(), front), LetThrough(front);
      k := ShownIsLatest(front);
      match last
      case Fetched(request, incoming, now) =>
        FetchedShows(s, request, incoming, now);
        if s.net.Current(request) {
          k := LatestGrows(before, incoming, k, Run(Initial(), es).view.data);
        }
      case FetchFailed(request, error, now) => FailureShows(s, request, error, now);
      case _ => RequestShows(s);
    }
  }

  lemma LatestGrows(before: seq<Snapshot>, incoming: Snapshot, k: int, shown: Snapshot) returns (m: int)
    requires before != [] ==> IsLatest(before, k)
    requires before == [] || incoming.collectedAt > before[k].collectedAt
             || (incoming.collectedAt == before[k].collectedAt && incoming.collectionId == before[k].collectionId)
             ==> shown == incoming
    requires before != [] && shown != incoming ==> shown == before[k]
    requires shown == incoming ==>
               before == [] || incoming == before[k] || incoming.collectedAt > before[k].collectedAt
               || (incoming.collectedAt == before[k].collectedAt && incoming.collectionId == before[k].collectionId)
    ensures IsLatest(before + [incoming], m) && (before + [incoming])[m] == shown
  {
    var all := before + [incoming];
    m := if shown == incoming then |before| else k;
    assert forall i | 0 <= i < |before| :: all[i] == before[i];
    forall i | 0 <= i < |all| && all[i].collectedAt == all[m].collectedAt
               && (forall j | 0 <= j < i :: all[j].collectedAt < all[m].collectedAt)
      ensures all[i].collectionId == all[m].collectionId
    {
      if i < |before| {
        assert before[i].collectedAt <= before[k].collectedAt;
        assert forall j | 0 <= j < i :: before[j] == all[j];
      }
    }
  }

  /** The hook as it runs. */
  class Hook {
    var abortController: Option<nat>
    var requestId: nat
    var inFlightId: Option<nat>
    var isMounted: bool
    var state: View
    // Promises that have not settled, and the abort flags of their controllers
    var fetches: map<nat, Request>

    constructor ()
      ensures Observed() == Initial()
    {
      abortController, requestId, inFlightId, isMounted := None, 0, None, false;
      state, fetches := Loading, map[];
    }

    function Net(): Requests
      reads this
    {
      Requests(requestId, inFlightId, abortController, isMounted, fetches)
    }

    function Observed(): State
      reads this
    {
      State(Net(), state)
    }

    method AbortFetch()
      modifies this`fetches
      ensures Net() == old(Net()).Abort()
    {
      if abortController.Some? && abortController.value in fetches {
        fetches := fetches[abortController.value := fetches[abortController.value].(aborted := true)];
      }
    }

    method BeginNewRequest(background: bool)
      modifies this`fetches, this`requestId, this`inFlightId, this`abortController
      ensures Net() == old(Net()).Begin(background)
    {
      AbortFetch();
      requestId := requestId + 1;
      inFlightId := Some(requestId);
      abortController := Some(requestId);
      fetches := fetches[requestId := Request(background, false)];
    }

    method Settle(request: nat)
      modifies this`inFlightId
      ensures inFlightId == if old(inFlightId) == Some(request) then None else old(inFlightId)
    {
      if inFlightId == Some(request) {
        inFlightId := None;
      }
    }

    method OnMount()
      modifies this
      ensures Observed() == Step(old(Observed()), Mount)
    {
      isMounted := true;
      BeginNewRequest(false);
    }

    method OnUnmount()
      modifies this
      ensures Observed() == Step(old(Observed()), Unmount)
    {
      isMounted := false;
      AbortFetch();
    }

    method Refresh()
      modifies this
      ensures Observed() == Step(old(Observed()), Event.Refresh)
    {
      state := Requested(state);
      BeginNewRequest(false);
    }

    method Poll()
      modifies this
      ensures Observed() == Step(old(Observed()), Event.Poll)
    {
      if inFlightId != None {
        return;
      }
      BeginNewRequest(true);
    }

    /** The `then` callback of a fetch. */
    method OnFetched(request: nat, incoming: Snapshot, now: int)
      requires request in fetches
      modifies this
      ensures Observed() == Step(old(Observed()), Fetched(request, incoming, now))
    {
      fetches := fetches - {request};
      if !isMounted || requestId != request {
        return;
      }
      Settle(request);
      state := Shown(Reconcile(Kept(state), incoming), now, false, None);
    }

    /** The `catch` callback of a fetch. */
    method OnFetchFailed(request: nat, error: FetchError, now: int)
      requires Net().CanFail(request, AsFailure(error))
      modifies this
      ensures Observed() == Step(old(Observed()), FetchFailed(request, error, now))
    {
      fetches := fetches - {request};
      if !isMounted || requestId != request {
        return;
      }
      if error.Other? && error.failure.Aborted? {
        return;
      }
      Settle(request);
      state := Failed(state, error, now);
    }
  }
}

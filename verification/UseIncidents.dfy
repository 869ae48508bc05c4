/** The incident hook as it runs: refs and state updated by handlers and by settling promises. */
module UseIncidents {
  import opened Wrappers
  import opened ClientIncidents
  import opened RequestProtocol
  import opened IncidentsHook

  class Hook {
    // Refs
    var abortController: Option<nat>
    var requestId: nat
    var inFlightId: Option<nat>
    var isMounted: bool
    var stateRef: View
    var activeResolutionRequests: map<nat, nat>
    // React state, with every queued update applied
    var state: View
    var resolvingIds: set<nat>
    var resolveErrors: map<nat, string>
    // Promises that have not settled, and the abort flags of their controllers
    var fetches: map<nat, Request>
    var posts: map<nat, Post>
    var nextPost: nat

    constructor ()
      ensures Snapshot() == Initial()
    {
      abortController, requestId, inFlightId, isMounted := None, 0, None, false;
      stateRef, state := Loading, Loading;
      activeResolutionRequests, resolvingIds, resolveErrors := map[], {}, map[];
      fetches, posts, nextPost := map[], map[], 0;
    }

    function Net(): Requests
      reads this
    {
      Requests(requestId, inFlightId, abortController, isMounted, fetches)
    }

    function Snapshot(): State
      reads this
    {
      State(Net(), state, stateRef, activeResolutionRequests, posts, nextPost, resolvingIds, resolveErrors)
    }

    method AbortFetch()
      modifies this`fetches
      ensures Net() == old(Net()).Abort()
    {
      if abortController.Some? && abortController.value in fetches {
        fetches := fetches[abortController.value := fetches[abortController.value].(aborted := true)];
      }
    }

    method BeginNewRequest(background: bool)
      modifies this`fetches, this`requestId, this`inFlightId, this`abortController
      ensures Net() == old(Net()).Begin(background)
    {
      AbortFetch();
      requestId := requestId + 1;
      inFlightId := Some(requestId);
      abortController := Some(requestId);
      fetches := fetches[requestId := Request(background, false)];
    }

    method Settle(request: nat)
      modifies this`inFlightId
      ensures inFlightId == if old(inFlightId) == Some(request) then None else old(inFlightId)
    {
      if inFlightId == Some(request) {
        inFlightId := None;
      }
    }

    method OnMount()
      modifies this
      ensures Snapshot() == Step(old(Snapshot()), Mount)
    {
      isMounted := true;
      BeginNewRequest(false);
    }

    method OnUnmount()
      modifies this
      ensures Snapshot() == Step(old(Snapshot()), Unmount)
    {
      isMounted := false;
      AbortFetch();
      posts := map p | p in posts ::
        if p in activeResolutionRequests.Values then posts[p].(aborted := true) else posts[p];
      activeResolutionRequests := map[];
    }

    /** The layout effect after a commit. */
    method OnCommit()
      modifies this`stateRef
      ensures Snapshot() == Step(old(Snapshot()), Commit)
    {
      stateRef := state;
    }

    method Refresh()
      modifies this
      ensures Snapshot() == Step(old(Snapshot()), Event.Refresh)
    {
      if state.Shown? {
        state := state.(isRefreshing := true);
      } else {
        state := Loading;
      }
      BeginNewRequest(false);
    }

    method Poll()
      modifies this
      ensures Snapshot() == Step(old(Snapshot()), Event.Poll)
    {
      if inFlightId != None {
        return;
      }
      BeginNewRequest(true);
    }

    /** The `then` callback of a fetch. */
    method OnFetched(request: nat, data: seq<Response>, now: int)
      requires request in fetches
      modifies this
      ensures Snapshot() == Step(old(Snapshot()), Fetched(request, data, now))
    {
      fetches := fetches - {request};
      if !isMounted || requestId != request {
        return;
      }
      Settle(request);
      if state.Shown? {
        state := Shown(Merge(data, state.data), now, false, None);
      } else {
        state := Shown(data, now, false, None);
      }
    }

    /** The `catch` callback of a fetch. */
    method OnFetchFailed(request: nat, failure: Failure)
      requires Net().CanFail(request, failure)
      modifies this
      ensures Snapshot() == Step(old(Snapshot()), FetchFailed(request, failure))
    {
      var background := fetches[request].background;
      fetches := fetches - {request};
      if !isMounted || requestId != request {
        return;
      }
      if failure.Aborted? {
        return;
      }
      Settle(request);
      if background && state.Shown? {
        state := state.(refreshError := Some(failure.message));
      } else {
        state := Broken(failure.message);
      }
    }

    method ClearResolvingId(incident: nat)
      modifies this`resolvingIds
      ensures resolvingIds == old(resolvingIds) - {incident}
    {
      if incident in resolvingIds {
        resolvingIds := resolvingIds - {incident};
      }
    }

    method ClearResolveError(incident: nat)
      modifies this`resolveErrors
      ensures resolveErrors == old(resolveErrors) - {incident}
    {
      if incident in resolveErrors {
        resolveErrors := resolveErrors - {incident};
      }
    }

    method ResolveIncident(incident: nat)
      modifies this
      ensures Snapshot() == Step(old(Snapshot()), Resolve(incident))
    {
      if !stateRef.Shown? || !Holds(stateRef.data, incident) {
        return;
      }
      if !stateRef.data[FirstIndex(stateRef.data, incident)].status.Open? {
        return;
      }
      if incident in activeResolutionRequests {
        return;
      }
      activeResolutionRequests := activeResolutionRequests[incident := nextPost];
      resolvingIds := resolvingIds + {incident};
      ClearResolveError(incident);
      posts := posts[nextPost := Post(incident, false)];
      nextPost := nextPost + 1;
    }

    /** What both callbacks of a resolve request start with: only the request whose controller is still
        its incident's entry cleans up. */
    method Release(post: nat) returns (current: bool)
      requires post in posts
      modifies this`posts, this`activeResolutionRequests, this`resolvingIds
      ensures current == IsCurrent(old(Snapshot()), post)
      ensures Snapshot() == Settled(old(Snapshot()), post)
    {
      var incident := posts[post].incident;
      posts := posts - {post};
      if !isMounted || incident !in activeResolutionRequests || activeResolutionRequests[incident] != post {
        return false;
      }
      activeResolutionRequests := activeResolutionRequests - {incident};
      ClearResolvingId(incident);
      return true;
    }

    /** The `then` callback of a resolve request. */
    method OnResolved(post: nat, resolved: Response)
      requires post in posts && resolved.id == posts[post].incident
      modifies this
      ensures Snapshot() == Step(old(Snapshot()), Resolved(post, resolved))
    {
      var incident := posts[post].incident;
      var current := Release(post);
      if !current {
        return;
      }
      ClearResolveError(incident);
      if !state.Shown? || !Holds(state.data, incident) {
        return;
      }
      var index := FirstIndex(state.data, incident);
      state := state.(data := state.data[index := Pick(state.data[index], resolved)]);
    }

    /** The `catch` callback of a resolve request. */
    method OnResolveFailed(post: nat, failure: Failure)
      requires post in posts
      modifies this
      ensures Snapshot() == Step(old(Snapshot()), ResolveFailed(post, failure))
    {
      var incident := posts[post].incident;
      var current := Release(post);
      if !current {
        return;
      }
      if failure.Aborted? {
        return;
      }
      resolveErrors := resolveErrors[incident := failure.message];
    }
  }
}

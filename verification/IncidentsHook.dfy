/** The live incident list: refresh, poll, resolve, and every order in which their responses arrive. */
module IncidentsHook {
  import opened Wrappers
  import opened Incidents
  import opened ClientIncidents
  import opened RequestProtocol

  datatype View =
    | Loading
    | Shown(data: seq<Response>, lastUpdatedAt: int, isRefreshing: bool, refreshError: Option<string>)
    | Broken(message: string)

  /** A resolve request that has not settled. */
  datatype Post = Post(incident: nat, aborted: bool)

  /** `view` is the state after every queued update, `committed` the copy that event handlers read. */
  datatype State = State(
    net: Requests,
    view: View,
    committed: View,
    active: map<nat, nat>,
    posts: map<nat, Post>,
    nextPost: nat,
    resolvingIds: set<nat>,
    resolveErrors: map<nat, string>)

  datatype Event =
    | Mount
    | Unmount
    | Commit
    | Refresh
    | Poll
    | Fetched(request: nat, list: seq<Response>, now: int)
    | FetchFailed(request: nat, failure: Failure)
    | Resolve(incident: nat)
    | Resolved(post: nat, response: Response)
    | ResolveFailed(post: nat, failure: Failure)

  function Initial(): State {
    State(Idle(), Loading, Loading, map[], map[], 0, {}, map[])
  }

  /** Only unsettled promises settle, each for its own incident. */
  predicate Enabled(s: State, e: Event) {
    match e
    case Fetched(id, _, _) => id in s.net.outstanding
    case FetchFailed(id, failure) => s.net.CanFail(id, failure)
    case Resolved(post, response) => post in s.posts && response.id == s.posts[post].incident
    case ResolveFailed(post, _) => post in s.posts
    case _ => true
  }

  predicate Holds(list: seq<Response>, id: nat) {
    exists k | 0 <= k < |list| :: list[k].id == id
  }

  predicate CanResolve(s: State, id: nat) {
    && s.committed.Shown?
    && Holds(s.committed.data, id)
    && s.committed.data[FirstIndex(s.committed.data, id)].status.Open?
    && id !in s.active
  }

  function Requested(view: View): View {
    if view.Shown? then view.(isRefreshing := true) else Loading
  }

  function Refreshed(view: View, list: seq<Response>, now: int): View {
    Shown(if view.Shown? then Merge(list, view.data) else list, now, false, None)
  }

  function Failed(view: View, background: bool, message: string): View {
    if background && view.Shown? then view.(refreshError := Some(message)) else Broken(message)
  }

  /** Drops a settled post, and the marks of its incident if the post is still the current one. */
  function Settled(s: State, post: nat): State
    requires post in s.posts
  {
    var t := s.(posts := s.posts - {post});
    if IsCurrent(s, post) then
      var id := s.posts[post].incident;
      t.(active := t.active - {id}, resolvingIds := t.resolvingIds - {id})
    else t
  }

  predicate IsCurrent(s: State, post: nat)
    requires post in s.posts
  {
    var id := s.posts[post].incident;
    s.net.mounted && id in s.active && s.active[id] == post
  }

  function Step(s: State, e: Event): State
    requires Enabled(s, e)
  {
    match e
    case Mount => s.(net := s.net.Mount())
    case Unmount =>
      s.(net := s.net.Unmount(), active := map[],
         posts := map p | p in s.posts :: if p in s.active.Values then s.posts[p].(aborted := true) else s.posts[p])
    case Commit => s.(committed := s.view)
    case Refresh => s.(view := Requested(s.view), net := s.net.Begin(false))
    case Poll => if s.net.inFlight.Some? then s else s.(net := s.net.Begin(true))
    case Fetched(id, list, now) =>
      if s.net.Current(id) then s.(net := s.net.Finish(id, true), view := Refreshed(s.view, list, now))
      else s.(net := s.net.Finish(id, false))
    case FetchFailed(id, failure) =>
      if s.net.Current(id) && failure.Reported? then
        s.(net := s.net.Finish(id, true), view := Failed(s.view, s.net.outstanding[id].background, failure.message))
      else s.(net := s.net.Finish(id, false))
    case Resolve(id) =>
      if CanResolve(s, id) then
        s.(active := s.active[id := s.nextPost], posts := s.posts[s.nextPost := Post(id, false)],
           nextPost := s.nextPost + 1, resolvingIds := s.resolvingIds + {id}, resolveErrors := s.resolveErrors - {id})
      else s
    case Resolved(post, response) =>
      var t := Settled(s, post);
      if !IsCurrent(s, post) then t
      else
        t.(resolveErrors := t.resolveErrors - {response.id},
           view := if t.view.Shown? then t.view.(data := Replace(t.view.data, response)) else t.view)
    case ResolveFailed(post, failure) =>
      var t := Settled(s, post);
      if IsCurrent(s, post) && failure.Reported? then
        t.(resolveErrors := t.resolveErrors[s.posts[post].incident := failure.message])
      else t
  }

  // What every step keeps

  /** A visible wait, the first load or a refresh, always has a live foreground request behind it. */
  ghost predicate WaitsAreReal(s: State) {
    s.net.mounted && (s.view.Loading? || (s.view.Shown? && s.view.isRefreshing)) ==>
      s.net.requestId in s.net.outstanding && !s.net.outstanding[s.net.requestId].background
  }

  /** Every post that is not aborted is its incident's entry of the active map, and an entry that still
      has a post has that one. */
  ghost predicate PostsMatch(s: State) {
    && (forall p | p in s.posts :: p < s.nextPost)
    && (forall id | id in s.active ::
          && s.active[id] < s.nextPost
          && (s.active[id] in s.posts ==> s.posts[s.active[id]] == Post(id, false)))
    && (forall p | p in s.posts && !s.posts[p].aborted ::
          s.posts[p].incident in s.active && s.active[s.posts[p].incident] == p)
    && s.active.Keys <= s.resolvingIds
  }

  ghost predicate Sound(s: State) {
    s.net.Sound() && WaitsAreReal(s) && PostsMatch(s)
  }

  lemma StepKeepsRequests(s: State, e: Event)
    requires s.net.Sound() && Enabled(s, e)
    ensures Step(s, e).net.Sound()
  {
    UnmountIsSound(s.net);
    BeginIsSound(s.net, false);
    BeginIsSound(s.net, true);
    match e
    case Fetched(id, _, _) => EndIsSound(s.net, id, Aborted);
    case FetchFailed(id, failure) => EndIsSound(s.net, id, failure);
    case _ =>
  }

  lemma StepKeepsWaits(s: State, e: Event)
    requires s.net.Sound() && WaitsAreReal(s) && Enabled(s, e)
    ensures WaitsAreReal(Step(s, e))
  {
  }

  lemma UnmountKeepsPosts(s: State)
    requires PostsMatch(s)
    ensures PostsMatch(Step(s, Unmount))
  {
    forall p | p in s.posts ensures Step(s, Unmount).posts[p].aborted {
      if !s.posts[p].aborted {
        var id := s.posts[p].incident;
        assert s.active[id] == p;
        assert p in s.active.Values;
      }
    }
  }

  lemma SettlingKeepsPosts(s: State, post: nat)
    requires PostsMatch(s) && post in s.posts
    ensures PostsMatch(Settled(s, post))
  {
  }

  lemma ResolvingKeepsPosts(s: State, id: nat)
    requires PostsMatch(s)
    ensures PostsMatch(Step(s, Resolve(id)))
  {
    hide CanResolve;
    assert CanResolve(s, id) ==> id !in s.active by { ResolvedOnce(s, id); }
  }

  lemma ResolvedOnce(s: State, id: nat)
    ensures CanResolve(s, id) ==> id !in s.active
  {
  }

  lemma StepKeepsPosts(s: State, e: Event)
    requires PostsMatch(s) && Enabled(s, e)
    ensures PostsMatch(Step(s, e))
  {
    hide CanResolve, Merge, Replace, Settled, IsCurrent;
    match e
    case Resolve(id) => ResolvingKeepsPosts(s, id);
    case Unmount => UnmountKeepsPosts(s);
    case Resolved(post, _) => SettlingKeepsPosts(s, post);
    case ResolveFailed(post, _) => SettlingKeepsPosts(s, post);
    case _ =>
  }

  lemma StepIsSound(s: State, e: Event)
    requires Sound(s) && Enabled(s, e)
    ensures Sound(Step(s, e))
  {
    StepKeepsRequests(s, e);
    StepKeepsWaits(s, e);
    StepKeepsPosts(s, e);
  }

  predicate AllEnabled(s: State, es: seq<Event>)
    decreases |es|, 0
  {
    es == [] || (AllEnabled(s, es[..|es| - 1]) && Enabled(Run(s, es[..|es| - 1]), es[|es| - 1]))
  }

  function Run(s: State, es: seq<Event>): State
    requires AllEnabled(s, es)
    decreases |es|, 1
  {
    if es == [] then s else Step(Run(s, es[..|es| - 1]), es[|es| - 1])
  }

  lemma {:induction false} RunIsSound(es: seq<Event>)
    requires AllEnabled(Initial(), es)
    ensures Sound(Run(Initial(), es))
  {
    if es != [] {
      RunIsSound(es[..|es| - 1]);
      StepIsSound(Run(Initial(), es[..|es| - 1]), es[|es| - 1]);
    }
  }

  // What that gives

  /** Over every interleaving while mounted: one live fetch at most, named by the in-flight mark; no
      two live resolve requests for one incident; and no wait on display without its request. */
  lemma {:induction false} RunsNeverOverlap(es: seq<Event>, id: nat, p: nat, q: nat)
    requires AllEnabled(Initial(), es)
    ensures var s := Run(Initial(), es);
            && (s.net.mounted ==> (s.net.Live(id) <==> s.net.inFlight == Some(id)))
            && (s.net.mounted && (s.view.Loading? || (s.view.Shown? && s.view.isRefreshing)) ==>
                  s.net.requestId in s.net.outstanding && !s.net.outstanding[s.net.requestId].background)
            && (p in s.posts && q in s.posts && !s.posts[p].aborted && !s.posts[q].aborted ==>
                  s.posts[p].incident == s.posts[q].incident ==> p == q)
  {
    RunIsSound(es);
    var s := Run(Initial(), es);
    if s.net.mounted { OneLiveRequest(s.net, id); }
  }

  /** Only the live fetch, a current resolve response or a refresh changes what is shown. */
  lemma OnlyLiveResponsesChangeTheView(s: State, e: Event)
    requires Sound(s) && Enabled(s, e) && Step(s, e).view != s.view
    ensures s.net.mounted || e.Refresh?
    ensures match e
            case Refresh => true
            case Fetched(id, _, _) => s.net.Live(id)
            case FetchFailed(id, failure) => s.net.Live(id) && failure.Reported?
            case Resolved(post, _) => !s.posts[post].aborted
            case _ => false
  {
  }

  // What each event shows

  /** A response to the current request is merged into what is shown, or shown as it is if nothing was; it ends
      the wait, clears the error and notes the time. Any other response changes nothing on display. */
  lemma FetchedShows(s: State, request: nat, list: seq<Response>, now: int)
    requires request in s.net.outstanding
    ensures var next := Step(s, Fetched(request, list, now));
            && next.view == (if !s.net.mounted || s.net.requestId != request then s.view
                             else if s.view.Shown? then Shown(Merge(list, s.view.data), now, false, None)
                             else Shown(list, now, false, None))
            && next.committed == s.committed && next.active == s.active && next.posts == s.posts
            && next.resolvingIds == s.resolvingIds && next.resolveErrors == s.resolveErrors
  {
  }

  /** A reported failure of the current request is noted beside the list if a poll made it, and otherwise takes
      the place of the list; an abort is never shown. */
  lemma FailureShows(s: State, request: nat, failure: Failure)
    requires s.net.CanFail(request, failure)
    ensures var next := Step(s, FetchFailed(request, failure));
            && next.view == (if !s.net.mounted || s.net.requestId != request || failure.Aborted? then s.view
                             else if s.net.outstanding[request].background && s.view.Shown? then
                               Shown(s.view.data, s.view.lastUpdatedAt, s.view.isRefreshing, Some(failure.message))
                             else Broken(failure.message))
            && next.committed == s.committed && next.active == s.active && next.posts == s.posts
            && next.resolvingIds == s.resolvingIds && next.resolveErrors == s.resolveErrors
  {
  }

  /** Only a refresh starts a visible wait, and it keeps the list. */
  lemma RequestShows(s: State)
    ensures Step(s, Poll).view == s.view && Step(s, Mount).view == s.view && Step(s, Unmount).view == s.view
    ensures Step(s, Event.Refresh).view ==
            if s.view.Shown? then Shown(s.view.data, s.view.lastUpdatedAt, true, s.view.refreshError) else Loading
  {
  }

  /** A resolution is requested exactly for an incident that the committed list shows open and that has no
      request yet; it marks the incident, forgets its last error, and shows nothing else. */
  lemma ResolveStarts(s: State, id: nat)
    ensures var next := Step(s, Resolve(id));
            var starts := s.committed.Shown? && id !in s.active
                          && exists k | 0 <= k < |s.committed.data| ::
                               && s.committed.data[k].id == id && s.committed.data[k].status.Open?
                               && forall j | 0 <= j < k :: s.committed.data[j].id != id;
            && next == (if !starts then s
                        else s.(active := s.active[id := s.nextPost], posts := s.posts[s.nextPost := Post(id, false)],
                                nextPost := s.nextPost + 1, resolvingIds := s.resolvingIds + {id},
                                resolveErrors := s.resolveErrors - {id}))
  {
    if s.committed.Shown? && Holds(s.committed.data, id) {
      FirstIndexIsFirst(s.committed.data, id);
    }
  }

  /** An answer to the current request of its incident unmarks it; a response then goes into the list and
      clears the error, a reported failure becomes the error. Any other answer only settles. */
  lemma AnswerShows(s: State, post: nat, response: Response, failure: Failure)
    requires post in s.posts && response.id == s.posts[post].incident
    ensures var (ok, failed, id) := (Step(s, Event.Resolved(post, response)), Step(s, ResolveFailed(post, failure)),
                                     s.posts[post].incident);
            var current := s.net.mounted && id in s.active && s.active[id] == post;
            && ok.posts == failed.posts == s.posts - {post}
            && ok.net == failed.net == s.net && ok.committed == failed.committed == s.committed
            && failed.view == s.view
            && (if current then
                  && ok.active == failed.active == s.active - {id}
                  && ok.resolvingIds == failed.resolvingIds == s.resolvingIds - {id}
                  && ok.resolveErrors == s.resolveErrors - {id}
                  && failed.resolveErrors ==
                     (if failure.Aborted? then s.resolveErrors else s.resolveErrors[id := failure.message])
                  && ok.view == (if s.view.Shown? then
                                   Shown(Replace(s.view.data, response), s.view.lastUpdatedAt, s.view.isRefreshing,
                                         s.view.refreshError)
                                 else s.view)
                else
                  && ok.active == failed.active == s.active
                  && ok.resolvingIds == failed.resolvingIds == s.resolvingIds
                  && ok.resolveErrors == failed.resolveErrors == s.resolveErrors && ok.view == s.view)
  {
  }

  // Active requests and their marks

  lemma {:induction false} RunSnoc(s: State, es: seq<Event>, e: Event)
    requires AllEnabled(s, es) && Enabled(Run(s, es), e)
    ensures AllEnabled(s, es + [e]) && Run(s, es + [e]) == Step(Run(s, es), e)
  {
    assert (es + [e])[..|es|] == es;
  }

  /** The incidents whose request an unmount dropped and that have not been requested again since. */
  ghost function LeftOver(es: seq<Event>): set<nat>
    requires AllEnabled(Initial(), es)
  {
    if es == [] then {}
    else
      var front, last := es[..|es| - 1], es[|es| - 1];
      match last
      case Unmount => LeftOver(front) + Run(Initial(), front).active.Keys
      case Resolve(id) => if CanResolve(Run(Initial(), front), id) then LeftOver(front) - {id} else LeftOver(front)
      case _ => LeftOver(front)
  }

  /** No prefix of the run unmounts the component with a request active. */
  ghost predicate NeverUnmountsActive(es: seq<Event>)
    requires AllEnabled(Initial(), es)
  {
    es == []
    || (NeverUnmountsActive(es[..|es| - 1])
        && (es[|es| - 1].Unmount? ==> Run(Initial(), es[..|es| - 1]).active == map[]))
  }

  /** What a step does to the active requests and their marks, given which marks were left over. */
  lemma {:induction false} StepMarks(s: State, e: Event, left: set<nat>)
    requires Enabled(s, e) && s.resolvingIds == s.active.Keys + left && s.active.Keys !! left
    ensures var t := Step(s, e);
            var after := if e.Unmount? then left + s.active.Keys
                         else if e.Resolve? && CanResolve(s, e.incident) then left - {e.incident}
                         else left;
            t.resolvingIds == t.active.Keys + after && t.active.Keys !! after
  {
    var t := Step(s, e);
    if e.Resolve? && CanResolve(s, e.incident) {
      assert t.active.Keys == s.active.Keys + {e.incident};
    } else if (e.Resolved? || e.ResolveFailed?) && IsCurrent(s, e.post) {
      assert t.active.Keys == s.active.Keys - {s.posts[e.post].incident};
    }
  }

  /** Over every run the displayed marks are the active requests and, apart from them, the left-over ones. */
  lemma {:induction false} MarksAreActiveOrLeftOver(es: seq<Event>)
    requires AllEnabled(Initial(), es)
    ensures var s := Run(Initial(), es);
            s.resolvingIds == s.active.Keys + LeftOver(es) && s.active.Keys !! LeftOver(es)
  {
    if es != [] {
      var front := es[..|es| - 1];
      MarksAreActiveOrLeftOver(front);
      StepMarks(Run(Initial(), front), es[|es| - 1], LeftOver(front));
    }
  }

  lemma {:induction false} NothingIsLeftOver(es: seq<Event>)
    requires AllEnabled(Initial(), es) && NeverUnmountsActive(es)
    ensures LeftOver(es) == {}
  {
    if es != [] { NothingIsLeftOver(es[..|es| - 1]); }
  }

  /** Over every run: the marks are the active requests exactly when no request that an unmount dropped
      is still waiting to be made again, so always in a run that never unmounts with one active. */
  lemma {:induction false} ResolvingMarksAreActive(es: seq<Event>)
    requires AllEnabled(Initial(), es)
    ensures var s := Run(Initial(), es); s.resolvingIds == s.active.Keys <==> LeftOver(es) == {}
    ensures var s := Run(Initial(), es); NeverUnmountsActive(es) ==> s.resolvingIds == s.active.Keys
  {
    MarksAreActiveOrLeftOver(es);
    if NeverUnmountsActive(es) { NothingIsLeftOver(es); }
  }

  /** One open incident, fetched and committed to the screen. */
  lemma {:induction false} OneIncidentShown(r: Response) returns (es: seq<Event>)
    requires r.status.Open?
    ensures AllEnabled(Initial(), es)
    ensures var s := Run(Initial(), es);
            && s.net.mounted && s.active == map[] && s.posts == map[] && s.resolvingIds == {}
            && s.committed.Shown? && s.committed.data == [r]
            && LeftOver(es) == {}
  {
    RunSnoc(Initial(), [], Mount);
    RunSnoc(Initial(), [Mount], Fetched(1, [r], 0));
    assert [] + [Mount] == [Mount] && [Mount] + [Fetched(1, [r], 0)] == [Mount, Fetched(1, [r], 0)];
    RunSnoc(Initial(), [Mount, Fetched(1, [r], 0)], Commit);
    es := [Mount, Fetched(1, [r], 0)] + [Commit];
    assert es[..2] == [Mount, Fetched(1, [r], 0)];
    assert [Mount, Fetched(1, [r], 0)][..1] == [Mount];
    assert NeverUnmountsActive(es);
    NothingIsLeftOver(es);
  }

  /** Marks do outlive their requests: after an unmount with a request active one is left over, and
      mounting and requesting again clears it up. */
  lemma {:induction false} MarksCanOutliveRequests(r: Response) returns (es: seq<Event>, again: seq<Event>)
    requires r.status.Open?
    ensures AllEnabled(Initial(), es)
    ensures Run(Initial(), es).resolvingIds != Run(Initial(), es).active.Keys
    ensures es < again && AllEnabled(Initial(), again)
    ensures Run(Initial(), again).resolvingIds == Run(Initial(), again).active.Keys
  {
    var shown := OneIncidentShown(r);
    var asked := shown + [Resolve(r.id)];
    RunSnoc(Initial(), shown, Resolve(r.id));
    assert CanResolve(Run(Initial(), shown), r.id) by { assert [r][0].id == r.id; }
    es := asked + [Unmount];
    RunSnoc(Initial(), asked, Unmount);
    assert r.id in Run(Initial(), es).resolvingIds;
    var mounted := es + [Mount];
    RunSnoc(Initial(), es, Mount);
    again := mounted + [Resolve(r.id)];
    RunSnoc(Initial(), mounted, Resolve(r.id));
    assert CanResolve(Run(Initial(), mounted), r.id) by { assert [r][0].id == r.id; }
  }

  /** Every active entry still has its request, so it will be cleared when that settles. */
  ghost predicate ActiveIsLive(s: State) {
    && (forall id | id in s.active :: s.active[id] in s.posts)
    && (!s.net.mounted ==> s.active == map[])
  }

  /** Every resolution is requested from a mounted component. */
  ghost predicate ResolvesMounted(es: seq<Event>)
    requires AllEnabled(Initial(), es)
  {
    es == []
    || (ResolvesMounted(es[..|es| - 1]) && (es[|es| - 1].Resolve? ==> Run(Initial(), es[..|es| - 1]).net.mounted))
  }

  lemma {:induction false} StepKeepsActiveLive(s: State, e: Event)
    requires PostsMatch(s) && Enabled(s, e) && ActiveIsLive(s) && (e.Resolve? ==> s.net.mounted)
    ensures ActiveIsLive(Step(s, e))
  {
  }

  lemma {:induction false} RunKeepsActiveLive(es: seq<Event>)
    requires AllEnabled(Initial(), es) && ResolvesMounted(es)
    ensures ActiveIsLive(Run(Initial(), es))
  {
    if es != [] {
      var front := es[..|es| - 1];
      RunKeepsActiveLive(front);
      RunIsSound(front);
      StepKeepsActiveLive(Run(Initial(), front), es[|es| - 1]);
    }
  }

  /** The active incidents whose request has been answered: nothing will clear them but an unmount. */
  function Stuck(s: State): set<nat> {
    set id | id in s.active && s.active[id] !in s.posts
  }

  /** The incidents whose current request was answered unmounted, since the last unmount. */
  ghost function AnsweredUnmounted(es: seq<Event>): set<nat>
    requires AllEnabled(Initial(), es)
  {
    if es == [] then {}
    else
      var before, s, last := AnsweredUnmounted(es[..|es| - 1]), Run(Initial(), es[..|es| - 1]), es[|es| - 1];
      match last
      case Unmount => {}
      case Resolved(post, _) => before + MissedBy(s, post)
      case ResolveFailed(post, _) => before + MissedBy(s, post)
      case _ => before
  }

  /** The incident that the answer to a post should have cleared. */
  function MissedBy(s: State, post: nat): set<nat>
    requires post in s.posts
  {
    var id := s.posts[post].incident;
    if !s.net.mounted && id in s.active && s.active[id] == post then {id} else {}
  }

  lemma {:induction false} SettlingSticks(s: State, post: nat)
    requires PostsMatch(s) && post in s.posts
    ensures Stuck(Settled(s, post)) == Stuck(s) + MissedBy(s, post)
  {
  }

  lemma {:induction false} StepSticks(s: State, e: Event)
    requires PostsMatch(s) && Enabled(s, e)
    ensures Stuck(Step(s, e)) ==
            match e
            case Unmount => {}
            case Resolved(post, _) => Stuck(s) + MissedBy(s, post)
            case ResolveFailed(post, _) => Stuck(s) + MissedBy(s, post)
            case _ => Stuck(s)
  {
    hide CanResolve, Merge, Replace, Settled;
    match e
    case Resolve(id) => ResolvedOnce(s, id);
    case Resolved(post, _) => SettlingSticks(s, post);
    case ResolveFailed(post, _) => SettlingSticks(s, post);
    case _ =>
  }

  /** Over every run the answered requests that stay active are exactly those answered unmounted since
      the last unmount, and there are none if every resolution is requested mounted. */
  lemma {:induction false} StuckAreAnsweredUnmounted(es: seq<Event>)
    requires AllEnabled(Initial(), es)
    ensures Stuck(Run(Initial(), es)) == AnsweredUnmounted(es)
    ensures ResolvesMounted(es) ==> AnsweredUnmounted(es) == {}
  {
    if es != [] {
      var front := es[..|es| - 1];
      StuckAreAnsweredUnmounted(front);
      RunIsSound(front);
      StepSticks(Run(Initial(), front), es[|es| - 1]);
    }
    if ResolvesMounted(es) { RunKeepsActiveLive(es); }
  }

  /** A resolution requested after the unmount, and answered before the next mount, is never cleared
      from the active map: the incident cannot be requested again before another unmount. */
  lemma {:induction false} UnmountedRequestsStick(r: Response) returns (es: seq<Event>)
    requires r.status.Open?
    ensures AllEnabled(Initial(), es)
    ensures var s := Run(Initial(), es);
            s.net.mounted && r.id in s.active && s.posts == map[] && Step(s, Resolve(r.id)) == s
  {
    var shown := OneIncidentShown(r);
    RunSnoc(Initial(), shown, Unmount);
    var gone := shown + [Unmount];
    RunSnoc(Initial(), gone, Resolve(r.id));
    assert CanResolve(Run(Initial(), gone), r.id) by { assert [r][0].id == r.id; }
    var asked := gone + [Resolve(r.id)];
    var post := Run(Initial(), gone).nextPost;
    RunSnoc(Initial(), asked, Event.Resolved(post, r));
    var answered := asked + [Event.Resolved(post, r)];
    RunSnoc(Initial(), answered, Mount);
    es := answered + [Mount];
  }

  // Composition with the merge

  /** The response an event lets through to the list, read from the server at version `at`. */
  function Applied(s: State, e: Event, at: nat): Option<Delivery>
    requires Enabled(s, e)
  {
    match e
    case Fetched(id, list, _) => if s.net.Current(id) then Some(GetList(list, at)) else None
    case Resolved(post, response) => if IsCurrent(s, post) then Some(PostOne(response, at)) else None
    case _ => None
  }

  /** The list on display changes by deliveries alone, for as long as there is one. */
  lemma ListChangesByDelivery(s: State, e: Event, at: nat)
    requires Enabled(s, e) && s.view.Shown? && Step(s, e).view.Shown?
    ensures Step(s, e).view.data ==
            match Applied(s, e, at) case None => s.view.data case Some(d) => ClientIncidents.Deliver(s.view.data, d)
  {
  }

  /** The list is lost only when a foreground request fails. */
  lemma ListIsLostOnlyInForeground(s: State, e: Event)
    requires Sound(s) && Enabled(s, e) && s.view.Shown?
    ensures Step(s, e).view.Shown? <==>
            !(e.FetchFailed? && s.net.Live(e.request) && s.net.mounted && e.failure.Reported?
              && !s.net.outstanding[e.request].background)
  {
    if e.FetchFailed? && s.net.mounted { OneLiveRequest(s.net, e.request); }
  }

  /** Genuine responses: each is a rendering of one server state. */
  ghost predicate GenuineEvent(s: State, e: Event, at: nat, h: seq<Table>, parse: int -> int)
    requires Enabled(s, e)
  {
    match Applied(s, e, at) case None => true case Some(d) => Genuine(d, h, parse)
  }

  /** While the list stays on display, an incident shown at one server version is still shown, at that
      version or a later one, after any event; and once shown resolved it stays as it is. */
  lemma EventMovesForward(
    s: State, e: Event, at: nat, h: seq<Table>, parse: int -> int, i: nat, id: nat)
    returns (j: nat)
    requires History(h) && Monotone(parse) && Enabled(s, e) && GenuineEvent(s, e, at, h, parse)
    requires s.view.Shown? && Step(s, e).view.Shown?
    requires DistinctIds(s.view.data) && Shows(s.view.data, h, parse, id, Some(i))
    ensures DistinctIds(Step(s, e).view.data) && i <= j
    ensures Shows(Step(s, e).view.data, h, parse, id, Some(j))
    ensures Find(s.view.data, id).value.status.Resolved? ==> Find(Step(s, e).view.data, id) == Find(s.view.data, id)
  {
    ListChangesByDelivery(s, e, at);
    j := i;
    var d := Applied(s, e, at);
    if d.Some? {
      DeliveryAdvances(s.view.data, h, parse, Some(i), d.value, id);
      ShownMovesForward(s.view.data, h, parse, i, d.value, id);
      j := Advance(Some(i), h, d.value, id).value;
    }
  }

  /** The same over a whole run, each event read from some server version `at[k]`. */
  ghost predicate GenuineRun(s: State, es: seq<Event>, at: seq<nat>, h: seq<Table>, parse: int -> int)
    requires AllEnabled(s, es) && |at| == |es|
  {
    es == []
    || (GenuineRun(s, es[..|es| - 1], at[..|es| - 1], h, parse)
        && GenuineEvent(Run(s, es[..|es| - 1]), es[|es| - 1], at[|es| - 1], h, parse))
  }

  predicate StaysShown(s: State, es: seq<Event>)
    requires AllEnabled(s, es)
    decreases es
  {
    Run(s, es).view.Shown? && (es == [] || StaysShown(s, es[..|es| - 1]))
  }

  lemma {:induction false} RunMovesForward(
    s: State, es: seq<Event>, at: seq<nat>, h: seq<Table>, parse: int -> int, i: nat, id: nat) returns (j: nat)
    requires History(h) && Monotone(parse) && AllEnabled(s, es) && |at| == |es| && GenuineRun(s, es, at, h, parse)
    requires StaysShown(s, es)
    requires s.view.Shown? && DistinctIds(s.view.data) && Shows(s.view.data, h, parse, id, Some(i))
    ensures Run(s, es).view.Shown? && DistinctIds(Run(s, es).view.data) && i <= j
    ensures Shows(Run(s, es).view.data, h, parse, id, Some(j))
    ensures Find(s.view.data, id).value.status.Resolved? ==> Find(Run(s, es).view.data, id) == Find(s.view.data, id)
  {
    j := i;
    if es != [] {
      var front, last := es[..|es| - 1], es[|es| - 1];
      var k := RunMovesForward(s, front, at[..|es| - 1], h, parse, i, id);
      j := EventMovesForward(Run(s, front), last, at[|es| - 1], h, parse, k, id);
    }
  }
}

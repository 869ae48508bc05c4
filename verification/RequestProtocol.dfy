/** The request-identifier protocol that the dashboard hooks run their GET requests under. */
module RequestProtocol {
  import opened Wrappers

  /** A promise that has not settled yet, and whether its controller was aborted. */
  datatype Request = Request(background: bool, aborted: bool)

  /** How a request fails: by the abort of its controller, or with a message for the user. */
  datatype Failure = Aborted | Reported(message: string)

  datatype Requests = Requests(
    requestId: nat,
    inFlight: Option<nat>,
    controller: Option<nat>,
    mounted: bool,
    outstanding: map<nat, Request>)
  {
    predicate Current(id: nat) {
      mounted && requestId == id
    }

    function Abort(): Requests {
      if controller.Some? && controller.value in outstanding then
        this.(outstanding := outstanding[controller.value := outstanding[controller.value].(aborted := true)])
      else this
    }

    function Begin(background: bool): Requests {
      var id := requestId + 1;
      this.(requestId := id, inFlight := Some(id), controller := Some(id),
            outstanding := Abort().outstanding[id := Request(background, false)])
    }

    /** Takes a settled promise out, clearing the in-flight mark when the hook acts on it. */
    function Finish(id: nat, settle: bool): Requests {
      this.(outstanding := outstanding - {id}, inFlight := if settle && inFlight == Some(id) then None else inFlight)
    }

    function Mount(): Requests {
      this.(mounted := true).Begin(false)
    }

    function Unmount(): Requests {
      Abort().(mounted := false)
    }

    /** The one request that nothing has superseded. */
    predicate Live(id: nat) {
      id in outstanding && !outstanding[id].aborted
    }

    /** An abort error only ever comes from an aborted controller. */
    predicate CanFail(id: nat, failure: Failure) {
      id in outstanding && (failure.Aborted? ==> outstanding[id].aborted)
    }

    ghost predicate Sound() {
      && (forall id | id in outstanding ::
           0 < id <= requestId && (id < requestId ==> outstanding[id].aborted))
      && controller == (if requestId == 0 then None else Some(requestId))
      && (mounted ==>
            && requestId > 0
            && inFlight == (if requestId in outstanding then Some(requestId) else None)
            && (requestId in outstanding ==> !outstanding[requestId].aborted))
    }
  }

  function Idle(): Requests {
    Requests(0, None, None, false, map[])
  }

  lemma BeginIsSound(r: Requests, background: bool)
    requires r.Sound()
    ensures r.Begin(background).Sound() && r.Mount().Sound()
  {
    forall id | id in r.Begin(background).outstanding && id <= r.requestId
      ensures r.Begin(background).outstanding[id].aborted && r.Mount().outstanding[id].aborted
    {
      assert id in r.outstanding;
    }
  }

  lemma EndIsSound(r: Requests, id: nat, failure: Failure)
    requires r.Sound() && id in r.outstanding
    ensures r.Unmount().Sound()
    ensures r.Finish(id, r.Current(id)).Sound()
    ensures r.CanFail(id, failure) ==> r.Finish(id, r.Current(id) && !failure.Aborted?).Sound()
  {
  }

  lemma UnmountIsSound(r: Requests)
    requires r.Sound()
    ensures r.Unmount().Sound()
  {
  }

  /** While mounted at most one request is live, it is the one the hook listens to, and the in-flight
      mark, which is all that holds a poll back, names exactly that request. */
  lemma OneLiveRequest(r: Requests, id: nat)
    requires r.Sound() && r.mounted
    ensures r.Live(id) <==> r.inFlight == Some(id)
    ensures id in r.outstanding && r.Current(id) <==> r.Live(id)
  {
  }

  /** A poll that is held back is held back by a request whose settling, however it settles, clears the way. */
  lemma PollIsNeverBlockedForGood(r: Requests, failure: Failure)
    requires r.Sound() && r.mounted && r.inFlight.Some?
    ensures var id := r.inFlight.value;
            && r.Live(id)
            && r.Finish(id, r.Current(id)).inFlight == None
            && (r.CanFail(id, failure) ==> r.Finish(id, r.Current(id) && !failure.Aborted?).inFlight == None)
  {
    OneLiveRequest(r, r.inFlight.value);
  }
}

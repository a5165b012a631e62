/** The client of `packages/core/src/workerClient.ts`: one pending slot and no
    queue, so a request made while another is out is rejected. Promises are
    ticket numbers and the posted messages and delivered replies are logged,
    as in the queued client. Whether a `Worker` global exists is fixed when the
    client is made. */
module SlotClient {
  import opened Wrappers
  import opened Protocol
  import QueueClient

  /** What a call to `request` gives back at once. */
  datatype RequestResult =
    | Resolved(reply: Response)   // the promise is already resolved
    | Rejected(message: string)   // the promise is already rejected
    | Waiting(ticket: nat)        // the promise waits for the reply to this ticket

  const ConcurrentRequest: string := "concurrent worker request"

  class Client {
    /** Whether the environment has a `Worker` global. */
    const hasWorkerGlobal: bool
    var hasWorker: bool
    var initialized: bool
    var pendingResolve: Option<nat>
    var posted: seq<Ticketed>
    var replies: seq<(nat, Response)>
    var nextTicket: nat

    /** At most one posted request is unanswered, and the slot holds it; every
        reply went to the posted request of the same rank; tickets grow. */
    predicate Valid()
      reads this
    {
      && |posted| == |replies| + (if pendingResolve.Some? then 1 else 0)
      && (forall k :: 0 <= k < |replies| ==> replies[k].0 == posted[k].ticket)
      && (pendingResolve.Some? ==> pendingResolve.value == posted[|posted| - 1].ticket)
      && (forall i, j :: 0 <= i < j < |posted| ==> posted[i].ticket < posted[j].ticket)
      && (forall i :: 0 <= i < |posted| ==> posted[i].ticket < nextTicket)
      && (hasWorker ==> hasWorkerGlobal)
    }

    constructor(hasWorkerGlobal: bool)
      ensures Valid()
      ensures this.hasWorkerGlobal == hasWorkerGlobal
      ensures !hasWorker && !initialized && pendingResolve == None && posted == [] && replies == [] && nextTicket == 0
    {
      this.hasWorkerGlobal := hasWorkerGlobal;
      hasWorker := false;
      initialized := false;
      pendingResolve := None;
      posted := [];
      replies := [];
      nextTicket := 0;
    }

    /** `request`: the `no-worker` error without a worker; a rejection while a
        request is pending; otherwise the slot takes the new ticket and exactly
        one message is posted. */
    method Request(msg: Request) returns (r: RequestResult)
      requires Valid()
      modifies this
      ensures Valid()
      ensures hasWorker == old(hasWorker) && initialized == old(initialized) && replies == old(replies)
      ensures !(hasWorker && hasWorkerGlobal) ==>
        r == Resolved(QueueClient.NoWorker) && unchanged(this)
      ensures hasWorker && hasWorkerGlobal && old(pendingResolve).Some? ==>
        r == Rejected(ConcurrentRequest) && unchanged(this)
      ensures hasWorker && hasWorkerGlobal && old(pendingResolve).None? ==>
        && r == Waiting(old(nextTicket)) && pendingResolve == Some(old(nextTicket))
        && posted == old(posted) + [Ticketed(old(nextTicket), msg)]
        && nextTicket == old(nextTicket) + 1
    {
      if !hasWorker || !hasWorkerGlobal {
        return Resolved(QueueClient.NoWorker);
      }
      if pendingResolve.Some? {
        return Rejected(ConcurrentRequest);
      }
      var ticket := nextTicket;
      nextTicket := nextTicket + 1;
      pendingResolve := Some(ticket);
      posted := posted + [Ticketed(ticket, msg)];
      r := Waiting(ticket);
    }

    /** `onmessage`: a reply resolves and clears the slot; with nothing pending it is ignored. */
    method OnMessage(resp: Response)
      requires Valid()
      modifies this
      ensures Valid()
      ensures old(pendingResolve).None? ==> unchanged(this)
      ensures old(pendingResolve).Some? ==>
        && pendingResolve == None && replies == old(replies) + [(old(pendingResolve).value, resp)]
        && posted == old(posted) && hasWorker == old(hasWorker) && initialized == old(initialized)
    {
      if pendingResolve.Some? {
        replies := replies + [(pendingResolve.value, resp)];
        pendingResolve := None;
      }
    }

    /** The start of `init`: nothing once initialized; without a `Worker`
        global the client is marked initialized and makes no worker; otherwise
        a worker is made and the `init` request issued. */
    method BeginInit(wasmUrl: string) returns (r: Option<RequestResult>)
      requires Valid()
      modifies this
      ensures Valid()
      ensures old(initialized) ==> unchanged(this) && r == None
      ensures !old(initialized) && !hasWorkerGlobal ==>
        initialized && !hasWorker && r == None && posted == old(posted)
      ensures !old(initialized) && hasWorkerGlobal ==>
        hasWorker && r.Some? && (r.value.Waiting? || r.value == Rejected(ConcurrentRequest))
      ensures replies == old(replies)
    {
      if initialized {
        return None;
      }
      if !hasWorkerGlobal {
        initialized := true;
        return None;
      }
      hasWorker := true;
      var result := Request(Init(wasmUrl));
      r := Some(result);
    }

    /** The end of `init`: initialized on a `ready` reply, or when the request was rejected. */
    method FinishInit(r: RequestResult)
      requires Valid()
      modifies this
      ensures Valid()
      ensures initialized == (old(initialized) || (r.Resolved? && r.reply.Ready?) || r.Rejected?)
      ensures hasWorker == old(hasWorker) && pendingResolve == old(pendingResolve) && posted == old(posted)
    {
      if (r.Resolved? && r.reply.Ready?) || r.Rejected? {
        initialized := true;
      }
    }

    /** The start of `loadPack`, `applyUp` and `applyDown`: without a worker
        (or a `Worker` global) they return at once, `applyUp` and `applyDown`
        with no outputs, and nothing is posted. */
    method BeginCall(msg: Request) returns (r: Option<RequestResult>)
      requires Valid()
      modifies this
      ensures Valid()
      ensures !(hasWorkerGlobal && hasWorker) ==> r == None && unchanged(this)
      ensures hasWorkerGlobal && hasWorker ==> r.Some?
      ensures r.Some? && r.value.Waiting? ==> posted == old(posted) + [Ticketed(r.value.ticket, msg)]
      ensures r.Some? && !r.value.Waiting? ==> unchanged(this)
    {
      if !hasWorkerGlobal || !hasWorker {
        return None;
      }
      var result := Request(msg);
      r := Some(result);
    }
  }

  /** What `applyUp` and `applyDown` return once their request settles: a
      rejection is passed on, any reply but the matching one gives no outputs. */
  function CallOutputs(r: RequestResult, wantUp: bool): (out: Outcome<seq<string>>)
    requires !r.Waiting?
    ensures r.Rejected? <==> out.Threw?
    ensures out.Returned? && out.value != [] ==> (if wantUp then r.reply.Up? else r.reply.Down?)
  {
    match r
    case Rejected(m) => Threw(m)
    case Resolved(reply) => Returned(if wantUp then QueueClient.UpResult(reply) else QueueClient.DownResult(reply))
  }
}

/** The client of the bundled worker (`HFSTWorkerClient` in
    `packages/core/dist-worker/workerClient.js`): requests wait in a FIFO queue,
    at most one is posted to the worker at a time, and each reply resolves the
    request that was posted last. A promise is a ticket number; the logs of
    what was pushed, posted and answered are fields of the model, so that the
    ordering guarantees can be stated as an invariant. Every call is one atomic
    step; `init`, which waits for a reply, is split at that wait. */
module QueueClient {
  import opened Wrappers
  import opened Protocol

  function Tickets(s: seq<Ticketed>): (r: seq<nat>)
    ensures |r| == |s| && forall k :: 0 <= k < |s| ==> r[k] == s[k].ticket
  {
    if s == [] then [] else [s[0].ticket] + Tickets(s[1..])
  }

  /** The tickets of `s` grow strictly and all lie below `bound`. */
  predicate TicketsBelow(s: seq<Ticketed>, bound: nat) {
    && (forall i, j :: 0 <= i < j < |s| ==> s[i].ticket < s[j].ticket)
    && (forall i :: 0 <= i < |s| ==> s[i].ticket < bound)
  }

  /** A request pushed under the next ticket keeps the tickets growing. */
  lemma PushKeepsTickets(s: seq<Ticketed>, bound: nat, msg: Request)
    requires TicketsBelow(s, bound)
    ensures TicketsBelow(s + [Ticketed(bound, msg)], bound + 1)
  {
  }

  /** What `applyUp` returns for a reply: the outputs of an `up` reply, nothing otherwise. */
  function UpResult(resp: Response): (r: seq<string>)
    ensures !resp.Up? ==> r == []
    ensures resp.Up? ==> r == resp.outputs
  {
    if resp.Up? then resp.outputs else []
  }

  /** What `applyDown` returns for a reply. */
  function DownResult(resp: Response): (r: seq<string>)
    ensures !resp.Down? ==> r == []
    ensures resp.Down? ==> r == resp.outputs
  {
    if resp.Down? then resp.outputs else []
  }

  /** What `applyJoin` returns for a reply: the decision of a `join` reply, `null` otherwise. */
  function JoinResult(resp: Response): (r: Option<JoinDecision>)
    ensures r.Some? <==> resp.Joined?
    ensures r.Some? ==> r.value == resp.decision
  {
    if resp.Joined? then Some(resp.decision) else None
  }

  /** The reply a request without a worker resolves to. */
  const NoWorker: Response := Error("no-worker")

  class Client {
    /** Whether a worker was created (`this.worker !== null`). */
    var hasWorker: bool
    var initialized: bool
    var queue: seq<Ticketed>
    var sending: bool
    /** The ticket whose promise `pendingResolve` would resolve. */
    var pendingResolve: Option<nat>
    /** Every request pushed on the queue, in push order. */
    var pushed: seq<Ticketed>
    /** Every request posted to the worker (`postMessage`), in order. */
    var posted: seq<Ticketed>
    /** Every reply delivered, with the ticket it resolved. */
    var replies: seq<(nat, Response)>
    var nextTicket: nat

    /** The queue discipline: what was posted is the oldest part of what was
        pushed and the queue is the rest; at most one posted request is
        unanswered, and it is the one `pendingResolve` holds; every reply went
        to the posted request of the same rank; tickets grow in push order. */
    predicate Ordered()
      reads this
    {
      && pushed == posted + queue
      && |posted| == |replies| + (if sending then 1 else 0)
      && (forall k :: 0 <= k < |replies| ==> replies[k].0 == posted[k].ticket)
      && (sending <==> pendingResolve.Some?)
      && (sending ==> pendingResolve == Some(posted[|posted| - 1].ticket))
      && (!hasWorker ==> pushed == [] && !sending)
      && TicketsBelow(pushed, nextTicket)
    }

    /** Between calls, moreover, nothing waits in the queue unless a request is out. */
    predicate Valid()
      reads this
    {
      Ordered() && (queue != [] ==> sending)
    }

    constructor()
      ensures Valid()
      ensures !hasWorker && !initialized && queue == [] && !sending && pendingResolve == None
      ensures pushed == [] && posted == [] && replies == [] && nextTicket == 0
    {
      hasWorker := false;
      initialized := false;
      queue := [];
      sending := false;
      pendingResolve := None;
      pushed := [];
      posted := [];
      replies := [];
      nextTicket := 0;
    }

    /** `processQueue`: post the oldest queued request unless one is out. */
    method ProcessQueue()
      requires Ordered() && (hasWorker || queue == [])
      modifies this
      ensures Valid()
      ensures hasWorker == old(hasWorker) && initialized == old(initialized)
      ensures pushed == old(pushed) && replies == old(replies) && nextTicket == old(nextTicket)
      ensures if !hasWorker || old(sending) || old(queue) == [] then
                posted == old(posted) && queue == old(queue) && sending == old(sending)
              else
                posted == old(posted) + [old(queue)[0]] && queue == old(queue)[1..] && sending
    {
      if !hasWorker || sending || queue == [] {
        return;
      }
      var next := queue[0];
      queue := queue[1..];
      sending := true;
      pendingResolve := Some(next.ticket);
      posted := posted + [next];
      assert pushed == posted + queue;
    }

    /** `request`: without a worker the promise resolves at once to the
        `no-worker` error and nothing else changes; otherwise the request is
        queued under a new ticket and the queue is processed. */
    method Request(msg: Request) returns (ticket: nat, immediate: Option<Response>)
      requires Valid()
      modifies this
      ensures Valid()
      ensures ticket == old(nextTicket) && nextTicket == old(nextTicket) + 1
      ensures hasWorker == old(hasWorker) && initialized == old(initialized) && replies == old(replies)
      ensures !hasWorker ==> immediate == Some(NoWorker) && queue == old(queue) && posted == old(posted) && pushed == old(pushed)
      ensures hasWorker ==> immediate == None && pushed == old(pushed) + [Ticketed(ticket, msg)]
      ensures hasWorker && !old(sending) ==> posted == old(posted) + [Ticketed(ticket, msg)] && queue == []
      ensures hasWorker && old(sending) ==> posted == old(posted) && queue == old(queue) + [Ticketed(ticket, msg)]
    {
      ticket := nextTicket;
      nextTicket := nextTicket + 1;
      if !hasWorker {
        return ticket, Some(NoWorker);
      }
      var t := Ticketed(ticket, msg);
      PushKeepsTickets(pushed, ticket, msg);
      if !sending {
        assert queue == [] && queue + [t] == [t];
      }
      queue := queue + [t];
      pushed := pushed + [t];
      immediate := None;
      ProcessQueue();
    }

    /** The reply handler (`onmessage`, or the Node `message` event): a reply
        with nothing pending changes nothing; otherwise it resolves the pending
        request, clears the slot and posts the next queued request. */
    method Reply(resp: Response)
      requires Valid()
      modifies this
      ensures Valid()
      ensures old(pendingResolve).None? ==> unchanged(this)
      ensures old(pendingResolve).Some? ==>
        && replies == old(replies) + [(old(pendingResolve).value, resp)]
        && pushed == old(pushed) && hasWorker == old(hasWorker) && initialized == old(initialized)
        && (old(queue) == [] ==> !sending && pendingResolve == None && posted == old(posted))
        && (old(queue) != [] ==> posted == old(posted) + [old(queue)[0]] && queue == old(queue)[1..])
    {
      if pendingResolve.None? {
        return;
      }
      var resolved := pendingResolve.value;
      pendingResolve := None;
      replies := replies + [(resolved, resp)];
      sending := false;
      ProcessQueue();
    }

    /** The start of `init`: nothing once initialized. Without a `Worker`
        global it tries `worker_threads`; when that fails (`created` false) the
        client is marked initialized and stays without a worker. Otherwise a
        worker exists and an `init` request is issued. */
    method BeginInit(hasWorkerGlobal: bool, created: bool, wasmUrl: string) returns (ticket: Option<nat>)
      requires Valid()
      modifies this
      ensures Valid()
      ensures old(initialized) ==> unchanged(this) && ticket == None
      ensures !old(initialized) && !hasWorkerGlobal && !created ==>
        initialized && ticket == None && hasWorker == old(hasWorker) && pushed == old(pushed)
      ensures !old(initialized) && (hasWorkerGlobal || created) ==>
        hasWorker && ticket == Some(old(nextTicket)) && pushed == old(pushed) + [Ticketed(old(nextTicket), Init(wasmUrl))]
      ensures replies == old(replies)
    {
      if initialized {
        return None;
      }
      if !hasWorkerGlobal && !created {
        initialized := true;
        return None;
      }
      hasWorker := true;
      var t, _ := Request(Init(wasmUrl));
      ticket := Some(t);
    }

    /** The end of `init`, once its reply has come: initialized on `ready` only. */
    method FinishInit(resp: Response)
      requires Valid()
      modifies this
      ensures Valid()
      ensures initialized == (old(initialized) || resp.Ready?)
      ensures hasWorker == old(hasWorker) && queue == old(queue) && posted == old(posted) && replies == old(replies)
    {
      if resp.Ready? {
        initialized := true;
      }
    }

    /** A Node worker's `error` event marks the client initialized. */
    method OnWorkerError()
      requires Valid()
      modifies this
      ensures Valid()
      ensures initialized
      ensures hasWorker == old(hasWorker) && queue == old(queue) && posted == old(posted) && replies == old(replies)
    {
      initialized := true;
    }
  }

  /** Run a whole conversation: the requests, each followed (or not) by one
      reply. Whatever the interleaving, the replies went to the posted requests
      in order, and those are the pushed requests in order. */
  method Conversation(steps: seq<(Request, bool, Response)>) returns (c: Client)
    ensures c.Valid()
    ensures fresh(c)
    ensures Tickets(c.posted) == Tickets(c.pushed)[..|c.posted|]
    ensures forall k :: 0 <= k < |c.replies| ==> c.replies[k].0 == c.pushed[k].ticket
  {
    c := new Client();
    var _ := c.BeginInit(true, true, "");
    var i := 0;
    while i < |steps|
      invariant 0 <= i <= |steps|
      invariant c.Valid() && fresh(c)
      modifies c
    {
      var (msg, answered, resp) := steps[i];
      var _, _ := c.Request(msg);
      if answered {
        c.Reply(resp);
      }
      i := i + 1;
    }
    assert c.pushed == c.posted + c.queue;
    assert forall k :: 0 <= k < |c.posted| ==> c.posted[k] == c.pushed[k];
  }
}

/** The shared folder-size work queue: the mutex-held record and its operations. */
module FolderSizeWork {
  import opened Common

  type Time = nat
  type RequestId = nat

  /** A file-system path: a root (drive or share) and the components below it. */
  datatype Path = Path(root: string, below: seq<string>)

  datatype Context = Context(requestId: RequestId, tabId: nat, generation: nat)

  datatype Request = Request(
    context: Context, itemId: nat, path: Path, cacheMemoryMb: nat, requireDirectoryFacts: bool)

  datatype Identity = Identity(tabId: nat, generation: nat, itemId: nat, path: Path)

  /** The fields guarded by the queue's mutex, as one value. */
  datatype Work = Work(
    requests: Option<seq<Request>>,
    invalidated: seq<Path>,
    inFlight: map<Identity, RequestId>,
    cancelled: set<RequestId>,
    focus: Option<(nat, nat)>,
    retryNotBefore: Option<Time>,
    mftRetryStarted: map<Identity, Time>,
    mftBypassUntil: Option<Time>,
    stopped: bool)

  const EMPTY_WORK := Work(None, [], map[], {}, None, None, map[], None, false)

  const MFT_RETRY_BACKOFF: Time := 200
  const MFT_RETRY_BUDGET: Time := 3000
  const MFT_BYPASS_WINDOW: Time := 30000
  const BATCH_LIMIT: nat := 256

  function Parent(path: Path): Option<Path> {
    if path.below == [] then None else Some(path.(below := path.below[..|path.below| - 1]))
  }

  function IdentityOf(r: Request): Identity {
    Identity(r.context.tabId, r.context.generation, r.itemId, r.path)
  }

  function Queue(w: Work): seq<Request> {
    if w.requests.None? then [] else w.requests.value
  }

  // ---------------------------------------------------------------- submitting

  predicate Queued(q: seq<Request>, id: Identity) {
    exists k :: 0 <= k < |q| && IdentityOf(q[k]) == id
  }

  predicate Admits(w: Work, id: Identity) {
    id !in w.inFlight && !Queued(Queue(w), id)
  }

  /** Queues one request unless its identity is already queued or claimed. */
  function Pushed(w: Work, r: Request): Work {
    w.(requests := Some(if Admits(w, IdentityOf(r)) then Queue(w) + [r] else Queue(w)))
  }

  function PushedAll(w: Work, rs: seq<Request>): Work
    decreases |rs|
  {
    if rs == [] then w else Pushed(PushedAll(w, rs[..|rs| - 1]), rs[|rs| - 1])
  }

  /** The claims a newly focused folder preempts: other contexts, and not siblings. */
  function Preempted(inFlight: map<Identity, RequestId>, focus: (nat, nat), path: Path): set<RequestId> {
    set id | id in inFlight && (id.tabId, id.generation) != focus && Parent(id.path) != Parent(path)
      :: inFlight[id]
  }

  function Focused(w: Work, rs: seq<Request>): Work {
    if rs == [] then w
    else
      var last := rs[|rs| - 1];
      var focus := (last.context.tabId, last.context.generation);
      if w.focus == Some(focus) then w
      else w.(cancelled := w.cancelled + Preempted(w.inFlight, focus, last.path), focus := Some(focus))
  }

  function Submitted(w: Work, rs: seq<Request>): Work {
    PushedAll(Focused(w, rs), rs)
  }

  // ------------------------------------------------------------------ claiming

  function Live(q: seq<Request>, cancelled: set<RequestId>): seq<Request> {
    if q == [] then []
    else (if q[0].context.requestId in cancelled then [] else [q[0]]) + Live(q[1..], cancelled)
  }

  function Matching(q: seq<Request>, context: Context): seq<Request> {
    if q == [] then [] else (if q[0].context == context then [q[0]] else []) + Matching(q[1..], context)
  }

  function Others(q: seq<Request>, context: Context): seq<Request> {
    if q == [] then [] else (if q[0].context == context then [] else [q[0]]) + Others(q[1..], context)
  }

  predicate InFocus(r: Request, focus: (nat, nat)) {
    r.context.tabId == focus.0 && r.context.generation == focus.1
  }

  /** The context a claim serves: the focused one when it has live work, else the oldest. */
  function ChosenContext(q: seq<Request>, focus: Option<(nat, nat)>): Context
    requires q != []
  {
    if focus.Some? && exists k :: 0 <= k < |q| && InFocus(q[k], focus.value)
    then FirstInFocus(q, focus.value).context
    else q[0].context
  }

  function FirstInFocus(q: seq<Request>, focus: (nat, nat)): (r: Request)
    requires exists k :: 0 <= k < |q| && InFocus(q[k], focus)
    ensures r in q && InFocus(r, focus)
  {
    if InFocus(q[0], focus) then q[0]
    else
      var k :| 0 <= k < |q| && InFocus(q[k], focus);
      assert q[1..][k - 1] == q[k];
      FirstInFocus(q[1..], focus)
  }

  datatype Split = Split(batch: seq<Request>, rest: seq<Request>)

  /** Moves the first `limit` requests of one context out of the queue. */
  function Extract(q: seq<Request>, context: Context, limit: nat): Split {
    if q == [] || limit == 0 then Split([], q)
    else if q[0].context == context then
      var s := Extract(q[1..], context, limit - 1);
      Split([q[0]] + s.batch, s.rest)
    else
      var s := Extract(q[1..], context, limit);
      Split(s.batch, [q[0]] + s.rest)
  }

  function NonEmpty(q: seq<Request>): Option<seq<Request>> {
    if q == [] then None else Some(q)
  }

  function Claims(inFlight: map<Identity, RequestId>, batch: seq<Request>): map<Identity, RequestId>
    decreases |batch|
  {
    if batch == [] then inFlight
    else
      var last := batch[|batch| - 1];
      Claims(inFlight, batch[..|batch| - 1])[IdentityOf(last) := last.context.requestId]
  }

  predicate BackingOff(w: Work, now: Time) {
    w.retryNotBefore.Some? && w.retryNotBefore.value > now
  }

  /** The batch one claim takes. */
  function TakenBatch(w: Work, limit: nat, now: Time): seq<Request> {
    var live := Live(Queue(w), w.cancelled);
    if BackingOff(w, now) || live == [] then []
    else Extract(live, ChosenContext(live, w.focus), limit).batch
  }

  function Taken(w: Work, limit: nat, now: Time): Work {
    if BackingOff(w, now) then w
    else
      var live := Live(Queue(w), w.cancelled);
      if live == [] then w.(requests := None, retryNotBefore := None)
      else
        var s := Extract(live, ChosenContext(live, w.focus), limit);
        w.(requests := NonEmpty(s.rest), retryNotBefore := None, inFlight := Claims(w.inFlight, s.batch))
  }

  // -------------------------------------------------------- finishing, cancelling

  /** Releases a claim, but only the claim this very request holds. */
  function Finished(w: Work, r: Request): Work {
    var id := IdentityOf(r);
    w.(inFlight := if id in w.inFlight && w.inFlight[id] == r.context.requestId
                   then w.inFlight - {id} else w.inFlight,
       mftRetryStarted := w.mftRetryStarted - {id})
  }

  function FirstAttempt(w: Work, r: Request, started: Time): Time {
    if IdentityOf(r) in w.mftRetryStarted then w.mftRetryStarted[IdentityOf(r)] else started
  }

  function Cancelled(w: Work, context: Context): Work {
    w.(cancelled := w.cancelled + {context.requestId},
       requests := if w.requests.None? then None else NonEmpty(Live(w.requests.value, {context.requestId})),
       inFlight := map id | id in w.inFlight && w.inFlight[id] != context.requestId :: w.inFlight[id],
       mftRetryStarted := map id | id in w.mftRetryStarted &&
                                   (id.tabId, id.generation) != (context.tabId, context.generation)
                            :: w.mftRetryStarted[id])
  }

  // --------------------------------------------------------------- retry or bypass

  predicate MayRetry(w: Work, first: Time, elapsedAt: Time) {
    w.mftBypassUntil.None? && elapsedAt - first < MFT_RETRY_BUDGET
  }

  function Retried(w: Work, r: Request, first: Time, now: Time): Work {
    Pushed(w.(mftRetryStarted := w.mftRetryStarted[IdentityOf(r) := first],
              retryNotBefore := Some(now + MFT_RETRY_BACKOFF)), r)
  }

  function Bypassed(w: Work, now: Time): Work {
    w.(mftBypassUntil := Some(now + MFT_BYPASS_WINDOW))
  }

  // ------------------------------------------------------------------ the record

  /** The record behind the mutex. Every method body is one critical section. */
  class PendingFolderSizeWork {
    var requests: Option<seq<Request>>
    var invalidated: seq<Path>
    var inFlight: map<Identity, RequestId>
    var cancelled: set<RequestId>
    var focus: Option<(nat, nat)>
    var retryNotBefore: Option<Time>
    var mftRetryStarted: map<Identity, Time>
    var mftBypassUntil: Option<Time>
    var stopped: bool

    function View(): Work
      reads this
    {
      Work(requests, invalidated, inFlight, cancelled, focus, retryNotBefore, mftRetryStarted,
           mftBypassUntil, stopped)
    }

    constructor ()
      ensures View() == EMPTY_WORK
    {
      requests, invalidated, inFlight, cancelled := None, [], map[], {};
      focus, retryNotBefore, mftRetryStarted, mftBypassUntil := None, None, map[], None;
      stopped := false;
    }

    method QueueRequest(request: Request)
      modifies this`requests
      ensures View() == Pushed(old(View()), request)
    {
      var identity := IdentityOf(request);
      if requests.None? {
        requests := Some([]);
      }
      if identity !in inFlight && !Queued(requests.value, identity) {
        requests := Some(requests.value + [request]);
      }
    }

    method Enqueue(incoming: seq<Request>)
      modifies this`requests, this`cancelled, this`focus
      ensures View() == Submitted(old(View()), incoming)
    {
      if incoming != [] {
        var request := incoming[|incoming| - 1];
        var newFocus := (request.context.tabId, request.context.generation);
        if focus != Some(newFocus) {
          PreemptOthers(newFocus, request.path);
          focus := Some(newFocus);
        }
      }
      assert View() == Focused(old(View()), incoming);
      var i := 0;
      assert incoming[..0] == [];
      while i < |incoming|
        invariant 0 <= i <= |incoming|
        invariant View() == PushedAll(Focused(old(View()), incoming), incoming[..i])
      {
        assert incoming[..i + 1][..i] == incoming[..i];
        QueueRequest(incoming[i]);
        i := i + 1;
      }
      assert incoming[..i] == incoming;
    }

    method PreemptOthers(newFocus: (nat, nat), path: Path)
      modifies this`cancelled
      ensures cancelled == old(cancelled) + Preempted(inFlight, newFocus, path)
    {
      var left := inFlight.Keys;
      while left != {}
        invariant left <= inFlight.Keys
        invariant cancelled == old(cancelled) +
                               set id | id in inFlight.Keys - left && (id.tabId, id.generation) != newFocus &&
                                        Parent(id.path) != Parent(path) :: inFlight[id]
      {
        var identity :| identity in left;
        if (identity.tabId, identity.generation) != newFocus && Parent(identity.path) != Parent(path) {
          cancelled := cancelled + {inFlight[identity]};
        }
        left := left - {identity};
      }
    }

    method TakeBatch(limit: nat, now: Time) returns (batch: seq<Request>)
      modifies this`requests, this`retryNotBefore, this`inFlight
      ensures View() == Taken(old(View()), limit, now)
      ensures batch == TakenBatch(old(View()), limit, now)
    {
      if retryNotBefore.Some? && retryNotBefore.value > now {
        return [];
      }
      retryNotBefore := None;
      if requests.None? {
        return [];
      }
      var pending := Live(requests.value, cancelled);
      if pending == [] {
        requests := None;
        return [];
      }
      batch, pending := RemoveMatching(pending, ChosenContext(pending, focus), limit);
      requests := if pending == [] then None else Some(pending);
      ClaimAll(batch);
    }

    /** The in-place removal loop: position `index` only advances past requests of other contexts. */
    static method RemoveMatching(queue: seq<Request>, context: Context, limit: nat)
      returns (batch: seq<Request>, pending: seq<Request>)
      ensures Split(batch, pending) == Extract(queue, context, limit)
    {
      batch, pending := [], queue;
      var index := 0;
      ghost var kept, tail := [], queue;
      while index < |pending| && |batch| < limit
        invariant 0 <= index == |kept| && |batch| <= limit && pending == kept + tail
        invariant Extract(queue, context, limit)
               == Split(batch + Extract(tail, context, limit - |batch|).batch,
                        kept + Extract(tail, context, limit - |batch|).rest)
        decreases |pending| - index
      {
        var request := pending[index];
        assert request == tail[0];
        ghost var left := if request.context == context then limit - |batch| - 1 else limit - |batch|;
        ghost var s := Extract(tail[1..], context, left);
        if request.context == context {
          assert batch + ([request] + s.batch) == (batch + [request]) + s.batch;
          batch := batch + [request];
          pending := pending[..index] + pending[index + 1..];
        } else {
          assert kept + ([request] + s.rest) == (kept + [request]) + s.rest;
          index := index + 1;
          kept := kept + [request];
        }
        tail := tail[1..];
      }
    }

    method ClaimAll(batch: seq<Request>)
      modifies this`inFlight
      ensures inFlight == Claims(old(inFlight), batch)
    {
      var i := 0;
      while i < |batch|
        invariant 0 <= i <= |batch|
        invariant inFlight == Claims(old(inFlight), batch[..i])
      {
        assert batch[..i + 1][..i] == batch[..i];
        inFlight := inFlight[IdentityOf(batch[i]) := batch[i].context.requestId];
        i := i + 1;
      }
      assert batch[..i] == batch;
    }

    method Finish(request: Request) returns (firstAttempt: Option<Time>)
      modifies this`inFlight, this`mftRetryStarted
      ensures View() == Finished(old(View()), request)
      ensures forall started :: FirstAttempt(old(View()), request, started)
                             == if firstAttempt.Some? then firstAttempt.value else started
    {
      var identity := IdentityOf(request);
      if identity in inFlight && inFlight[identity] == request.context.requestId {
        inFlight := inFlight - {identity};
      }
      firstAttempt := if identity in mftRetryStarted then Some(mftRetryStarted[identity]) else None;
      mftRetryStarted := mftRetryStarted - {identity};
    }

    method CancelContext(context: Context)
      modifies this`requests, this`cancelled, this`inFlight, this`mftRetryStarted
      ensures View() == Cancelled(old(View()), context)
    {
      cancelled := cancelled + {context.requestId};
      if requests.Some? {
        var kept := Live(requests.value, {context.requestId});
        requests := if kept == [] then None else Some(kept);
      }
      inFlight := map id | id in inFlight && inFlight[id] != context.requestId :: inFlight[id];
      mftRetryStarted := map id | id in mftRetryStarted &&
                                  (id.tabId, id.generation) != (context.tabId, context.generation)
                           :: mftRetryStarted[id];
    }

    /** The locked part of publishing a retryable failure; `elapsedAt` and `now` are its two clock reads. */
    method RetryOrBypass(request: Request, first: Time, elapsedAt: Time, now: Time) returns (requeued: bool)
      modifies this`requests, this`mftRetryStarted, this`retryNotBefore, this`mftBypassUntil
      ensures requeued <==> old(mftBypassUntil).None? && elapsedAt < first + 3000
      ensures requeued ==> mftRetryStarted == old(mftRetryStarted)[IdentityOf(request) := first]
                           && retryNotBefore == Some(now + 200) && mftBypassUntil.None?
      ensures !requeued ==> mftBypassUntil == Some(now + 30000) && requests == old(requests)
                            && mftRetryStarted == old(mftRetryStarted) && retryNotBefore == old(retryNotBefore)
      ensures View() == if requeued then Retried(old(View()), request, first, now)
                        else Bypassed(old(View()), now)
    {
      requeued := mftBypassUntil.None? && elapsedAt - first < MFT_RETRY_BUDGET;
      if requeued {
        mftRetryStarted := mftRetryStarted[IdentityOf(request) := first];
        retryNotBefore := Some(now + MFT_RETRY_BACKOFF);
        QueueRequest(request);
      } else {
        mftBypassUntil := Some(now + MFT_BYPASS_WINDOW);
      }
    }
  }
}

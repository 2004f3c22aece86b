/**
 * The folder-size worker thread interleaved with the UI thread, one critical section at a time.
 *
 * Beside the program state the model carries a ledger of what became of every queued request, and
 * for each retried identity how often it went back to the queue.
 */
module FolderSizeScheduler {
  import opened Common
  import opened FolderSizeWork
  import opened FolderSizeClaims

  /** What the folder service said about one request. */
  datatype Measured = Exact | Partial | Failed(retryable: bool)

  /**
   * How often a request went back to the queue, since when, and when it last did; and how many
   * wake-ups cut a back-off short since it first went back, and since it last did.
   */
  datatype Round = Round(first: Time, count: nat, last: Time, early: nat, cut: nat)

  /** Whether the batch query still runs, has failed (its rest is published as failed), or returned Ok. */
  datatype Mode = Asking | Draining(retryable: bool) | Sweeping

  datatype Pc =
    | Waiting
    | Screening
    | Dropping(request: Request, answer: bool)
    | Reporting(request: Request)
    | Serving
    | Released(request: Request, round: Round, measured: Measured)
    | Deciding(request: Request, round: Round, measured: Measured)
    | Retrying(request: Request, round: Round)
    | FallingBack(request: Request)
    | Sending(request: Request)
    | Exited

  datatype Ledger = Ledger(
    entered: multiset<Request>, answered: multiset<Request>, dropped: multiset<Request>,
    merged: multiset<Request>, abandoned: multiset<Request>)

  datatype System = System(
    work: Work, now: Time, pc: Pc, mode: Mode, todo: seq<Request>,
    active: seq<Request>, started: seq<Time>,
    ledger: Ledger, rounds: map<Identity, Round>, requeues: nat, disconnected: bool)

  const EMPTY_LEDGER := Ledger(multiset{}, multiset{}, multiset{}, multiset{}, multiset{})
  const INITIAL := System(EMPTY_WORK, 0, Waiting, Asking, [], [], [], EMPTY_LEDGER, map[], 0, false)

  datatype Step =
    | Tick(to: Time)
    | Submit(rs: seq<Request>)
    | Cancel(context: Context)
    | Invalidate(directory: Path)
    | Shutdown
    | Exit
    | Claim
    | Screen(folder: bool)
    | Drop
    | Report(connected: bool)
    | Ask
    | Complete(index: nat, measured: Measured)
    | QueryEnds(ok: bool, retryable: bool)
    | Drain
    | Sweep(index: nat)
    | BatchDone
    | CheckCancelled
    | Decide
    | Retry(later: Time)
    | FallBack(ok: bool)
    | Send(connected: bool)

  /** The requests taken from the queue whose claim is not yet finished. */
  function Held(s: System): seq<Request> {
    s.active + (if s.pc.Dropping? then [s.pc.request] else []) + s.todo
  }

  /** The request whose claim is finished and whose outcome is being decided or sent. */
  function Current(pc: Pc): Option<Request> {
    if pc.Reporting? || pc.Released? || pc.Deciding? || pc.Retrying? || pc.FallingBack? || pc.Sending?
    then Some(pc.request) else None
  }

  predicate WakesEarly(s: System) {
    BackingOff(s.work, s.now)
  }

  predicate Enabled(s: System, step: Step) {
    match step
    case Tick(to) => s.now <= to
    case Submit(rs) => rs != []
    case Cancel(_) => true
    case Invalidate(_) => true
    case Shutdown => true
    case Exit => s.pc == Waiting && s.work.stopped
    case Claim => s.pc == Waiting && !s.work.stopped &&
                  (s.work.invalidated != [] || (s.work.requests.Some? && !BackingOff(s.work, s.now)))
    case Screen(_) => s.pc == Screening && s.todo != []
    case Drop => s.pc.Dropping?
    case Report(_) => s.pc.Reporting?
    case Ask => s.pc == Screening && s.todo == []
    case Complete(k, _) => s.pc == Serving && s.mode == Asking && k < |s.active| == |s.started|
    case QueryEnds(ok, _) => s.pc == Serving && s.mode == Asking &&
                             (ok ==> s.active == [] || s.work.stopped || IsCancelled(s.work, s.active[0]))
    case Drain => s.pc == Serving && s.mode.Draining? && 0 < |s.active| == |s.started|
    case Sweep(k) => s.pc == Serving && s.mode == Sweeping && k < |s.active| == |s.started|
    case BatchDone => s.pc == Serving && s.mode != Asking && s.active == []
    case CheckCancelled => s.pc.Released?
    case Decide => s.pc.Deciding?
    case Retry(later) => s.pc.Retrying? && s.now <= later
    case FallBack(_) => s.pc.FallingBack?
    case Send(_) => s.pc.Sending?
  }

  function AfterSubmit(s: System, rs: seq<Request>): System {
    var w := Submitted(s.work, rs);
    var added := if |Queue(s.work)| <= |Queue(w)| then Queue(w)[|Queue(s.work)|..] else [];
    s.(work := w,
       ledger := s.ledger.(entered := s.ledger.entered + multiset(added)),
       rounds := s.rounds - set r | r in added :: IdentityOf(r))
  }

  function AfterCancel(s: System, context: Context): System {
    var w := Cancelled(s.work, context);
    s.(work := w,
       ledger := s.ledger.(dropped := s.ledger.dropped + (multiset(Queue(s.work)) - multiset(Queue(w)))),
       rounds := map id | id in s.rounds && (id.tabId, id.generation) != (context.tabId, context.generation)
                   :: s.rounds[id])
  }

  function AfterClaim(s: System): System {
    var ready := s.work.(retryNotBefore := None);
    var w := Taken(ready, BATCH_LIMIT, s.now).(invalidated := []);
    var batch := TakenBatch(ready, BATCH_LIMIT, s.now);
    s.(work := w, todo := batch, pc := if batch == [] then Waiting else Screening,
       ledger := s.ledger.(dropped := s.ledger.dropped + (multiset(Queue(s.work))
                                                          - multiset(Live(Queue(s.work), s.work.cancelled)))),
       rounds := if WakesEarly(s)
                 then map id | id in s.rounds ::
                        s.rounds[id].(early := s.rounds[id].early + 1, cut := s.rounds[id].cut + 1)
                 else s.rounds)
  }

  function RoundOf(s: System, r: Request, started: Time): Round {
    if IdentityOf(r) in s.rounds then s.rounds[IdentityOf(r)]
    else Round(FirstAttempt(s.work, r, started), 0, 0, 0, 0)
  }

  /** Finishes the claim of `active[k]`, keeping its first-attempt time and its round. */
  function AfterFinish(s: System, k: nat, measured: Measured): System
    requires k < |s.active| == |s.started|
  {
    var r := s.active[k];
    var first := FirstAttempt(s.work, r, s.started[k]);
    s.(work := Finished(s.work, r), active := WithoutAt(s.active, k), started := WithoutAt(s.started, k),
       pc := Released(r, RoundOf(s, r, s.started[k]).(first := first), measured),
       rounds := s.rounds - {IdentityOf(r)})
  }

  function AfterSweep(s: System, k: nat): System
    requires k < |s.active| == |s.started|
  {
    var r := s.active[k];
    s.(work := Finished(s.work, r), active := WithoutAt(s.active, k), started := WithoutAt(s.started, k),
       ledger := if IsCancelled(s.work, r)
                 then s.ledger.(dropped := s.ledger.dropped + multiset{r})
                 else s.ledger.(abandoned := s.ledger.abandoned + multiset{r}),
       rounds := s.rounds - {IdentityOf(r)})
  }

  function AfterDrop(s: System): System
    requires s.pc.Dropping?
  {
    var r := s.pc.request;
    var t := s.(work := Finished(s.work, r), rounds := s.rounds - {IdentityOf(r)});
    if s.pc.answer then t.(pc := Reporting(r)) else DropNow(t, r).(pc := Screening)
  }

  function AfterDecide(s: System): System
    requires s.pc.Deciding?
  {
    var r := s.pc.request;
    match s.pc.measured
    case Exact => s.(work := s.work.(mftBypassUntil := None), pc := Sending(r))
    case Partial => s.(pc := if IsCancelled(s.work, r) then FallingBack(r) else Retrying(r, s.pc.round))
    case Failed(retryable) =>
      s.(pc := if !retryable || IsCancelled(s.work, r) then FallingBack(r) else Retrying(r, s.pc.round))
  }

  function AfterRetry(s: System, later: Time): System
    requires s.pc.Retrying?
  {
    var r, first := s.pc.request, s.pc.round.first;
    if MayRetry(s.work, first, s.now) then
      var merges := !Admits(s.work, IdentityOf(r));
      s.(work := Retried(s.work, r, first, later), now := later, pc := Serving,
         ledger := if merges then s.ledger.(merged := s.ledger.merged + multiset{r}) else s.ledger,
         rounds := if merges then s.rounds
                   else s.rounds[IdentityOf(r) := Round(first, s.pc.round.count + 1, later, s.pc.round.early, 0)],
         requeues := s.requeues + 1)
    else
      s.(work := Bypassed(s.work, later), now := later, pc := FallingBack(r))
  }

  function Lose(s: System, r: Request): System {
    s.(ledger := s.ledger.(abandoned := s.ledger.abandoned + multiset{r}), disconnected := true)
  }

  function Answer(s: System, r: Request): System {
    s.(ledger := s.ledger.(answered := s.ledger.answered + multiset{r}))
  }

  function DropNow(s: System, r: Request): System {
    s.(ledger := s.ledger.(dropped := s.ledger.dropped + multiset{r}))
  }

  function Apply(s: System, step: Step): System
    requires Enabled(s, step)
  {
    match step
    case Tick(to) => s.(now := to)
    case Submit(rs) => AfterSubmit(s, rs)
    case Cancel(context) => AfterCancel(s, context)
    case Invalidate(directory) =>
      if s.work.stopped || directory in s.work.invalidated then s
      else s.(work := s.work.(invalidated := s.work.invalidated + [directory]))
    case Shutdown =>
      s.(work := s.work.(stopped := true, requests := None),
         ledger := s.ledger.(abandoned := s.ledger.abandoned + multiset(Queue(s.work))))
    case Exit => s.(pc := Exited)
    case Claim => AfterClaim(s)
    case Screen(folder) =>
      var r := s.todo[0];
      if IsCancelled(s.work, r) then s.(pc := Dropping(r, false), todo := s.todo[1..])
      else if !folder then s.(pc := Dropping(r, true), todo := s.todo[1..])
      else s.(active := s.active + [r], started := s.started + [s.now], todo := s.todo[1..])
    case Drop => AfterDrop(s)
    case Report(connected) =>
      if connected then Answer(s, s.pc.request).(pc := Screening) else Lose(s, s.pc.request).(pc := Exited)
    case Ask =>
      if s.active == [] then s.(pc := Waiting)
      else s.(pc := Serving, mode := if s.work.mftBypassUntil.Some? && s.work.mftBypassUntil.value > s.now
                                     then Draining(false) else Asking)
    case Complete(k, measured) => AfterFinish(s, k, measured)
    case QueryEnds(ok, retryable) => s.(mode := if ok then Sweeping else Draining(retryable))
    case Drain => AfterFinish(s, 0, Failed(s.mode.retryable))
    case Sweep(k) => AfterSweep(s, k)
    case BatchDone => s.(pc := Waiting)
    case CheckCancelled =>
      if IsCancelled(s.work, s.pc.request) then DropNow(s, s.pc.request).(pc := Serving)
      else s.(pc := Deciding(s.pc.request, s.pc.round, s.pc.measured))
    case Decide => AfterDecide(s)
    case Retry(later) => AfterRetry(s, later)
    case FallBack(ok) =>
      if !ok && IsCancelled(s.work, s.pc.request) then DropNow(s, s.pc.request).(pc := Serving)
      else s.(pc := Sending(s.pc.request))
    case Send(connected) =>
      if connected then Answer(s, s.pc.request).(pc := Serving)
      else if s.mode.Draining? then Lose(s, s.pc.request).(pc := Exited)
      else Lose(s, s.pc.request).(pc := Serving, mode := Draining(false))
  }

  function Run(s: System, steps: seq<Step>): Option<System>
    decreases |steps|
  {
    if steps == [] then Some(s)
    else if Enabled(s, steps[0]) then Run(Apply(s, steps[0]), steps[1..])
    else None
  }

  // ------------------------------------------------------------------ invariant

  /** The worker is inside the publishing callback or its failure loop. */
  predicate Publishing(pc: Pc) {
    pc.Released? || pc.Deciding? || pc.Retrying? || pc.FallingBack? || pc.Sending?
  }

  /** Distinct identities, also from the request being published, and one context. */
  predicate Apart(held: seq<Request>, current: Option<Request>) {
    && DistinctIdentities(held)
    && (current.Some? ==> !Queued(held, IdentityOf(current.value)))
    && (forall a, b :: a in held && b in held ==> a.context == b.context)
  }

  /** A batch query that returned Ok left requests only because the batch was cancelled or stopped. */
  predicate Swept(w: Work, active: seq<Request>) {
    forall r :: r in active ==> w.stopped || IsCancelled(w, r)
  }

  predicate PcShape(s: System) {
    && |s.started| == |s.active|
    && (s.pc == Waiting ==> s.active == [] && s.todo == [])
    && (s.pc == Serving || Publishing(s.pc) ==> s.todo == [])
    && (Publishing(s.pc) ==> s.mode != Sweeping)
    && (s.pc.Dropping? && !s.pc.answer ==> IsCancelled(s.work, s.pc.request))
  }

  /** One batch at a time, and nothing held while the worker waits. */
  predicate OneBatch(s: System) {
    && Apart(Held(s), Current(s.pc))
    && PcShape(s)
    && (s.pc == Serving && s.mode == Sweeping ==> Swept(s.work, s.active))
  }

  function Count(r: Request, q: seq<Request>): nat {
    multiset(q)[r]
  }

  function Once(r: Request, current: Option<Request>): nat {
    if current == Some(r) then 1 else 0
  }

  /** The copies of `r` that left both the queue and the held claims. */
  function Settled(s: System, r: Request): nat {
    Once(r, Current(s.pc)) + s.ledger.answered[r] + s.ledger.dropped[r] + s.ledger.merged[r] + s.ledger.abandoned[r]
  }

  /** Copies are dropped only when cancelled, and abandoned only at shutdown or without a receiver. */
  predicate LossesExplained(s: System, r: Request) {
    && (s.ledger.dropped[r] > 0 ==> IsCancelled(s.work, r))
    && (s.ledger.abandoned[r] > 0 ==> s.work.stopped || s.disconnected)
  }

  /** Every time `r` entered the queue it is now in exactly one place. */
  predicate Accounted(s: System, r: Request) {
    && s.ledger.entered[r] == Count(r, Queue(s.work)) + Count(r, Held(s)) + Settled(s, r)
    && LossesExplained(s, r)
  }

  ghost predicate Conserved(s: System) {
    forall r :: Accounted(s, r)
  }

  /** Every gap between two requeues lasted the back-off, apart from those an early wake-up cut short. */
  predicate RoundFits(first: Time, round: Round) {
    && round.first == first && 1 <= round.count <= 15 + round.early && round.cut <= round.early
    && first + MFT_RETRY_BACKOFF * (round.count - 1 - (round.early - round.cut)) <= round.last
  }

  predicate BackedOff(now: Time, round: Round) {
    round.cut > 0 || round.last + MFT_RETRY_BACKOFF <= now
  }

  /** A retried identity keeps its first-attempt time, and its next attempt waits out the back-off. */
  predicate Paced(s: System, id: Identity) {
    id in s.rounds ==>
      var round := s.rounds[id];
      && 1 <= round.count <= 15 + round.early && round.last <= s.now
      && (Queued(Queue(s.work), id) || Queued(Held(s), id) ==>
            && id in s.work.mftRetryStarted && RoundFits(s.work.mftRetryStarted[id], round)
            && !(Queued(Queue(s.work), id) && Queued(Held(s), id)))
      && (Queued(Queue(s.work), id) ==> BackedOff(s.now, round) || (s.work.retryNotBefore.Some?
                                          && round.last + MFT_RETRY_BACKOFF <= s.work.retryNotBefore.value))
      && (Queued(Held(s), id) ==> BackedOff(s.now, round))
  }

  predicate StartedBefore(s: System, id: Identity) {
    id in s.work.mftRetryStarted ==> s.work.mftRetryStarted[id] <= s.now
  }

  function RoundAt(pc: Pc): Option<Round> {
    if pc.Released? || pc.Deciding? || pc.Retrying? then Some(pc.round) else None
  }

  predicate AttemptsStarted(s: System) {
    forall k :: 0 <= k < |s.started| ==> s.started[k] <= s.now
  }

  predicate PublishingPaced(s: System) {
    RoundAt(s.pc).Some? ==>
      var round := RoundAt(s.pc).value;
      && IdentityOf(s.pc.request) !in s.rounds
      && round.first <= s.now
      && (round.count != 0 ==> RoundFits(round.first, round) && BackedOff(s.now, round) && round.last <= s.now)
      && (round.count == 0 ==> round.early == 0)
  }

  ghost predicate Budgeted(s: System) {
    && (forall id :: Paced(s, id))
    && (forall id :: StartedBefore(s, id))
    && AttemptsStarted(s) && PublishingPaced(s)
  }

  ghost predicate Invariant(s: System) {
    Exclusive(s.work, Held(s)) && OneBatch(s) && Conserved(s) && Budgeted(s)
  }

  // ---------------------------------------------------- the claims of the one worker

  predicate Finishes(step: Step) {
    step.Complete? || step.Drain? || step.Sweep? || step.Drop?
  }

  predicate FromUi(step: Step) {
    step.Submit? || step.Cancel? || step.Invalidate? || step.Shutdown?
  }

  lemma SameClaims(w: Work, w': Work, claims: seq<Request>)
    requires Exclusive(w, claims)
    requires w'.inFlight == w.inFlight && w'.cancelled == w.cancelled && Queue(w') == Queue(w)
    ensures Exclusive(w', claims)
  {
    assert forall r :: Owns(w', r) == Owns(w, r);
  }

  lemma TakeWhenIdle(w: Work, now: Time)
    requires Exclusive(w, [])
    ensures Exclusive(Taken(w, BATCH_LIMIT, now), TakenBatch(w, BATCH_LIMIT, now))
  {
    TakeKeepsExclusive(w, [], BATCH_LIMIT, now);
    assert [] + TakenBatch(w, BATCH_LIMIT, now) == TakenBatch(w, BATCH_LIMIT, now);
  }

  lemma ClaimHeld(s: System)
    requires s.active == []
    ensures Held(AfterClaim(s)) == AfterClaim(s).todo && Current(AfterClaim(s).pc) == None
  {
  }

  lemma ClaimExclusive(s: System)
    requires Exclusive(s.work, []) && s.active == []
    ensures Exclusive(AfterClaim(s).work, AfterClaim(s).todo)
  {
    var t, ready := AfterClaim(s), s.work.(retryNotBefore := None);
    SameClaims(s.work, ready, []);
    TakeWhenIdle(ready, s.now);
    SameClaims(Taken(ready, BATCH_LIMIT, s.now), t.work, t.todo);
  }

  lemma DropExclusive(s: System)
    requires s.pc.Dropping? && Exclusive(s.work, Held(s))
    ensures Exclusive(AfterDrop(s).work, Held(AfterDrop(s)))
  {
    DropHeld(s);
    FinishKeepsExclusive(s.work, Held(s), |s.active|);
  }

  lemma DropHeld(s: System)
    requires s.pc.Dropping?
    ensures |s.active| < |Held(s)| && Held(s)[|s.active|] == s.pc.request
    ensures Held(AfterDrop(s)) == WithoutAt(Held(s), |s.active|)
  {
    assert Held(s)[..|s.active|] == s.active;
    assert Held(s)[|s.active| + 1..] == s.todo;
    assert Held(AfterDrop(s)) == s.active + s.todo;
  }

  lemma FinishHeld(s: System, k: nat, measured: Measured)
    requires s.pc == Serving && s.todo == [] && k < |s.active| == |s.started|
    ensures Held(s) == s.active
    ensures Held(AfterFinish(s, k, measured)) == WithoutAt(s.active, k)
  {
    assert Held(s) == s.active;
    assert Held(AfterFinish(s, k, measured)) == WithoutAt(s.active, k);
  }

  lemma SweepHeld(s: System, k: nat)
    requires s.pc == Serving && s.todo == [] && k < |s.active| == |s.started|
    ensures Held(s) == s.active
    ensures Held(AfterSweep(s, k)) == WithoutAt(s.active, k)
  {
    assert Held(s) == s.active;
    assert Held(AfterSweep(s, k)) == WithoutAt(s.active, k);
  }

  lemma FinishExclusive(s: System, k: nat, measured: Measured)
    requires s.pc == Serving && s.todo == [] && k < |s.active| == |s.started|
    requires Exclusive(s.work, Held(s))
    ensures Exclusive(AfterFinish(s, k, measured).work, Held(AfterFinish(s, k, measured)))
  {
    FinishHeld(s, k, measured);
    FinishKeepsExclusive(s.work, s.active, k);
  }

  lemma SweepExclusive(s: System, k: nat)
    requires s.pc == Serving && s.todo == [] && k < |s.active| == |s.started|
    requires Exclusive(s.work, Held(s))
    ensures Exclusive(AfterSweep(s, k).work, Held(AfterSweep(s, k)))
  {
    SweepHeld(s, k);
    FinishKeepsExclusive(s.work, s.active, k);
  }

  lemma RetryExclusive(s: System, later: Time)
    requires s.pc.Retrying? && Exclusive(s.work, Held(s))
    ensures Exclusive(AfterRetry(s, later).work, Held(s))
  {
    if MayRetry(s.work, s.pc.round.first, s.now) {
      RetryKeepsExclusive(s.work, Held(s), s.pc.request, s.pc.round.first, later);
    } else {
      SameClaims(s.work, Bypassed(s.work, later), Held(s));
    }
  }

  lemma UiExclusive(s: System, step: Step)
    requires FromUi(step) && Enabled(s, step) && Exclusive(s.work, Held(s))
    ensures Held(Apply(s, step)) == Held(s)
    ensures Exclusive(Apply(s, step).work, Held(s))
  {
    match step
    case Submit(rs) => SubmitKeepsExclusive(s.work, Held(s), rs);
    case Cancel(context) => CancelKeepsExclusive(s.work, Held(s), context);
    case Shutdown => assert forall r :: Owns(Apply(s, step).work, r) == Owns(s.work, r);
    case Invalidate(_) => SameClaims(s.work, Apply(s, step).work, Held(s));
  }

  /** The other steps leave the table and the held requests alone. */
  lemma LocalStep(s: System, step: Step)
    requires Enabled(s, step) && Local(step)
    ensures Held(Apply(s, step)) == Held(s)
    ensures Apply(s, step).work == s.work.(mftBypassUntil := Apply(s, step).work.mftBypassUntil)
  {
    hide AfterSubmit, AfterCancel, AfterClaim, AfterFinish, AfterSweep, AfterDrop, AfterRetry;
    if step.Screen? {
      ScreenHeld(s, step.folder);
    }
  }

  lemma LocalRounds(s: System, step: Step)
    requires Enabled(s, step) && Local(step)
    ensures Apply(s, step).rounds == s.rounds && s.now <= Apply(s, step).now
    ensures RoundAt(Apply(s, step).pc).Some? ==>
              RoundAt(Apply(s, step).pc) == RoundAt(s.pc) && Apply(s, step).pc.request == s.pc.request
  {
    hide AfterSubmit, AfterCancel, AfterClaim, AfterFinish, AfterSweep, AfterDrop, AfterRetry;
  }

  lemma ScreenHeld(s: System, folder: bool)
    requires Enabled(s, Screen(folder))
    ensures Held(Apply(s, Screen(folder))) == Held(s)
  {
    assert s.todo == [s.todo[0]] + s.todo[1..];
  }

  lemma ExclusiveStep(s: System, step: Step)
    requires Enabled(s, step) && Exclusive(s.work, Held(s)) && PcShape(s)
    ensures Exclusive(Apply(s, step).work, Held(Apply(s, step)))
  {
    if FromUi(step) {
      UiExclusive(s, step);
    } else if step.Claim? {
      assert Held(s) == [];
      ClaimHeld(s);
      ClaimExclusive(s);
    } else if step.Drop? {
      DropExclusive(s);
    } else if step.Complete? {
      FinishExclusive(s, step.index, step.measured);
    } else if step.Drain? {
      FinishExclusive(s, 0, Failed(s.mode.retryable));
    } else if step.Sweep? {
      SweepExclusive(s, step.index);
    } else if step.Retry? {
      RetryExclusive(s, step.later);
    } else {
      LocalStep(s, step);
      SameClaims(s.work, Apply(s, step).work, Held(s));
    }
  }

  // ------------------------------------------------------------------- one batch

  lemma WithoutApart(held: seq<Request>, k: nat)
    requires k < |held| && Apart(held, None)
    ensures Apart(WithoutAt(held, k), Some(held[k])) && Apart(WithoutAt(held, k), None)
    ensures forall r :: r in WithoutAt(held, k) ==> r in held
  {
    var left := WithoutAt(held, k);
    assert forall a :: 0 <= a < |left| ==> left[a] == held[if a < k then a else a + 1];
  }

  /** Pushing only appends to the queue, and touches nothing else. */
  lemma {:induction false} PushAllExtends(w: Work, rs: seq<Request>)
    ensures Queue(w) <= Queue(PushedAll(w, rs))
    ensures PushedAll(w, rs) == w.(requests := PushedAll(w, rs).requests)
    decreases |rs|
  {
    if rs != [] {
      PushAllExtends(w, rs[..|rs| - 1]);
    }
  }

  lemma UiOneBatch(s: System, step: Step)
    requires FromUi(step) && Enabled(s, step) && OneBatch(s)
    ensures OneBatch(Apply(s, step))
  {
    var t := Apply(s, step);
    assert s.work.cancelled <= t.work.cancelled && (s.work.stopped ==> t.work.stopped) by {
      if step.Submit? {
        PushAllExtends(Focused(s.work, step.rs), step.rs);
      }
    }
  }

  lemma ClaimOneBatch(s: System)
    requires s.pc == Waiting && Exclusive(s.work, []) && PcShape(s)
    ensures OneBatch(AfterClaim(s))
  {
    var t, ready := AfterClaim(s), s.work.(retryNotBefore := None);
    SameClaims(s.work, ready, []);
    BatchApart(ready, s.now);
    ClaimHeld(s);
  }

  lemma BatchApart(w: Work, now: Time)
    requires Exclusive(w, [])
    ensures Apart(TakenBatch(w, BATCH_LIMIT, now), None)
  {
    TakeKeepsExclusive(w, [], BATCH_LIMIT, now);
    var live := Live(Queue(w), w.cancelled);
    if live != [] {
      ExtractContents(live, ChosenContext(live, w.focus), BATCH_LIMIT);
    }
  }

  lemma FinishOneBatch(s: System, k: nat, measured: Measured)
    requires s.pc == Serving && s.mode != Sweeping && k < |s.active| && OneBatch(s)
    ensures OneBatch(AfterFinish(s, k, measured))
  {
    FinishHeld(s, k, measured);
    WithoutApart(s.active, k);
  }

  lemma SweepOneBatch(s: System, k: nat)
    requires s.pc == Serving && s.mode == Sweeping && k < |s.active| && OneBatch(s)
    ensures OneBatch(AfterSweep(s, k))
  {
    SweepHeld(s, k);
    WithoutApart(s.active, k);
  }

  lemma DropOneBatch(s: System)
    requires s.pc.Dropping? && OneBatch(s)
    ensures OneBatch(AfterDrop(s))
  {
    DropHeld(s);
    WithoutApart(Held(s), |s.active|);
  }

  lemma SweepStarts(s: System)
    requires s.active == [] || s.work.stopped || IsCancelled(s.work, s.active[0])
    requires Apart(Held(s), None)
    ensures Swept(s.work, s.active)
  {
    forall r | r in s.active ensures r in Held(s) && s.active[0] in Held(s) { }
  }

  predicate Local(step: Step) {
    !Finishes(step) && !FromUi(step) && !step.Claim? && !step.Retry?
  }

  lemma LocalShape(s: System, step: Step)
    requires Enabled(s, step) && Local(step) && PcShape(s)
    ensures PcShape(Apply(s, step))
  {
    hide AfterSubmit, AfterCancel, AfterClaim, AfterFinish, AfterSweep, AfterDrop, AfterRetry;
  }

  lemma LocalCurrent(s: System, step: Step)
    requires Enabled(s, step) && Local(step)
    ensures var t := Apply(s, step);
            && (Current(t.pc) == Current(s.pc) || Current(t.pc) == None)
  {
    hide AfterSubmit, AfterCancel, AfterClaim, AfterFinish, AfterSweep, AfterDrop, AfterRetry;
  }

  lemma LocalSweep(s: System, step: Step)
    requires Enabled(s, step) && Local(step) && PcShape(s)
    ensures var t := Apply(s, step);
            t.pc == Serving && t.mode == Sweeping
            ==> t.active == s.active && ((s.pc == Serving && s.mode == Sweeping) || (step.QueryEnds? && step.ok))
  {
    hide AfterSubmit, AfterCancel, AfterClaim, AfterFinish, AfterSweep, AfterDrop, AfterRetry;
  }

  lemma LocalOneBatch(s: System, step: Step)
    requires Enabled(s, step) && Local(step) && OneBatch(s)
    ensures OneBatch(Apply(s, step))
  {
    LocalStep(s, step);
    LocalShape(s, step);
    LocalCurrent(s, step);
    LocalSweep(s, step);
    if step.QueryEnds? && step.ok {
      SweepStarts(s);
    }
  }

  lemma OneBatchStep(s: System, step: Step)
    requires Enabled(s, step) && Exclusive(s.work, Held(s)) && OneBatch(s)
    ensures OneBatch(Apply(s, step))
  {
    if FromUi(step) {
      UiOneBatch(s, step);
    } else if step.Claim? {
      assert Held(s) == [];
      ClaimOneBatch(s);
    } else if step.Drop? {
      DropOneBatch(s);
    } else if step.Complete? {
      FinishOneBatch(s, step.index, step.measured);
    } else if step.Drain? {
      FinishOneBatch(s, 0, Failed(s.mode.retryable));
    } else if step.Sweep? {
      SweepOneBatch(s, step.index);
    } else if step.Retry? {
      assert Held(AfterRetry(s, step.later)) == Held(s);
    } else {
      LocalOneBatch(s, step);
    }
  }
}

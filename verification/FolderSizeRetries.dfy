/** How often one submitted folder can go back to the queue. */
module FolderSizeRetries {
  import opened Common
  import opened FolderSizeWork
  import opened FolderSizeClaims
  import opened FolderSizeScheduler
  import opened FolderSizeGuarantees

  // ---------------------------------------------------------------- counted on the trace

  /** The step puts the identity back into the queue. */
  predicate Requeues(s: System, step: Step, id: Identity) {
    && step.Retry? && s.pc.Retrying? && IdentityOf(s.pc.request) == id
    && MayRetry(s.work, s.pc.round.first, s.now) && Admits(s.work, id)
  }

  /** A wake-up that ends a back-off early. */
  predicate CutsShort(s: System, step: Step) {
    step.Claim? && WakesEarly(s)
  }

  /** The identities a submission puts into the queue. */
  function Entered(s: System, rs: seq<Request>): set<Identity> {
    var q := Queue(Submitted(s.work, rs));
    var added := if |Queue(s.work)| <= |q| then q[|Queue(s.work)|..] else [];
    set r | r in added :: IdentityOf(r)
  }

  /** A cancel of the identity's tab and generation, or of the request queued for it. */
  predicate CancelTouches(s: System, context: Context, id: Identity) {
    || (id.tabId, id.generation) == (context.tabId, context.generation)
    || exists k :: 0 <= k < |Queue(s.work)| && IdentityOf(Queue(s.work)[k]) == id
                   && Queue(s.work)[k].context.requestId == context.requestId
  }

  /** The identity is submitted anew, cancelled, or the queue shuts down. */
  predicate Resets(s: System, step: Step, id: Identity) {
    match step
    case Submit(rs) => id in Entered(s, rs)
    case Cancel(context) => CancelTouches(s, context, id)
    case Shutdown => true
    case _ => false
  }

  function CountRequeues(s: System, steps: seq<Step>, id: Identity): nat
    decreases |steps|
  {
    if steps == [] || !Enabled(s, steps[0]) then 0
    else (if Requeues(s, steps[0], id) then 1 else 0) + CountRequeues(Apply(s, steps[0]), steps[1..], id)
  }

  function CountEarly(s: System, steps: seq<Step>): nat
    decreases |steps|
  {
    if steps == [] || !Enabled(s, steps[0]) then 0
    else (if CutsShort(s, steps[0]) then 1 else 0) + CountEarly(Apply(s, steps[0]), steps[1..])
  }

  predicate Undisturbed(s: System, steps: seq<Step>, id: Identity)
    decreases |steps|
  {
    steps != [] && Enabled(s, steps[0]) ==>
      !Resets(s, steps[0], id) && Undisturbed(Apply(s, steps[0]), steps[1..], id)
  }

  // ------------------------------------------------------------------ requeues still left

  predicate Present(s: System, id: Identity) {
    Queued(Queue(s.work), id) || Queued(Held(s), id)
  }

  predicate BeingDecided(s: System, id: Identity) {
    RoundAt(s.pc).Some? && IdentityOf(s.pc.request) == id
  }

  function Left(round: Round): int {
    15 + round.early - round.count
  }

  /** How many more times the identity can be requeued if no further back-off is cut short. */
  function Room(s: System, id: Identity): int {
    if Present(s, id) then (if id in s.rounds then Left(s.rounds[id]) else 15)
    else if BeingDecided(s, id) then Left(RoundAt(s.pc).value)
    else 0
  }

  lemma RoomIsLeft(s: System, id: Identity)
    requires Paced(s, id) && PublishingPaced(s)
    ensures 0 <= Room(s, id)
  {
  }

  /** A submission appends to the queue, starts the entered identities afresh and leaves the rest alone. */
  lemma SubmitAdds(s: System, rs: seq<Request>, id: Identity)
    ensures var t := AfterSubmit(s, rs);
            && (Queued(Queue(t.work), id) <==> Queued(Queue(s.work), id) || id in Entered(s, rs))
            && t.rounds == s.rounds - Entered(s, rs) && t.pc == s.pc && Held(t) == Held(s)
            && t.work.mftRetryStarted == s.work.mftRetryStarted && s.work.cancelled <= t.work.cancelled
  {
    var before, after := Queue(s.work), Queue(Submitted(s.work, rs));
    PushAllExtends(Focused(s.work, rs), rs);
    var added := after[|before|..];
    assert after == before + added;
    if Queued(after, id) {
      QueuedInEither(before, added, id);
    }
    QueuedStays(before, added, id);
  }

  lemma SubmitSpends(s: System, rs: seq<Request>, id: Identity)
    requires id !in Entered(s, rs)
    ensures Room(AfterSubmit(s, rs), id) == Room(s, id)
  {
    hide AfterSubmit, Entered, Held;
    SubmitAdds(s, rs, id);
  }

  lemma QueuedStays(p: seq<Request>, q: seq<Request>, id: Identity)
    ensures Queued(p, id) ==> Queued(p + q, id)
  {
    if k :| 0 <= k < |p| && IdentityOf(p[k]) == id {
      assert (p + q)[k] == p[k];
    }
  }

  lemma CancelSpends(s: System, context: Context, id: Identity)
    requires !CancelTouches(s, context, id)
    ensures Room(AfterCancel(s, context), id) == Room(s, id)
  {
    var t := AfterCancel(s, context);
    LiveMembers(Queue(s.work), {context.requestId});
    SubQueue(Queue(t.work), Queue(s.work), id);
    if k :| 0 <= k < |Queue(s.work)| && IdentityOf(Queue(s.work)[k]) == id {
      assert Queue(s.work)[k] in Queue(t.work);
    }
    assert Held(t) == Held(s);
  }

  lemma ClaimSpends(s: System, id: Identity)
    requires QueueExclusive(s.work) && s.pc == Waiting && PcShape(s) && 0 <= Room(s, id)
    ensures Room(AfterClaim(s), id) <= Room(s, id) + if WakesEarly(s) then 1 else 0
  {
    TakeSplitsQueue(s.work.(retryNotBefore := None), s.now, id);
    assert Held(s) == [];
    ClaimHeld(s);
  }

  /** A claim that ends leaves its identity queued with a fresh budget, with what is left, or gone. */
  lemma FinishSpends(s: System, k: nat, measured: Measured, id: Identity)
    requires Paced(s, id) && s.pc == Serving && s.todo == [] && k < |s.active| == |s.started|
    requires Apart(Held(s), None)
    ensures Room(AfterFinish(s, k, measured), id) <= Room(s, id)
  {
    FinishHeld(s, k, measured);
    WithoutQueued(s.active, k, id);
    GoneIfFinished(s.active, k, id);
  }

  /** Held identities are distinct: the finished one is held no longer, the others still are. */
  lemma GoneIfFinished(held: seq<Request>, k: nat, id: Identity)
    requires k < |held| && DistinctIdentities(held)
    ensures Queued(WithoutAt(held, k), id) <==> Queued(held, id) && id != IdentityOf(held[k])
  {
    var left := WithoutAt(held, k);
    assert forall a :: 0 <= a < |left| ==> left[a] == held[if a < k then a else a + 1];
    if j :| 0 <= j < |held| && IdentityOf(held[j]) == id {
      assert j != k ==> left[if j < k then j else j - 1] == held[j];
    }
  }

  lemma DropSpends(s: System, id: Identity)
    requires Paced(s, id) && s.pc.Dropping? && Apart(Held(s), None) && 0 <= Room(s, id)
    ensures Room(AfterDrop(s), id) <= Room(s, id)
  {
    DropHeld(s);
    GoneIfFinished(Held(s), |s.active|, id);
    assert Queue(AfterDrop(s).work) == Queue(s.work);
  }

  lemma SweepSpends(s: System, k: nat, id: Identity)
    requires Paced(s, id) && s.pc == Serving && s.todo == [] && k < |s.active| == |s.started|
    requires Apart(Held(s), None) && 0 <= Room(s, id)
    ensures Room(AfterSweep(s, k), id) <= Room(s, id)
  {
    SweepHeld(s, k);
    GoneIfFinished(s.active, k, id);
    assert Queue(AfterSweep(s, k).work) == Queue(s.work);
  }

  lemma RetrySpends(s: System, later: Time, id: Identity)
    requires s.pc.Retrying? && !Queued(Held(s), IdentityOf(s.pc.request)) && 0 <= Room(s, id)
    ensures Room(AfterRetry(s, later), id) + (if Requeues(s, Step.Retry(later), id) then 1 else 0) <= Room(s, id)
  {
    var t := AfterRetry(s, later);
    assert Held(t) == Held(s);
    if MayRetry(s.work, s.pc.round.first, s.now) && Admits(s.work, IdentityOf(s.pc.request)) {
      assert Queue(t.work) == Queue(s.work) + [s.pc.request];
      assert Queue(t.work)[|Queue(s.work)|] == s.pc.request;
      if Queued(Queue(t.work), id) && id != IdentityOf(s.pc.request) {
        var k :| 0 <= k < |Queue(t.work)| && IdentityOf(Queue(t.work)[k]) == id;
        assert Queue(s.work)[k] == Queue(t.work)[k];
      }
      QueuedStays(Queue(s.work), [s.pc.request], id);
    } else {
      assert Queue(t.work) == Queue(s.work);
    }
  }

  lemma LocalSpends(s: System, step: Step, id: Identity)
    requires Enabled(s, step) && Local(step) && 0 <= Room(s, id)
    ensures Room(Apply(s, step), id) <= Room(s, id)
  {
    LocalStep(s, step);
    LocalRounds(s, step);
    hide Apply;
  }

  /** Each requeue takes one from what is left; each back-off cut short gives one back. */
  lemma StepSpends(s: System, step: Step, id: Identity)
    requires Enabled(s, step) && Invariant(s) && !Resets(s, step, id)
    ensures Room(Apply(s, step), id) + (if Requeues(s, step, id) then 1 else 0)
         <= Room(s, id) + if CutsShort(s, step) then 1 else 0
  {
    hide Room, BackingOff, AfterSubmit, AfterCancel, AfterClaim, AfterFinish, AfterSweep, AfterDrop, AfterRetry;
    RoomIsLeft(s, id);
    assert Paced(s, id) && PcShape(s) && Apart(Held(s), None);
    hide Conserved, Paced, Apart, DistinctIdentities, Queued;
    if step.Submit? {
      SubmitSpends(s, step.rs, id);
    } else if step.Cancel? {
      CancelSpends(s, step.context, id);
    } else if step.Claim? {
      ClaimSpends(s, id);
    } else if step.Drop? {
      DropSpends(s, id);
    } else if step.Complete? {
      FinishSpends(s, step.index, step.measured, id);
    } else if step.Drain? {
      FinishSpends(s, 0, Failed(s.mode.retryable), id);
    } else if step.Sweep? {
      SweepSpends(s, step.index, id);
    } else if step.Retry? {
      RetrySpends(s, step.later, id);
    } else if Local(step) {
      LocalSpends(s, step, id);
    } else {
      InvalidateSpends(s, step, id);
    }
  }

  lemma InvalidateSpends(s: System, step: Step, id: Identity)
    requires step.Invalidate? && Enabled(s, step)
    ensures Room(Apply(s, step), id) == Room(s, id)
  {
    assert Held(Apply(s, step)) == Held(s);
  }

  // ----------------------------------------------------------------------- over a run

  lemma {:induction false} RunSpends(s: System, steps: seq<Step>, id: Identity)
    requires Invariant(s) && Run(s, steps).Some? && Undisturbed(s, steps, id)
    ensures CountRequeues(s, steps, id) <= Room(s, id) + CountEarly(s, steps)
    decreases |steps|
  {
    hide Room;
    hide Invariant;
    hide Requeues;
    hide CutsShort;
    hide Resets;
    RoomNotNegative(s, id);
    if steps != [] {
      InvariantStep(s, steps[0]);
      StepSpends(s, steps[0], id);
      RunSpends(Apply(s, steps[0]), steps[1..], id);
    }
  }

  lemma RoomNotNegative(s: System, id: Identity)
    requires Invariant(s)
    ensures 0 <= Room(s, id)
  {
    assert Paced(s, id);
    RoomIsLeft(s, id);
  }

  /**
   * Retry budget, on the trace: once a submission put a folder into the queue, and until it is
   * submitted anew, cancelled or the queue shuts down, it goes back to the queue at most 15 times
   * and once more for each wake-up that cut a back-off short.
   */
  lemma RetryBudget(steps: seq<Step>, rs: seq<Request>, more: seq<Step>, id: Identity)
    requires Run(INITIAL, steps).Some? && rs != []
    requires var s := Run(INITIAL, steps).value;
             id in Entered(s, rs) && Run(AfterSubmit(s, rs), more).Some? && Undisturbed(AfterSubmit(s, rs), more, id)
    ensures var s := AfterSubmit(Run(INITIAL, steps).value, rs);
            CountRequeues(s, more, id) <= 15 + CountEarly(s, more)
  {
    var s := Run(INITIAL, steps).value;
    var t := AfterSubmit(s, rs);
    InitialInvariant();
    InvariantRun(INITIAL, steps);
    InvariantStep(s, Step.Submit(rs));
    EnteredIsFresh(s, rs, id);
    RunSpends(t, more, id);
  }

  lemma EnteredIsFresh(s: System, rs: seq<Request>, id: Identity)
    requires id in Entered(s, rs)
    ensures Room(AfterSubmit(s, rs), id) == 15
  {
    hide AfterSubmit, Entered, Held;
    SubmitAdds(s, rs, id);
  }

  // ------------------------------------------------------ the first attempt is remembered

  /** Wherever the folder is, its first attempt is remembered as `first`. */
  predicate Carries(s: System, id: Identity, first: Time) {
    && (Present(s, id) ==>
          id in s.rounds && id in s.work.mftRetryStarted && s.work.mftRetryStarted[id] == first)
    && (BeingDecided(s, id) ==> RoundAt(s.pc).value.first == first)
  }

  lemma SubmitCarries(s: System, rs: seq<Request>, id: Identity, first: Time)
    requires id !in Entered(s, rs) && Carries(s, id, first)
    ensures Carries(AfterSubmit(s, rs), id, first)
  {
    hide AfterSubmit, Entered, Held;
    SubmitAdds(s, rs, id);
  }

  lemma CancelCarries(s: System, context: Context, id: Identity, first: Time)
    requires !CancelTouches(s, context, id) && Carries(s, id, first)
    ensures Carries(AfterCancel(s, context), id, first)
  {
    var t := AfterCancel(s, context);
    LiveMembers(Queue(s.work), {context.requestId});
    SubQueue(Queue(t.work), Queue(s.work), id);
    assert Held(t) == Held(s);
  }

  lemma ClaimCarries(s: System, id: Identity, first: Time)
    requires QueueExclusive(s.work) && s.pc == Waiting && PcShape(s) && Carries(s, id, first)
    ensures Carries(AfterClaim(s), id, first)
  {
    TakeSplitsQueue(s.work.(retryNotBefore := None), s.now, id);
    assert Held(s) == [];
    ClaimHeld(s);
  }

  /** A claim that ends hands the remembered time to the decision about the folder. */
  lemma FinishCarries(s: System, k: nat, measured: Measured, id: Identity, first: Time)
    requires Paced(s, id) && s.pc == Serving && s.todo == [] && k < |s.active| == |s.started|
    requires Apart(Held(s), None) && Carries(s, id, first)
    ensures Carries(AfterFinish(s, k, measured), id, first)
  {
    FinishHeld(s, k, measured);
    WithoutQueued(s.active, k, id);
    GoneIfFinished(s.active, k, id);
  }

  lemma DropCarries(s: System, id: Identity, first: Time)
    requires Paced(s, id) && s.pc.Dropping? && Apart(Held(s), None) && Carries(s, id, first)
    ensures Carries(AfterDrop(s), id, first)
  {
    DropHeld(s);
    GoneIfFinished(Held(s), |s.active|, id);
    assert Queued(Held(s), IdentityOf(s.pc.request)) by {
      assert Held(s)[|s.active|] == s.pc.request;
    }
    assert Queue(AfterDrop(s).work) == Queue(s.work);
  }

  lemma SweepCarries(s: System, k: nat, id: Identity, first: Time)
    requires Paced(s, id) && s.pc == Serving && s.todo == [] && k < |s.active| == |s.started|
    requires Apart(Held(s), None) && Carries(s, id, first)
    ensures Carries(AfterSweep(s, k), id, first)
  {
    SweepHeld(s, k);
    WithoutQueued(s.active, k, id);
    GoneIfFinished(s.active, k, id);
    assert Queue(AfterSweep(s, k).work) == Queue(s.work);
  }

  /** A requeue writes back the time the decision was handed. */
  lemma RetryCarries(s: System, later: Time, id: Identity, first: Time)
    requires s.pc.Retrying? && PublishingPaced(s) && Carries(s, id, first)
    ensures Carries(AfterRetry(s, later), id, first)
  {
    var t := AfterRetry(s, later);
    assert Held(t) == Held(s);
    if MayRetry(s.work, s.pc.round.first, s.now) && Admits(s.work, IdentityOf(s.pc.request)) {
      assert Queue(t.work) == Queue(s.work) + [s.pc.request];
      if Queued(Queue(t.work), id) && id != IdentityOf(s.pc.request) {
        var k :| 0 <= k < |Queue(t.work)| && IdentityOf(Queue(t.work)[k]) == id;
        assert Queue(s.work)[k] == Queue(t.work)[k];
      }
    } else {
      assert Queue(t.work) == Queue(s.work);
    }
  }

  lemma LocalCarries(s: System, step: Step, id: Identity, first: Time)
    requires Enabled(s, step) && Local(step) && Carries(s, id, first)
    ensures Carries(Apply(s, step), id, first)
  {
    LocalStep(s, step);
    LocalRounds(s, step);
    hide Apply;
  }

  lemma InvalidateCarries(s: System, step: Step, id: Identity, first: Time)
    requires step.Invalidate? && Enabled(s, step) && Carries(s, id, first)
    ensures Carries(Apply(s, step), id, first)
  {
    assert Held(Apply(s, step)) == Held(s);
  }

  lemma StepCarries(s: System, step: Step, id: Identity, first: Time)
    requires Enabled(s, step) && Invariant(s) && !Resets(s, step, id) && Carries(s, id, first)
    ensures Carries(Apply(s, step), id, first)
  {
    hide Carries, BackingOff, AfterSubmit, AfterCancel, AfterClaim, AfterFinish, AfterSweep, AfterDrop, AfterRetry;
    assert Paced(s, id) && PcShape(s) && Apart(Held(s), None);
    hide Conserved, Paced, Apart, DistinctIdentities, Queued;
    if step.Submit? {
      SubmitCarries(s, step.rs, id, first);
    } else if step.Cancel? {
      CancelCarries(s, step.context, id, first);
    } else if step.Claim? {
      ClaimCarries(s, id, first);
    } else if step.Drop? {
      DropCarries(s, id, first);
    } else if step.Complete? {
      FinishCarries(s, step.index, step.measured, id, first);
    } else if step.Drain? {
      FinishCarries(s, 0, Failed(s.mode.retryable), id, first);
    } else if step.Sweep? {
      SweepCarries(s, step.index, id, first);
    } else if step.Retry? {
      RetryCarries(s, step.later, id, first);
    } else if Local(step) {
      LocalCarries(s, step, id, first);
    } else {
      InvalidateCarries(s, step, id, first);
    }
  }

  lemma {:induction false} RunCarries(s: System, steps: seq<Step>, id: Identity, first: Time)
    requires Invariant(s) && Run(s, steps).Some? && Undisturbed(s, steps, id) && Carries(s, id, first)
    ensures Carries(Run(s, steps).value, id, first) && Invariant(Run(s, steps).value)
    decreases |steps|
  {
    hide Carries;
    hide Invariant;
    hide Resets;
    if steps != [] {
      InvariantStep(s, steps[0]);
      StepCarries(s, steps[0], id, first);
      RunCarries(Apply(s, steps[0]), steps[1..], id, first);
    }
  }

  /**
   * The first attempt survives any number of requeues: from a requeue on, and until the folder is
   * submitted anew, cancelled or the queue shuts down, the shared table remembers the time that was
   * decided with then whenever the folder is queued or claimed, and every later decision gets it.
   */
  lemma FirstAttemptSurvives(steps: seq<Step>, later: Time, more: seq<Step>, id: Identity)
    requires Run(INITIAL, steps).Some?
    requires var s := Run(INITIAL, steps).value;
             && Enabled(s, Step.Retry(later)) && Requeues(s, Step.Retry(later), id)
             && Run(AfterRetry(s, later), more).Some? && Undisturbed(AfterRetry(s, later), more, id)
    ensures var first := Run(INITIAL, steps).value.pc.round.first;
            var u := Run(AfterRetry(Run(INITIAL, steps).value, later), more).value;
            && (Present(u, id) ==> id in u.work.mftRetryStarted && u.work.mftRetryStarted[id] == first)
            && (BeingDecided(u, id) ==> RoundAt(u.pc).value.first == first)
            && (id in u.rounds ==> 1 <= u.rounds[id].count <= 15 + u.rounds[id].early)
  {
    var s := Run(INITIAL, steps).value;
    var t := AfterRetry(s, later);
    InitialInvariant();
    InvariantRun(INITIAL, steps);
    InvariantStep(s, Step.Retry(later));
    assert Carries(t, id, s.pc.round.first);
    RunCarries(t, more, id, s.pc.round.first);
    assert Paced(Run(t, more).value, id);
  }

  // ------------------------------------------------------ merging only into a newer request

  /** The worker keeps deciding about the request whose claim it released. */
  predicate KeepsDeciding(s: System, steps: seq<Step>)
    decreases |steps|
  {
    && RoundAt(s.pc).Some?
    && (steps != [] && Enabled(s, steps[0]) ==> KeepsDeciding(Apply(s, steps[0]), steps[1..]))
  }

  /** Some submission along the way puts the identity into the queue. */
  predicate EnteredDuring(s: System, steps: seq<Step>, id: Identity)
    decreases |steps|
  {
    && steps != [] && Enabled(s, steps[0])
    && ((steps[0].Submit? && id in Entered(s, steps[0].rs)) || EnteredDuring(Apply(s, steps[0]), steps[1..], id))
  }

  lemma CancelAddsNothing(s: System, context: Context, id: Identity)
    ensures var t := AfterCancel(s, context);
            && (Queued(Queue(t.work), id) ==> Queued(Queue(s.work), id))
            && t.pc == s.pc && s.work.cancelled <= t.work.cancelled
  {
    LiveMembers(Queue(s.work), {context.requestId});
    SubQueue(Queue(AfterCancel(s, context).work), Queue(s.work), id);
  }

  /** While the worker decides, only a submission queues anything, and cancels are never taken back. */
  lemma DecidingStep(s: System, step: Step, id: Identity)
    requires Enabled(s, step) && RoundAt(s.pc).Some? && RoundAt(Apply(s, step).pc).Some?
    ensures Queued(Queue(Apply(s, step).work), id) ==>
              Queued(Queue(s.work), id) || (step.Submit? && id in Entered(s, step.rs))
    ensures s.work.cancelled <= Apply(s, step).work.cancelled && Apply(s, step).pc.request == s.pc.request
    ensures s.pc.Released? && IsCancelled(s.work, s.pc.request) ==> Apply(s, step).pc.Released?
    ensures s.pc.Deciding? ==> !Apply(s, step).pc.Released?
  {
    hide AfterSubmit, AfterCancel, AfterClaim, AfterFinish, AfterSweep, AfterDrop, Entered, Held;
    if step.Submit? {
      SubmitAdds(s, step.rs, id);
    } else if step.Cancel? {
      CancelAddsNothing(s, step.context, id);
    }
  }

  lemma {:induction false} DecidingRun(s: System, steps: seq<Step>, id: Identity)
    requires Run(s, steps).Some? && KeepsDeciding(s, steps)
    requires Run(s, steps).value.pc.Retrying? && Queued(Queue(Run(s, steps).value.work), id)
    ensures Queued(Queue(s.work), id) || EnteredDuring(s, steps, id)
    ensures s.pc.Released? ==> !IsCancelled(s.work, s.pc.request)
    ensures Run(s, steps).value.pc.request == s.pc.request
    decreases |steps|
  {
    hide Entered;
    if steps != [] {
      DecidingStep(s, steps[0], id);
      hide Apply;
      DecidingRun(Apply(s, steps[0]), steps[1..], id);
    }
  }

  /**
   * A retry that finds its identity queued merges into a newer request: one that was submitted
   * after the claim was finished and before the retry.
   */
  lemma MergesOnlyIntoNewer(steps: seq<Step>, finish: Step, during: seq<Step>)
    requires Run(INITIAL, steps).Some?
    requires var s := Run(INITIAL, steps).value;
             Enabled(s, finish) && (finish.Complete? || finish.Drain?) && Run(Apply(s, finish), during).Some?
    requires var t := Apply(Run(INITIAL, steps).value, finish);
             var u := Run(t, during).value;
             KeepsDeciding(t, during) && u.pc.Retrying? && !Admits(u.work, IdentityOf(u.pc.request))
    ensures var t := Apply(Run(INITIAL, steps).value, finish);
            var u := Run(t, during).value;
            u.pc.request == t.pc.request && EnteredDuring(t, during, IdentityOf(u.pc.request))
  {
    var s := Run(INITIAL, steps).value;
    var t := Apply(s, finish);
    InitialInvariant();
    InvariantRun(INITIAL, steps);
    assert Run(s, [finish]) == Run(t, []);
    InvariantStep(s, finish);
    InvariantRun(t, during);
    var u := Run(t, during).value;
    var id := IdentityOf(u.pc.request);
    MergeIsQueued(u);
    DecidingRun(t, during, id);
    FinishedWasAlone(s, finish);
  }

  lemma MergeIsQueued(u: System)
    requires Invariant(u) && u.pc.Retrying? && !Admits(u.work, IdentityOf(u.pc.request))
    ensures Queued(Queue(u.work), IdentityOf(u.pc.request))
  {
    assert Apart(Held(u), Current(u.pc));
    assert forall r :: r in Held(u) ==> Queued(Held(u), IdentityOf(r));
  }

  /** When a claim that is not cancelled is finished, nothing of its identity is queued. */
  lemma FinishedWasAlone(s: System, finish: Step)
    requires Invariant(s) && Enabled(s, finish) && (finish.Complete? || finish.Drain?)
    ensures var t := Apply(s, finish);
            t.pc.Released? && t.work.cancelled == s.work.cancelled
            && (!IsCancelled(t.work, t.pc.request) ==> !Queued(Queue(t.work), IdentityOf(t.pc.request)))
  {
    var k := if finish.Complete? then finish.index else 0;
    var r := s.active[k];
    assert Held(s)[k] == r && r in Held(s);
    assert ClaimsOwned(s.work, Held(s)) && QueueExclusive(s.work);
    if Queued(Queue(s.work), IdentityOf(r)) {
      var q :| 0 <= q < |Queue(s.work)| && IdentityOf(Queue(s.work)[q]) == IdentityOf(r);
      assert Queue(s.work)[q] in Queue(s.work);
    }
  }
}

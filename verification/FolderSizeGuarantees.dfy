/** What every run of the folder-size scheduler guarantees: conservation, the retry budget, the bypass. */
module FolderSizeGuarantees {
  import opened Common
  import opened FolderSizeWork
  import opened FolderSizeClaims
  import opened FolderSizeScheduler

  // ---------------------------------------------------------------- conservation

  lemma LiveCount(q: seq<Request>, cancelled: set<RequestId>, r: Request)
    ensures Count(r, Live(q, cancelled)) == if r.context.requestId in cancelled then 0 else Count(r, q)
  {
    LiveContents(q, cancelled);
  }

  lemma WithoutCount(q: seq<Request>, k: nat, r: Request)
    requires k < |q|
    ensures Count(r, q) == Count(r, WithoutAt(q, k)) + if q[k] == r then 1 else 0
  {
  }

  lemma CountAppend(r: Request, p: seq<Request>, q: seq<Request>)
    ensures Count(r, p + q) == Count(r, p) + Count(r, q)
  {
  }

  lemma LedgerGrows(m: multiset<Request>, q: seq<Request>, r: Request)
    ensures (m + multiset(q))[r] == m[r] + Count(r, q)
  {
  }

  lemma LedgerDrops(m: multiset<Request>, p: seq<Request>, q: seq<Request>, r: Request)
    requires Count(r, q) <= Count(r, p)
    ensures (m + (multiset(p) - multiset(q)))[r] == m[r] + Count(r, p) - Count(r, q)
  {
  }

  lemma SubmitAccounts(s: System, rs: seq<Request>, r: Request)
    requires Accounted(s, r)
    ensures Accounted(AfterSubmit(s, rs), r)
  {
    hide Count;
    var t := AfterSubmit(s, rs);
    PushAllExtends(Focused(s.work, rs), rs);
    var added := Queue(t.work)[|Queue(s.work)|..];
    assert Queue(t.work) == Queue(s.work) + added;
    CountAppend(r, Queue(s.work), added);
    LedgerGrows(s.ledger.entered, added, r);
  }

  lemma CancelLedger(s: System, context: Context, r: Request)
    ensures var t := AfterCancel(s, context);
            && t.ledger == s.ledger.(dropped := t.ledger.dropped) && t.pc == s.pc && Held(t) == Held(s)
            && t.work.cancelled == s.work.cancelled + {context.requestId} && t.work.stopped == s.work.stopped
            && t.disconnected == s.disconnected && Queue(t.work) == Live(Queue(s.work), {context.requestId})
            && t.ledger.dropped[r]
               == s.ledger.dropped[r] + if r.context.requestId == context.requestId then Count(r, Queue(s.work)) else 0
  {
    hide Count;
    var t := AfterCancel(s, context);
    LiveCount(Queue(s.work), {context.requestId}, r);
    assert Queue(t.work) == Live(Queue(s.work), {context.requestId});
    LedgerDrops(s.ledger.dropped, Queue(s.work), Queue(t.work), r);
  }

  lemma CancelAccounts(s: System, context: Context, r: Request)
    requires Accounted(s, r)
    ensures Accounted(AfterCancel(s, context), r)
  {
    hide Count, AfterCancel, Held, Queue;
    CancelLedger(s, context, r);
    LiveCount(Queue(s.work), {context.requestId}, r);
  }

  lemma TakeCounts(w: Work, now: Time, r: Request)
    requires !BackingOff(w, now)
    ensures Count(r, Live(Queue(w), w.cancelled))
         == Count(r, TakenBatch(w, BATCH_LIMIT, now)) + Count(r, Queue(Taken(w, BATCH_LIMIT, now)))
  {
    var live := Live(Queue(w), w.cancelled);
    if live != [] {
      ExtractContents(live, ChosenContext(live, w.focus), BATCH_LIMIT);
      assert multiset(live)[r] == (multiset(TakenBatch(w, BATCH_LIMIT, now))
                                   + multiset(Queue(Taken(w, BATCH_LIMIT, now))))[r];
    }
  }

  lemma ClaimLedger(s: System, r: Request)
    ensures var t := AfterClaim(s);
            && t.ledger == s.ledger.(dropped := t.ledger.dropped) && Current(t.pc).None?
            && t.work.cancelled == s.work.cancelled && t.work.stopped == s.work.stopped
            && t.disconnected == s.disconnected
            && t.todo == TakenBatch(s.work.(retryNotBefore := None), BATCH_LIMIT, s.now)
            && Queue(t.work) == Queue(Taken(s.work.(retryNotBefore := None), BATCH_LIMIT, s.now))
            && t.ledger.dropped[r]
               == s.ledger.dropped[r] + if r.context.requestId in s.work.cancelled then Count(r, Queue(s.work)) else 0
  {
    hide Count, Taken, TakenBatch;
    LiveCount(Queue(s.work), s.work.cancelled, r);
    LedgerDrops(s.ledger.dropped, Queue(s.work), Live(Queue(s.work), s.work.cancelled), r);
    TakenKeeps(s.work.(retryNotBefore := None), s.now);
  }

  lemma TakenKeeps(w: Work, now: Time)
    ensures Taken(w, BATCH_LIMIT, now).cancelled == w.cancelled && Taken(w, BATCH_LIMIT, now).stopped == w.stopped
  {
  }

  lemma ClaimAccounts(s: System, r: Request)
    requires Accounted(s, r) && s.pc == Waiting && PcShape(s)
    ensures Accounted(AfterClaim(s), r)
  {
    IdleHolds(s, r);
    hide *;
    ClaimHeld(s);
    ClaimLedger(s, r);
    LiveCount(Queue(s.work), s.work.cancelled, r);
    TakeCounts(s.work.(retryNotBefore := None), s.now, r);
    var dropped: nat := if r.context.requestId in s.work.cancelled then Count(r, Queue(s.work)) else 0;
    DropsAccounted(s, AfterClaim(s), dropped, r);
  }

  lemma IdleHolds(s: System, r: Request)
    requires s.pc == Waiting && PcShape(s)
    ensures Count(r, Held(s)) == 0 && s.active == [] && Current(s.pc).None?
    ensures Queue(s.work.(retryNotBefore := None)) == Queue(s.work)
    ensures !BackingOff(s.work.(retryNotBefore := None), s.now)
  {
    assert Held(s) == [];
  }

  /** Copies that leave the queue and the claims together, because they are cancelled. */
  lemma DropsAccounted(s: System, t: System, dropped: nat, r: Request)
    requires Accounted(s, r) && t.ledger == s.ledger.(dropped := t.ledger.dropped)
    requires Current(t.pc).None? && Current(s.pc).None?
    requires t.work.cancelled == s.work.cancelled && t.work.stopped == s.work.stopped
    requires t.disconnected == s.disconnected && t.ledger.dropped[r] == s.ledger.dropped[r] + dropped
    requires dropped > 0 ==> r.context.requestId in s.work.cancelled
    requires Count(r, Queue(t.work)) + Count(r, Held(t)) + dropped == Count(r, Queue(s.work)) + Count(r, Held(s))
    ensures Accounted(t, r)
  {
    hide Count, Held, Queue;
  }

  lemma CountEmpty(r: Request)
    ensures Count(r, []) == 0
  {
  }

  lemma DropLedger(s: System, r: Request)
    requires s.pc.Dropping? && PcShape(s) && LossesExplained(s, r)
    ensures Settled(AfterDrop(s), r) == Settled(s, r) + Once(r, Some(s.pc.request))
    ensures LossesExplained(AfterDrop(s), r)
    ensures AfterDrop(s).ledger.entered == s.ledger.entered && Queue(AfterDrop(s).work) == Queue(s.work)
  {
  }

  lemma DropAccounts(s: System, r: Request)
    requires Accounted(s, r) && s.pc.Dropping? && PcShape(s)
    ensures Accounted(AfterDrop(s), r)
  {
    DropHeld(s);
    WithoutCount(Held(s), |s.active|, r);
    DropLedger(s, r);
  }

  lemma FinishAccounts(s: System, k: nat, measured: Measured, r: Request)
    requires Accounted(s, r) && s.pc == Serving && s.todo == [] && k < |s.active| == |s.started|
    ensures Accounted(AfterFinish(s, k, measured), r)
  {
    FinishHeld(s, k, measured);
    WithoutCount(s.active, k, r);
  }

  lemma SweepAccounts(s: System, k: nat, r: Request)
    requires Accounted(s, r) && s.pc == Serving && s.todo == [] && k < |s.active| == |s.started|
    requires Swept(s.work, s.active)
    ensures Accounted(AfterSweep(s, k), r)
  {
    SweepHeld(s, k);
    WithoutCount(s.active, k, r);
  }

  lemma RetryLedger(s: System, later: Time, r: Request)
    requires s.pc.Retrying? && LossesExplained(s, r)
    ensures var t := AfterRetry(s, later);
            && Count(r, Queue(t.work)) + Settled(t, r) == Count(r, Queue(s.work)) + Settled(s, r)
            && t.ledger.entered == s.ledger.entered && LossesExplained(t, r)
  {
    var t := AfterRetry(s, later);
    if MayRetry(s.work, s.pc.round.first, s.now) {
      if Admits(s.work, IdentityOf(s.pc.request)) {
        assert Queue(t.work) == Queue(s.work) + [s.pc.request];
        assert t.ledger == s.ledger;
      } else {
        assert Queue(t.work) == Queue(s.work);
        assert t.ledger.merged[r] == s.ledger.merged[r] + Once(r, Some(s.pc.request));
      }
    }
  }

  lemma RetryAccounts(s: System, later: Time, r: Request)
    requires Accounted(s, r) && s.pc.Retrying?
    ensures Accounted(AfterRetry(s, later), r)
  {
    RetryLedger(s, later, r);
    assert Held(AfterRetry(s, later)) == Held(s);
  }

  lemma AnswerLedger(s: System, r: Request, q: Request)
    ensures Answer(s, q).ledger.answered[r] == s.ledger.answered[r] + Once(r, Some(q))
    ensures Lose(s, q).ledger.abandoned[r] == s.ledger.abandoned[r] + Once(r, Some(q))
    ensures Answer(s, q).ledger == s.ledger.(answered := Answer(s, q).ledger.answered)
    ensures Lose(s, q).ledger == s.ledger.(abandoned := Lose(s, q).ledger.abandoned)
    ensures Answer(s, q) == s.(ledger := Answer(s, q).ledger)
    ensures Lose(s, q) == s.(ledger := Lose(s, q).ledger, disconnected := true)
  {
  }

  lemma SendingLedger(s: System, step: Step, r: Request)
    requires Enabled(s, step) && (step.Report? || step.Send?) && LossesExplained(s, r)
    ensures var t := Apply(s, step);
            && Settled(t, r) == Settled(s, r)
            && t.ledger.entered == s.ledger.entered && LossesExplained(t, r)
  {
    hide AfterSubmit, AfterCancel, AfterClaim, AfterFinish, AfterSweep, AfterDrop, AfterRetry, Answer, Lose;
    AnswerLedger(s, r, s.pc.request);
  }

  lemma CancellingLedger(s: System, step: Step, r: Request)
    requires Enabled(s, step) && (step.CheckCancelled? || step.FallBack?) && LossesExplained(s, r)
    ensures var t := Apply(s, step);
            && Settled(t, r) == Settled(s, r)
            && t.ledger.entered == s.ledger.entered && LossesExplained(t, r)
  {
    hide AfterSubmit, AfterCancel, AfterClaim, AfterFinish, AfterSweep, AfterDrop, AfterRetry;
    assert (s.ledger.dropped + multiset{s.pc.request})[r] == s.ledger.dropped[r] + Once(r, Some(s.pc.request));
  }

  lemma LocalLedger(s: System, step: Step, r: Request)
    requires Enabled(s, step) && Local(step)
    requires LossesExplained(s, r)
    ensures var t := Apply(s, step);
            && Settled(t, r) == Settled(s, r)
            && t.ledger.entered == s.ledger.entered && LossesExplained(t, r)
  {
    hide AfterSubmit, AfterCancel, AfterClaim, AfterFinish, AfterSweep, AfterDrop, AfterRetry;
    if step.Report? || step.Send? {
      SendingLedger(s, step, r);
    } else if step.CheckCancelled? || step.FallBack? {
      CancellingLedger(s, step, r);
    } else {
      assert Apply(s, step).ledger == s.ledger;
    }
  }

  lemma LocalAccounts(s: System, step: Step, r: Request)
    requires Enabled(s, step) && Local(step)
    requires Accounted(s, r)
    ensures Accounted(Apply(s, step), r)
  {
    LocalStep(s, step);
    LocalLedger(s, step, r);
  }

  lemma SignalAccounts(s: System, step: Step, r: Request)
    requires (step.Invalidate? || step.Shutdown?) && Accounted(s, r)
    ensures Accounted(Apply(s, step), r)
  {
    hide AfterSubmit, AfterCancel, AfterClaim, AfterFinish, AfterSweep, AfterDrop, AfterRetry, Count;
    assert Held(Apply(s, step)) == Held(s);
    LedgerGrows(s.ledger.abandoned, Queue(s.work), r);
    CountEmpty(r);
  }

  lemma AccountedStep(s: System, step: Step, r: Request)
    requires Enabled(s, step) && OneBatch(s) && Accounted(s, r)
    ensures Accounted(Apply(s, step), r)
  {
    hide AfterSubmit, AfterCancel, AfterClaim, AfterFinish, AfterSweep, AfterDrop, AfterRetry, Accounted;
    if step.Submit? {
      SubmitAccounts(s, step.rs, r);
    } else if step.Cancel? {
      CancelAccounts(s, step.context, r);
    } else if step.Claim? {
      ClaimAccounts(s, r);
    } else if step.Drop? {
      DropAccounts(s, r);
    } else if step.Complete? {
      FinishAccounts(s, step.index, step.measured, r);
    } else if step.Drain? {
      FinishAccounts(s, 0, Failed(s.mode.retryable), r);
    } else if step.Sweep? {
      SweepAccounts(s, step.index, r);
    } else if step.Retry? {
      RetryAccounts(s, step.later, r);
    } else if !FromUi(step) {
      LocalAccounts(s, step, r);
    } else {
      SignalAccounts(s, step, r);
    }
  }

  // ---------------------------------------------------------------- retry budget

  lemma SubmitPaced(s: System, rs: seq<Request>, id: Identity)
    requires Paced(s, id)
    ensures Paced(AfterSubmit(s, rs), id)
  {
    var t := AfterSubmit(s, rs);
    PushAllExtends(Focused(s.work, rs), rs);
    var added := Queue(t.work)[|Queue(s.work)|..];
    assert Queue(t.work) == Queue(s.work) + added;
    if Queued(Queue(t.work), id) {
      QueuedInEither(Queue(s.work), added, id);
    }
  }

  lemma QueuedInEither(p: seq<Request>, q: seq<Request>, id: Identity)
    requires Queued(p + q, id)
    ensures Queued(p, id) || id in set r | r in q :: IdentityOf(r)
  {
    var k :| 0 <= k < |p + q| && IdentityOf((p + q)[k]) == id;
    if k < |p| {
      assert p[k] == (p + q)[k];
    } else {
      assert (p + q)[k] == q[k - |p|];
    }
  }

  lemma CancelPaced(s: System, context: Context, id: Identity)
    requires Paced(s, id)
    ensures Paced(AfterCancel(s, context), id)
  {
    LiveMembers(Queue(s.work), {context.requestId});
    SubQueue(Live(Queue(s.work), {context.requestId}), Queue(s.work), id);
  }

  lemma SubQueue(p: seq<Request>, q: seq<Request>, id: Identity)
    requires forall r :: r in p ==> r in q
    ensures Queued(p, id) ==> Queued(q, id)
  {
    if Queued(p, id) {
      var k :| 0 <= k < |p| && IdentityOf(p[k]) == id;
      assert p[k] in q;
    }
  }

  lemma TakeSplitsQueue(w: Work, now: Time, id: Identity)
    requires !BackingOff(w, now) && QueueExclusive(w)
    ensures Queued(Queue(Taken(w, BATCH_LIMIT, now)), id) ==> Queued(Queue(w), id)
    ensures Queued(TakenBatch(w, BATCH_LIMIT, now), id) ==> Queued(Queue(w), id)
    ensures !(Queued(Queue(Taken(w, BATCH_LIMIT, now)), id) && Queued(TakenBatch(w, BATCH_LIMIT, now), id))
  {
    var live := Live(Queue(w), w.cancelled);
    if live != [] {
      ExtractFromLive(Queue(w), w.cancelled, ChosenContext(live, w.focus), BATCH_LIMIT);
      SubQueue(TakenBatch(w, BATCH_LIMIT, now), Queue(w), id);
      SubQueue(Queue(Taken(w, BATCH_LIMIT, now)), Queue(w), id);
    }
  }

  lemma ClaimPaced(s: System, id: Identity)
    requires Paced(s, id) && QueueExclusive(s.work) && s.pc == Waiting && PcShape(s)
    ensures Paced(AfterClaim(s), id)
  {
    TakeSplitsQueue(s.work.(retryNotBefore := None), s.now, id);
    assert Held(s) == [];
    ClaimHeld(s);
  }

  lemma WithoutQueued(q: seq<Request>, k: nat, id: Identity)
    requires k < |q|
    ensures Queued(WithoutAt(q, k), id) ==> Queued(q, id)
    ensures Queued(q, IdentityOf(q[k]))
  {
    var left := WithoutAt(q, k);
    assert forall a :: 0 <= a < |left| ==> left[a] == q[if a < k then a else a + 1];
  }

  lemma DropPaced(s: System, id: Identity)
    requires Paced(s, id) && s.pc.Dropping?
    ensures Paced(AfterDrop(s), id)
  {
    DropHeld(s);
    WithoutQueued(Held(s), |s.active|, id);
  }

  lemma FinishPaced(s: System, k: nat, measured: Measured, id: Identity)
    requires Paced(s, id) && s.pc == Serving && s.todo == [] && k < |s.active| == |s.started|
    ensures Paced(AfterFinish(s, k, measured), id)
  {
    FinishHeld(s, k, measured);
    WithoutQueued(s.active, k, id);
  }

  lemma SweepPaced(s: System, k: nat, id: Identity)
    requires Paced(s, id) && s.pc == Serving && s.todo == [] && k < |s.active| == |s.started|
    ensures Paced(AfterSweep(s, k), id)
  {
    SweepHeld(s, k);
    WithoutQueued(s.active, k, id);
  }

  /** The arithmetic of the budget: with no gap cut short, a sixteenth requeue would come after the three seconds. */
  lemma NextRoundFits(first: Time, round: Round, now: Time, later: Time)
    requires round.first == first <= now <= later && now - first < MFT_RETRY_BUDGET
    requires round.count != 0 ==> RoundFits(first, round) && BackedOff(now, round) && round.last <= now
    requires round.count == 0 ==> round.early == 0
    ensures RoundFits(first, Round(first, round.count + 1, later, round.early, 0))
  {
  }

  lemma RetryPaced(s: System, later: Time, id: Identity)
    requires Paced(s, id) && s.pc.Retrying? && PublishingPaced(s) && s.now <= later
    requires !Queued(Held(s), IdentityOf(s.pc.request))
    ensures Paced(AfterRetry(s, later), id)
  {
    var t, r, round := AfterRetry(s, later), s.pc.request, s.pc.round;
    assert Held(t) == Held(s);
    if MayRetry(s.work, round.first, s.now) {
      NextRoundFits(round.first, round, s.now, later);
      if id != IdentityOf(r) {
        assert Queued(Queue(t.work), id) == Queued(Queue(s.work), id) by {
          if Queued(Queue(s.work), id) {
            var k :| 0 <= k < |Queue(s.work)| && IdentityOf(Queue(s.work)[k]) == id;
            assert Queue(t.work)[k] == Queue(s.work)[k];
          }
        }
      }
    }
  }

  /** Nothing the pacing depends on moved, except the clock forward. */
  predicate SamePace(s: System, t: System) {
    && t.rounds == s.rounds && s.now <= t.now && Held(t) == Held(s) && Queue(t.work) == Queue(s.work)
    && t.work.mftRetryStarted == s.work.mftRetryStarted && t.work.retryNotBefore == s.work.retryNotBefore
  }

  lemma SamePaceKeepsPaced(s: System, t: System, id: Identity)
    requires SamePace(s, t) && Paced(s, id)
    ensures Paced(t, id)
  {
  }

  lemma LocalPaced(s: System, step: Step, id: Identity)
    requires Enabled(s, step) && Local(step) && Paced(s, id)
    ensures Paced(Apply(s, step), id)
  {
    hide Apply, Paced;
    LocalStep(s, step);
    LocalRounds(s, step);
    SamePaceKeepsPaced(s, Apply(s, step), id);
  }

  lemma UiStarted(s: System, step: Step, id: Identity)
    requires Enabled(s, step) && FromUi(step) && StartedBefore(s, id)
    ensures StartedBefore(Apply(s, step), id)
  {
    if step.Submit? {
      PushAllExtends(Focused(s.work, step.rs), step.rs);
    }
  }

  lemma FinishingStarted(s: System, step: Step, id: Identity)
    requires Enabled(s, step) && (Finishes(step) || step.Claim?) && StartedBefore(s, id)
    ensures StartedBefore(Apply(s, step), id)
  {
  }

  lemma StartedStep(s: System, step: Step, id: Identity)
    requires Enabled(s, step) && StartedBefore(s, id)
    requires step.Retry? ==> PublishingPaced(s)
    ensures StartedBefore(Apply(s, step), id)
  {
    hide AfterSubmit, AfterCancel, AfterClaim, AfterFinish, AfterSweep, AfterDrop;
    if FromUi(step) {
      UiStarted(s, step, id);
    } else if Finishes(step) || step.Claim? {
      FinishingStarted(s, step, id);
    } else if Local(step) {
      LocalStarted(s, step, id);
    }
  }

  lemma LocalStarted(s: System, step: Step, id: Identity)
    requires Enabled(s, step) && Local(step) && StartedBefore(s, id)
    ensures StartedBefore(Apply(s, step), id)
  {
    hide Apply;
    LocalStep(s, step);
    LocalRounds(s, step);
  }

  lemma AttemptsStep(s: System, step: Step)
    requires Enabled(s, step) && AttemptsStarted(s)
    ensures AttemptsStarted(Apply(s, step))
  {
    if Finishes(step) {
      FinishingAttempts(s, step);
    } else {
      OtherAttempts(s, step);
    }
  }

  lemma FinishingAttempts(s: System, step: Step)
    requires Enabled(s, step) && Finishes(step) && AttemptsStarted(s)
    ensures AttemptsStarted(Apply(s, step))
  {
    hide AfterSubmit, AfterCancel, AfterClaim, AfterRetry;
  }

  lemma OtherAttempts(s: System, step: Step)
    requires Enabled(s, step) && !Finishes(step) && AttemptsStarted(s)
    ensures AttemptsStarted(Apply(s, step))
  {
    hide AfterFinish, AfterSweep, AfterDrop;
    var t := Apply(s, step);
    assert s.now <= t.now && (t.started == s.started || t.started == s.started + [s.now]);
  }

  lemma PacedStep(s: System, step: Step, id: Identity)
    requires Enabled(s, step) && Exclusive(s.work, Held(s)) && OneBatch(s)
    requires Paced(s, id) && PublishingPaced(s)
    ensures Paced(Apply(s, step), id)
  {
    if step.Submit? {
      SubmitPaced(s, step.rs, id);
    } else if step.Cancel? {
      CancelPaced(s, step.context, id);
    } else if step.Claim? {
      ClaimPaced(s, id);
    } else if step.Drop? {
      DropPaced(s, id);
    } else if step.Complete? {
      FinishPaced(s, step.index, step.measured, id);
    } else if step.Drain? {
      FinishPaced(s, 0, Failed(s.mode.retryable), id);
    } else if step.Sweep? {
      SweepPaced(s, step.index, id);
    } else if step.Retry? {
      RetryPaced(s, step.later, id);
    } else if !FromUi(step) {
      LocalPaced(s, step, id);
    }
  }

  lemma FinishPublishing(s: System, k: nat, measured: Measured)
    requires s.pc == Serving && s.todo == [] && k < |s.active| == |s.started|
    requires AttemptsStarted(s) && PublishingPaced(s)
    requires Paced(s, IdentityOf(s.active[k])) && StartedBefore(s, IdentityOf(s.active[k]))
    ensures PublishingPaced(AfterFinish(s, k, measured))
  {
    FinishHeld(s, k, measured);
    WithoutQueued(s.active, k, IdentityOf(s.active[k]));
  }

  lemma PublishingLocal(s: System, step: Step)
    requires Enabled(s, step) && Local(step) && PublishingPaced(s)
    ensures PublishingPaced(Apply(s, step))
  {
    hide Apply;
    LocalRounds(s, step);
  }

  /** These steps leave no request to decide about, or leave the one there is alone. */
  lemma PublishingElsewhere(s: System, step: Step)
    requires Enabled(s, step) && !Local(step) && !step.Complete? && !step.Drain? && PublishingPaced(s)
    ensures PublishingPaced(Apply(s, step))
  {
    hide AfterFinish;
    var t := Apply(s, step);
    assert RoundAt(t.pc).Some? ==> RoundAt(s.pc) == RoundAt(t.pc) && s.pc.request == t.pc.request;
    assert RoundAt(t.pc).Some? ==> t.rounds.Keys <= s.rounds.Keys && t.now == s.now;
  }

  lemma PublishingStep(s: System, step: Step)
    requires Enabled(s, step) && PcShape(s) && AttemptsStarted(s) && PublishingPaced(s)
    requires forall k :: 0 <= k < |s.active| ==>
               Paced(s, IdentityOf(s.active[k])) && StartedBefore(s, IdentityOf(s.active[k]))
    ensures PublishingPaced(Apply(s, step))
  {
    hide AfterSubmit, AfterCancel, AfterClaim, AfterFinish, AfterSweep, AfterDrop, AfterRetry, PublishingPaced;
    if step.Complete? {
      FinishPublishing(s, step.index, step.measured);
    } else if step.Drain? {
      FinishPublishing(s, 0, Failed(s.mode.retryable));
    } else if Local(step) {
      PublishingLocal(s, step);
    } else {
      PublishingElsewhere(s, step);
    }
  }

  lemma BudgetedStep(s: System, step: Step)
    requires Enabled(s, step) && Exclusive(s.work, Held(s)) && OneBatch(s) && Budgeted(s)
    ensures Budgeted(Apply(s, step))
  {
    forall id ensures Paced(Apply(s, step), id) {
      PacedStep(s, step, id);
    }
    forall id ensures StartedBefore(Apply(s, step), id) {
      StartedStep(s, step, id);
    }
    AttemptsStep(s, step);
    PublishingStep(s, step);
  }

  // -------------------------------------------------------------------- all runs

  lemma InvariantStep(s: System, step: Step)
    requires Enabled(s, step) && Invariant(s)
    ensures Invariant(Apply(s, step))
  {
    ExclusiveStep(s, step);
    OneBatchStep(s, step);
    forall r ensures Accounted(Apply(s, step), r) {
      AccountedStep(s, step, r);
    }
    BudgetedStep(s, step);
  }

  lemma {:induction false} InvariantRun(s: System, steps: seq<Step>)
    requires Invariant(s) && Run(s, steps).Some?
    ensures Invariant(Run(s, steps).value)
    decreases |steps|
  {
    if steps != [] {
      InvariantStep(s, steps[0]);
      InvariantRun(Apply(s, steps[0]), steps[1..]);
    }
  }

  lemma InitialInvariant()
    ensures Invariant(INITIAL)
  {
    forall r ensures Accounted(INITIAL, r) {
      assert Held(INITIAL) == [];
    }
  }

  /**
   * Over every run: each time a request entered the queue it is queued, claimed, being published,
   * answered, dropped as cancelled, merged, or abandoned, and only one of these; and it is lost
   * only to a cancel of its request id, a shutdown, or a vanished receiver.
   */
  lemma EveryRequestInOnePlace(steps: seq<Step>, r: Request)
    requires Run(INITIAL, steps).Some?
    ensures var s := Run(INITIAL, steps).value;
            && s.ledger.entered[r]
               == Count(r, Queue(s.work)) + Count(r, Held(s)) + Once(r, Current(s.pc)) + s.ledger.answered[r]
                  + s.ledger.dropped[r] + s.ledger.merged[r] + s.ledger.abandoned[r]
            && (s.ledger.dropped[r] > 0 ==> r.context.requestId in s.work.cancelled)
            && (s.ledger.abandoned[r] > 0 ==> s.work.stopped || s.disconnected)
            && s.ledger.answered[r] <= s.ledger.entered[r]
  {
    InitialInvariant();
    InvariantRun(INITIAL, steps);
    assert Accounted(Run(INITIAL, steps).value, r);
  }

  /** When the worker rests on an empty queue, whatever was neither cancelled nor merged was answered, once each. */
  lemma AnsweredExactlyOnce(steps: seq<Step>, r: Request)
    requires Run(INITIAL, steps).Some?
    requires var s := Run(INITIAL, steps).value;
             && s.pc == Waiting && Queue(s.work) == []
             && r.context.requestId !in s.work.cancelled && s.ledger.merged[r] == 0
             && !s.work.stopped && !s.disconnected
    ensures var s := Run(INITIAL, steps).value; s.ledger.answered[r] == s.ledger.entered[r]
  {
    InitialInvariant();
    InvariantRun(INITIAL, steps);
    var s := Run(INITIAL, steps).value;
    assert Accounted(s, r);
    assert Held(s) == [];
  }

  /** A resting worker has leaked no claim: every identity can be queued again. */
  lemma NoClaimLeaks(steps: seq<Step>)
    requires Run(INITIAL, steps).Some? && Run(INITIAL, steps).value.pc == Waiting
    ensures Run(INITIAL, steps).value.work.inFlight == map[]
  {
    InitialInvariant();
    InvariantRun(INITIAL, steps);
    assert Held(Run(INITIAL, steps).value) == [];
  }

  /** A retry whose claim was finished merges only into a queued request of the same identity. */
  lemma MergesOnlyIntoQueued(steps: seq<Step>)
    requires Run(INITIAL, steps).Some? && Run(INITIAL, steps).value.pc.Retrying?
    ensures var s := Run(INITIAL, steps).value;
            var id := IdentityOf(s.pc.request);
            id !in s.work.inFlight && (!Admits(s.work, id) <==> Queued(Queue(s.work), id))
  {
    InitialInvariant();
    InvariantRun(INITIAL, steps);
    var s := Run(INITIAL, steps).value;
    assert forall r :: r in Held(s) ==> Queued(Held(s), IdentityOf(r));
  }

  // -------------------------------------------------------------------- the bypass

  /** The step at which an exact service answer is accepted. */
  predicate Recovers(s: System, step: Step) {
    step.Decide? && s.pc.Deciding? && s.pc.measured.Exact?
  }

  predicate NeverRecovers(s: System, steps: seq<Step>)
    decreases |steps|
  {
    steps != [] && Enabled(s, steps[0]) ==>
      !Recovers(s, steps[0]) && NeverRecovers(Apply(s, steps[0]), steps[1..])
  }

  lemma BypassStep(s: System, step: Step)
    requires Enabled(s, step) && s.work.mftBypassUntil.Some? && !Recovers(s, step)
    ensures Apply(s, step).work.mftBypassUntil.Some? && Apply(s, step).requeues == s.requeues
  {
    hide Held, BackingOff, TakenBatch, RoundOf, FirstAttempt;
    if step.Submit? {
      PushAllExtends(Focused(s.work, step.rs), step.rs);
    }
  }

  /** Once the bypass is armed nothing is requeued until an exact service answer clears it. */
  lemma {:induction false} BypassHoldsUntilExact(s: System, steps: seq<Step>)
    requires s.work.mftBypassUntil.Some? && Run(s, steps).Some? && NeverRecovers(s, steps)
    ensures Run(s, steps).value.requeues == s.requeues && Run(s, steps).value.work.mftBypassUntil.Some?
    decreases |steps|
  {
    if steps != [] {
      BypassStep(s, steps[0]);
      BypassHoldsUntilExact(Apply(s, steps[0]), steps[1..]);
    }
  }
}

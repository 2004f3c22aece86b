/** Runs that requeue a folder: behind early wake-ups without bound, and with every back-off waited out. */
module FolderSizeAttempts {
  import opened Common
  import opened FolderSizeWork
  import opened FolderSizeClaims
  import opened FolderSizeScheduler
  import opened FolderSizeRetries

  // ------------------------------------------------------------------------ composing runs

  lemma {:induction false} RunAppend(s: System, p: seq<Step>, q: seq<Step>, id: Identity)
    requires Run(s, p).Some?
    ensures Run(s, p + q) == Run(Run(s, p).value, q)
    ensures CountRequeues(s, p + q, id) == CountRequeues(s, p, id) + CountRequeues(Run(s, p).value, q, id)
    ensures CountEarly(s, p + q) == CountEarly(s, p) + CountEarly(Run(s, p).value, q)
    ensures Undisturbed(s, p, id) && Undisturbed(Run(s, p).value, q, id) ==> Undisturbed(s, p + q, id)
    decreases |p|
  {
    hide Apply;
    hide Enabled;
    hide Requeues;
    hide CutsShort;
    hide Resets;
    if p == [] {
      assert p + q == q;
    } else {
      assert (p + q)[0] == p[0] && (p + q)[1..] == p[1..] + q;
      RunAppend(Apply(s, p[0]), p[1..], q, id);
    }
  }

  /** The steps run from `s` to `t`, undisturbed, with these counts. */
  ghost predicate Leads(s: System, steps: seq<Step>, t: System, id: Identity, requeues: nat, early: nat) {
    && Run(s, steps) == Some(t) && Undisturbed(s, steps, id)
    && CountRequeues(s, steps, id) == requeues && CountEarly(s, steps) == early
  }

  lemma QuietStep(s: System, step: Step, id: Identity)
    requires !step.Submit? && !step.Cancel? && !step.Shutdown?
    ensures !Resets(s, step, id) && (!step.Retry? ==> !Requeues(s, step, id))
    ensures CutsShort(s, step) <==> step.Claim? && WakesEarly(s)
  {
  }

  lemma LeadsNowhere(s: System, id: Identity)
    ensures Leads(s, [], s, id, 0, 0)
  {
  }

  lemma LeadsOn(s: System, step: Step, rest: seq<Step>, t: System, id: Identity, requeues: nat, early: nat)
    requires Enabled(s, step) && !Resets(s, step, id) && Leads(Apply(s, step), rest, t, id, requeues, early)
    ensures Leads(s, [step] + rest, t, id, requeues + (if Requeues(s, step, id) then 1 else 0),
                  early + if CutsShort(s, step) then 1 else 0)
  {
    hide Apply;
    hide Enabled;
    hide Resets;
    hide Requeues;
    hide CutsShort;
    assert ([step] + rest)[1..] == rest;
  }

  lemma LeadsThrough(s: System, p: seq<Step>, u: System, q: seq<Step>, t: System, id: Identity,
                     requeues: nat, early: nat, requeues': nat, early': nat)
    requires Leads(s, p, u, id, requeues, early) && Leads(u, q, t, id, requeues', early')
    ensures Leads(s, p + q, t, id, requeues + requeues', early + early')
  {
    hide Apply;
    hide Enabled;
    RunAppend(s, p, q, id);
  }

  // -------------------------------------------------------------------------- one attempt

  /** The first attempt was at time zero, or is to be. */
  predicate SinceZero(s: System, r: Request, at: Time) {
    if IdentityOf(r) in s.work.mftRetryStarted then s.work.mftRetryStarted[IdentityOf(r)] == 0 else at == 0
  }

  /** One folder waits in the queue, and nothing else is going on. */
  predicate Parked(s: System, r: Request, at: Time) {
    && s.now == at && s.pc == Waiting && s.todo == [] && s.active == [] && s.started == []
    && s.work.requests == Some([r]) && s.work.inFlight == map[] && s.work.cancelled == {} && s.work.invalidated == []
    && !s.work.stopped && s.work.mftBypassUntil.None? && SinceZero(s, r, at)
  }

  /** The folder is claimed and the service is being asked about it. */
  predicate Attempting(s: System, r: Request, at: Time) {
    && s.now == at && s.pc == Serving && s.mode == Asking && s.todo == [] && s.active == [r] && s.started == [at]
    && s.work.requests.None? && s.work.inFlight == map[IdentityOf(r) := r.context.requestId]
    && s.work.cancelled == {} && s.work.invalidated == [] && !s.work.stopped && s.work.mftBypassUntil.None?
    && SinceZero(s, r, at)
  }

  lemma ClaimTakesIt(s: System, r: Request, at: Time)
    requires Parked(s.(work := s.work.(invalidated := [])), r, at)
    ensures var t := AfterClaim(s);
            && t.now == at && t.pc == Screening && t.todo == [r] && t.active == [] && t.started == []
            && t.work == s.work.(requests := None, retryNotBefore := None, invalidated := [],
                                 inFlight := map[IdentityOf(r) := r.context.requestId])
  {
    var ready := s.work.(retryNotBefore := None);
    assert Queue(ready) == [r] && [r][1..] == [];
    assert Live([r], {}) == [r];
    assert Extract([r], r.context, BATCH_LIMIT) == Split([r], []) by {
      assert Extract([], r.context, BATCH_LIMIT - 1) == Split([], []);
    }
    assert [r][..0] == [];
    assert Claims(map[], [r]) == map[IdentityOf(r) := r.context.requestId] by {
      assert Claims(map[], []) == map[];
    }
  }

  lemma ClaimedShape(s: System, r: Request, at: Time)
    requires Parked(s.(work := s.work.(invalidated := [])), r, at)
    ensures var b := AfterClaim(s);
            && b.now == at && b.pc == Screening && b.todo == [r] && b.active == [] && b.started == []
            && b.work.cancelled == {} && b.work.mftBypassUntil.None?
            && Attempting(b.(active := [r], started := [at], todo := [], pc := Serving, mode := Asking), r, at)
  {
    ClaimTakesIt(s, r, at);
    hide AfterClaim;
  }

  lemma AskSteps(r: Request, at: Time, b: System, c: System, t: System)
    requires b.now == at && b.pc == Screening && b.todo == [r] && b.active == [] && b.started == []
    requires b.work.cancelled == {} && b.work.mftBypassUntil.None?
    requires c == b.(active := [r], started := [at], todo := []) && t == c.(pc := Serving, mode := Asking)
    ensures Enabled(b, Step.Screen(true)) && Apply(b, Step.Screen(true)) == c
    ensures Enabled(c, Step.Ask) && Apply(c, Step.Ask) == t
  {
    assert [] + [r] == [r] && [r][1..] == [];
  }

  function Attempt(): seq<Step> {
    [Step.Claim] + ([Step.Screen(true)] + ([Step.Ask] + []))
  }

  /** From a claim that may begin, the folder is taken and the service asked. */
  lemma ClaimLeads(s: System, r: Request, at: Time) returns (t: System)
    requires Parked(s.(work := s.work.(invalidated := [])), r, at) && Enabled(s, Step.Claim)
    ensures Leads(s, Attempt(), t, IdentityOf(r), 0, if WakesEarly(s) then 1 else 0) && Attempting(t, r, at)
  {
    hide *;
    hide Attempt;
    var id := IdentityOf(r);
    var b := AfterClaim(s);
    var c := b.(active := [r], started := [at], todo := []);
    t := c.(pc := Serving, mode := Asking);
    ClaimApplied(s);
    ClaimedShape(s, r, at);
    AskSteps(r, at, b, c, t);
    QuietStep(s, Step.Claim, id);
    QuietStep(b, Step.Screen(true), id);
    QuietStep(c, Step.Ask, id);
    LeadsNowhere(t, id);
    LeadsOn(c, Step.Ask, [], t, id, 0, 0);
    LeadsOn(b, Step.Screen(true), [Step.Ask] + [], t, id, 0, 0);
    LeadsOn(s, Step.Claim, [Step.Screen(true)] + ([Step.Ask] + []), t, id, 0, 0);
    AttemptListed();
  }

  lemma AttemptListed()
    ensures Attempt() == [Step.Claim] + ([Step.Screen(true)] + ([Step.Ask] + []))
  {
  }

  lemma ClaimApplied(s: System)
    requires Enabled(s, Step.Claim)
    ensures Apply(s, Step.Claim) == AfterClaim(s)
  {
    hide AfterClaim;
  }

  /** A directory changes, the worker wakes, early or not, and tries the folder. */
  lemma WokenAttempt(s: System, r: Request, at: Time, directory: Path) returns (t: System)
    requires Parked(s, r, at)
    ensures Leads(s, [Step.Invalidate(directory)] + Attempt(), t, IdentityOf(r), 0, if WakesEarly(s) then 1 else 0)
    ensures Attempting(t, r, at)
  {
    hide *;
    var a := s.(work := s.work.(invalidated := [directory]));
    WakeSteps(s, r, at, directory, a);
    t := ClaimLeads(a, r, at);
    QuietStep(s, Step.Invalidate(directory), IdentityOf(r));
    LeadsOn(s, Step.Invalidate(directory), Attempt(), t, IdentityOf(r), 0, if WakesEarly(a) then 1 else 0);
  }

  lemma WakeSteps(s: System, r: Request, at: Time, directory: Path, a: System)
    requires Parked(s, r, at) && a == s.(work := s.work.(invalidated := [directory]))
    ensures Enabled(s, Step.Invalidate(directory)) && Apply(s, Step.Invalidate(directory)) == a
    ensures Enabled(a, Step.Claim) && WakesEarly(a) == WakesEarly(s)
    ensures Parked(a.(work := a.work.(invalidated := [])), r, at)
  {
    assert s.work.invalidated + [directory] == [directory];
  }

  /** The back-off is waited out, and the worker tries the folder. */
  lemma WaitedAttempt(s: System, r: Request, at: Time, to: Time) returns (t: System)
    requires Parked(s, r, at) && at <= to
    requires s.work.retryNotBefore.Some? ==> s.work.retryNotBefore.value <= to
    requires IdentityOf(r) in s.work.mftRetryStarted || to == 0
    ensures Leads(s, [Step.Tick(to)] + Attempt(), t, IdentityOf(r), 0, 0) && Attempting(t, r, to)
  {
    hide *;
    var a := s.(now := to);
    WaitSteps(s, r, at, to, a);
    t := ClaimLeads(a, r, to);
    QuietStep(s, Step.Tick(to), IdentityOf(r));
    LeadsOn(s, Step.Tick(to), Attempt(), t, IdentityOf(r), 0, 0);
  }

  lemma WaitSteps(s: System, r: Request, at: Time, to: Time, a: System)
    requires Parked(s, r, at) && at <= to && a == s.(now := to)
    requires s.work.retryNotBefore.Some? ==> s.work.retryNotBefore.value <= to
    requires IdentityOf(r) in s.work.mftRetryStarted || to == 0
    ensures Enabled(s, Step.Tick(to)) && Apply(s, Step.Tick(to)) == a
    ensures Enabled(a, Step.Claim) && !WakesEarly(a)
    ensures Parked(a.(work := a.work.(invalidated := [])), r, to)
  {
    assert a.work.(invalidated := []) == a.work;
  }

  // -------------------------------------------------------------------------- one failure

  /** The service fails at once, and the folder goes back to the queue. */
  function Failure(at: Time): seq<Step> {
    [Step.Complete(0, Failed(true)), Step.CheckCancelled, Step.Decide, Step.Retry(at), Step.QueryEnds(true, false),
     Step.BatchDone]
  }

  /** The claim is finished and the queue empty; `pc` decides about the folder. */
  predicate Deciding(s: System, r: Request, pc: Pc, at: Time) {
    && s.now == at && s.pc == pc && s.mode == Asking && s.todo == [] && s.active == [] && s.started == []
    && s.work.requests.None? && s.work.inFlight == map[] && s.work.cancelled == {} && s.work.invalidated == []
    && !s.work.stopped && s.work.mftBypassUntil.None? && IdentityOf(r) !in s.work.mftRetryStarted
  }

  lemma CompleteLeads(s: System, r: Request, at: Time) returns (t: System, round: Round)
    requires Attempting(s, r, at)
    ensures t == AfterFinish(s, 0, Failed(true)) && round.first == 0
    ensures Deciding(t, r, Released(r, round, Failed(true)), at)
  {
    t := AfterFinish(s, 0, Failed(true));
    round := t.pc.round;
    assert WithoutAt([r], 0) == [] && WithoutAt([at], 0) == [];
  }

  /** The folder is back in the queue and a back-off of 200 milliseconds has begun. */
  predicate BackedOffFrom(s: System, r: Request, at: Time) {
    Parked(s, r, at) && IdentityOf(r) in s.work.mftRetryStarted && s.work.retryNotBefore == Some(at + 200)
  }

  lemma RetryParks(s: System, r: Request, round: Round, at: Time)
    requires Deciding(s, r, Retrying(r, round), at) && round.first == 0 && at < 3000
    ensures Requeues(s, Step.Retry(at), IdentityOf(r))
    ensures var t := AfterRetry(s, at);
            && t.pc == Serving && t.mode == Asking && t.active == []
            && BackedOffFrom(t.(mode := Sweeping, pc := Waiting), r, at)
  {
    assert Queue(s.work) == [];
    assert Queue(s.work) + [r] == [r];
  }

  lemma FailureLeads(s: System, r: Request, at: Time) returns (t: System)
    requires Attempting(s, r, at) && at < 3000
    ensures Leads(s, Failure(at), t, IdentityOf(r), 1, 0) && BackedOffFrom(t, r, at)
  {
    hide *;
    var id := IdentityOf(r);
    var a, round := CompleteLeads(s, r, at);
    var b := a.(pc := Pc.Deciding(r, round, Failed(true)));
    var c := a.(pc := Retrying(r, round));
    FinishSteps(s, a, b, r, round, at);
    DecidingOn(a, b, r, round, at);
    DecisionSteps(b, c, r, round, at);
    RetryParks(c, r, round, at);
    var d := AfterRetry(c, at);
    var e := d.(mode := Sweeping);
    t := d.(mode := Sweeping, pc := Waiting);
    LateSteps(d);
    var late := [Step.Retry(at)] + ([Step.QueryEnds(true, false)] + ([Step.BatchDone] + []));
    FailureListed(at, late);
    QuietStep(s, Step.Complete(0, Failed(true)), id);
    QuietStep(a, Step.CheckCancelled, id);
    QuietStep(b, Step.Decide, id);
    QuietStep(c, Step.Retry(at), id);
    QuietStep(d, Step.QueryEnds(true, false), id);
    QuietStep(e, Step.BatchDone, id);
    LeadsNowhere(t, id);
    LeadsOn(e, Step.BatchDone, [], t, id, 0, 0);
    LeadsOn(d, Step.QueryEnds(true, false), [Step.BatchDone] + [], t, id, 0, 0);
    LeadsOn(c, Step.Retry(at), [Step.QueryEnds(true, false)] + ([Step.BatchDone] + []), t, id, 0, 0);
    LeadsOn(b, Step.Decide, late, t, id, 1, 0);
    LeadsOn(a, Step.CheckCancelled, [Step.Decide] + late, t, id, 1, 0);
    LeadsOn(s, Step.Complete(0, Failed(true)), [Step.CheckCancelled] + ([Step.Decide] + late), t, id, 1, 0);
  }

  lemma FailureListed(at: Time, late: seq<Step>)
    requires late == [Step.Retry(at)] + ([Step.QueryEnds(true, false)] + ([Step.BatchDone] + []))
    ensures [Step.Complete(0, Failed(true))] + ([Step.CheckCancelled] + ([Step.Decide] + late)) == Failure(at)
  {
  }

  lemma FinishSteps(s: System, a: System, b: System, r: Request, round: Round, at: Time)
    requires Attempting(s, r, at) && a == AfterFinish(s, 0, Failed(true))
    requires Deciding(a, r, Released(r, round, Failed(true)), at)
    requires b == a.(pc := Pc.Deciding(r, round, Failed(true)))
    ensures Enabled(s, Step.Complete(0, Failed(true))) && Apply(s, Step.Complete(0, Failed(true))) == a
    ensures Enabled(a, Step.CheckCancelled) && Apply(a, Step.CheckCancelled) == b
  {
    hide AfterSubmit, AfterCancel, AfterClaim, AfterFinish, AfterSweep, AfterDrop, AfterDecide, AfterRetry;
  }

  lemma DecisionSteps(b: System, c: System, r: Request, round: Round, at: Time)
    requires Deciding(b, r, Pc.Deciding(r, round, Failed(true)), at) && c == b.(pc := Retrying(r, round))
    ensures Enabled(b, Step.Decide) && Apply(b, Step.Decide) == c
    ensures Enabled(c, Step.Retry(at)) && Apply(c, Step.Retry(at)) == AfterRetry(c, at)
    ensures Deciding(c, r, Retrying(r, round), at)
  {
    hide AfterSubmit, AfterCancel, AfterClaim, AfterFinish, AfterSweep, AfterDrop, AfterRetry;
  }

  lemma DecidingOn(a: System, b: System, r: Request, round: Round, at: Time)
    requires Deciding(a, r, Released(r, round, Failed(true)), at) && b == a.(pc := Pc.Deciding(r, round, Failed(true)))
    ensures Deciding(b, r, Pc.Deciding(r, round, Failed(true)), at)
  {
  }

  lemma LateSteps(d: System)
    requires d.pc == Serving && d.mode == Asking && d.active == []
    ensures Enabled(d, Step.QueryEnds(true, false)) && Apply(d, Step.QueryEnds(true, false)) == d.(mode := Sweeping)
    ensures var e := d.(mode := Sweeping);
            Enabled(e, Step.BatchDone) && Apply(e, Step.BatchDone) == e.(pc := Waiting)
  {
  }

  // ------------------------------------------------------- no bound across early wake-ups

  lemma OffParked(s: System, r: Request, at: Time)
    requires BackedOffFrom(s, r, at)
    ensures Parked(s, r, at) && WakesEarly(s) && IdentityOf(r) in s.work.mftRetryStarted
    ensures s.work.retryNotBefore == Some(at + 200)
  {
  }

  /** For every `n` there is a run at a standing clock in which the folder is requeued `n` times. */
  lemma {:induction false} RequeuedAnyNumberOfTimes(s: System, r: Request, directory: Path, n: nat)
    returns (steps: seq<Step>, t: System)
    requires Parked(s, r, 0)
    ensures Leads(s, steps, t, IdentityOf(r), n, if n == 0 || WakesEarly(s) then n else n - 1) && Parked(t, r, 0)
    decreases n
  {
    hide Parked, BackedOffFrom, Attempting, WakesEarly, Leads, Attempt, Failure;
    if n == 0 {
      steps, t := [], s;
      LeadsNowhere(s, IdentityOf(r));
    } else {
      var id, cut: nat := IdentityOf(r), if WakesEarly(s) then 1 else 0;
      var u := WokenAttempt(s, r, 0, directory);
      var v := FailureLeads(u, r, 0);
      OffParked(v, r, 0);
      var attempt := [Step.Invalidate(directory)] + Attempt();
      LeadsThrough(s, attempt, u, Failure(0), v, id, 0, cut, 1, 0);
      var rest;
      rest, t := RequeuedAnyNumberOfTimes(v, r, directory, n - 1);
      LeadsThrough(s, attempt + Failure(0), v, rest, t, id, 1, cut, n - 1, n - 1);
      steps := attempt + Failure(0) + rest;
    }
  }

  lemma SubmittedIsParked(r: Request)
    ensures var s := AfterSubmit(INITIAL, [r]);
            && Parked(s, r, 0) && s.work.retryNotBefore.None? && !WakesEarly(s)
            && IdentityOf(r) in Entered(INITIAL, [r])
  {
    var s := AfterSubmit(INITIAL, [r]);
    assert [r][..0] == [];
    assert PushedAll(Focused(EMPTY_WORK, [r]), []) == Focused(EMPTY_WORK, [r]);
    assert Queue(s.work) == [r] && [r][0..] == [r];
    assert r in Queue(s.work)[|Queue(EMPTY_WORK)|..];
  }

  /** So a submitted folder has no bound of its own: early wake-ups can requeue it for ever within the three seconds. */
  lemma NoBoundAcrossEarlyWakes(r: Request, directory: Path, n: nat) returns (steps: seq<Step>)
    ensures var s := AfterSubmit(INITIAL, [r]);
            && IdentityOf(r) in Entered(INITIAL, [r]) && Run(s, steps).Some? && Undisturbed(s, steps, IdentityOf(r))
            && CountRequeues(s, steps, IdentityOf(r)) == n
  {
    SubmittedIsParked(r);
    hide AfterSubmit, Entered;
    var t;
    steps, t := RequeuedAnyNumberOfTimes(AfterSubmit(INITIAL, [r]), r, directory, n);
  }

  // ------------------------------------------------------------ the budget is used up

  /** With every back-off waited out, each attempt before the third second puts the folder back. */
  lemma {:induction false} RequeuedEveryBackoff(s: System, r: Request, at: Time, n: nat)
    returns (steps: seq<Step>, t: System)
    requires Parked(s, r, at) && (n == 0 || at + 200 * (n - 1) < 3000)
    requires s.work.retryNotBefore.Some? ==> s.work.retryNotBefore.value <= at
    requires IdentityOf(r) in s.work.mftRetryStarted || at == 0
    ensures Leads(s, steps, t, IdentityOf(r), n, 0)
    ensures n > 0 ==> BackedOffFrom(t, r, at + 200 * (n - 1))
    decreases n
  {
    hide Parked, BackedOffFrom, Attempting, Leads, Attempt, Failure;
    var id := IdentityOf(r);
    if n == 0 {
      steps, t := [], s;
      LeadsNowhere(s, id);
    } else {
      var u := WaitedAttempt(s, r, at, at);
      var v := FailureLeads(u, r, at);
      var attempt := [Step.Tick(at)] + Attempt();
      LeadsThrough(s, attempt, u, Failure(at), v, id, 0, 0, 1, 0);
      if n == 1 {
        steps, t := attempt + Failure(at), v;
      } else {
        var next := v.(now := at + 200);
        BackoffEnds(v, r, at, next);
        QuietStep(v, Step.Tick(at + 200), id);
        var rest;
        rest, t := RequeuedEveryBackoff(next, r, at + 200, n - 1);
        LeadsOn(v, Step.Tick(at + 200), rest, t, id, n - 1, 0);
        LeadsThrough(s, attempt + Failure(at), v, [Step.Tick(at + 200)] + rest, t, id, 1, 0, n - 1, 0);
        steps := attempt + Failure(at) + ([Step.Tick(at + 200)] + rest);
      }
    }
  }

  lemma BackoffEnds(s: System, r: Request, at: Time, next: System)
    requires BackedOffFrom(s, r, at) && next == s.(now := at + 200)
    ensures Enabled(s, Step.Tick(at + 200)) && Apply(s, Step.Tick(at + 200)) == next
    ensures Parked(next, r, at + 200) && next.work.retryNotBefore == Some(at + 200)
    ensures IdentityOf(r) in next.work.mftRetryStarted
  {
  }

  /**
   * The bound is attained: a folder whose service stays busy goes back to the queue fifteen times,
   * at 0, 200, ..., 2800 milliseconds, without any early wake-up.
   */
  lemma BudgetIsAttained(r: Request) returns (steps: seq<Step>)
    ensures var s := AfterSubmit(INITIAL, [r]);
            && IdentityOf(r) in Entered(INITIAL, [r]) && Run(s, steps).Some? && Undisturbed(s, steps, IdentityOf(r))
            && CountEarly(s, steps) == 0 && CountRequeues(s, steps, IdentityOf(r)) == 15
            && Run(s, steps).value.now == 2800
  {
    SubmittedIsParked(r);
    hide AfterSubmit, Entered;
    var t;
    steps, t := RequeuedEveryBackoff(AfterSubmit(INITIAL, [r]), r, 0, 15);
  }
}

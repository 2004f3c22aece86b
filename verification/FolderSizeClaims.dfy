/** What a claimed batch is, and which claims may exist: for any number of workers. */
module FolderSizeClaims {
  import opened Common
  import opened FolderSizeWork

  // ------------------------------------------------------------------ filtering

  lemma {:induction false} LiveContents(q: seq<Request>, cancelled: set<RequestId>)
    ensures forall r :: multiset(Live(q, cancelled))[r]
                     == if r.context.requestId in cancelled then 0 else multiset(q)[r]
  {
    if q != [] {
      LiveContents(q[1..], cancelled);
      assert q == [q[0]] + q[1..];
    }
  }

  lemma {:induction false} LiveMembers(q: seq<Request>, cancelled: set<RequestId>)
    ensures forall r :: r in Live(q, cancelled) <==> r in q && r.context.requestId !in cancelled
  {
    if q != [] {
      LiveMembers(q[1..], cancelled);
      assert q == [q[0]] + q[1..];
    }
  }

  lemma {:induction false} ExtractContents(q: seq<Request>, context: Context, limit: nat)
    ensures var s := Extract(q, context, limit);
            multiset(s.batch) + multiset(s.rest) == multiset(q)
    ensures forall r :: r in Extract(q, context, limit).batch ==> r in q && r.context == context
    ensures forall r :: r in Extract(q, context, limit).rest ==> r in q
    ensures |Extract(q, context, limit).batch| <= limit
  {
    if q != [] && limit != 0 {
      ExtractContents(q[1..], context, if q[0].context == context then limit - 1 else limit);
      assert q == [q[0]] + q[1..];
    }
  }

  /**
   * The removal loop's meaning: up to some cut it took every request of the context and kept every
   * other one in order, it left everything after the cut alone, and it only stopped early when full.
   */
  lemma {:induction false} ExtractCut(q: seq<Request>, context: Context, limit: nat) returns (cut: nat)
    ensures cut <= |q|
    ensures var s := Extract(q, context, limit);
            && s.batch == Matching(q[..cut], context)
            && s.rest == Others(q[..cut], context) + q[cut..]
            && (cut == |q| || |s.batch| == limit)
  {
    if q == [] || limit == 0 {
      cut := 0;
      assert q[cut..] == q;
    } else {
      var h, t := q[0], q[1..];
      var c := ExtractCut(t, context, if h.context == context then limit - 1 else limit);
      cut := c + 1;
      ConsFilters(h, t[..c], context);
      assert q[..cut] == [h] + t[..c] && q[cut..] == t[c..];
    }
  }

  lemma ConsFilters(h: Request, t: seq<Request>, context: Context)
    ensures Matching([h] + t, context) == (if h.context == context then [h] else []) + Matching(t, context)
    ensures Others([h] + t, context) == (if h.context == context then [] else [h]) + Others(t, context)
  {
    assert ([h] + t)[1..] == t;
  }

  lemma {:induction false} MatchingAppend(p: seq<Request>, q: seq<Request>, context: Context)
    ensures Matching(p + q, context) == Matching(p, context) + Matching(q, context)
  {
    if p == [] {
      assert p + q == q;
    } else {
      MatchingAppend(p[1..], q, context);
      ConsFilters(p[0], p[1..] + q, context);
      assert p + q == [p[0]] + (p[1..] + q);
    }
  }

  /** With no back-off pending, a claim takes what its plain description says. */
  lemma {:induction false} ClaimTakesFocusedPrefix(w: Work, limit: nat, now: Time) returns (cut: nat)
    requires !BackingOff(w, now) && 0 < limit
    ensures var live := Live(Queue(w), w.cancelled);
            var batch := TakenBatch(w, limit, now);
            if live == [] then batch == [] && Queue(Taken(w, limit, now)) == []
            else
              var context := ChosenContext(live, w.focus);
              && batch != []
              && batch <= Matching(live, context)
              && (|batch| == limit || batch == Matching(live, context))
              && cut <= |live|
              && batch == Matching(live[..cut], context)
              && Queue(Taken(w, limit, now)) == Others(live[..cut], context) + live[cut..]
    ensures forall r :: r in TakenBatch(w, limit, now) ==> r.context.requestId !in w.cancelled
    ensures w.focus.Some? && (exists r :: r in Queue(w) && r.context.requestId !in w.cancelled
                                          && InFocus(r, w.focus.value))
            ==> forall r :: r in TakenBatch(w, limit, now) ==> InFocus(r, w.focus.value)
  {
    var live := Live(Queue(w), w.cancelled);
    LiveMembers(Queue(w), w.cancelled);
    if live == [] {
      cut := 0;
    } else {
      var context := ChosenContext(live, w.focus);
      ExtractContents(live, context, limit);
      ChosenContextIsLive(live, w.focus);
      cut := ExtractPrefix(live, context, limit);
    }
  }

  lemma ExtractPrefix(live: seq<Request>, context: Context, limit: nat) returns (cut: nat)
    requires 0 < limit && Matching(live, context) != []
    ensures var s := Extract(live, context, limit);
            && cut <= |live|
            && s.batch != []
            && s.batch <= Matching(live, context)
            && (|s.batch| == limit || s.batch == Matching(live, context))
            && s.batch == Matching(live[..cut], context)
            && s.rest == Others(live[..cut], context) + live[cut..]
  {
    cut := ExtractCut(live, context, limit);
    MatchingAppend(live[..cut], live[cut..], context);
    assert live == live[..cut] + live[cut..];
  }

  lemma ChosenContextIsLive(live: seq<Request>, focus: Option<(nat, nat)>)
    requires live != []
    ensures Matching(live, ChosenContext(live, focus)) != []
    ensures focus.Some? && (exists r :: r in live && InFocus(r, focus.value))
            ==> forall r: Request :: r.context == ChosenContext(live, focus) ==> InFocus(r, focus.value)
  {
    var context := ChosenContext(live, focus);
    var k :| 0 <= k < |live| && live[k].context == context;
    assert live == live[..k] + ([live[k]] + live[k + 1..]);
    MatchingAppend(live[..k], [live[k]] + live[k + 1..], context);
  }

  // ---------------------------------------------------------------- exclusivity

  predicate DistinctIdentities(q: seq<Request>) {
    forall i, j :: 0 <= i < j < |q| ==> IdentityOf(q[i]) != IdentityOf(q[j])
  }

  /** The claim table still records this very request as the owner of its identity. */
  predicate Owns(w: Work, r: Request) {
    IdentityOf(r) in w.inFlight && w.inFlight[IdentityOf(r)] == r.context.requestId
  }

  predicate IsCancelled(w: Work, r: Request) {
    r.context.requestId in w.cancelled
  }

  predicate QueueExclusive(w: Work) {
    && DistinctIdentities(Queue(w))
    && (forall r :: r in Queue(w) ==> IdentityOf(r) !in w.inFlight)
  }

  predicate ClaimsOwned(w: Work, claims: seq<Request>) {
    forall r :: r in claims ==> Owns(w, r) || IsCancelled(w, r)
  }

  ghost predicate TableOwned(w: Work, claims: seq<Request>) {
    forall id :: id in w.inFlight ==> exists r :: r in claims && IdentityOf(r) == id && Owns(w, r)
  }

  predicate ClaimsOrdered(cancelled: set<RequestId>, claims: seq<Request>) {
    forall a, b :: 0 <= a < b < |claims| && IdentityOf(claims[a]) == IdentityOf(claims[b])
      ==> claims[a].context.requestId in cancelled
          && claims[a].context.requestId != claims[b].context.requestId
  }

  /** `claims` are the requests taken and not yet finished, oldest first, over all workers. */
  ghost predicate Exclusive(w: Work, claims: seq<Request>) {
    && QueueExclusive(w)
    && ClaimsOwned(w, claims)
    && TableOwned(w, claims)
    && ClaimsOrdered(w.cancelled, claims)
  }

  lemma PushKeepsExclusive(w: Work, claims: seq<Request>, r: Request)
    requires Exclusive(w, claims)
    ensures Exclusive(Pushed(w, r), claims)
  {
    var w' := Pushed(w, r);
    assert forall c :: c in claims ==> Owns(w', c) == Owns(w, c);
    if Admits(w, IdentityOf(r)) {
      assert forall k :: 0 <= k < |Queue(w)| ==> IdentityOf(Queue(w)[k]) != IdentityOf(r);
    }
  }

  lemma {:induction false} PushAllKeepsExclusive(w: Work, claims: seq<Request>, rs: seq<Request>)
    requires Exclusive(w, claims)
    ensures Exclusive(PushedAll(w, rs), claims)
    decreases |rs|
  {
    if rs != [] {
      PushAllKeepsExclusive(w, claims, rs[..|rs| - 1]);
      PushKeepsExclusive(PushedAll(w, rs[..|rs| - 1]), claims, rs[|rs| - 1]);
    }
  }

  lemma SubmitKeepsExclusive(w: Work, claims: seq<Request>, rs: seq<Request>)
    requires Exclusive(w, claims)
    ensures Exclusive(Submitted(w, rs), claims)
  {
    var f := Focused(w, rs);
    assert forall c :: c in claims ==> Owns(f, c) == Owns(w, c);
    PushAllKeepsExclusive(f, claims, rs);
  }

  lemma {:induction false} LiveDistinct(q: seq<Request>, cancelled: set<RequestId>)
    requires DistinctIdentities(q)
    ensures DistinctIdentities(Live(q, cancelled))
  {
    if q != [] {
      LiveDistinct(q[1..], cancelled);
      LiveMembers(q[1..], cancelled);
    }
  }

  lemma DistinctCons(r: Request, q: seq<Request>)
    requires DistinctIdentities(q) && !Queued(q, IdentityOf(r))
    ensures DistinctIdentities([r] + q)
  {
    assert forall k :: 0 < k < |[r] + q| ==> ([r] + q)[k] == q[k - 1];
  }

  lemma {:induction false} ExtractDistinct(q: seq<Request>, context: Context, limit: nat)
    requires DistinctIdentities(q)
    ensures var s := Extract(q, context, limit);
            && DistinctIdentities(s.batch) && DistinctIdentities(s.rest)
            && (forall r :: r in s.rest ==> !Queued(s.batch, IdentityOf(r)))
  {
    if q != [] && limit != 0 {
      var smaller := if q[0].context == context then limit - 1 else limit;
      ExtractDistinct(q[1..], context, smaller);
      ExtractContents(q[1..], context, smaller);
      var t := Extract(q[1..], context, smaller);
      assert !Queued(q[1..], IdentityOf(q[0]));
      if q[0].context == context {
        DistinctCons(q[0], t.batch);
      } else {
        DistinctCons(q[0], t.rest);
      }
    }
  }

  lemma {:induction false} ClaimsTable(inFlight: map<Identity, RequestId>, batch: seq<Request>)
    requires DistinctIdentities(batch)
    ensures var t := Claims(inFlight, batch);
            && (forall r :: r in batch ==> IdentityOf(r) in t && t[IdentityOf(r)] == r.context.requestId)
            && (forall id :: id in inFlight && !Queued(batch, id) ==> id in t && t[id] == inFlight[id])
            && (forall id :: id in t ==> id in inFlight || Queued(batch, id))
    decreases |batch|
  {
    if batch != [] {
      var n := |batch| - 1;
      ClaimsTable(inFlight, batch[..n]);
      assert batch == batch[..n] + [batch[n]];
      hide Queued;
      forall id ensures Queued(batch, id) <==> Queued(batch[..n], id) || id == IdentityOf(batch[n]) {
        QueuedSnoc(batch, id);
      }
    }
  }

  lemma QueuedSnoc(batch: seq<Request>, id: Identity)
    requires batch != []
    ensures var n := |batch| - 1; Queued(batch, id) <==> Queued(batch[..n], id) || id == IdentityOf(batch[n])
  {
    var n := |batch| - 1;
    if k :| 0 <= k < |batch| && IdentityOf(batch[k]) == id {
      assert k < n ==> batch[..n][k] == batch[k];
    }
    if k :| 0 <= k < n && IdentityOf(batch[..n][k]) == id {
      assert batch[k] == batch[..n][k];
    }
  }

  lemma TakeKeepsExclusive(w: Work, claims: seq<Request>, limit: nat, now: Time)
    requires Exclusive(w, claims)
    ensures Exclusive(Taken(w, limit, now), claims + TakenBatch(w, limit, now))
    ensures DistinctIdentities(TakenBatch(w, limit, now))
    ensures forall r :: r in TakenBatch(w, limit, now) ==> r in Queue(w) && Owns(Taken(w, limit, now), r)
  {
    var live := Live(Queue(w), w.cancelled);
    var w', batch := Taken(w, limit, now), TakenBatch(w, limit, now);
    if BackingOff(w, now) || live == [] {
      assert claims + batch == claims;
      assert forall c :: c in claims ==> Owns(w', c) == Owns(w, c);
    } else {
      var context := ChosenContext(live, w.focus);
      ExtractFromLive(Queue(w), w.cancelled, context, limit);
      TakeKeepsTable(w, w', claims, batch);
    }
  }

  lemma ExtractFromLive(q: seq<Request>, cancelled: set<RequestId>, context: Context, limit: nat)
    requires DistinctIdentities(q)
    ensures var s := Extract(Live(q, cancelled), context, limit);
            && DistinctIdentities(s.batch) && DistinctIdentities(s.rest)
            && (forall r :: r in s.batch ==> r in q && r.context.requestId !in cancelled)
            && (forall r :: r in s.rest ==> r in q && !Queued(s.batch, IdentityOf(r)))
  {
    var live := Live(q, cancelled);
    var s := Extract(live, context, limit);
    LiveMembers(q, cancelled);
    LiveDistinct(q, cancelled);
    ExtractDistinct(live, context, limit);
    ExtractContents(live, context, limit);
  }

  lemma TakeKeepsTable(w: Work, w': Work, claims: seq<Request>, batch: seq<Request>)
    requires Exclusive(w, claims)
    requires w'.cancelled == w.cancelled && w'.inFlight == Claims(w.inFlight, batch)
    requires DistinctIdentities(batch) && DistinctIdentities(Queue(w'))
    requires forall r :: r in batch ==> r in Queue(w) && !IsCancelled(w, r)
    requires forall r :: r in Queue(w') ==> r in Queue(w) && !Queued(batch, IdentityOf(r))
    ensures Exclusive(w', claims + batch)
    ensures forall r :: r in batch ==> Owns(w', r)
  {
    ClaimsTable(w.inFlight, batch);
    forall c | c in claims ensures Owns(w', c) || IsCancelled(w', c) {
      if Owns(w, c) && Queued(batch, IdentityOf(c)) { assert false; }
    }
    forall id | id in w'.inFlight
      ensures exists r :: r in claims + batch && IdentityOf(r) == id && Owns(w', r)
    {
      if Queued(batch, id) {
        var k :| 0 <= k < |batch| && IdentityOf(batch[k]) == id;
        assert batch[k] in claims + batch;
      } else {
        var r :| r in claims && IdentityOf(r) == id && Owns(w, r);
        assert r in claims + batch;
      }
    }
    var all := claims + batch;
    forall a, b | 0 <= a < b < |all| && IdentityOf(all[a]) == IdentityOf(all[b])
      ensures IsCancelled(w', all[a]) && all[a].context.requestId != all[b].context.requestId
    {
      if a >= |claims| {
        assert false;
      } else if b >= |claims| {
        assert all[b] in batch && all[a] in claims;
      }
    }
  }

  lemma FinishKeepsExclusive(w: Work, claims: seq<Request>, k: nat)
    requires Exclusive(w, claims) && k < |claims|
    ensures Exclusive(Finished(w, claims[k]), WithoutAt(claims, k))
    ensures forall r :: r in WithoutAt(claims, k) && Owns(w, r) ==> Owns(Finished(w, claims[k]), r)
    ensures IdentityOf(claims[k]) in Finished(w, claims[k]).inFlight ==> IsCancelled(w, claims[k])
  {
    var w', left := Finished(w, claims[k]), WithoutAt(claims, k);
    assert forall a :: 0 <= a < |left| ==> left[a] == claims[if a < k then a else a + 1];
    FinishKeepsOwners(w, claims, k);
    FinishKeepsTable(w, claims, k);
  }

  lemma FinishKeepsOwners(w: Work, claims: seq<Request>, k: nat)
    requires k < |claims| && ClaimsOwned(w, claims) && ClaimsOrdered(w.cancelled, claims)
    ensures forall r :: r in WithoutAt(claims, k) && Owns(w, r) ==> Owns(Finished(w, claims[k]), r)
    ensures ClaimsOwned(Finished(w, claims[k]), WithoutAt(claims, k))
  {
    var w', left := Finished(w, claims[k]), WithoutAt(claims, k);
    forall a | 0 <= a < |left| ensures left[a] in claims && (Owns(w, left[a]) ==> Owns(w', left[a])) {
      assert left[a] == claims[if a < k then a else a + 1];
    }
  }

  lemma FinishKeepsTable(w: Work, claims: seq<Request>, k: nat)
    requires k < |claims| && TableOwned(w, claims)
    ensures TableOwned(Finished(w, claims[k]), WithoutAt(claims, k))
  {
    var w', left := Finished(w, claims[k]), WithoutAt(claims, k);
    forall id | id in w'.inFlight ensures exists r :: r in left && IdentityOf(r) == id && Owns(w', r) {
      var r :| r in claims && IdentityOf(r) == id && Owns(w, r);
      var j :| 0 <= j < |claims| && claims[j] == r;
      assert j != k;
      assert left[if j < k then j else j - 1] == r;
      assert Owns(w', r);
    }
  }

  lemma CancelKeepsExclusive(w: Work, claims: seq<Request>, context: Context)
    requires Exclusive(w, claims)
    ensures Exclusive(Cancelled(w, context), claims)
  {
    var w' := Cancelled(w, context);
    LiveMembers(Queue(w), {context.requestId});
    LiveDistinct(Queue(w), {context.requestId});
    forall id | id in w'.inFlight ensures exists r :: r in claims && IdentityOf(r) == id && Owns(w', r) {
      var r :| r in claims && IdentityOf(r) == id && Owns(w, r);
      assert Owns(w', r);
    }
  }

  lemma RetryKeepsExclusive(w: Work, claims: seq<Request>, r: Request, first: Time, now: Time)
    requires Exclusive(w, claims)
    ensures Exclusive(Retried(w, r, first, now), claims)
  {
    var w0 := w.(mftRetryStarted := w.mftRetryStarted[IdentityOf(r) := first],
                 retryNotBefore := Some(now + MFT_RETRY_BACKOFF));
    assert forall c :: c in claims ==> Owns(w0, c) == Owns(w, c);
    PushKeepsExclusive(w0, claims, r);
  }

  // ------------------------------------------------------------------- all runs

  datatype QueueStep =
    | Submit(rs: seq<Request>)
    | Take(limit: nat, at: Time)
    | Finish(claim: nat)
    | Retry(r: Request, first: Time, at: Time)
    | Bypass(at: Time)
    | Recover
    | Cancel(context: Context)

  datatype Claimed = Claimed(work: Work, claims: seq<Request>)

  predicate CanStep(s: Claimed, step: QueueStep) {
    step.Finish? ==> step.claim < |s.claims|
  }

  function StepOf(s: Claimed, step: QueueStep): Claimed
    requires CanStep(s, step)
  {
    match step
    case Submit(rs) => s.(work := Submitted(s.work, rs))
    case Take(limit, at) => Claimed(Taken(s.work, limit, at), s.claims + TakenBatch(s.work, limit, at))
    case Finish(k) => Claimed(Finished(s.work, s.claims[k]), WithoutAt(s.claims, k))
    case Retry(r, first, at) => s.(work := Retried(s.work, r, first, at))
    case Bypass(at) => s.(work := Bypassed(s.work, at))
    case Recover => s.(work := s.work.(mftBypassUntil := None))
    case Cancel(context) => s.(work := Cancelled(s.work, context))
  }

  function RunOf(s: Claimed, steps: seq<QueueStep>): Option<Claimed>
    decreases |steps|
  {
    if steps == [] then Some(s)
    else if CanStep(s, steps[0]) then RunOf(StepOf(s, steps[0]), steps[1..])
    else None
  }

  lemma StepKeepsExclusive(s: Claimed, step: QueueStep)
    requires CanStep(s, step) && Exclusive(s.work, s.claims)
    ensures Exclusive(StepOf(s, step).work, StepOf(s, step).claims)
  {
    match step
    case Submit(rs) => SubmitKeepsExclusive(s.work, s.claims, rs);
    case Take(limit, at) => TakeKeepsExclusive(s.work, s.claims, limit, at);
    case Finish(k) => FinishKeepsExclusive(s.work, s.claims, k);
    case Retry(r, first, at) => RetryKeepsExclusive(s.work, s.claims, r, first, at);
    case Bypass(at) => assert forall c :: Owns(Bypassed(s.work, at), c) == Owns(s.work, c);
    case Recover => assert forall c :: Owns(s.work.(mftBypassUntil := None), c) == Owns(s.work, c);
    case Cancel(context) => CancelKeepsExclusive(s.work, s.claims, context);
  }

  lemma {:induction false} RunKeepsExclusive(s: Claimed, steps: seq<QueueStep>)
    requires Exclusive(s.work, s.claims) && RunOf(s, steps).Some?
    ensures Exclusive(RunOf(s, steps).value.work, RunOf(s, steps).value.claims)
    decreases |steps|
  {
    if steps != [] {
      StepKeepsExclusive(s, steps[0]);
      RunKeepsExclusive(StepOf(s, steps[0]), steps[1..]);
    }
  }

  /** Any interleaving, any number of workers: nothing is queued twice, queued and claimed, or claimed twice. */
  lemma SchedulerExclusivity(steps: seq<QueueStep>)
    requires RunOf(Claimed(EMPTY_WORK, []), steps).Some?
    ensures var s := RunOf(Claimed(EMPTY_WORK, []), steps).value;
            && DistinctIdentities(Queue(s.work))
            && (forall r :: r in Queue(s.work) ==> IdentityOf(r) !in s.work.inFlight)
            && (forall a, b :: 0 <= a < b < |s.claims| && IdentityOf(s.claims[a]) == IdentityOf(s.claims[b])
                  ==> IsCancelled(s.work, s.claims[a]))
            && (forall q, c :: q in Queue(s.work) && c in s.claims && IdentityOf(q) == IdentityOf(c)
                  ==> IsCancelled(s.work, c))
  {
    assert Exclusive(EMPTY_WORK, []);
    RunKeepsExclusive(Claimed(EMPTY_WORK, []), steps);
  }

  /** In any reachable state, finishing one claim leaves every other owner in place, and frees no one else. */
  lemma FinishReleasesOnlyItsOwnClaim(steps: seq<QueueStep>, k: nat)
    requires RunOf(Claimed(EMPTY_WORK, []), steps).Some?
    requires k < |RunOf(Claimed(EMPTY_WORK, []), steps).value.claims|
    ensures var s := RunOf(Claimed(EMPTY_WORK, []), steps).value;
            var w' := Finished(s.work, s.claims[k]);
            && (forall a :: 0 <= a < |s.claims| && a != k && Owns(s.work, s.claims[a]) ==> Owns(w', s.claims[a]))
            && (forall id :: id in s.work.inFlight && id !in w'.inFlight
                  ==> id == IdentityOf(s.claims[k]) && Owns(s.work, s.claims[k]))
            && !Owns(w', s.claims[k])
  {
    var s := RunOf(Claimed(EMPTY_WORK, []), steps).value;
    assert Exclusive(EMPTY_WORK, []);
    RunKeepsExclusive(Claimed(EMPTY_WORK, []), steps);
    var left := WithoutAt(s.claims, k);
    assert forall a :: 0 <= a < |s.claims| && a != k ==> s.claims[a] == left[if a < k then a else a - 1];
    FinishKeepsOwners(s.work, s.claims, k);
  }
}

/** What the critical sections of the folder-size queue come to, told in the queue's own fields. */
module FolderSizePromises {
  import opened Common
  import opened FolderSizeWork
  import opened FolderSizeClaims
  import opened FolderSizeScheduler
  import opened FolderSizeGuarantees

  /** Positions in growing order. */
  predicate Growing(at: seq<nat>) {
    forall a, b :: 0 <= a < b < |at| ==> at[a] < at[b]
  }

  // -------------------------------------------------------------------------- submitting

  /** The two folders lie side by side, or both are roots. */
  predicate Siblings(p: Path, q: Path) {
    if p.below == [] || q.below == [] then p.below == q.below
    else p.root == q.root && |p.below| == |q.below| && forall k :: 0 <= k < |p.below| - 1 ==> p.below[k] == q.below[k]
  }

  lemma SiblingsShareParent(p: Path, q: Path)
    ensures Siblings(p, q) <==> Parent(p) == Parent(q)
  {
    if p.below != [] && q.below != [] {
      var a, b := p.below[..|p.below| - 1], q.below[..|q.below| - 1];
      if Siblings(p, q) {
        assert a == b;
      }
      if Parent(p) == Parent(q) {
        assert a == b && |a| == |b|;
        assert forall k :: 0 <= k < |a| ==> p.below[k] == a[k] && q.below[k] == b[k];
      }
    }
  }

  /** A claim that a submission focused on `folder` preempts. */
  predicate OutOfTheWay(id: Identity, folder: Request) {
    (id.tabId != folder.context.tabId || id.generation != folder.context.generation) && !Siblings(id.path, folder.path)
  }

  /**
   * A submission moves the focus to its last request. When the focus changes, exactly those requests
   * are cancelled that hold a claim of another tab or generation on a folder that is no sibling.
   */
  lemma SubmissionPreempts(w: Work, rs: seq<Request>)
    requires rs != []
    ensures var t, last := Submitted(w, rs), rs[|rs| - 1];
            && t.focus == Some((last.context.tabId, last.context.generation)) && t.inFlight == w.inFlight
            && (t.focus == w.focus ==> t.cancelled == w.cancelled)
            && (t.focus != w.focus ==> forall id :: id in t.cancelled <==>
                  id in w.cancelled
                  || exists claim :: claim in w.inFlight && w.inFlight[claim] == id && OutOfTheWay(claim, last))
  {
    var last := rs[|rs| - 1];
    PushAllExtends(Focused(w, rs), rs);
    forall claim | claim in w.inFlight
      ensures OutOfTheWay(claim, last) <==>
                (claim.tabId, claim.generation) != (last.context.tabId, last.context.generation)
                && Parent(claim.path) != Parent(last.path)
    {
      SiblingsShareParent(claim.path, last.path);
    }
  }

  /**
   * A claimed sibling of the newly focused folder stays in flight exactly when its request holds no
   * claim that is out of the way: what is cancelled is the request, with all its claims.
   */
  lemma SiblingStaysIff(w: Work, rs: seq<Request>, sibling: Identity)
    requires rs != [] && sibling in w.inFlight && Siblings(sibling.path, rs[|rs| - 1].path)
    requires w.inFlight[sibling] !in w.cancelled
    requires w.focus != Some((rs[|rs| - 1].context.tabId, rs[|rs| - 1].context.generation))
    ensures w.inFlight[sibling] !in Submitted(w, rs).cancelled <==>
              forall claim :: claim in w.inFlight && w.inFlight[claim] == w.inFlight[sibling]
                              ==> !OutOfTheWay(claim, rs[|rs| - 1])
  {
    SubmissionPreempts(w, rs);
  }

  function FolderRequest(requestId: RequestId, generation: nat, below: seq<string>): Request {
    Request(Context(requestId, 0, generation), 0, Path("C:", below), 0, false)
  }

  /** One request holds claims on two folders; a new generation of the first one's parent cancels both. */
  lemma SiblingLost()
    ensures var near, far := FolderRequest(1, 0, ["a", "x"]), FolderRequest(1, 0, ["b", "y"]);
            var again := FolderRequest(2, 1, ["a", "z"]);
            var claimed := Taken(Submitted(EMPTY_WORK, [near, far]), 256, 0);
            && IdentityOf(near) in claimed.inFlight && claimed.inFlight[IdentityOf(near)] == 1
            && claimed.cancelled == {} && Siblings(near.path, again.path)
            && 1 in Submitted(claimed, [again]).cancelled
  {
    var near, far := FolderRequest(1, 0, ["a", "x"]), FolderRequest(1, 0, ["b", "y"]);
    var again := FolderRequest(2, 1, ["a", "z"]);
    var w := Submitted(EMPTY_WORK, [near, far]);
    TwoQueued(near, far);
    TwoClaimed(near, far, w);
    var claimed := Taken(w, 256, 0);
    assert far.path.below[0][0] != again.path.below[0][0];
    assert OutOfTheWay(IdentityOf(far), again);
    hide Submitted, Taken;
    SubmissionPreempts(claimed, [again]);
  }

  lemma TwoQueued(a: Request, b: Request)
    requires IdentityOf(a) != IdentityOf(b)
    ensures var w := Submitted(EMPTY_WORK, [a, b]);
            && Queue(w) == [a, b] && w.inFlight == map[] && w.cancelled == {} && w.retryNotBefore.None?
            && w.focus == Some((b.context.tabId, b.context.generation))
  {
    var f := Focused(EMPTY_WORK, [a, b]);
    assert [a, b][..1] == [a] && [a][..0] == [];
    assert PushedAll(f, []) == f;
    assert Queue(PushedAll(f, [a])) == [a];
    assert [a] + [b] == [a, b];
  }

  lemma TwoClaimed(a: Request, b: Request, w: Work)
    requires Queue(w) == [a, b] && a.context == b.context && IdentityOf(a) != IdentityOf(b)
    requires w.inFlight == map[] && w.cancelled == {} && w.retryNotBefore.None?
    ensures var t := Taken(w, 256, 0);
            && t.inFlight == map[IdentityOf(a) := a.context.requestId, IdentityOf(b) := b.context.requestId]
            && t.cancelled == {} && t.focus == w.focus
  {
    assert [a, b][1..] == [b] && [b][1..] == [];
    assert Live([b], {}) == [b] && Live([a, b], {}) == [a, b];
    var context := ChosenContext([a, b], w.focus);
    assert context == a.context;
    assert Extract([b], context, 255) == Split([b], []) by {
      assert Extract([], context, 254) == Split([], []);
    }
    assert Extract([a, b], context, 256) == Split([a, b], []);
    assert [a, b][..1] == [a] && [a][..0] == [];
    assert Claims(map[], []) == map[];
    assert Claims(map[], [a]) == map[IdentityOf(a) := a.context.requestId];
  }

  /** No request in the queue, no claim, and no earlier request of the submission has this identity. */
  predicate IsNew(w: Work, rs: seq<Request>, i: nat)
    requires i < |rs|
  {
    && IdentityOf(rs[i]) !in w.inFlight
    && (forall k :: 0 <= k < |Queue(w)| ==> IdentityOf(Queue(w)[k]) != IdentityOf(rs[i]))
    && forall j :: 0 <= j < i ==> IdentityOf(rs[j]) != IdentityOf(rs[i])
  }

  /** A submission appends its new requests, each once and in order, and nothing else. */
  lemma {:induction false} PushesTheNew(w: Work, rs: seq<Request>) returns (at: seq<nat>)
    ensures Growing(at) && (forall i :: i in at <==> 0 <= i < |rs| && IsNew(w, rs, i))
    ensures |Queue(PushedAll(w, rs))| == |Queue(w)| + |at| && Queue(w) <= Queue(PushedAll(w, rs))
    ensures forall k :: 0 <= k < |at| ==> at[k] < |rs| && Queue(PushedAll(w, rs))[|Queue(w)| + k] == rs[at[k]]
    ensures PushedAll(w, rs).inFlight == w.inFlight
    decreases |rs|
  {
    if rs == [] {
      at := [];
    } else {
      var n := |rs| - 1;
      var before := PushesTheNew(w, rs[..n]);
      var p := PushedAll(w, rs[..n]);
      forall i | 0 <= i < n ensures IsNew(w, rs[..n], i) == IsNew(w, rs, i) {
        NewInPrefix(w, rs, i);
      }
      PushedIffNew(w, rs, p, before);
      at := if IsNew(w, rs, n) then before + [n] else before;
      OneMoreNew(w, rs, Queue(p), before, Queue(PushedAll(w, rs)), at);
    }
  }

  lemma NewInPrefix(w: Work, rs: seq<Request>, i: nat)
    requires i < |rs| - 1
    ensures IsNew(w, rs[..|rs| - 1], i) == IsNew(w, rs, i)
  {
  }

  lemma OneMoreNew(w: Work, rs: seq<Request>, p: seq<Request>, before: seq<nat>, t: seq<Request>, at: seq<nat>)
    requires rs != [] && Growing(before) && (forall i :: i in before <==> 0 <= i < |rs| - 1 && IsNew(w, rs, i))
    requires |p| == |Queue(w)| + |before| && Queue(w) <= p
    requires forall k :: 0 <= k < |before| ==> before[k] < |rs| - 1 && p[|Queue(w)| + k] == rs[before[k]]
    requires t == p + if IsNew(w, rs, |rs| - 1) then [rs[|rs| - 1]] else []
    requires at == if IsNew(w, rs, |rs| - 1) then before + [|rs| - 1] else before
    ensures Growing(at) && (forall i :: i in at <==> 0 <= i < |rs| && IsNew(w, rs, i))
    ensures |t| == |Queue(w)| + |at| && Queue(w) <= t
    ensures forall k :: 0 <= k < |at| ==> at[k] < |rs| && t[|Queue(w)| + k] == rs[at[k]]
  {
    hide IsNew;
    forall i ensures i in at <==> 0 <= i < |rs| && IsNew(w, rs, i) {
      assert i in at <==> i in before || (i == |rs| - 1 && IsNew(w, rs, i));
    }
  }

  lemma PushedIffNew(w: Work, rs: seq<Request>, p: Work, before: seq<nat>)
    requires rs != [] && p.inFlight == w.inFlight
    requires |Queue(p)| == |Queue(w)| + |before| && Queue(w) <= Queue(p)
    requires forall i :: i in before <==> 0 <= i < |rs| - 1 && IsNew(w, rs, i)
    requires forall k :: 0 <= k < |before| ==> before[k] < |rs| && Queue(p)[|Queue(w)| + k] == rs[before[k]]
    ensures Admits(p, IdentityOf(rs[|rs| - 1])) <==> IsNew(w, rs, |rs| - 1)
  {
    var n, id := |rs| - 1, IdentityOf(rs[|rs| - 1]);
    if k :| 0 <= k < |Queue(p)| && IdentityOf(Queue(p)[k]) == id {
      if k >= |Queue(w)| {
        assert before[k - |Queue(w)|] in before;
      } else {
        assert Queue(w)[k] == Queue(p)[k];
      }
    }
    if id !in w.inFlight && !Queued(Queue(p), id) {
      forall k | 0 <= k < |Queue(w)| ensures IdentityOf(Queue(w)[k]) != id {
        assert Queue(p)[k] == Queue(w)[k];
      }
      forall j | 0 <= j < n ensures IdentityOf(rs[j]) != id {
        FirstOfItsKind(w, rs, p, before, j);
      }
    }
  }

  /** An earlier request of the submission is queued, or its identity was queued or claimed before. */
  lemma {:induction false} FirstOfItsKind(w: Work, rs: seq<Request>, p: Work, before: seq<nat>, j: nat)
    requires rs != [] && j < |rs| - 1 && Queue(w) <= Queue(p)
    requires |Queue(p)| == |Queue(w)| + |before|
    requires forall i :: i in before <==> 0 <= i < |rs| - 1 && IsNew(w, rs, i)
    requires forall k :: 0 <= k < |before| ==> before[k] < |rs| && Queue(p)[|Queue(w)| + k] == rs[before[k]]
    ensures IdentityOf(rs[j]) in w.inFlight || Queued(Queue(p), IdentityOf(rs[j]))
    decreases j
  {
    if IsNew(w, rs, j) {
      var k :| 0 <= k < |before| && before[k] == j;
      assert Queue(p)[|Queue(w)| + k] == rs[j];
    } else if i :| 0 <= i < j && IdentityOf(rs[i]) == IdentityOf(rs[j]) {
      FirstOfItsKind(w, rs, p, before, i);
    } else if IdentityOf(rs[j]) !in w.inFlight {
      var k :| 0 <= k < |Queue(w)| && IdentityOf(Queue(w)[k]) == IdentityOf(rs[j]);
      assert Queue(p)[k] == Queue(w)[k];
    }
  }

  /** After a submission every folder submitted is queued or claimed. */
  lemma SubmissionQueues(w: Work, rs: seq<Request>) returns (at: seq<nat>)
    ensures var t := Submitted(w, rs);
            && Growing(at) && (forall i :: i in at <==> 0 <= i < |rs| && IsNew(w, rs, i))
            && |Queue(t)| == |Queue(w)| + |at| && Queue(w) <= Queue(t)
            && forall k :: 0 <= k < |at| ==> at[k] < |rs| && Queue(t)[|Queue(w)| + k] == rs[at[k]]
  {
    var f := Focused(w, rs);
    forall i | 0 <= i < |rs| ensures IsNew(f, rs, i) == IsNew(w, rs, i) {
      assert Queue(f) == Queue(w) && f.inFlight == w.inFlight;
    }
    at := PushesTheNew(f, rs);
  }

  // -------------------------------------------------------------------------- cancelling

  /** `live` lists the requests at these positions, which are those of all requests not cancelled. */
  predicate Picks(q: seq<Request>, cancelled: set<RequestId>, live: seq<Request>, at: seq<nat>) {
    && Growing(at) && |live| == |at|
    && (forall i :: i in at ==> 0 <= i < |q| && q[i].context.requestId !in cancelled)
    && (forall i :: 0 <= i < |q| && q[i].context.requestId !in cancelled ==> i in at)
    && forall k :: 0 <= k < |at| ==> at[k] < |q| && live[k] == q[at[k]]
  }

  /** Dropping the cancelled keeps every other request, in order. */
  lemma {:induction false} LivePositions(q: seq<Request>, cancelled: set<RequestId>) returns (at: seq<nat>)
    ensures Picks(q, cancelled, Live(q, cancelled), at)
  {
    if q == [] {
      at := [];
    } else {
      var rest := LivePositions(q[1..], cancelled);
      hide Picks;
      at := PicksOneMore(q, cancelled, Live(q[1..], cancelled), rest);
    }
  }

  lemma PicksOneMore(q: seq<Request>, cancelled: set<RequestId>, live: seq<Request>, rest: seq<nat>)
    returns (at: seq<nat>)
    requires q != [] && Picks(q[1..], cancelled, live, rest)
    ensures Picks(q, cancelled, (if q[0].context.requestId in cancelled then [] else [q[0]]) + live, at)
  {
    var moved := seq(|rest|, k requires 0 <= k < |rest| => rest[k] + 1);
    MovedPositions(q, cancelled, live, rest, moved);
    MovedOrder(q, live, rest, moved);
    if q[0].context.requestId in cancelled {
      at := moved;
      assert [] + live == live;
    } else {
      at := [0] + moved;
      FirstToo(q, cancelled, live, moved);
    }
  }

  lemma MovedOrder(q: seq<Request>, live: seq<Request>, rest: seq<nat>, moved: seq<nat>)
    requires q != [] && |live| == |rest| == |moved| && Growing(rest)
    requires forall k :: 0 <= k < |rest| ==> rest[k] < |q[1..]| && live[k] == q[1..][rest[k]]
    requires forall k :: 0 <= k < |rest| ==> moved[k] == rest[k] + 1
    ensures Growing(moved) && forall k :: 0 <= k < |moved| ==> 0 < moved[k] < |q| && live[k] == q[moved[k]]
  {
    forall k | 0 <= k < |moved| ensures 0 < moved[k] < |q| && live[k] == q[moved[k]] {
      assert q[1..][rest[k]] == q[moved[k]];
    }
  }

  lemma FirstToo(q: seq<Request>, cancelled: set<RequestId>, live: seq<Request>, moved: seq<nat>)
    requires q != [] && q[0].context.requestId !in cancelled && |live| == |moved|
    requires Growing(moved) && forall k :: 0 <= k < |moved| ==> 0 < moved[k] < |q| && live[k] == q[moved[k]]
    requires forall i :: i in moved ==> 1 <= i < |q| && q[i].context.requestId !in cancelled
    requires forall i :: 1 <= i < |q| && q[i].context.requestId !in cancelled ==> i in moved
    ensures Picks(q, cancelled, [q[0]] + live, [0] + moved)
  {
    var at, all := [0] + moved, [q[0]] + live;
    forall k | 0 <= k < |at| ensures at[k] < |q| && all[k] == q[at[k]] {
      assert k > 0 ==> at[k] == moved[k - 1] && all[k] == live[k - 1];
    }
    forall i ensures i in at <==> i == 0 || i in moved {
    }
  }

  lemma MovedPositions(q: seq<Request>, cancelled: set<RequestId>, live: seq<Request>, rest: seq<nat>, moved: seq<nat>)
    requires q != [] && Picks(q[1..], cancelled, live, rest)
    requires |moved| == |rest| && forall k :: 0 <= k < |rest| ==> moved[k] == rest[k] + 1
    ensures forall i :: i in moved ==> 1 <= i < |q| && q[i].context.requestId !in cancelled
    ensures forall i :: 1 <= i < |q| && q[i].context.requestId !in cancelled ==> i in moved
  {
    forall i | i in moved ensures 1 <= i < |q| && q[i].context.requestId !in cancelled {
      var k :| 0 <= k < |moved| && moved[k] == i;
      assert rest[k] in rest && q[1..][rest[k]] == q[i];
    }
    forall i | 1 <= i < |q| && q[i].context.requestId !in cancelled ensures i in moved {
      assert q[1..][i - 1] == q[i];
      assert i - 1 in rest;
      var k :| 0 <= k < |rest| && rest[k] == i - 1;
      assert moved[k] == i;
    }
  }

  /**
   * A cancel takes out the request's queue entries and claims and forgets the first attempts of its
   * tab and generation; all else stays.
   */
  lemma CancelTakesOut(w: Work, context: Context) returns (at: seq<nat>)
    ensures var t := Cancelled(w, context);
            && Growing(at)
            && (forall i :: i in at <==> 0 <= i < |Queue(w)| && Queue(w)[i].context.requestId != context.requestId)
            && |Queue(t)| == |at|
            && (forall k :: 0 <= k < |at| ==> at[k] < |Queue(w)| && Queue(t)[k] == Queue(w)[at[k]])
            && (forall id :: id in t.inFlight <==> id in w.inFlight && w.inFlight[id] != context.requestId)
            && (forall id :: id in t.inFlight ==> t.inFlight[id] == w.inFlight[id])
            && (forall id :: id in t.mftRetryStarted <==>
                  id in w.mftRetryStarted && !(id.tabId == context.tabId && id.generation == context.generation))
            && (forall id :: id in t.mftRetryStarted ==> t.mftRetryStarted[id] == w.mftRetryStarted[id])
            && t.cancelled == w.cancelled + {context.requestId} && t.focus == w.focus
  {
    at := LivePositions(Queue(w), {context.requestId});
  }

  /** A cancel frees the folder: the next submission of it is queued at once. */
  lemma CancelFrees(w: Work, context: Context, r: Request)
    requires IdentityOf(r) in w.inFlight ==> w.inFlight[IdentityOf(r)] == context.requestId
    requires forall k :: 0 <= k < |Queue(w)| && IdentityOf(Queue(w)[k]) == IdentityOf(r) ==>
               Queue(w)[k].context.requestId == context.requestId
    ensures var t := Cancelled(w, context);
            Queue(Submitted(t, [r])) == Queue(t) + [r]
  {
    var t := Cancelled(w, context);
    var kept := CancelTakesOut(w, context);
    forall k | 0 <= k < |Queue(t)| ensures IdentityOf(Queue(t)[k]) != IdentityOf(r) {
      assert kept[k] in kept;
    }
    var f := Focused(t, [r]);
    assert [r][..0] == [] && PushedAll(f, []) == f;
    assert Admits(f, IdentityOf(r));
  }

  // ---------------------------------------------------------------------------- claiming

  /** The request belongs to the focused tab and generation. */
  predicate Focussed(w: Work, r: Request) {
    w.focus.Some? && r.context.tabId == w.focus.value.0 && r.context.generation == w.focus.value.1
  }

  lemma {:induction false} FirstInFocusIsFirst(q: seq<Request>, focus: (nat, nat)) returns (k: nat)
    requires exists i :: 0 <= i < |q| && InFocus(q[i], focus)
    ensures k < |q| && FirstInFocus(q, focus) == q[k] && forall j :: 0 <= j < k ==> !InFocus(q[j], focus)
  {
    if InFocus(q[0], focus) {
      k := 0;
    } else {
      var i :| 0 <= i < |q| && InFocus(q[i], focus);
      assert q[1..][i - 1] == q[i];
      var m := FirstInFocusIsFirst(q[1..], focus);
      k := m + 1;
      forall j | 0 <= j < k ensures !InFocus(q[j], focus) {
        assert j > 0 ==> q[1..][j - 1] == q[j];
      }
    }
  }

  /**
   * Inside a back-off a claim does nothing. Otherwise it serves the context of the oldest live
   * request in focus, or of the oldest live request when none is in focus, and ends the back-off.
   */
  lemma ClaimServesOldest(w: Work, limit: nat, now: Time) returns (k: nat)
    requires 0 < limit
    ensures w.retryNotBefore.Some? && now < w.retryNotBefore.value ==>
              Taken(w, limit, now) == w && TakenBatch(w, limit, now) == []
    ensures !(w.retryNotBefore.Some? && now < w.retryNotBefore.value) ==>
              && Taken(w, limit, now).retryNotBefore == None
              && var live, batch := Live(Queue(w), w.cancelled), TakenBatch(w, limit, now);
                 live != [] ==>
                   && k < |live| && batch != [] && batch[0] == live[k] && |batch| <= limit
                   && (forall r :: r in batch ==> r.context == live[k].context)
                   && (forall j :: 0 <= j < k ==> !Focussed(w, live[j]))
                   && (Focussed(w, live[k]) || (k == 0 && forall r :: r in live ==> !Focussed(w, r)))
  {
    k := 0;
    var live := Live(Queue(w), w.cancelled);
    if !BackingOff(w, now) && live != [] {
      var context := ChosenContext(live, w.focus);
      if w.focus.Some? && exists i :: 0 <= i < |live| && InFocus(live[i], w.focus.value) {
        k := FirstInFocusIsFirst(live, w.focus.value);
      }
      assert live[k].context == context;
      ExtractContents(live, context, limit);
      FirstOfContext(live, context, limit, k, w.focus);
    }
  }

  /** What is extracted begins with the first request of the context. */
  lemma FirstOfContext(live: seq<Request>, context: Context, limit: nat, k: nat, focus: Option<(nat, nat)>)
    requires 0 < limit && k < |live| && live[k].context == context
    requires k != 0 ==> focus.Some? && InFocus(live[k], focus.value)
                        && forall j :: 0 <= j < k ==> !InFocus(live[j], focus.value)
    ensures Extract(live, context, limit).batch != [] && Extract(live, context, limit).batch[0] == live[k]
  {
    forall j | 0 <= j < k ensures live[j].context != context {
      assert InFocus(live[k], focus.value) && !InFocus(live[j], focus.value);
    }
    ExtractStarts(live, context, limit, k);
  }

  lemma {:induction false} ExtractStarts(live: seq<Request>, context: Context, limit: nat, k: nat)
    requires 0 < limit && k < |live| && live[k].context == context
    requires forall j :: 0 <= j < k ==> live[j].context != context
    ensures Extract(live, context, limit).batch != [] && Extract(live, context, limit).batch[0] == live[k]
    decreases k
  {
    if k != 0 {
      assert live[0].context != context;
      assert forall j :: 0 <= j < k - 1 ==> live[1..][j] == live[j + 1];
      ExtractStarts(live[1..], context, limit, k - 1);
    }
  }

  // -------------------------------------------------------------------------- a failure

  /**
   * A retryable failure decided less than three seconds after the first attempt, with no bypass armed, puts
   * the folder back in the queue or finds it there, with a back-off of 200 milliseconds; decided later,
   * or with a bypass armed, it arms the bypass for 30 seconds and falls back to the recursive scan.
   */
  lemma RetryDecides(steps: seq<Step>, later: Time)
    requires Run(INITIAL, steps).Some? && Enabled(Run(INITIAL, steps).value, Step.Retry(later))
    ensures var s := Run(INITIAL, steps).value;
            var t, r, first := Apply(s, Step.Retry(later)), s.pc.request, s.pc.round.first;
            if s.work.mftBypassUntil == None && s.now < first + 3000 then
              && t.pc == Serving && Queued(Queue(t.work), IdentityOf(r)) && Queue(s.work) <= Queue(t.work)
              && |Queue(t.work)| <= |Queue(s.work)| + 1
              && t.work == s.work.(requests := t.work.requests, retryNotBefore := Some(later + 200),
                                   mftRetryStarted := s.work.mftRetryStarted[IdentityOf(r) := first])
            else t.pc == FallingBack(r) && t.work == s.work.(mftBypassUntil := Some(later + 30000))
  {
    MergesOnlyIntoQueued(steps);
    RetryOutcome(Run(INITIAL, steps).value, later);
    hide AfterRetry, Queue, Queued, Admits, Run;
  }

  lemma RetryOutcome(s: System, later: Time)
    requires s.pc.Retrying?
    requires !Admits(s.work, IdentityOf(s.pc.request)) ==> Queued(Queue(s.work), IdentityOf(s.pc.request))
    ensures var t, r, first := AfterRetry(s, later), s.pc.request, s.pc.round.first;
            if s.work.mftBypassUntil == None && s.now < first + 3000 then
              && t.pc == Serving && Queued(Queue(t.work), IdentityOf(r)) && Queue(s.work) <= Queue(t.work)
              && |Queue(t.work)| <= |Queue(s.work)| + 1
              && t.work == s.work.(requests := t.work.requests, retryNotBefore := Some(later + 200),
                                   mftRetryStarted := s.work.mftRetryStarted[IdentityOf(r) := first])
            else t.pc == FallingBack(r) && t.work == s.work.(mftBypassUntil := Some(later + 30000))
  {
    var t, r := AfterRetry(s, later), s.pc.request;
    if s.work.mftBypassUntil == None && s.now < s.pc.round.first + 3000 && Admits(s.work, IdentityOf(r)) {
      assert Queue(t.work)[|Queue(s.work)|] == r;
    }
  }

  /**
   * What becomes of a finished claim whose request was not cancelled: an exact answer is sent and ends
   * the bypass, a retryable failure or a partial answer is decided by the retry budget, counted from
   * the remembered first attempt or from this one, and any other failure falls back at once.
   */
  lemma AnswerDecides(s: System, k: nat, m: Measured)
    requires Enabled(s, Step.Complete(k, m)) && s.active[k].context.requestId !in s.work.cancelled
    ensures var r := s.active[k];
            var id := IdentityOf(r);
            var first := if id in s.work.mftRetryStarted then s.work.mftRetryStarted[id] else s.started[k];
            var end := Run(s, [Step.Complete(k, m), Step.CheckCancelled, Step.Decide]);
            && end.Some?
            && end.value.work == s.work.(inFlight := end.value.work.inFlight,
                                         mftRetryStarted := s.work.mftRetryStarted - {id},
                                         mftBypassUntil := if m.Exact? then None else s.work.mftBypassUntil)
            && (end.value.work.inFlight == if id in s.work.inFlight && s.work.inFlight[id] == r.context.requestId
                                           then s.work.inFlight - {id} else s.work.inFlight)
            && match m
               case Exact => end.value.pc == Sending(r)
               case Partial => end.value.pc.Retrying? && end.value.pc.request == r && end.value.pc.round.first == first
               case Failed(retryable) =>
                 if retryable then end.value.pc.Retrying? && end.value.pc.request == r
                                   && end.value.pc.round.first == first
                 else end.value.pc == FallingBack(r)
  {
    var a := AfterFinish(s, k, m);
    var b := a.(pc := Pc.Deciding(s.active[k], a.pc.round, m));
    AnswerSteps(s, k, m, a, b);
    hide AfterFinish, Apply, Enabled, Run;
  }

  lemma AnswerSteps(s: System, k: nat, m: Measured, a: System, b: System)
    requires Enabled(s, Step.Complete(k, m)) && s.active[k].context.requestId !in s.work.cancelled
    requires a == AfterFinish(s, k, m) && b == a.(pc := Pc.Deciding(s.active[k], a.pc.round, m))
    ensures Run(s, [Step.Complete(k, m), Step.CheckCancelled, Step.Decide]) == Some(AfterDecide(b))
    ensures var r := s.active[k];
            && a.pc.round.first == (if IdentityOf(r) in s.work.mftRetryStarted
                                    then s.work.mftRetryStarted[IdentityOf(r)] else s.started[k])
            && a.work == s.work.(inFlight := a.work.inFlight,
                                 mftRetryStarted := s.work.mftRetryStarted - {IdentityOf(r)})
            && a.work.inFlight == if IdentityOf(r) in s.work.inFlight
                                     && s.work.inFlight[IdentityOf(r)] == r.context.requestId
                                  then s.work.inFlight - {IdentityOf(r)} else s.work.inFlight
  {
    var steps := [Step.Complete(k, m), Step.CheckCancelled, Step.Decide];
    assert steps[1..] == [Step.CheckCancelled, Step.Decide] && steps[1..][1..] == [Step.Decide];
    assert steps[1..][1..][1..] == [];
    AnswerApplies(s, k, m, a, b);
    hide AfterDecide, AfterFinish, Apply, Enabled;
    var c := AfterDecide(b);
    assert Run(c, []) == Some(c);
    assert Run(b, steps[1..][1..]) == Some(c);
    assert Run(a, steps[1..]) == Some(c);
  }

  lemma AnswerApplies(s: System, k: nat, m: Measured, a: System, b: System)
    requires Enabled(s, Step.Complete(k, m)) && s.active[k].context.requestId !in s.work.cancelled
    requires a == AfterFinish(s, k, m) && b == a.(pc := Pc.Deciding(s.active[k], a.pc.round, m))
    ensures Apply(s, Step.Complete(k, m)) == a
    ensures Enabled(a, Step.CheckCancelled) && Apply(a, Step.CheckCancelled) == b
    ensures Enabled(b, Step.Decide) && Apply(b, Step.Decide) == AfterDecide(b)
  {
    hide AfterSubmit, AfterCancel, AfterClaim, AfterSweep, AfterDrop, AfterRetry, AfterDecide;
  }

  /** The service is asked about a batch exactly when no bypass is armed or its window is over. */
  lemma AskedIffNoBypass(s: System)
    requires Enabled(s, Step.Ask) && s.active != []
    ensures var t := Apply(s, Step.Ask);
            && t.pc == Serving && t.work == s.work && t.active == s.active
            && (t.mode == Asking <==> s.work.mftBypassUntil.None? || s.work.mftBypassUntil.value <= s.now)
            && (t.mode != Asking ==> t.mode == Draining(false))
  {
  }

  /** A changed directory wakes the worker inside a back-off; after a shutdown nothing is claimed any more. */
  lemma WakesAndStops(s: System, directory: Path)
    requires s.pc == Waiting
    ensures Enabled(s, Step.Claim) <==>
              !s.work.stopped
              && (s.work.invalidated != []
                  || (s.work.requests.Some? && (s.work.retryNotBefore.None? || s.work.retryNotBefore.value <= s.now)))
    ensures !s.work.stopped ==> Enabled(Apply(s, Step.Invalidate(directory)), Step.Claim)
    ensures !Enabled(Apply(s, Step.Shutdown), Step.Claim) && Enabled(Apply(s, Step.Shutdown), Step.Exit)
  {
  }

  // ---------------------------------------------------------------- cancelled requests

  /** The worker has already decided about this request, or passed it by. */
  predicate TooLate(pc: Pc, r: Request) {
    || ((pc.Reporting? || pc.Deciding? || pc.Retrying? || pc.FallingBack? || pc.Sending?) && pc.request == r)
    || pc == Dropping(r, true)
  }

  /** It stays cancelled, undecided and as often answered as before. */
  predicate StaysUnanswered(s: System, t: System, r: Request) {
    && r.context.requestId in t.work.cancelled && !TooLate(t.pc, r)
    && t.ledger.answered[r] == s.ledger.answered[r]
  }

  lemma UiLeavesUnanswered(s: System, step: Step, r: Request)
    requires Enabled(s, step) && r.context.requestId in s.work.cancelled && !TooLate(s.pc, r)
    requires step.Submit? || step.Cancel?
    ensures StaysUnanswered(s, Apply(s, step), r)
  {
    hide AfterClaim, AfterFinish, AfterSweep, AfterDrop, AfterDecide, AfterRetry;
    if step.Submit? {
      PushAllExtends(Focused(s.work, step.rs), step.rs);
    }
  }

  lemma ClaimLeavesUnanswered(s: System, r: Request)
    requires r.context.requestId in s.work.cancelled && s.pc == Waiting
    ensures StaysUnanswered(s, AfterClaim(s), r)
  {
    hide TakenBatch, Live, Extract, Claims, ChosenContext;
  }

  lemma FinishLeavesUnanswered(s: System, k: nat, m: Measured, r: Request)
    requires r.context.requestId in s.work.cancelled && s.pc == Serving && k < |s.active| == |s.started|
    ensures StaysUnanswered(s, AfterFinish(s, k, m), r) && StaysUnanswered(s, AfterSweep(s, k), r)
  {
  }

  lemma DropLeavesUnanswered(s: System, r: Request)
    requires r.context.requestId in s.work.cancelled && !TooLate(s.pc, r) && s.pc.Dropping?
    ensures StaysUnanswered(s, AfterDrop(s), r)
  {
  }

  lemma ClaimsLeaveUnanswered(s: System, step: Step, r: Request)
    requires Enabled(s, step) && r.context.requestId in s.work.cancelled && !TooLate(s.pc, r)
    requires step.Claim? || step.Complete? || step.Drain? || step.Sweep? || step.Drop?
    ensures StaysUnanswered(s, Apply(s, step), r)
  {
    hide AfterSubmit, AfterCancel, AfterDecide, AfterRetry, AfterClaim, AfterFinish, AfterSweep, AfterDrop;
    hide StaysUnanswered;
    match step
    case Claim => ClaimLeavesUnanswered(s, r);
    case Complete(k, m) => FinishLeavesUnanswered(s, k, m, r);
    case Drain => FinishLeavesUnanswered(s, 0, Failed(s.mode.retryable), r);
    case Sweep(k) => FinishLeavesUnanswered(s, k, Exact, r);
    case Drop => DropLeavesUnanswered(s, r);
    case _ =>
  }

  lemma CancelledStep(s: System, step: Step, r: Request)
    requires Enabled(s, step) && r.context.requestId in s.work.cancelled && !TooLate(s.pc, r)
    ensures StaysUnanswered(s, Apply(s, step), r)
  {
    hide Apply, StaysUnanswered, TooLate;
    if step.Submit? || step.Cancel? {
      UiLeavesUnanswered(s, step, r);
    } else if step.Claim? || step.Complete? || step.Drain? || step.Sweep? || step.Drop? {
      ClaimsLeaveUnanswered(s, step, r);
    } else if Publishing(s.pc) || s.pc.Reporting? {
      PublishingLeavesUnanswered(s, step, r);
    } else {
      LocalLeavesUnanswered(s, step, r);
    }
  }

  lemma PublishingLeavesUnanswered(s: System, step: Step, r: Request)
    requires Enabled(s, step) && r.context.requestId in s.work.cancelled && !TooLate(s.pc, r)
    requires !step.Submit? && !step.Cancel? && !step.Claim? && (Publishing(s.pc) || s.pc.Reporting?)
    ensures StaysUnanswered(s, Apply(s, step), r)
  {
    hide AfterSubmit, AfterCancel, AfterClaim, AfterFinish, AfterSweep, AfterDrop, AfterRetry, AfterDecide;
    if step.Retry? || step.Decide? {
      DecisionLeavesUnanswered(s, step, r);
    }
  }

  lemma DecisionLeavesUnanswered(s: System, step: Step, r: Request)
    requires Enabled(s, step) && r.context.requestId in s.work.cancelled && !TooLate(s.pc, r)
    requires step.Retry? || step.Decide?
    ensures StaysUnanswered(s, Apply(s, step), r)
  {
    hide AfterSubmit, AfterCancel, AfterClaim, AfterFinish, AfterSweep, AfterDrop, MayRetry, Admits;
  }

  lemma LocalLeavesUnanswered(s: System, step: Step, r: Request)
    requires Enabled(s, step) && r.context.requestId in s.work.cancelled && !TooLate(s.pc, r)
    requires !step.Submit? && !step.Cancel? && !step.Claim? && !step.Complete? && !step.Drain? && !step.Sweep?
    requires !step.Drop? && !Publishing(s.pc) && !s.pc.Reporting?
    ensures StaysUnanswered(s, Apply(s, step), r)
  {
    hide AfterSubmit, AfterCancel, AfterClaim, AfterFinish, AfterSweep, AfterDrop, AfterDecide, AfterRetry;
  }

  /** A request cancelled before the worker has decided about it is never answered again. */
  lemma {:induction false} CancelledIsNotAnswered(s: System, steps: seq<Step>, r: Request)
    requires r.context.requestId in s.work.cancelled && !TooLate(s.pc, r) && Run(s, steps).Some?
    ensures Run(s, steps).value.ledger.answered[r] == s.ledger.answered[r]
    decreases |steps|
  {
    if steps != [] {
      CancelledStep(s, steps[0], r);
      CancelledIsNotAnswered(Apply(s, steps[0]), steps[1..], r);
    }
  }
}

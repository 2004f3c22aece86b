/** One round of the code-lines worker over the requests it took. */
module CodeLinesWorker {
  import opened Common
  import opened CodeLinesBatch

  predicate Cached(w: World, r: Request) {
    w.cachedAtFirst(r) || w.cachedLater(r)
  }

  /** A published result says the truth about its request and, for a batch, about the provider's answer. */
  ghost predicate Justified(w: World, flushed: seq<seq<Input>>, result: Result) {
    match result.outcome
    case CacheHit => Cached(w, result.request)
    case Unsupported => !Cached(w, result.request) && w.read(result.request).TooLarge?
    case SourceUnavailable => !Cached(w, result.request) && w.read(result.request).Unreadable?
    case _ => exists j :: 0 <= j < |flushed| && Answered(w, j, Inputs(flushed[j]), result)
  }

  /** A batch holds only requests that missed the cache, with the bytes read for them. */
  predicate ReadFor(w: World, input: Input) {
    !Cached(w, input.request) && w.read(input.request) == Content(input.size)
  }

  ghost predicate Flushed(w: World, flushed: seq<seq<Input>>) {
    forall j :: 0 <= j < |flushed| ==>
      Bounded(flushed[j]) && forall k :: 0 <= k < |flushed[j]| ==> ReadFor(w, flushed[j][k])
  }

  ghost predicate AllJustified(w: World, flushed: seq<seq<Input>>, sent: seq<Result>) {
    forall k :: 0 <= k < |sent| ==> Justified(w, flushed, sent[k])
  }

  lemma JustifiedGrows(w: World, flushed: seq<seq<Input>>, sent: seq<Result>, batch: seq<Input>)
    requires AllJustified(w, flushed, sent)
    ensures AllJustified(w, flushed + [batch], sent)
  {
    var more := flushed + [batch];
    assert forall j :: 0 <= j < |flushed| ==> more[j] == flushed[j];
  }

  /** The batch under construction: below the limits, and everything in it was read for its request. */
  ghost predicate Preparing(w: World, prepared: seq<Input>, bytes: nat) {
    && (prepared == [] || Bounded(prepared))
    && bytes == SaturatingAdd(Bytes(prepared), 0)
    && forall k :: 0 <= k < |prepared| ==> ReadFor(w, prepared[k])
  }

  lemma InputsSnoc(prepared: seq<Input>, input: Input)
    ensures multiset(Inputs(prepared + [input])) == multiset(Inputs(prepared)) + multiset{input.request}
    ensures Bytes(prepared + [input]) == Bytes(prepared) + input.size
  {
    assert (prepared + [input])[..|prepared|] == prepared;
  }

  lemma SaturatedSum(a: nat, b: nat)
    ensures SaturatingAdd(SaturatingAdd(a, 0), b) == SaturatingAdd(a + b, 0)
    ensures SaturatingAdd(SaturatingAdd(a, 0), b) <= MAX_INPUT_BYTES ==> a + b <= MAX_INPUT_BYTES
  {
  }

  lemma AddToBatch(w: World, prepared: seq<Input>, bytes: nat, input: Input)
    requires Preparing(w, prepared, bytes) && ReadFor(w, input)
    requires prepared != [] ==>
               |prepared| != BATCH_ITEMS && SaturatingAdd(bytes, input.size) <= MAX_INPUT_BYTES
    ensures Preparing(w, prepared + [input], SaturatingAdd(bytes, input.size))
  {
    var more := prepared + [input];
    InputsSnoc(prepared, input);
    SaturatedSum(Bytes(prepared), input.size);
    assert Bounded(more);
    forall k | 0 <= k < |more| ensures ReadFor(w, more[k]) {
      if k < |prepared| {
        assert more[k] == prepared[k];
      }
    }
  }

  /** How many more results the requests still owe. */
  ghost predicate Owed(sent: seq<Result>, prepared: seq<Input>, done: multiset<Request>, exact: bool) {
    && multiset(Requests(sent)) + multiset(Inputs(prepared)) <= done
    && (exact ==> multiset(Requests(sent)) + multiset(Inputs(prepared)) == done)
  }

  lemma OwedAnswer(sent: seq<Result>, prepared: seq<Input>, done: multiset<Request>, exact: bool, result: Result)
    requires Owed(sent, prepared, done, exact)
    ensures Owed(sent + [result], prepared, done + multiset{result.request}, exact)
    ensures Owed(sent, prepared, done + multiset{result.request}, false)
  {
    RequestsAppend(sent, [result]);
    assert [result][..0] == [];
    assert Requests([result]) == [result.request];
  }

  lemma OwedStop(sent: seq<Result>, prepared: seq<Input>, done: multiset<Request>, exact: bool, more: multiset<Request>)
    requires Owed(sent, prepared, done, exact) && done <= more
    ensures Owed(sent, prepared, more, false)
  {
  }

  lemma HitJustified(w: World, flushed: seq<seq<Input>>, sent: seq<Result>, request: Request)
    requires AllJustified(w, flushed, sent) && Cached(w, request)
    ensures AllJustified(w, flushed, sent + [Result(request, CacheHit)])
  {
  }

  method PublishHits(w: World, requests: seq<Request>, start: nat)
    returns (sent: seq<Result>, misses: seq<Request>, loads: nat)
    ensures start <= loads
    ensures Owed(sent, [], multiset(requests) - multiset(misses), CurrentThroughout(w, start, loads))
    ensures multiset(misses) <= multiset(requests)
    ensures AllJustified(w, [], sent) && Timely(w, start, loads, sent)
    ensures forall r :: r in misses ==> !w.cachedAtFirst(r)
  {
    var hits: seq<Request> := [];
    misses := [];
    for i := 0 to |requests|
      invariant multiset(hits) + multiset(misses) == multiset(requests[..i])
      invariant forall r :: r in hits ==> w.cachedAtFirst(r)
      invariant forall r :: r in misses ==> !w.cachedAtFirst(r)
    {
      assert requests[..i + 1] == requests[..i] + [requests[i]];
      if w.cachedAtFirst(requests[i]) {
        hits := hits + [requests[i]];
      } else {
        misses := misses + [requests[i]];
      }
    }
    assert requests[..|requests|] == requests;
    sent, loads := PublishWhileCurrent(w, hits, start);
    assert multiset(requests) - multiset(misses) == multiset(hits);
  }

  method PublishWhileCurrent(w: World, hits: seq<Request>, start: nat) returns (sent: seq<Result>, loads: nat)
    requires forall r :: r in hits ==> w.cachedAtFirst(r)
    ensures start <= loads
    ensures Owed(sent, [], multiset(hits), CurrentThroughout(w, start, loads))
    ensures AllJustified(w, [], sent) && Timely(w, start, loads, sent)
  {
    hide Timely, Owed, AllJustified, CurrentThroughout;
    sent, loads := [], start;
    NothingPublished(w, start);
    ghost var done: multiset<Request> := multiset{};
    for i := 0 to |hits|
      invariant start <= loads && done == multiset(hits[..i])
      invariant Owed(sent, [], done, CurrentThroughout(w, start, loads))
      invariant AllJustified(w, [], sent) && Timely(w, start, loads, sent)
    {
      MultisetNext(hits, i);
      ghost var exact := CurrentThroughout(w, start, loads);
      var live := w.current(loads);
      ThroughoutNext(w, start, loads);
      loads := loads + 1;
      if !live {
        OwedStop(sent, [], done, exact, multiset(hits));
        TimelyWidens(w, start, loads - 1, start, loads, sent);
        return;
      }
      assert hits[i] in hits;
      OwedAnswer(sent, [], done, exact, Result(hits[i], CacheHit));
      HitJustified(w, [], sent, hits[i]);
      TimelyNext(w, start, loads - 1, sent, Result(hits[i], CacheHit));
      sent := sent + [Result(hits[i], CacheHit)];
      done := done + multiset{hits[i]};
    }
    assert hits[..|hits|] == hits;
  }

  lemma NothingPublished(w: World, start: nat)
    ensures Owed([], [], multiset{}, CurrentThroughout(w, start, start))
    ensures AllJustified(w, [], []) && Timely(w, start, start, [])
  {
    NothingIsTimely(w, start, start);
  }

  lemma ThroughoutNext(w: World, start: nat, loads: nat)
    requires start <= loads
    ensures CurrentThroughout(w, start, loads + 1) <==> CurrentThroughout(w, start, loads) && w.current(loads)
  {
  }

  /** What one request comes to before batching: a result, content for a batch, or nothing once the epoch moved. */
  method Resolve(w: World, request: Request, start: nat)
    returns (direct: Option<Result>, input: Option<Input>, loads: nat)
    requires !w.cachedAtFirst(request)
    ensures loads == start + 1 && (direct.Some? ==> w.current(start))
    ensures direct.Some? ==> input.None? && direct.value.request == request && AllJustified(w, [], [direct.value])
    ensures input.Some? ==> input.value.request == request && ReadFor(w, input.value)
    ensures direct.None? && input.None? ==> !CurrentThroughout(w, start, loads)
  {
    direct, input, loads := None, None, start + 1;
    var live := w.current(start);
    var outcome := if w.cachedLater(request) then Some(CacheHit) else match w.read(request)
      case Content(_) => None
      case TooLarge => Some(Unsupported)
      case Unreadable => Some(SourceUnavailable);
    if live {
      if outcome.Some? {
        direct := Some(Result(request, outcome.value));
      } else {
        input := Some(Input(request, w.read(request).size));
      }
    }
  }

  /** Sending a batch settles what it holds: each request at most once, exactly once while the epoch stands. */
  lemma FlushSettles(
    w: World, flushed: seq<seq<Input>>, sent: seq<Result>, batch: seq<Input>, out: seq<Result>,
    done: multiset<Request>, exact: bool, still: bool)
    requires Owed(sent, batch, done, exact) && AllJustified(w, flushed, sent)
    requires Subsequence(out, BatchResults(w, |flushed|, Inputs(batch)))
    requires forall x :: x in out ==> Answered(w, |flushed|, Inputs(batch), x)
    requires still ==> out == BatchResults(w, |flushed|, Inputs(batch))
    ensures Owed(sent + out, [], done, exact && still)
    ensures AllJustified(w, flushed + [batch], sent + out)
  {
    SubsequenceRequests(out, BatchResults(w, |flushed|, Inputs(batch)));
    BatchAnswersEachOnce(w, |flushed|, Inputs(batch));
    RequestsAppend(sent, out);
    JustifiedGrows(w, flushed, sent, batch);
    BatchJustified(w, flushed, batch, out);
    hide AllJustified, Justified, Answered;
    JustifiedTogether(w, flushed + [batch], sent, out);
  }

  lemma JustifiedTogether(w: World, flushed: seq<seq<Input>>, p: seq<Result>, q: seq<Result>)
    requires AllJustified(w, flushed, p) && AllJustified(w, flushed, q)
    ensures AllJustified(w, flushed, p + q)
  {
    hide Justified;
  }

  lemma BatchJustified(w: World, flushed: seq<seq<Input>>, batch: seq<Input>, out: seq<Result>)
    requires forall x :: x in out ==> Answered(w, |flushed|, Inputs(batch), x)
    ensures AllJustified(w, flushed + [batch], out)
  {
    var more := flushed + [batch];
    assert more[|flushed|] == batch;
    forall k | 0 <= k < |out| ensures Justified(w, more, out[k]) {
      assert out[k] in out;
      NotDirect(w, |flushed|, Inputs(batch), out[k]);
    }
  }

  /** No batch result claims a cache hit or a read failure. */
  lemma NotDirect(w: World, number: nat, batch: seq<Request>, r: Result)
    requires Answered(w, number, batch, r)
    ensures !r.outcome.CacheHit? && !r.outcome.Unsupported? && !r.outcome.SourceUnavailable?
  {
  }

  lemma FlushedGrows(w: World, flushed: seq<seq<Input>>, batch: seq<Input>)
    requires Flushed(w, flushed)
    requires Bounded(batch) && forall k :: 0 <= k < |batch| ==> ReadFor(w, batch[k])
    ensures Flushed(w, flushed + [batch])
  {
  }

  method Flush(w: World, flushed: seq<seq<Input>>, batch: seq<Input>, start: nat,
               sent: seq<Result>, ghost done: multiset<Request>, ghost exact: bool)
    returns (sent': seq<Result>, flushed': seq<seq<Input>>, loads: nat)
    requires Flushed(w, flushed) && AllJustified(w, flushed, sent) && Owed(sent, batch, done, exact)
    requires Bounded(batch) && forall k :: 0 <= k < |batch| ==> ReadFor(w, batch[k])
    requires Timely(w, 0, start, sent)
    ensures start <= loads && flushed' == flushed + [batch] && Flushed(w, flushed')
    ensures AllJustified(w, flushed', sent') && Timely(w, 0, loads, sent')
    ensures Owed(sent', [], done, exact && CurrentThroughout(w, start, loads))
  {
    hide Timely, Answered, Subsequence;
    var out, after := ProcessBatch(w, |flushed|, Inputs(batch), start);
    FlushSettles(w, flushed, sent, batch, out, done, exact, CurrentThroughout(w, start, after));
    FlushedGrows(w, flushed, batch);
    TimelyAppend(w, 0, start, after, sent, out);
    sent', flushed', loads := sent + out, flushed + [batch], after;
  }

  /** The worker's loop variables. */
  datatype Round = Round(
    sent: seq<Result>, flushed: seq<seq<Input>>, prepared: seq<Input>, bytes: nat, loads: nat)

  ghost predicate Holds(w: World, s: Round, done: multiset<Request>) {
    && Flushed(w, s.flushed) && AllJustified(w, s.flushed, s.sent) && Preparing(w, s.prepared, s.bytes)
    && Owed(s.sent, s.prepared, done, CurrentThroughout(w, 0, s.loads)) && Timely(w, 0, s.loads, s.sent)
  }

  /** The next input would have exceeded a limit of the batch. */
  predicate Closed(batch: seq<Input>, next: Input) {
    |batch| == 128 || Bytes(batch) + next.size > 67_108_864
  }

  /** No batch was sent while its successor's first input still had room in it. */
  predicate Packed(batches: seq<seq<Input>>) {
    forall j :: 0 < j < |batches| && batches[j] != [] ==> Closed(batches[j - 1], batches[j][0])
  }

  /** What was sent and what is being prepared. */
  function Batches(s: Round): seq<seq<Input>> {
    s.flushed + [s.prepared]
  }

  /** Once a load sees another epoch, later requests owe nothing. */
  lemma EpochMoved(w: World, s: Round, done: multiset<Request>, more: multiset<Request>, loads: nat)
    requires Holds(w, s, done) && done <= more && s.loads <= loads && !CurrentThroughout(w, 0, loads)
    ensures Holds(w, s.(loads := loads), more)
  {
    TimelyWidens(w, 0, s.loads, 0, loads, s.sent);
  }

  lemma AnsweredDirectly(w: World, s: Round, done: multiset<Request>, result: Result, loads: nat)
    requires Holds(w, s, done) && s.loads < loads && w.current(s.loads) && AllJustified(w, [], [result])
    ensures Holds(w, s.(sent := s.sent + [result], loads := loads), done + multiset{result.request})
  {
    OwedAnswer(s.sent, s.prepared, done, CurrentThroughout(w, 0, s.loads), result);
    assert Justified(w, [], [result][0]);
    assert Justified(w, s.flushed, result);
    TimelyNext(w, 0, s.loads, s.sent, result);
    TimelyWidens(w, 0, s.loads + 1, 0, loads, s.sent + [result]);
  }

  lemma Batched(w: World, s: Round, done: multiset<Request>, input: Input)
    requires Holds(w, s, done) && ReadFor(w, input)
    requires s.prepared != [] ==>
               |s.prepared| != BATCH_ITEMS && SaturatingAdd(s.bytes, input.size) <= MAX_INPUT_BYTES
    ensures Holds(w, s.(prepared := s.prepared + [input], bytes := SaturatingAdd(s.bytes, input.size)),
                  done + multiset{input.request})
  {
    AddToBatch(w, s.prepared, s.bytes, input);
    InputsSnoc(s.prepared, input);
  }

  lemma LaterLoads(w: World, s: Round, done: multiset<Request>, loads: nat)
    requires Holds(w, s, done) && s.loads <= loads
    ensures Holds(w, s.(loads := loads), done)
  {
    TimelyWidens(w, 0, s.loads, 0, loads, s.sent);
  }

  method FlushRound(w: World, s: Round, ghost done: multiset<Request>) returns (s': Round)
    requires Holds(w, s, done) && s.prepared != []
    ensures Holds(w, s', done) && s'.prepared == [] && s.loads <= s'.loads && s'.flushed == s.flushed + [s.prepared]
  {
    hide Timely;
    var sent, flushed, loads :=
      Flush(w, s.flushed, s.prepared, s.loads, s.sent, done, CurrentThroughout(w, 0, s.loads));
    s' := Round(sent, flushed, [], 0, loads);
    assert CurrentThroughout(w, 0, loads) ==> CurrentThroughout(w, 0, s.loads) && CurrentThroughout(w, s.loads, loads);
  }

  /** The loop body after its epoch check. */
  method Advance(w: World, s: Round, request: Request, ghost done: multiset<Request>) returns (s': Round)
    requires Holds(w, s, done) && !w.cachedAtFirst(request)
    requires Packed(Batches(s)) && (s.prepared == [] ==> s.flushed == [])
    ensures Holds(w, s', done + multiset{request}) && s.loads <= s'.loads
    ensures Packed(Batches(s')) && (s'.prepared == [] ==> s'.flushed == [])
  {
    hide Timely, Packed;
    var direct, input, loads := Resolve(w, request, s.loads);
    if direct.Some? {
      AnsweredDirectly(w, s, done, direct.value, loads);
      s' := s.(sent := s.sent + [direct.value], loads := loads);
    } else if input.Some? {
      LaterLoads(w, s, done, loads);
      s' := s.(loads := loads);
      if s'.prepared != [] &&
         (|s'.prepared| == BATCH_ITEMS || SaturatingAdd(s'.bytes, input.value.size) > MAX_INPUT_BYTES) {
        Full(w, s', input.value);
        s' := FlushRound(w, s', done);
      }
      PackedGrows(s', input.value);
      Batched(w, s', done, input.value);
      s' := s'.(prepared := s'.prepared + [input.value], bytes := SaturatingAdd(s'.bytes, input.value.size));
    } else {
      EpochMoved(w, s, done, done + multiset{request}, loads);
      s' := s.(loads := loads);
    }
  }

  lemma PackedGrows(s: Round, input: Input)
    requires Packed(Batches(s)) || (s.prepared == [] && Packed(s.flushed))
    requires s.prepared == [] && s.flushed != [] ==> Closed(s.flushed[|s.flushed| - 1], input)
    ensures Packed(s.flushed + [s.prepared + [input]])
  {
    hide Closed;
    var before, after := Batches(s), s.flushed + [s.prepared + [input]];
    forall j | 0 < j < |after| && after[j] != [] ensures Closed(after[j - 1], after[j][0]) {
      assert after[j - 1] == before[j - 1] == s.flushed[j - 1];
      if j < |s.flushed| {
        assert after[j] == before[j] == s.flushed[j];
      } else if s.prepared != [] {
        assert before[j] == s.prepared && after[j][0] == s.prepared[0];
      }
    }
  }

  lemma Full(w: World, s: Round, input: Input)
    requires Preparing(w, s.prepared, s.bytes)
    requires |s.prepared| == BATCH_ITEMS || SaturatingAdd(s.bytes, input.size) > MAX_INPUT_BYTES
    ensures Closed(s.prepared, input)
  {
  }

  method Misses(w: World, s: Round, misses: seq<Request>, ghost hits: multiset<Request>) returns (s': Round)
    requires Holds(w, s, hits) && (forall r :: r in misses ==> !w.cachedAtFirst(r)) && s.flushed == []
    ensures Holds(w, s', hits + multiset(misses)) && s.loads <= s'.loads
    ensures Packed(Batches(s'))
  {
    hide Timely;
    s' := s;
    ghost var done := hits;
    for i := 0 to |misses|
      invariant Holds(w, s', done) && s.loads <= s'.loads
      invariant Packed(Batches(s')) && (s'.prepared == [] ==> s'.flushed == [])
      invariant done == hits + multiset(misses[..i])
    {
      MultisetNext(misses, i);
      var live := w.current(s'.loads);
      if !live {
        EpochMoved(w, s', done, hits + multiset(misses), s'.loads + 1);
        s' := s'.(loads := s'.loads + 1);
        return;
      }
      LaterLoads(w, s', done, s'.loads + 1);
      assert misses[i] in misses;
      s' := Advance(w, s'.(loads := s'.loads + 1), misses[i], done);
      done := done + multiset{misses[i]};
    }
    assert misses[..|misses|] == misses;
  }

  /**
   * One round: at most one result per request in every case, exactly one while the epoch stands
   * still, each result true of its request, and every batch sent within the provider's limits.
   */
  method ProcessRequests(w: World, requests: seq<Request>)
    returns (sent: seq<Result>, flushed: seq<seq<Input>>, loads: nat)
    ensures multiset(Requests(sent)) <= multiset(requests)
    ensures CurrentThroughout(w, 0, loads) ==> multiset(Requests(sent)) == multiset(requests)
    ensures AllJustified(w, flushed, sent)
    ensures Flushed(w, flushed) && Packed(flushed)
    ensures forall j :: 0 <= j < |flushed| ==>
              1 <= |flushed[j]| <= 128 && (|flushed[j]| == 1 || Bytes(flushed[j]) <= 67_108_864)
    ensures Timely(w, 0, loads, sent)
  {
    hide Timely;
    sent, flushed, loads := [], [], 1;
    NothingIsTimely(w, 0, loads);
    var live := w.current(0);
    if !live || requests == [] {
      assert !live ==> !CurrentThroughout(w, 0, loads);
      return;
    }
    var hits, misses, after := PublishHits(w, requests, loads);
    assert CurrentThroughout(w, 0, after) ==> CurrentThroughout(w, 1, after);
    TimelyWidens(w, loads, after, 0, after, hits);
    ghost var hit := multiset(requests) - multiset(misses);
    var s := Misses(w, Round(hits, [], [], 0, after), misses, hit);
    assert hit + multiset(misses) == multiset(requests);
    s := FlushRest(w, s, multiset(requests));
    sent, flushed, loads := s.sent, s.flushed, s.loads;
    WithinLimits(w, flushed);
  }

  /** After the last request, what is still being prepared is sent. */
  method FlushRest(w: World, s: Round, ghost done: multiset<Request>) returns (s': Round)
    requires Holds(w, s, done) && Packed(Batches(s))
    ensures Flushed(w, s'.flushed) && AllJustified(w, s'.flushed, s'.sent) && Timely(w, 0, s'.loads, s'.sent)
    ensures Owed(s'.sent, [], done, CurrentThroughout(w, 0, s'.loads)) && Packed(s'.flushed)
  {
    hide Timely, Packed;
    s' := s;
    PackedPrefix(s);
    if s.prepared != [] {
      var live := w.current(s.loads);
      if live {
        LaterLoads(w, s, done, s.loads + 1);
        s' := FlushRound(w, s.(loads := s.loads + 1), done);
      } else {
        EpochMoved(w, s, done, done, s.loads + 1);
        s' := s.(loads := s.loads + 1);
        assert !CurrentThroughout(w, 0, s'.loads);
        OwedWithout(s.sent, s.prepared, done);
      }
    }
  }

  lemma OwedWithout(sent: seq<Result>, prepared: seq<Input>, done: multiset<Request>)
    requires Owed(sent, prepared, done, false)
    ensures Owed(sent, [], done, false)
  {
  }

  lemma PackedPrefix(s: Round)
    requires Packed(Batches(s))
    ensures Packed(s.flushed)
  {
    hide Closed;
    assert forall j :: 0 <= j < |s.flushed| ==> Batches(s)[j] == s.flushed[j];
  }

  lemma WithinLimits(w: World, flushed: seq<seq<Input>>)
    requires Flushed(w, flushed)
    ensures forall j :: 0 <= j < |flushed| ==>
              1 <= |flushed[j]| <= 128 && (|flushed[j]| == 1 || Bytes(flushed[j]) <= 67_108_864)
  {
  }
}

/** The code-lines worker: cache hits, bounded batches to a provider, and one result per request. */
module CodeLinesBatch {
  import opened Common

  const BATCH_ITEMS: nat := 128
  const MAX_INPUT_BYTES: nat := 64 * 1024 * 1024
  const USIZE_MAX: nat := 0xFFFF_FFFF_FFFF_FFFF

  type Request = nat
  type Row = nat

  datatype Read = Content(size: nat) | TooLarge | Unreadable

  /** What the provider made of a batch; a group it could not apply is `None`. */
  datatype Served = Unavailable | Broken | Accepted(groups: seq<Option<seq<Row>>>)

  datatype Outcome =
    | CacheHit
    | Unsupported
    | SourceUnavailable
    | NotPrepared
    | ProviderUnavailable
    | ProviderFailed
    | FromRow(row: Row)
    | IncompleteBatch

  datatype Result = Result(request: Request, outcome: Outcome)

  /**
   * Everything the worker asks of its surroundings: the cache (asked twice), the file, the
   * preparation, the provider (by batch number), and each load of the epoch, in order.
   */
  datatype World = World(
    cachedAtFirst: Request -> bool, cachedLater: Request -> bool, read: Request -> Read,
    preparable: Request -> bool, serve: (nat, seq<Request>) -> Served, current: nat -> bool)

  datatype Input = Input(request: Request, size: nat)

  function SaturatingAdd(a: nat, b: nat): nat {
    if a + b <= USIZE_MAX then a + b else USIZE_MAX
  }

  function Requests(results: seq<Result>): (r: seq<Request>)
    ensures |r| == |results|
  {
    if results == [] then [] else Requests(results[..|results| - 1]) + [results[|results| - 1].request]
  }

  function Inputs(batch: seq<Input>): (r: seq<Request>)
    ensures |r| == |batch|
  {
    if batch == [] then [] else Inputs(batch[..|batch| - 1]) + [batch[|batch| - 1].request]
  }

  function Bytes(batch: seq<Input>): nat {
    if batch == [] then 0 else Bytes(batch[..|batch| - 1]) + batch[|batch| - 1].size
  }

  function Dispatchable(w: World, batch: seq<Request>): (r: seq<Request>)
    decreases |batch|
  {
    if batch == [] then []
    else Dispatchable(w, batch[..|batch| - 1]) + if w.preparable(batch[|batch| - 1]) then [batch[|batch| - 1]] else []
  }

  function Rejected(w: World, batch: seq<Request>): (r: seq<Request>)
    decreases |batch|
  {
    if batch == [] then []
    else Rejected(w, batch[..|batch| - 1]) + if w.preparable(batch[|batch| - 1]) then [] else [batch[|batch| - 1]]
  }

  /** All rows of the applied groups, in order. */
  function Rows(groups: seq<Option<seq<Row>>>): seq<Row> {
    if groups == [] then []
    else Rows(groups[..|groups| - 1]) + if groups[|groups| - 1].Some? then groups[|groups| - 1].value else []
  }

  function AllOf(requests: seq<Request>, outcome: Outcome): (r: seq<Result>)
    ensures |r| == |requests| && forall k :: 0 <= k < |r| ==> r[k] == Result(requests[k], outcome)
  {
    if requests == [] then []
    else AllOf(requests[..|requests| - 1], outcome) + [Result(requests[|requests| - 1], outcome)]
  }

  /** Row `k` answers dispatched request `k`; requests beyond the rows are incomplete, surplus rows are ignored. */
  function Paired(requests: seq<Request>, rows: seq<Row>): (r: seq<Result>)
    ensures |r| == |requests|
    ensures forall k :: 0 <= k < |r| ==>
              r[k] == Result(requests[k], if k < |rows| then FromRow(rows[k]) else IncompleteBatch)
  {
    seq(|requests|, k requires 0 <= k < |requests| =>
      Result(requests[k], if k < |rows| then FromRow(rows[k]) else IncompleteBatch))
  }

  /** What the provider's answer makes of the dispatched requests. */
  function ServedResults(w: World, number: nat, d: seq<Request>): (r: seq<Result>)
    ensures |r| == |d| && forall k :: 0 <= k < |r| ==> r[k].request == d[k]
  {
    if d == [] then []
    else match w.serve(number, d)
         case Unavailable => AllOf(d, ProviderUnavailable)
         case Broken => AllOf(d, ProviderFailed)
         case Accepted(groups) => Paired(d, Rows(groups))
  }

  /** The results of one batch while the epoch stands still. */
  function BatchResults(w: World, number: nat, batch: seq<Request>): seq<Result> {
    AllOf(Rejected(w, batch), NotPrepared) + ServedResults(w, number, Dispatchable(w, batch))
  }

  // ---------------------------------------------------------------- what a request is told

  /** How many rows the groups before `g` brought; a group that could not be applied brings none. */
  function RowsBefore(groups: seq<Option<seq<Row>>>, g: nat): nat
    requires g <= |groups|
  {
    if g == 0 then 0
    else RowsBefore(groups, g - 1) + if groups[g - 1].Some? then |groups[g - 1].value| else 0
  }

  /** Row `k` over all applied groups. */
  predicate RowAt(groups: seq<Option<seq<Row>>>, k: nat, row: Row) {
    exists g :: 0 <= g < |groups| && groups[g].Some? && RowsBefore(groups, g) <= k
                && k - RowsBefore(groups, g) < |groups[g].value| && groups[g].value[k - RowsBefore(groups, g)] == row
  }

  /** What the provider's answer tells dispatched request `k`: its row, or that there is none for it. */
  ghost predicate Tells(answer: Served, k: nat, outcome: Outcome) {
    match answer
    case Unavailable => outcome == ProviderUnavailable
    case Broken => outcome == ProviderFailed
    case Accepted(groups) =>
      if k < RowsBefore(groups, |groups|) then outcome.FromRow? && RowAt(groups, k, outcome.row)
      else outcome == IncompleteBatch
  }

  /** A request is told that it could not be prepared exactly when that is so, and else what the provider says. */
  ghost predicate Answered(w: World, number: nat, batch: seq<Request>, result: Result) {
    if !w.preparable(result.request) then result.request in batch && result.outcome == NotPrepared
    else
      var d := Dispatchable(w, batch);
      exists k :: 0 <= k < |d| && d[k] == result.request && Tells(w.serve(number, d), k, result.outcome)
  }

  predicate Growing(at: seq<nat>) {
    forall a, b :: 0 <= a < b < |at| ==> at[a] < at[b]
  }

  /** What is dispatched is every preparable request of the batch, once per occurrence and in order. */
  lemma {:induction false} DispatchedPositions(w: World, batch: seq<Request>) returns (at: seq<nat>)
    ensures Growing(at) && |Dispatchable(w, batch)| == |at|
    ensures forall k :: 0 <= k < |at| ==>
              at[k] < |batch| && w.preparable(batch[at[k]]) && Dispatchable(w, batch)[k] == batch[at[k]]
    ensures forall i :: 0 <= i < |batch| && w.preparable(batch[i]) ==> i in at
    decreases |batch|
  {
    if batch == [] {
      at := [];
    } else {
      var n := |batch| - 1;
      at := DispatchedPositions(w, batch[..n]);
      if w.preparable(batch[n]) {
        at := at + [n];
      }
    }
  }

  lemma {:induction false} RejectedMembers(w: World, batch: seq<Request>)
    ensures forall r :: r in Rejected(w, batch) <==> r in batch && !w.preparable(r)
    decreases |batch|
  {
    if batch != [] {
      var n := |batch| - 1;
      RejectedMembers(w, batch[..n]);
      assert batch == batch[..n] + [batch[n]];
    }
  }

  lemma {:induction false} RowsListed(groups: seq<Option<seq<Row>>>)
    ensures |Rows(groups)| == RowsBefore(groups, |groups|)
    ensures forall k: nat :: k < |Rows(groups)| ==> RowAt(groups, k, Rows(groups)[k])
    decreases |groups|
  {
    if groups != [] {
      var n := |groups| - 1;
      RowsListed(groups[..n]);
      RowsBeforePrefix(groups, n, n);
      forall k: nat | k < |Rows(groups)| ensures RowAt(groups, k, Rows(groups)[k]) {
        if k < |Rows(groups[..n])| {
          EarlierRow(groups, k, Rows(groups)[k]);
        } else {
          assert groups[n].Some? && groups[n].value[k - RowsBefore(groups, n)] == Rows(groups)[k];
        }
      }
    }
  }

  lemma {:induction false} RowsBeforePrefix(groups: seq<Option<seq<Row>>>, n: nat, g: nat)
    requires g <= n <= |groups|
    ensures RowsBefore(groups[..n], g) == RowsBefore(groups, g)
    decreases g
  {
    if g != 0 {
      RowsBeforePrefix(groups, n, g - 1);
    }
  }

  lemma EarlierRow(groups: seq<Option<seq<Row>>>, k: nat, row: Row)
    requires groups != [] && RowAt(groups[..|groups| - 1], k, row)
    ensures RowAt(groups, k, row)
  {
    var n := |groups| - 1;
    var g :| 0 <= g < n && groups[..n][g].Some? && RowsBefore(groups[..n], g) <= k
             && k - RowsBefore(groups[..n], g) < |groups[..n][g].value|
             && groups[..n][g].value[k - RowsBefore(groups[..n], g)] == row;
    RowsBeforePrefix(groups, n, g);
    assert groups[..n][g] == groups[g];
  }

  lemma ServedTells(w: World, number: nat, d: seq<Request>, k: nat)
    requires k < |d|
    ensures Tells(w.serve(number, d), k, ServedResults(w, number, d)[k].outcome)
  {
    var answer := w.serve(number, d);
    if answer.Accepted? {
      RowsListed(answer.groups);
    }
  }

  /** These results tell the unprepared so, then the dispatched requests, in order, what the provider says. */
  ghost predicate Told(w: World, number: nat, batch: seq<Request>, r: seq<Result>) {
    var d := Dispatchable(w, batch);
    && |r| >= |d|
    && (forall k :: 0 <= k < |r| - |d| ==>
          r[k].outcome == NotPrepared && r[k].request in batch && !w.preparable(r[k].request))
    && forall k :: 0 <= k < |d| ==>
         var x := r[|r| - |d| + k];
         x.request == d[k] && w.preparable(d[k]) && Tells(w.serve(number, d), k, x.outcome)
  }

  lemma TellEach(w: World, number: nat, batch: seq<Request>, bad: seq<Request>, errors: seq<Result>,
                 served: seq<Result>)
    requires |errors| == |bad| && forall k :: 0 <= k < |bad| ==> errors[k] == Result(bad[k], NotPrepared)
    requires forall k :: 0 <= k < |bad| ==> bad[k] in batch && !w.preparable(bad[k])
    requires |served| == |Dispatchable(w, batch)|
    requires forall k :: 0 <= k < |served| ==>
               && served[k].request == Dispatchable(w, batch)[k] && w.preparable(served[k].request)
               && Tells(w.serve(number, Dispatchable(w, batch)), k, served[k].outcome)
    ensures Told(w, number, batch, errors + served)
  {
    hide Tells, Dispatchable;
    var d, r := Dispatchable(w, batch), errors + served;
    forall k | 0 <= k < |d|
      ensures var x := r[|r| - |d| + k];
              x.request == d[k] && w.preparable(d[k]) && Tells(w.serve(number, d), k, x.outcome)
    {
      assert r[|r| - |d| + k] == served[k];
    }
  }

  lemma ToldIsAnswered(w: World, number: nat, batch: seq<Request>, r: seq<Result>, i: nat)
    requires Told(w, number, batch, r) && i < |r|
    ensures Answered(w, number, batch, r[i])
  {
    hide Tells;
    var d := Dispatchable(w, batch);
    if i >= |r| - |d| {
      var k := i - (|r| - |d|);
      assert r[|r| - |d| + k] == r[i] && d[k] == r[i].request;
    }
  }

  /**
   * The results of a batch: first everything that could not be prepared is told so, then each
   * dispatched request, in order, is told what the provider's answer says about it.
   */
  lemma BatchTells(w: World, number: nat, batch: seq<Request>)
    ensures Told(w, number, batch, BatchResults(w, number, batch))
    ensures forall x :: x in BatchResults(w, number, batch) ==> Answered(w, number, batch, x)
  {
    var d, bad := Dispatchable(w, batch), Rejected(w, batch);
    RejectedMembers(w, batch);
    var at := DispatchedPositions(w, batch);
    forall k | 0 <= k < |d| ensures Tells(w.serve(number, d), k, ServedResults(w, number, d)[k].outcome) {
      ServedTells(w, number, d, k);
    }
    hide Tells, Answered, Told;
    TellEach(w, number, batch, bad, AllOf(bad, NotPrepared), ServedResults(w, number, d));
    var r := BatchResults(w, number, batch);
    forall x | x in r ensures Answered(w, number, batch, x) {
      var i :| 0 <= i < |r| && r[i] == x;
      ToldIsAnswered(w, number, batch, r, i);
    }
  }

  // ------------------------------------------------------------------ under which epoch

  /** Results that are published one at a time, each behind its own look at the epoch. */
  predicate LooksItself(outcome: Outcome) {
    outcome.CacheHit? || outcome.Unsupported? || outcome.SourceUnavailable? || outcome.FromRow?
  }

  /** Result `k` was published behind load `at[k]`, which found the epoch current. */
  ghost predicate LoadedAt(w: World, start: nat, end: nat, sent: seq<Result>, at: seq<nat>) {
    && |at| == |sent|
    && (forall k :: 0 <= k < |at| ==> start <= at[k] < end && w.current(at[k]))
    && forall j, k :: 0 <= j < |at| && 0 <= k < |at| && j != k && LooksItself(sent[k].outcome) ==> at[j] != at[k]
  }

  /** Every result was published behind a load between `start` and `end` that found the epoch current. */
  ghost predicate Timely(w: World, start: nat, end: nat, sent: seq<Result>) {
    exists at :: LoadedAt(w, start, end, sent, at)
  }

  lemma NothingIsTimely(w: World, start: nat, end: nat)
    ensures Timely(w, start, end, [])
  {
    assert LoadedAt(w, start, end, [], []);
  }

  lemma TimelyWidens(w: World, start: nat, end: nat, start': nat, end': nat, sent: seq<Result>)
    requires Timely(w, start, end, sent) && start' <= start && end <= end'
    ensures Timely(w, start', end', sent)
  {
    var at :| LoadedAt(w, start, end, sent, at);
    assert LoadedAt(w, start', end', sent, at);
  }

  lemma TimelyAppend(w: World, start: nat, mid: nat, end: nat, p: seq<Result>, q: seq<Result>)
    requires Timely(w, start, mid, p) && Timely(w, mid, end, q) && start <= mid <= end
    ensures Timely(w, start, end, p + q)
  {
    var a :| LoadedAt(w, start, mid, p, a);
    var b :| LoadedAt(w, mid, end, q, b);
    assert LoadedAt(w, start, end, p + q, a + b);
  }

  lemma TimelyNext(w: World, start: nat, load: nat, sent: seq<Result>, x: Result)
    requires Timely(w, start, load, sent) && w.current(load) && start <= load
    ensures Timely(w, start, load + 1, sent + [x])
  {
    assert LoadedAt(w, load, load + 1, [x], [load]);
    TimelyAppend(w, start, load, load + 1, sent, [x]);
  }

  /** What a batch publishes as a whole shares the load before the batch; its rows do not. */
  lemma TimelyBatch(w: World, start: nat, end: nat, errors: seq<Result>, rows: seq<Result>, rest: seq<Result>)
    requires w.current(start) && start < end && Timely(w, start + 1, end, rows)
    requires forall x :: x in errors || x in rest ==> !LooksItself(x.outcome)
    ensures Timely(w, start, end, errors + rows + rest)
  {
    var b :| LoadedAt(w, start + 1, end, rows, b);
    var a := seq(|errors|, k => start);
    var c := seq(|rest|, k => start);
    SharedLoad(w, start, end, errors, rows, rest, a, b, c);
  }

  lemma SharedLoad(w: World, start: nat, end: nat, errors: seq<Result>, rows: seq<Result>, rest: seq<Result>,
                   a: seq<nat>, b: seq<nat>, c: seq<nat>)
    requires w.current(start) && start < end && LoadedAt(w, start + 1, end, rows, b)
    requires forall x :: x in errors || x in rest ==> !LooksItself(x.outcome)
    requires |a| == |errors| && (forall k :: 0 <= k < |a| ==> a[k] == start)
    requires |c| == |rest| && (forall k :: 0 <= k < |c| ==> c[k] == start)
    ensures LoadedAt(w, start, end, errors + rows + rest, a + b + c)
  {
    var all, at := errors + rows + rest, a + b + c;
    forall k | 0 <= k < |at| ensures start <= at[k] < end && w.current(at[k])
                                     && (LooksItself(all[k].outcome) ==> |a| <= k < |a| + |b|)
    {
      assert k < |a| ==> all[k] == errors[k] && at[k] == a[k];
      assert |a| <= k < |a| + |b| ==> all[k] == rows[k - |a|] && at[k] == b[k - |a|];
      assert |a| + |b| <= k ==> all[k] == rest[k - |a| - |b|] && at[k] == c[k - |a| - |b|];
    }
    forall j, k | 0 <= j < |at| && 0 <= k < |at| && j != k && LooksItself(all[k].outcome) ensures at[j] != at[k] {
      assert at[k] == b[k - |a|] && all[k] == rows[k - |a|];
      if |a| <= j < |a| + |b| {
        assert at[j] == b[j - |a|];
      } else {
        assert at[j] == start;
      }
    }
  }

  predicate Bounded(batch: seq<Input>) {
    1 <= |batch| <= BATCH_ITEMS && (|batch| == 1 || Bytes(batch) <= MAX_INPUT_BYTES)
  }

  // ---------------------------------------------------------------- requests answered

  lemma {:induction false} RequestsAppend(p: seq<Result>, q: seq<Result>)
    ensures Requests(p + q) == Requests(p) + Requests(q)
    decreases |q|
  {
    if q == [] {
      assert p + q == p;
    } else {
      var n := |q| - 1;
      RequestsAppend(p, q[..n]);
      assert (p + q)[..|p + q| - 1] == p + q[..n];
      assert Requests(p) + (Requests(q[..n]) + [q[n].request]) == (Requests(p) + Requests(q[..n])) + [q[n].request];
    }
  }

  lemma {:induction false} RequestsAt(results: seq<Result>, k: nat)
    requires k < |results|
    ensures Requests(results)[k] == results[k].request
    decreases |results|
  {
    if k < |results| - 1 {
      RequestsAt(results[..|results| - 1], k);
    }
  }

  lemma SameRequests(results: seq<Result>, requests: seq<Request>)
    requires |results| == |requests| && forall k :: 0 <= k < |results| ==> results[k].request == requests[k]
    ensures Requests(results) == requests
  {
    forall k | 0 <= k < |results| ensures Requests(results)[k] == requests[k] {
      RequestsAt(results, k);
    }
  }

  /** One more request on either side. */
  lemma MovedTo(p: seq<Request>, q: seq<Request>, whole: seq<Request>, r: Request)
    requires multiset(p) + multiset(q) == multiset(whole)
    ensures multiset(p + [r]) + multiset(q) == multiset(whole + [r])
    ensures multiset(p) + multiset(q + [r]) == multiset(whole + [r])
  {
  }

  lemma {:induction false} PreparationSplits(w: World, batch: seq<Request>)
    ensures multiset(Rejected(w, batch)) + multiset(Dispatchable(w, batch)) == multiset(batch)
    decreases |batch|
  {
    if batch != [] {
      var n := |batch| - 1;
      PreparationSplits(w, batch[..n]);
      assert batch == batch[..n] + [batch[n]];
      MovedTo(Rejected(w, batch[..n]), Dispatchable(w, batch[..n]), batch[..n], batch[n]);
    }
  }

  /** While the epoch stands still, a batch answers each of its requests exactly once. */
  lemma BatchAnswersEachOnce(w: World, number: nat, batch: seq<Request>)
    ensures multiset(Requests(BatchResults(w, number, batch))) == multiset(batch)
  {
    var d, r := Dispatchable(w, batch), Rejected(w, batch);
    PreparationSplits(w, batch);
    SameRequests(AllOf(r, NotPrepared), r);
    SameRequests(ServedResults(w, number, d), d);
    RequestsAppend(AllOf(r, NotPrepared), ServedResults(w, number, d));
  }

  // ------------------------------------------------------------ results left out

  /** `p` is `q` with some elements left out, order kept. */
  predicate Subsequence(p: seq<Result>, q: seq<Result>)
    decreases |q|
  {
    p == [] || (q != [] && (Subsequence(p, q[..|q| - 1])
                            || (p[|p| - 1] == q[|q| - 1] && Subsequence(p[..|p| - 1], q[..|q| - 1]))))
  }

  lemma SubsequenceSnoc(p: seq<Result>, q: seq<Result>, x: Result)
    requires Subsequence(p, q)
    ensures Subsequence(p, q + [x]) && Subsequence(p + [x], q + [x])
  {
    assert (q + [x])[..|q|] == q && (p + [x])[..|p|] == p;
  }

  lemma {:induction false} SubsequenceAppend(p: seq<Result>, q: seq<Result>, tail: seq<Result>)
    requires Subsequence(p, q)
    ensures Subsequence(p + tail, q + tail)
    decreases |tail|
  {
    if tail == [] {
      assert p + tail == p && q + tail == q;
    } else {
      var n := |tail| - 1;
      SubsequenceAppend(p, q, tail[..n]);
      SubsequenceSnoc(p + tail[..n], q + tail[..n], tail[n]);
      assert p + tail == (p + tail[..n]) + [tail[n]] && q + tail == (q + tail[..n]) + [tail[n]];
    }
  }

  lemma {:induction false} SubsequenceRequests(p: seq<Result>, q: seq<Result>)
    requires Subsequence(p, q)
    ensures multiset(Requests(p)) <= multiset(Requests(q))
    ensures forall r :: r in p ==> r in q
    decreases |q|
  {
    if p != [] {
      var n := |q| - 1;
      assert q == q[..n] + [q[n]] && p == p[..|p| - 1] + [p[|p| - 1]];
      if Subsequence(p, q[..n]) {
        SubsequenceRequests(p, q[..n]);
      } else {
        SubsequenceRequests(p[..|p| - 1], q[..n]);
      }
    }
  }

  // ------------------------------------------------------------------- one batch

  predicate CurrentThroughout(w: World, start: nat, end: nat) {
    forall t :: start <= t < end ==> w.current(t)
  }

  method EmitError(requests: seq<Request>, outcome: Outcome) returns (sent: seq<Result>)
    ensures sent == AllOf(requests, outcome)
  {
    sent := [];
    assert requests[..0] == [];
    for k := 0 to |requests|
      invariant sent == AllOf(requests[..k], outcome)
    {
      assert requests[..k + 1][..k] == requests[..k];
      sent := sent + [Result(requests[k], outcome)];
    }
    assert requests[..|requests|] == requests;
  }

  method PrepareInputs(w: World, batch: seq<Request>) returns (dispatchable: seq<Request>, rejected: seq<Request>)
    ensures dispatchable == Dispatchable(w, batch) && rejected == Rejected(w, batch)
  {
    dispatchable, rejected := [], [];
    assert batch[..0] == [];
    for k := 0 to |batch|
      invariant dispatchable == Dispatchable(w, batch[..k]) && rejected == Rejected(w, batch[..k])
    {
      assert batch[..k + 1][..k] == batch[..k];
      if w.preparable(batch[k]) {
        dispatchable := dispatchable + [batch[k]];
      } else {
        rejected := rejected + [batch[k]];
      }
    }
    assert batch[..|batch|] == batch;
  }

  /** What is sent of the first `emitted` paired results: all of them while the epoch stands. */
  ghost predicate Emitting(w: World, all: seq<Result>, start: nat, loads: nat, sent: seq<Result>, emitted: nat) {
    && emitted <= |all| && start <= loads && Subsequence(sent, all[..emitted]) && Timely(w, start, loads, sent)
    && (CurrentThroughout(w, start, loads) ==> sent == all[..emitted])
  }

  lemma EmitNext(w: World, all: seq<Result>, start: nat, loads: nat, sent: seq<Result>, emitted: nat)
    requires Emitting(w, all, start, loads, sent, emitted) && emitted < |all|
    ensures Emitting(w, all, start, loads + 1, if w.current(loads) then sent + [all[emitted]] else sent, emitted + 1)
  {
    assert all[..emitted + 1] == all[..emitted] + [all[emitted]];
    SubsequenceSnoc(sent, all[..emitted], all[emitted]);
    if w.current(loads) {
      TimelyNext(w, start, loads, sent, all[emitted]);
    } else {
      TimelyWidens(w, start, loads, start, loads + 1, sent);
    }
  }

  /** The rows of one group, paired with the requests still without a row. */
  method EmitGroup(w: World, d: seq<Request>, rows: seq<Row>, ghost all: seq<Result>, ghost seen: nat,
                   ghost start: nat, sent: seq<Result>, emitted: nat, loads: nat)
    returns (sent': seq<Result>, emitted': nat, loads': nat)
    requires emitted == (if seen < |d| then seen else |d|) && Emitting(w, all, start, loads, sent, emitted)
    requires |all| == |d|
    requires forall i :: 0 <= i < |rows| && seen + i < |d| ==> all[seen + i] == Result(d[seen + i], FromRow(rows[i]))
    ensures emitted' == if seen + |rows| < |d| then seen + |rows| else |d|
    ensures Emitting(w, all, start, loads', sent', emitted')
  {
    hide Emitting;
    sent', emitted', loads' := sent, emitted, loads;
    var i := 0;
    while i < |rows| && emitted' < |d|
      invariant 0 <= i <= |rows| && emitted' == if seen + i < |d| then seen + i else |d|
      invariant Emitting(w, all, start, loads', sent', emitted')
    {
      EmitNext(w, all, start, loads', sent', emitted');
      var live := w.current(loads');
      loads' := loads' + 1;
      if live {
        sent' := sent' + [Result(d[emitted'], FromRow(rows[i]))];
      }
      emitted' := emitted' + 1;
      i := i + 1;
    }
  }

  lemma RowsOfGroup(d: seq<Request>, groups: seq<Option<seq<Row>>>, g: nat)
    requires g < |groups| && groups[g].Some?
    ensures var all, seen, rows := Paired(d, Rows(groups)), |Rows(groups[..g])|, groups[g].value;
            && |Rows(groups[..g + 1])| == seen + |rows|
            && forall i :: 0 <= i < |rows| && seen + i < |d| ==> all[seen + i] == Result(d[seen + i], FromRow(rows[i]))
  {
    assert groups[..g + 1][..g] == groups[..g];
    RowsPrefix(groups, g);
    var seen, rows := |Rows(groups[..g])|, groups[g].value;
    forall i | 0 <= i < |rows| ensures seen + i < |Rows(groups)| && Rows(groups)[seen + i] == rows[i] {
      assert (Rows(groups[..g]) + rows)[seen + i] == rows[i];
    }
  }

  /** The row loop: rows are paired with requests in order, published only while the epoch stands. */
  method EmitRows(w: World, d: seq<Request>, groups: seq<Option<seq<Row>>>, start: nat)
    returns (sent: seq<Result>, emitted: nat, loads: nat)
    ensures emitted == if |Rows(groups)| < |d| then |Rows(groups)| else |d|
    ensures Emitting(w, Paired(d, Rows(groups)), start, loads, sent, emitted)
  {
    sent, emitted, loads := [], 0, start;
    NothingIsTimely(w, start, start);
    ghost var all := Paired(d, Rows(groups));
    assert groups[..0] == [];
    for g := 0 to |groups|
      invariant emitted == if |Rows(groups[..g])| < |d| then |Rows(groups[..g])| else |d|
      invariant Emitting(w, all, start, loads, sent, emitted)
    {
      if groups[g].Some? {
        RowsOfGroup(d, groups, g);
        sent, emitted, loads :=
          EmitGroup(w, d, groups[g].value, all, |Rows(groups[..g])|, start, sent, emitted, loads);
      } else {
        assert groups[..g + 1][..g] == groups[..g];
      }
    }
    assert groups[..|groups|] == groups;
  }

  lemma {:induction false} RowsPrefix(groups: seq<Option<seq<Row>>>, g: nat)
    requires g < |groups| && groups[g].Some?
    ensures Rows(groups[..g]) + groups[g].value <= Rows(groups)
    decreases |groups|
  {
    var n := |groups| - 1;
    if g < n {
      RowsPrefix(groups[..n], g);
      assert groups[..n][..g] == groups[..g];
    }
  }

  method ProcessBatch(w: World, number: nat, batch: seq<Request>, start: nat)
    returns (sent: seq<Result>, loads: nat)
    ensures start <= loads
    ensures Subsequence(sent, BatchResults(w, number, batch))
    ensures CurrentThroughout(w, start, loads) ==> sent == BatchResults(w, number, batch)
    ensures (forall x :: x in sent ==> Answered(w, number, batch, x)) && Timely(w, start, loads, sent)
  {
    hide Timely, Subsequence, Answered, Dispatchable, Rejected, ServedResults;
    var d, rejected := PrepareInputs(w, batch);
    var live := w.current(start);
    loads := start + 1;
    NothingIsTimely(w, start, loads);
    NothingIsLeft(BatchResults(w, number, batch));
    if !live {
      return [], loads;
    }
    var errors := EmitError(rejected, NotPrepared);
    var rows: seq<Result>, rest: seq<Result> := [], [];
    NothingIsTimely(w, loads, loads);
    NothingIsLeft(ServedResults(w, number, d));
    if d != [] {
      rows, rest, loads := Serve(w, number, d, loads);
    }
    SubsequencePrepend(errors, rows + rest, ServedResults(w, number, d));
    sent := errors + rows + rest;
    assert sent == errors + (rows + rest);
    TimelyBatch(w, start, loads, errors, rows, rest);
    SubsequenceRequests(sent, BatchResults(w, number, batch));
    BatchTells(w, number, batch);
    NothingServed(w, number);
  }

  lemma NothingIsLeft(q: seq<Result>)
    ensures Subsequence([], q)
  {
  }

  lemma NothingServed(w: World, number: nat)
    ensures ServedResults(w, number, []) == []
  {
  }

  /** The provider's answer: its rows, and what is said of requests without one. */
  method Serve(w: World, number: nat, d: seq<Request>, start: nat)
    returns (rows: seq<Result>, rest: seq<Result>, loads: nat)
    requires d != []
    ensures start <= loads && Timely(w, start, loads, rows)
    ensures forall x :: x in rest ==> !LooksItself(x.outcome)
    ensures Subsequence(rows + rest, ServedResults(w, number, d))
    ensures CurrentThroughout(w, start, loads) ==> rows + rest == ServedResults(w, number, d)
  {
    hide Timely, Subsequence, Paired;
    rows, rest, loads := [], [], start;
    NothingIsTimely(w, start, start);
    match w.serve(number, d)
    case Unavailable =>
      rest := EmitError(d, ProviderUnavailable);
      assert rows + rest == rest;
      Within(rest, ServedResults(w, number, d));
    case Broken =>
      rest := EmitError(d, ProviderFailed);
      assert rows + rest == rest;
      Within(rest, ServedResults(w, number, d));
    case Accepted(groups) =>
      rows, rest, loads := ServeRows(w, d, groups, start);
  }

  method ServeRows(w: World, d: seq<Request>, groups: seq<Option<seq<Row>>>, start: nat)
    returns (rows: seq<Result>, rest: seq<Result>, loads: nat)
    ensures start <= loads && Timely(w, start, loads, rows)
    ensures forall x :: x in rest ==> x.outcome == IncompleteBatch
    ensures Subsequence(rows + rest, Paired(d, Rows(groups)))
    ensures CurrentThroughout(w, start, loads) ==> rows + rest == Paired(d, Rows(groups))
  {
    ghost var all := Paired(d, Rows(groups));
    var emitted;
    rows, emitted, loads := EmitRows(w, d, groups, start);
    rest := EmitError(d[emitted..], IncompleteBatch);
    SubsequenceAppend(rows, all[..emitted], rest);
    assert rest == all[emitted..];
    assert all == all[..emitted] + all[emitted..];
  }

  lemma Within(p: seq<Result>, q: seq<Result>)
    ensures p == q ==> Subsequence(p, q)
  {
    if p == q {
      SubsequenceRefl(p);
    }
  }

  lemma {:induction false} SubsequenceRefl(p: seq<Result>)
    ensures Subsequence(p, p)
    decreases |p|
  {
    if p != [] {
      SubsequenceRefl(p[..|p| - 1]);
    }
  }

  lemma {:induction false} SubsequencePrepend(head: seq<Result>, p: seq<Result>, q: seq<Result>)
    requires Subsequence(p, q)
    ensures Subsequence(head + p, head + q)
    decreases |q|
  {
    if q == [] {
      SubsequenceRefl(head);
      assert head + p == head && head + q == head;
    } else {
      var n := |q| - 1;
      assert head + q == (head + q[..n]) + [q[n]];
      if Subsequence(p, q[..n]) {
        SubsequencePrepend(head, p, q[..n]);
        SubsequenceSnoc(head + p, head + q[..n], q[n]);
      } else {
        SubsequencePrepend(head, p[..|p| - 1], q[..n]);
        SubsequenceSnoc(head + p[..|p| - 1], head + q[..n], q[n]);
        assert head + p == (head + p[..|p| - 1]) + [q[n]];
      }
    }
  }
}

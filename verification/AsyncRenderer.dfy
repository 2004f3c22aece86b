/**
 * The bounded bridge between the UI thread and one plugin render worker.
 *
 * `C` is what a request carries, `K` its key, `P` a plan. `renders(c, p)` says that the worker may
 * turn request `c` into plan `p`; nothing is assumed of it.
 */
module AsyncRenderer {
  import opened Common

  datatype Config<!C, K, !P> = Config(key: C -> K, renders: (C, P) -> bool, queueCap: nat, cacheCap: nat)

  /** A finished render; `source` is the request it was made from. */
  datatype Done<C, K, P> = Done(source: C, key: K, plan: P)

  /** `sent` remembers every request the channel ever accepted. */
  datatype State<C, K(==), P> = State(
    queue: seq<C>, working: Option<C>, results: seq<Done<C, K, P>>, pending: set<K>, cache: map<K, P>, sent: seq<C>)

  function Idle<C, K(==), P>(): State<C, K, P> {
    State([], None, [], {}, map[], [])
  }

  function Sources<C, K, P>(results: seq<Done<C, K, P>>): (sources: seq<C>)
    ensures |sources| == |results|
    ensures forall i :: 0 <= i < |results| ==> sources[i] == results[i].source
  {
    if results == [] then [] else [results[0].source] + Sources(results[1..])
  }

  function Working<C, K, P>(s: State<C, K, P>): seq<C> {
    if s.working.Some? then [s.working.value] else []
  }

  /** The outstanding requests, oldest first: awaiting drain, being rendered, queued. */
  function Pipeline<C, K, P>(s: State<C, K, P>): seq<C> {
    Sources(s.results) + Working(s) + s.queue
  }

  ghost function Keys<C, K, P>(cfg: Config<C, K, P>, pipeline: seq<C>): set<K> {
    set c | c in pipeline :: cfg.key(c)
  }

  ghost predicate DistinctKeys<C, K, P>(cfg: Config<C, K, P>, pipeline: seq<C>) {
    forall i, j :: 0 <= i < j < |pipeline| ==> cfg.key(pipeline[i]) != cfg.key(pipeline[j])
  }

  /** Every finished render carries the key of its own request and a plan made from it. */
  ghost predicate Honest<C, K, P>(cfg: Config<C, K, P>, results: seq<Done<C, K, P>>) {
    forall i :: 0 <= i < |results| ==>
      results[i].key == cfg.key(results[i].source) && cfg.renders(results[i].source, results[i].plan)
  }

  /** Every cached plan was rendered from a request that was sent with that key. */
  ghost predicate CacheSound<C, K, P>(cfg: Config<C, K, P>, cache: map<K, P>, sent: seq<C>) {
    forall k :: k in cache ==> exists c :: c in sent && cfg.key(c) == k && cfg.renders(c, cache[k])
  }

  ghost predicate AllSent<C>(pipeline: seq<C>, sent: seq<C>) {
    forall c :: c in pipeline ==> c in sent
  }

  /** What holds between UI operations, apart from the bound on outstanding requests. */
  ghost predicate Consistent<C(!new), K, P>(cfg: Config<C, K, P>, s: State<C, K, P>) {
    && s.pending == Keys(cfg, Pipeline(s))
    && DistinctKeys(cfg, Pipeline(s))
    && s.pending !! s.cache.Keys
    && |s.cache| <= cfg.cacheCap
    && |s.queue| <= cfg.queueCap
    && Honest(cfg, s.results)
    && CacheSound(cfg, s.cache, s.sent)
    && AllSent(Pipeline(s), s.sent)
  }

  /** What holds between UI operations. */
  ghost predicate Valid<C(!new), K, P>(cfg: Config<C, K, P>, s: State<C, K, P>) {
    Consistent(cfg, s) && |Pipeline(s)| <= cfg.queueCap + 2
  }

  // ---------------------------------------------------------------------- worker

  datatype WorkerStep<P> = Receive | Render(plan: P)

  function Worked<C, K, P>(cfg: Config<C, K, P>, s: State<C, K, P>, step: WorkerStep<P>): State<C, K, P> {
    match step
    case Receive =>
      if s.working.None? && s.queue != [] then s.(working := Some(s.queue[0]), queue := s.queue[1..]) else s
    case Render(plan) =>
      if s.working.Some? && cfg.renders(s.working.value, plan)
      then s.(working := None, results := s.results + [Done(s.working.value, cfg.key(s.working.value), plan)])
      else s
  }

  /** What any number of worker steps can have done: moved requests forward, in order, and nothing else. */
  ghost predicate WorkerRan<C, K, P>(cfg: Config<C, K, P>, a: State<C, K, P>, b: State<C, K, P>) {
    && b.pending == a.pending && b.cache == a.cache && b.sent == a.sent
    && |b.queue| <= |a.queue|
    && a.results <= b.results
    && (Honest(cfg, a.results) ==> Honest(cfg, b.results))
    && Pipeline(b) == Pipeline(a)
  }

  lemma {:induction false} SourcesSnoc<C, K, P>(results: seq<Done<C, K, P>>, last: Done<C, K, P>)
    ensures Sources(results + [last]) == Sources(results) + [last.source]
  {
    var all := results + [last];
    assert forall i :: 0 <= i < |all| ==> Sources(all)[i] == (Sources(results) + [last.source])[i];
  }

  lemma StepIsWork<C, K, P>(cfg: Config<C, K, P>, s: State<C, K, P>, step: WorkerStep<P>)
    ensures WorkerRan(cfg, s, Worked(cfg, s, step))
  {
    var t := Worked(cfg, s, step);
    match step
    case Receive =>
      if s.working.None? && s.queue != [] {
        assert s.queue == [s.queue[0]] + s.queue[1..];
        assert Pipeline(t) == Pipeline(s);
      }
    case Render(plan) =>
      if s.working.Some? && cfg.renders(s.working.value, plan) {
        SourcesSnoc(s.results, Done(s.working.value, cfg.key(s.working.value), plan));
        assert Pipeline(t) == Pipeline(s);
      }
  }

  lemma WorkComposes<C, K, P>(cfg: Config<C, K, P>, a: State<C, K, P>, b: State<C, K, P>, c: State<C, K, P>)
    requires WorkerRan(cfg, a, b) && WorkerRan(cfg, b, c)
    ensures WorkerRan(cfg, a, c)
  {
  }

  lemma WorkKeepsConsistent<C(!new), K, P>(cfg: Config<C, K, P>, a: State<C, K, P>, b: State<C, K, P>)
    requires WorkerRan(cfg, a, b) && Consistent(cfg, a)
    ensures Consistent(cfg, b)
  {
  }

  /** The worker alone never breaks what holds between UI operations. */
  lemma WorkKeepsValid<C(!new), K, P>(cfg: Config<C, K, P>, a: State<C, K, P>, b: State<C, K, P>)
    requires WorkerRan(cfg, a, b) && Valid(cfg, a)
    ensures Valid(cfg, b)
  {
  }

  // -------------------------------------------------------------------- draining

  /** One drained result: its key leaves `pending` and its plan enters the cache, cleared first when full. */
  function Drained<C, K(==), P>(cfg: Config<C, K, P>, s: State<C, K, P>): State<C, K, P>
    requires s.results != []
  {
    var ready := s.results[0];
    var cache := if |s.cache| >= cfg.cacheCap then map[] else s.cache;
    s.(results := s.results[1..], pending := s.pending - {ready.key}, cache := cache[ready.key := ready.plan])
  }

  lemma DrainPipeline<C, K, P>(cfg: Config<C, K, P>, s: State<C, K, P>)
    requires s.results != []
    ensures Pipeline(s) == [s.results[0].source] + Pipeline(Drained(cfg, s))
  {
    assert Sources(s.results) == [s.results[0].source] + Sources(s.results[1..]);
  }

  lemma KeysOfTail<C, K, P>(cfg: Config<C, K, P>, head: C, tail: seq<C>)
    requires DistinctKeys(cfg, [head] + tail)
    ensures DistinctKeys(cfg, tail)
    ensures Keys(cfg, [head] + tail) == Keys(cfg, tail) + {cfg.key(head)}
    ensures cfg.key(head) !in Keys(cfg, tail)
  {
    var all := [head] + tail;
    forall i | 0 <= i < |tail| ensures tail[i] == all[i + 1] && cfg.key(tail[i]) != cfg.key(head) {
      assert all[0] == head && all[i + 1] == tail[i];
    }
    assert forall c :: c in all <==> c == head || c in tail;
  }

  lemma InsertedSize<K, P>(cache: map<K, P>, key: K, plan: P)
    ensures |cache[key := plan]| <= |cache| + 1
  {
    assert cache[key := plan].Keys == cache.Keys + {key};
    assert |cache[key := plan]| == |cache[key := plan].Keys|;
  }

  lemma DrainKeepsConsistent<C(!new), K, P>(cfg: Config<C, K, P>, s: State<C, K, P>)
    requires s.results != [] && Consistent(cfg, s) && 0 < cfg.cacheCap
    ensures Consistent(cfg, Drained(cfg, s))
  {
    var t, ready := Drained(cfg, s), s.results[0];
    DrainPipeline(cfg, s);
    KeysOfTail(cfg, ready.source, Pipeline(t));
    InsertedSize(if |s.cache| >= cfg.cacheCap then map[] else s.cache, ready.key, ready.plan);
    assert cfg.key(ready.source) == ready.key && cfg.renders(ready.source, ready.plan);
  }

  /** `cache` answers with these results. */
  ghost predicate AnswersWith<C, K, P>(cache: map<K, P>, results: seq<Done<C, K, P>>) {
    forall i :: 0 <= i < |results| ==> results[i].key in cache && cache[results[i].key] == results[i].plan
  }

  ghost predicate Keeps<K, P>(before: map<K, P>, after: map<K, P>) {
    forall k :: k in before ==> k in after && after[k] == before[k]
  }

  /**
   * The cache after these results were drained into it: all of them and everything before while that
   * fits under the cap. Otherwise it was cleared whenever an insert found it full, and it holds the
   * last few results, as many as came in since it was last cleared.
   */
  ghost predicate Retains<C, K, P>(cap: nat, before: map<K, P>, drained: seq<Done<C, K, P>>, cache: map<K, P>)
    requires 0 < cap
  {
    var total := |before| + |drained|;
    if total <= cap then |cache| == total && Keeps(before, cache) && AnswersWith(cache, drained)
    else |cache| == (total - 1) % cap + 1 <= |drained| && AnswersWith(cache, drained[|drained| - |cache|..])
  }

  lemma NextRemainder(total: nat, cap: nat)
    requires 0 < cap && 0 < total
    ensures total % cap == if (total - 1) % cap == cap - 1 then 0 else (total - 1) % cap + 1
  {
    var q, r := (total - 1) / cap, (total - 1) % cap;
    assert total == cap * q + (r + 1);
    if r == cap - 1 {
      assert total == cap * (q + 1);
      Remainder(total, cap, q + 1, 0);
    } else {
      Remainder(total, cap, q, r + 1);
    }
  }

  lemma Remainder(n: nat, cap: nat, q: nat, r: nat)
    requires r < cap && n == cap * q + r
    ensures n % cap == r
  {
    var d := n / cap - q;
    assert n == cap * (n / cap) + n % cap;
    assert cap * d == r - n % cap;
    assert 0 - cap < cap * d < cap;
  }

  /** One more result of a new key keeps the account. */
  lemma DrainRetains<C, K, P>(cap: nat, before: map<K, P>, drained: seq<Done<C, K, P>>, cache: map<K, P>,
                              ready: Done<C, K, P>)
    requires 0 < cap && |before| <= cap && |cache| <= cap && ready.key !in cache
    requires Retains(cap, before, drained, cache)
    ensures var full := |cache| >= cap;
            Retains(cap, before, drained + [ready], (if full then map[] else cache)[ready.key := ready.plan])
  {
    var total, more := |before| + |drained|, drained + [ready];
    if total > 0 {
      NextRemainder(total, cap);
    }
    var kept := if |cache| >= cap then map[] else cache;
    var after := kept[ready.key := ready.plan];
    assert after.Keys == kept.Keys + {ready.key};
    assert |after| == |after.Keys| == |kept.Keys| + 1 == |kept| + 1;
    if total >= cap {
      RemainderOfCap(total, cap);
      LastRetained(drained, cache, cap, ready);
    } else {
      assert forall i :: 0 <= i < |drained| ==> more[i] == drained[i];
    }
  }

  lemma RemainderOfCap(total: nat, cap: nat)
    requires 0 < cap
    ensures total == cap ==> total % cap == 0
  {
    if total == cap {
      Remainder(total, cap, 1, 0);
    }
  }

  lemma LastRetained<C, K, P>(drained: seq<Done<C, K, P>>, cache: map<K, P>, cap: nat, ready: Done<C, K, P>)
    requires ready.key !in cache && |cache| <= cap
    requires |cache| < cap ==> |cache| <= |drained| && AnswersWith(cache, drained[|drained| - |cache|..])
    ensures var kept := if |cache| >= cap then map[] else cache;
            AnswersWith(kept[ready.key := ready.plan], (drained + [ready])[|drained| - |kept|..])
  {
    var kept := if |cache| >= cap then map[] else cache;
    var tail := drained[|drained| - |kept|..];
    assert (drained + [ready])[|drained| - |kept|..] == tail + [ready];
    var all := tail + [ready];
    forall i | 0 <= i < |all|
      ensures all[i].key in kept[ready.key := ready.plan] && kept[ready.key := ready.plan][all[i].key] == all[i].plan
    {
      if i < |tail| {
        assert all[i] == tail[i] && tail[i].key in kept;
      }
    }
  }

  /** If everything outstanding fits beside the cache, nothing that was cached or ready is lost. */
  lemma AllRetained<C, K, P>(cap: nat, before: map<K, P>, ready: seq<Done<C, K, P>>, drained: seq<Done<C, K, P>>,
                             cache: map<K, P>, outstanding: nat)
    requires 0 < cap && Retains(cap, before, drained, cache) && ready <= drained && |drained| <= outstanding
    ensures |before| + outstanding <= cap ==> Keeps(before, cache) && AnswersWith(cache, ready)
  {
    assert forall i :: 0 <= i < |ready| ==> drained[i] == ready[i];
  }

  lemma FrontIsFresh<C(!new), K, P>(cfg: Config<C, K, P>, s: State<C, K, P>)
    requires Consistent(cfg, s) && s.results != []
    ensures var ready := s.results[0];
            && ready.key !in s.cache && |s.cache| <= cfg.cacheCap
            && ready.key == cfg.key(ready.source) && cfg.renders(ready.source, ready.plan)
  {
    DrainPipeline(cfg, s);
    assert s.results[0].source in Pipeline(s);
    assert s.results[0].key in s.pending;
  }

  lemma HonestSnoc<C, K, P>(cfg: Config<C, K, P>, drained: seq<Done<C, K, P>>, ready: Done<C, K, P>)
    requires Honest(cfg, drained) && ready.key == cfg.key(ready.source) && cfg.renders(ready.source, ready.plan)
    ensures Honest(cfg, drained + [ready])
  {
  }

  lemma NothingDrained<C(!new), K, P>(cfg: Config<C, K, P>, s: State<C, K, P>, start: seq<C>)
    requires Consistent(cfg, s) && 0 < cfg.cacheCap
    ensures var none: seq<Done<C, K, P>> := [];
            Suffix(start, start) && Honest(cfg, none) && Retains(cfg.cacheCap, s.cache, none, s.cache)
  {
  }

  /** With nothing awaiting drain, at most one request more than the queue holds is outstanding. */
  lemma DrainedBound<C(!new), K, P>(cfg: Config<C, K, P>, s: State<C, K, P>)
    requires Consistent(cfg, s) && s.results == []
    ensures |Pipeline(s)| <= cfg.queueCap + 1
  {
  }

  /** `p` is what is left of `q` after some of its oldest elements went away. */
  ghost predicate Suffix<C>(p: seq<C>, q: seq<C>) {
    |p| <= |q| && q[|q| - |p|..] == p
  }

  lemma SuffixComposes<C>(p: seq<C>, q: seq<C>, r: seq<C>)
    requires Suffix(p, q) && Suffix(q, r)
    ensures Suffix(p, r)
  {
    assert r[|r| - |p|..] == r[|r| - |q|..][|q| - |p|..];
  }

  /** `p` is what is left of `q`, or that and one more request. */
  ghost predicate AskedAtMost<C>(p: seq<C>, q: seq<C>, context: C) {
    Suffix(p, q) || (p != [] && p[|p| - 1] == context && Suffix(p[..|p| - 1], q))
  }

  lemma AskedAfterDrain<C>(p: seq<C>, drained: seq<C>, q: seq<C>, context: C)
    requires Suffix(drained, q) && (p == drained || p == drained + [context])
    ensures AskedAtMost(p, q, context)
  {
    if p == drained + [context] {
      assert p[..|p| - 1] == drained;
    }
  }

  lemma DrainShortens<C, K, P>(cfg: Config<C, K, P>, s: State<C, K, P>, start: seq<C>)
    requires s.results != [] && Suffix(Pipeline(s), start)
    ensures Suffix(Pipeline(Drained(cfg, s)), start) && |Pipeline(Drained(cfg, s))| == |Pipeline(s)| - 1
  {
    DrainPipeline(cfg, s);
    assert Suffix(Pipeline(Drained(cfg, s)), Pipeline(s));
    SuffixComposes(Pipeline(Drained(cfg, s)), Pipeline(s), start);
  }

  // ------------------------------------------------------------------- enqueuing

  function Enqueued<C, K, P>(cfg: Config<C, K, P>, s: State<C, K, P>, context: C): State<C, K, P> {
    s.(pending := s.pending + {cfg.key(context)}, queue := s.queue + [context], sent := s.sent + [context])
  }

  lemma EnqueueKeepsConsistent<C(!new), K, P>(cfg: Config<C, K, P>, s: State<C, K, P>, context: C)
    requires Consistent(cfg, s) && |s.queue| < cfg.queueCap
    requires cfg.key(context) !in s.pending && cfg.key(context) !in s.cache
    ensures Consistent(cfg, Enqueued(cfg, s, context))
    ensures Pipeline(Enqueued(cfg, s, context)) == Pipeline(s) + [context]
  {
    var t, p := Enqueued(cfg, s, context), Pipeline(s);
    assert Pipeline(t) == p + [context];
    assert forall c :: c in p + [context] <==> c in p || c == context;
    forall i, j | 0 <= i < j < |p + [context]| ensures cfg.key((p + [context])[i]) != cfg.key((p + [context])[j]) {
      if j == |p| {
        assert p[i] in p;
        assert cfg.key(p[i]) in Keys(cfg, p);
      }
    }
  }

  /** A key reserved in `pending` while the worker ran on, then sent or taken back. */
  lemma ReserveThenSettle<C(!new), K, P>(cfg: Config<C, K, P>, a: State<C, K, P>, b: State<C, K, P>, context: C)
    requires Consistent(cfg, a) && cfg.key(context) !in a.pending && cfg.key(context) !in a.cache
    requires WorkerRan(cfg, a.(pending := a.pending + {cfg.key(context)}), b)
    ensures Consistent(cfg, b.(pending := b.pending - {cfg.key(context)}))
    ensures Pipeline(b) == Pipeline(a)
    ensures |b.queue| < cfg.queueCap ==>
              Consistent(cfg, b.(queue := b.queue + [context], sent := b.sent + [context]))
    ensures Pipeline(b.(queue := b.queue + [context], sent := b.sent + [context])) == Pipeline(a) + [context]
  {
    var c := b.(pending := a.pending);
    assert Pipeline(c) == Pipeline(b) && Pipeline(a.(pending := a.pending + {cfg.key(context)})) == Pipeline(a);
    WorkKeepsConsistent(cfg, a, c);
    assert b.pending - {cfg.key(context)} == a.pending;
    assert Pipeline(b.(queue := b.queue + [context], sent := b.sent + [context])) == Pipeline(b) + [context];
    if |b.queue| < cfg.queueCap {
      EnqueueKeepsConsistent(cfg, c, context);
    }
  }

  // --------------------------------------------------------------------- the bridge

  class AsyncRenderer<C(!new), K(==), P> {
    const cfg: Config<C, K, P>
    var queue: seq<C>
    var working: Option<C>
    var results: seq<Done<C, K, P>>
    var pending: set<K>
    var cache: map<K, P>
    ghost var sent: seq<C>

    ghost function View(): State<C, K, P>
      reads this
    {
      State(queue, working, results, pending, cache, sent)
    }

    constructor (cfg: Config<C, K, P>)
      ensures this.cfg == cfg && Valid(cfg, View()) && View() == Idle()
    {
      this.cfg := cfg;
      queue, working, results, pending, cache := [], None, [], {}, map[];
      sent := [];
    }

    /** The worker thread, scheduled for as long as it likes. */
    method WorkerRuns()
      modifies this`queue, this`working, this`results
      ensures WorkerRan(cfg, old(View()), View())
    {
      var schedule: seq<WorkerStep<P>> := *;
      for i := 0 to |schedule|
        invariant WorkerRan(cfg, old(View()), View())
      {
        ghost var before := View();
        match schedule[i] {
          case Receive =>
            if working.None? && queue != [] {
              working, queue := Some(queue[0]), queue[1..];
            }
          case Render(plan) =>
            if working.Some? && cfg.renders(working.value, plan) {
              results := results + [Done(working.value, cfg.key(working.value), plan)];
              working := None;
            }
        }
        assert View() == Worked(cfg, before, schedule[i]);
        StepIsWork(cfg, before, schedule[i]);
        WorkComposes(cfg, old(View()), before, View());
      }
    }

    /** Drains whatever is ready; `drained` lists it. */
    method DrainReady() returns (changed: bool, ghost drained: seq<Done<C, K, P>>)
      requires Consistent(cfg, View()) && 0 < cfg.cacheCap
      modifies this`queue, this`working, this`results, this`pending, this`cache
      ensures Consistent(cfg, View()) && |Pipeline(View())| <= cfg.queueCap + 1
      ensures results == [] && sent == old(sent)
      ensures Suffix(Pipeline(View()), Pipeline(old(View())))
      ensures changed <==> |Pipeline(View())| < |Pipeline(old(View()))|
      ensures old(results) <= drained && Honest(cfg, drained)
      ensures |drained| + |Pipeline(View())| == |Pipeline(old(View()))|
      ensures Retains(cfg.cacheCap, old(cache), drained, cache)
    {
      hide Retains, Consistent, Suffix, Pipeline, Honest;
      changed, drained := false, [];
      ghost var entry := View();
      WorkerRuns();
      WorkKeepsConsistent(cfg, entry, View());
      ghost var start := Pipeline(View());
      NothingDrained(cfg, entry, start);
      while results != []
        invariant Consistent(cfg, View()) && Suffix(Pipeline(View()), start) && sent == old(sent)
        invariant changed <==> drained != []
        invariant old(results) <= drained + results && Honest(cfg, drained)
        invariant |drained| + |Pipeline(View())| == |start|
        invariant Retains(cfg.cacheCap, old(cache), drained, cache)
        decreases |Pipeline(View())|
      {
        ghost var before, ready, tail := View(), results[0], results[1..];
        FrontIsFresh(cfg, before);
        DrainRetains(cfg.cacheCap, old(cache), drained, cache, ready);
        HonestSnoc(cfg, drained, ready);
        assert drained + results == drained + [ready] + tail;
        DrainNext();
        SuffixComposes(Pipeline(View()), Pipeline(before), start);
        drained := drained + [ready];
        changed := true;
      }
      DrainedBound(cfg, View());
    }

    /** Drains one result; the worker goes on meanwhile. */
    method DrainNext()
      requires Consistent(cfg, View()) && 0 < cfg.cacheCap && results != []
      modifies this`queue, this`working, this`results, this`pending, this`cache
      ensures Consistent(cfg, View()) && old(results)[1..] <= results && sent == old(sent)
      ensures cache == (if |old(cache)| >= cfg.cacheCap then map[] else old(cache))
                         [old(results)[0].key := old(results)[0].plan]
      ensures Suffix(Pipeline(View()), Pipeline(old(View())))
      ensures |Pipeline(View())| == |Pipeline(old(View()))| - 1
    {
      ghost var before := View();
      DrainKeepsConsistent(cfg, before);
      DrainShortens(cfg, before, Pipeline(before));
      DrainOne();
      ghost var after := View();
      WorkerRuns();
      WorkKeepsConsistent(cfg, after, View());
    }

    method DrainOne()
      requires results != []
      modifies this`results, this`pending, this`cache
      ensures View() == Drained(cfg, old(View()))
    {
      var ready := results[0];
      results := results[1..];
      pending := pending - {ready.key};
      if |cache| >= cfg.cacheCap {
        cache := map[];
      }
      cache := cache[ready.key := ready.plan];
    }

    /** Answers from the cache, else asks for a render and shows the fallback. */
    method RenderOrEnqueue(context: C, fallback: P) returns (plan: P)
      requires Valid(cfg, View()) && 0 < cfg.cacheCap
      modifies this
      ensures Valid(cfg, View())
      ensures plan == fallback
              || exists c :: c in sent && cfg.key(c) == cfg.key(context) && cfg.renders(c, plan)
      ensures sent == old(sent) || sent == old(sent) + [context]
      ensures plan == if cfg.key(context) in cache then cache[cfg.key(context)] else fallback
      ensures cfg.key(context) in cache || cfg.key(context) in pending || |queue| == cfg.queueCap
      ensures AskedAtMost(Pipeline(View()), Pipeline(old(View())), context)
      ensures |old(cache)| + |Pipeline(old(View()))| <= cfg.cacheCap ==>
                Keeps(old(cache), cache) && AnswersWith(cache, old(results))
      ensures |old(cache)| + |Pipeline(old(View()))| <= cfg.cacheCap ==>
                forall i :: 0 <= i < |old(results)| && old(results)[i].key == cfg.key(context)
                            ==> plan == old(results)[i].plan
    {
      hide AskedAtMost, Suffix, Retains, Keeps;
      var key := cfg.key(context);
      var _, ready := DrainReady();
      AllRetained(cfg.cacheCap, old(cache), old(results), ready, cache, |Pipeline(old(View()))|);
      ghost var drained := Pipeline(View());
      AskedAfterDrain(drained, drained, Pipeline(old(View())), context);
      if key in cache {
        return cache[key];
      }
      WorkerRuns();
      AskedAfterDrain(Pipeline(View()), drained, Pipeline(old(View())), context);
      plan := fallback;
      if key !in pending {
        Request(context);
        AskedAfterDrain(Pipeline(View()), drained, Pipeline(old(View())), context);
      }
    }

    /** Reserves the key, then tries to send; a full queue takes the reservation back. */
    method Request(context: C)
      requires Consistent(cfg, View()) && cfg.key(context) !in pending && cfg.key(context) !in cache
      modifies this`queue, this`working, this`results, this`pending, this`sent
      ensures Consistent(cfg, View())
      ensures sent == old(sent) || sent == old(sent) + [context]
      ensures Pipeline(View()) == Pipeline(old(View())) || Pipeline(View()) == Pipeline(old(View())) + [context]
      ensures cfg.key(context) in pending || |queue| == cfg.queueCap
    {
      ghost var before := View();
      pending := pending + {cfg.key(context)};
      WorkerRuns();
      ReserveThenSettle(cfg, before, View(), context);
      if |queue| < cfg.queueCap {
        queue, sent := queue + [context], sent + [context];
      } else {
        pending := pending - {cfg.key(context)};
      }
    }
  }
}

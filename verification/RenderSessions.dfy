/** Whole sessions of the UI with a render bridge, for the two keys the program uses. */
module RenderSessions {
  import opened Common
  import opened RenderKeys
  import opened AsyncRenderer
  import opened SizeMapRequests
  import opened SizeMapKeys

  datatype UiOp<C> = Drain | Show(context: C)

  /** The contexts shown, in order. */
  function Shown<C>(ops: seq<UiOp<C>>): seq<C>
    decreases |ops|
  {
    if ops == [] then []
    else
      var last := ops[|ops| - 1];
      Shown(ops[..|ops| - 1]) + if last.Show? then [last.context] else []
  }

  ghost predicate InjectiveKey<C(!new), K, P>(cfg: Config<C, K, P>) {
    forall a, b :: cfg.key(a) == cfg.key(b) ==> a == b
  }

  /**
   * What a session promises about its plans. `prepare` makes a request of what is shown, or refuses
   * it; `refused` and `loading` are the plans shown without the worker.
   */
  datatype Promise<!H, !C, K, !P> = Promise(
    cfg: Config<C, K, P>, prepare: H -> Option<C>, loading: H -> P, refused: H -> P)

  /** `plan` was rendered for something shown by then whose request has the same key. */
  ghost predicate RenderedForKey<H, C, K, P>(p: Promise<H, C, K, P>, shown: seq<H>, i: nat, plan: P)
    requires i < |shown| && p.prepare(shown[i]).Some?
  {
    exists j :: 0 <= j <= i && p.prepare(shown[j]).Some?
      && p.cfg.key(p.prepare(shown[j]).value) == p.cfg.key(p.prepare(shown[i]).value)
      && p.cfg.renders(p.prepare(shown[j]).value, plan)
  }

  ghost predicate Kept<H, C, K, P>(p: Promise<H, C, K, P>, shown: seq<H>, plans: seq<P>) {
    && |plans| == |shown|
    && forall i :: 0 <= i < |plans| ==>
         if p.prepare(shown[i]).None? then plans[i] == p.refused(shown[i])
         else plans[i] == p.loading(shown[i]) || RenderedForKey(p, shown, i, plans[i])
  }

  /** Every request sent was prepared from something shown. */
  ghost predicate SentFor<H, C, K, P>(p: Promise<H, C, K, P>, shown: seq<H>, sent: seq<C>) {
    forall c :: c in sent ==> exists j :: 0 <= j < |shown| && p.prepare(shown[j]) == Some(c)
  }

  /** A request with this key was sent, and may be rendered as `plan`. */
  ghost predicate Answers<C, K, P>(cfg: Config<C, K, P>, sent: seq<C>, key: K, plan: P) {
    exists c :: c in sent && cfg.key(c) == key && cfg.renders(c, plan)
  }

  lemma SentForGrows<H, C, K, P>(p: Promise<H, C, K, P>, shown: seq<H>, sent: seq<C>, h: H)
    requires SentFor(p, shown, sent)
    ensures SentFor(p, shown + [h], sent)
    ensures p.prepare(h).Some? ==> SentFor(p, shown + [h], sent + [p.prepare(h).value])
  {
    var more := shown + [h];
    assert more[|shown|] == h;
    forall c | c in sent ensures exists j :: 0 <= j < |more| && p.prepare(more[j]) == Some(c) {
      var j :| 0 <= j < |shown| && p.prepare(shown[j]) == Some(c);
      assert more[j] == shown[j];
    }
  }

  /** What one frame may show. */
  ghost predicate FrameKept<H, C, K, P>(p: Promise<H, C, K, P>, sent: seq<C>, h: H, plan: P) {
    if p.prepare(h).None? then plan == p.refused(h)
    else plan == p.loading(h) || Answers(p.cfg, sent, p.cfg.key(p.prepare(h).value), plan)
  }

  lemma FrameGrows<H, C, K, P>(p: Promise<H, C, K, P>, shown: seq<H>, plans: seq<P>, sent: seq<C>, h: H, plan: P)
    requires Kept(p, shown, plans) && SentFor(p, shown + [h], sent) && FrameKept(p, sent, h, plan)
    ensures Kept(p, shown + [h], plans + [plan])
  {
    var more := shown + [h];
    forall i | 0 <= i < |plans| && p.prepare(shown[i]).Some? && RenderedForKey(p, shown, i, plans[i])
      ensures RenderedForKey(p, more, i, plans[i])
    {
      var j :| 0 <= j <= i && p.prepare(shown[j]).Some?
               && p.cfg.key(p.prepare(shown[j]).value) == p.cfg.key(p.prepare(shown[i]).value)
               && p.cfg.renders(p.prepare(shown[j]).value, plans[i]);
      assert more[j] == shown[j] && more[i] == shown[i];
    }
    if p.prepare(h).Some? && Answers(p.cfg, sent, p.cfg.key(p.prepare(h).value), plan) {
      var c :| c in sent && p.cfg.key(c) == p.cfg.key(p.prepare(h).value) && p.cfg.renders(c, plan);
      var j :| 0 <= j < |more| && p.prepare(more[j]) == Some(c);
      assert RenderedForKey(p, more, |shown|, plan);
    }
  }

  function Always<C, K, P>(cfg: Config<C, K, P>, fallback: C -> P): Promise<C, C, K, P> {
    Promise(cfg, c => Some(c), fallback, fallback)
  }

  /**
   * Whatever the UI does and however the worker is scheduled, every plan it is shown is the fallback
   * for that context or one the worker rendered from a shown context with the same key.
   */
  method Session<C(!new), K(==), P>(cfg: Config<C, K, P>, fallback: C -> P, ops: seq<UiOp<C>>)
    returns (plans: seq<P>)
    requires 0 < cfg.cacheCap
    ensures Kept(Always(cfg, fallback), Shown(ops), plans)
  {
    hide Consistent, Pipeline, Suffix, Retains, Honest, Keeps, AnswersWith, AskedAtMost;
    var renderer := new AsyncRenderer(cfg);
    ghost var p := Always(cfg, fallback);
    plans := [];
    assert ops[..0] == [];
    for i := 0 to |ops|
      invariant renderer.cfg == cfg && fresh(renderer) && Valid(cfg, renderer.View())
      invariant SentFor(p, Shown(ops[..i]), renderer.sent) && Kept(p, Shown(ops[..i]), plans)
    {
      ghost var before := Shown(ops[..i]);
      assert ops[..i + 1][..i] == ops[..i];
      match ops[i]
      case Drain =>
        var _, _ := renderer.DrainReady();
        assert Shown(ops[..i + 1]) == before;
      case Show(context) =>
        SentForGrows(p, before, renderer.sent, context);
        var plan := renderer.RenderOrEnqueue(context, fallback(context));
        FrameGrows(p, before, plans, renderer.sent, context, plan);
        plans := plans + [plan];
        assert Shown(ops[..i + 1]) == before + [context];
    }
    assert ops[..|ops|] == ops;
  }

  // --------------------------------------------------------------- the two bridges

  const DIRECT_RENDER_QUEUE_CAP := 256
  const DIRECT_RENDER_CACHE_CAP := 512
  const SIZE_MAP_RENDER_QUEUE_CAP := 8
  const SIZE_MAP_RENDER_CACHE_CAP := 4

  function CellBridge<P>(renders: (CellContext, P) -> bool): Config<CellContext, seq<Byte>, P> {
    Config(c => CellRenderKey(c), renders, DIRECT_RENDER_QUEUE_CAP, DIRECT_RENDER_CACHE_CAP)
  }

  /** The requests of one size-map renderer; their key leaves the host's own mappings out. */
  function SizeMapBridge<P>(renders: (SizeMapRequest, P) -> bool): Config<SizeMapRequest, seq<Byte>, P> {
    Config((r: SizeMapRequest) => RequestKey(r), renders, SIZE_MAP_RENDER_QUEUE_CAP, SIZE_MAP_RENDER_CACHE_CAP)
  }

  lemma CellBridgeKeysInjective<P>(renders: (CellContext, P) -> bool)
    ensures InjectiveKey(CellBridge(renders))
  {
    forall a: CellContext, b: CellContext | CellRenderKey(a) == CellRenderKey(b) ensures a == b {
      CellRenderKeyInjective(a, b);
    }
    assert forall c :: CellBridge(renders).key(c) == CellRenderKey(c);
  }

  /** A cell never shows a plan made for another context. */
  method CellSession<P(==)>(renders: (CellContext, P) -> bool, fallback: CellContext -> P, ops: seq<UiOp<CellContext>>)
    returns (plans: seq<P>)
    ensures |plans| == |Shown(ops)|
    ensures forall i :: 0 <= i < |plans| ==>
              plans[i] == fallback(Shown(ops)[i]) || renders(Shown(ops)[i], plans[i])
  {
    CellBridgeKeysInjective(renders);
    plans := Session(CellBridge(renders), fallback, ops);
  }

  // ------------------------------------------------------------------ size-map sessions

  /** The request of a folder's context, unless public ids collide. */
  ghost function Prepared(host: Host): HostContext -> Option<SizeMapRequest> {
    h => if Collides(host, h) then None else Some(RequestFor(host, h))
  }

  ghost function SizeMapPromise<P>(host: Host, renders: (SizeMapRequest, P) -> bool, loading: P, collision: P)
    : Promise<HostContext, SizeMapRequest, seq<Byte>, P>
  {
    Promise(SizeMapBridge(renders), Prepared(host), _ => loading, _ => collision)
  }

  /** One frame: refuses colliding ids, else builds the request and asks the bridge. */
  method RenderSizeMap<P>(host: Host, renderer: AsyncRenderer<SizeMapRequest, seq<Byte>, P>, h: HostContext,
                          loading: P, collision: P)
    returns (plan: P)
    requires renderer.cfg == SizeMapBridge(renderer.cfg.renders) && Valid(renderer.cfg, renderer.View())
    modifies renderer
    ensures Valid(renderer.cfg, renderer.View())
    ensures FrameKept(SizeMapPromise(host, renderer.cfg.renders, loading, collision), renderer.sent, h, plan)
    ensures renderer.sent == old(renderer.sent)
            || (Prepared(host)(h).Some? && renderer.sent == old(renderer.sent) + [Prepared(host)(h).value])
  {
    hide RequestFor;
    hide Collides;
    hide RequestKey;
    var request := BuildRequest(host, h);
    assert Prepared(host)(h) == request;
    if request.None? {
      return collision;
    }
    plan := renderer.RenderOrEnqueue(request.value, loading);
  }

  /**
   * A size map shows a fallback, or a plan rendered from the request of a context with the same key:
   * the same items of the same navigation context, but not always with the same omitted items' texts.
   */
  method SizeMapSession<P>(host: Host, renders: (SizeMapRequest, P) -> bool, loading: P, collision: P,
                           ops: seq<UiOp<HostContext>>)
    returns (plans: seq<P>)
    ensures Kept(SizeMapPromise(host, renders, loading, collision), Shown(ops), plans)
  {
    hide Prepared, RequestKey, RequestFor, Collides;
    hide Consistent, Pipeline, Suffix, Retains, Honest, Keeps, AnswersWith, AskedAtMost;
    var renderer := new AsyncRenderer(SizeMapBridge(renders));
    ghost var p := SizeMapPromise(host, renders, loading, collision);
    plans := [];
    assert ops[..0] == [];
    for i := 0 to |ops|
      invariant renderer.cfg == SizeMapBridge(renders) && fresh(renderer) && Valid(renderer.cfg, renderer.View())
      invariant SentFor(p, Shown(ops[..i]), renderer.sent) && Kept(p, Shown(ops[..i]), plans)
    {
      ghost var before := Shown(ops[..i]);
      assert ops[..i + 1][..i] == ops[..i];
      match ops[i]
      case Drain =>
        var _, _ := renderer.DrainReady();
        assert Shown(ops[..i + 1]) == before;
      case Show(h) =>
        SentForGrows(p, before, renderer.sent, h);
        var plan := RenderSizeMap(host, renderer, h, loading, collision);
        FrameGrows(p, before, plans, renderer.sent, h, plan);
        plans := plans + [plan];
        assert Shown(ops[..i + 1]) == before + [h];
    }
    assert ops[..|ops|] == ops;
  }

  /** With every item shown, a size map shows a fallback or a plan rendered from its very own request. */
  lemma FullyShownShowsItsOwn<P>(host: Host, renders: (SizeMapRequest, P) -> bool, loading: P, collision: P,
                                 shown: seq<HostContext>, plans: seq<P>, i: nat)
    requires Kept(SizeMapPromise(host, renders, loading, collision), shown, plans) && i < |shown|
    requires forall a, b :: a in shown && b in shown ==> SameTargets(a, b) && ScopesTold(host, a, b)
    requires !Collides(host, shown[i]) && OmittedOf(shown[i]) == []
    ensures plans[i] == loading || renders(RequestFor(host, shown[i]), plans[i])
  {
    hide RequestFor;
    hide KeyOf;
    hide SameTargets;
    hide ScopesTold;
    hide RequestKey;
    hide OmittedOf;
    if plans[i] != loading {
      assert RenderedForKey(SizeMapPromise(host, renders, loading, collision), shown, i, plans[i]);
      var j :| 0 <= j <= i && !Collides(host, shown[j]) && renders(RequestFor(host, shown[j]), plans[i])
               && RequestKey(RequestFor(host, shown[j])) == RequestKey(RequestFor(host, shown[i]));
      KeyIsRequestKey(host, shown[i]);
      KeyIsRequestKey(host, shown[j]);
      FullyShownIsKeyed(host, shown[i], shown[j]);
    }
  }

  /** An idle bridge after one context was sent, received and rendered. */
  function RenderedOnce<C, K, P>(cfg: Config<C, K, P>, context: C, plan: P): State<C, K, P> {
    Worked(cfg, Worked(cfg, Enqueued(cfg, Idle(), context), Receive), Render(plan))
  }

  /** Once that is drained, every context with its key gets its plan. */
  lemma OneKeyOnePlan<C(!new), K, P>(cfg: Config<C, K, P>, context: C, later: C, plan: P)
    requires 0 < cfg.queueCap && 0 < cfg.cacheCap && cfg.renders(context, plan) && cfg.key(later) == cfg.key(context)
    ensures var s := RenderedOnce(cfg, context, plan);
            && s.results != [] && Consistent(cfg, Drained(cfg, s))
            && cfg.key(later) in Drained(cfg, s).cache && Drained(cfg, s).cache[cfg.key(later)] == plan
  {
    var idle: State<C, K, P> := Idle();
    assert Consistent(cfg, idle);
    EnqueueKeepsConsistent(cfg, idle, context);
    var queued := Enqueued(cfg, idle, context);
    var received := Worked(cfg, queued, Receive);
    StepIsWork(cfg, queued, Receive);
    WorkKeepsConsistent(cfg, queued, received);
    StepIsWork(cfg, received, Render(plan));
    WorkKeepsConsistent(cfg, received, RenderedOnce(cfg, context, plan));
    DrainKeepsConsistent(cfg, RenderedOnce(cfg, context, plan));
  }

  /**
   * Two partial items are omitted; the folder was rendered, and one of them is then measured. The
   * bridge answers with the plan of the earlier request, whose aggregate still calls it partial.
   */
  lemma MeasuredItemShowsStalePlan<P>(host: Host, renders: (SizeMapRequest, P) -> bool, h: HostContext, i: nat, j: nat,
                                      plan: P)
    requires i in OmittedOf(h) && j in OmittedOf(h) && i < |h.items| && j < |h.items| && i != j
    requires !Collides(host, h) && h.items[i].partial && h.items[j].partial && h.items[i].error.None?
    requires renders(RequestFor(host, h), plan)
    ensures var now := RequestFor(host, WithItem(h, i, Measured(h.items[i])));
            var s := RenderedOnce(SizeMapBridge(renders), RequestFor(host, h), plan);
            && now.mappings != RequestFor(host, h).mappings && s.results != []
            && var cache := Drained(SizeMapBridge(renders), s).cache;
               RequestKey(now) in cache && cache[RequestKey(now)] == plan
  {
    hide KeyOf;
    hide MappingsOf;
    hide ContextOf;
    hide RequestKey;
    hide RenderedOnce;
    var now := WithItem(h, i, Measured(h.items[i]));
    MeasuringOneOfTwoIsUnseen(host, h, i, j);
    KeyIsRequestKey(host, h);
    KeyIsRequestKey(host, now);
    OneKeyOnePlan(SizeMapBridge(renders), RequestFor(host, h), RequestFor(host, now), plan);
  }

  /** And there is such a folder: 257 unmeasured files, one of which is then measured. */
  lemma CrowdedFolderShowsStalePlan<P>(plan: P) returns (now: HostContext)
    ensures var renders: (SizeMapRequest, P) -> bool := (_, _) => true;
            var sent := RequestFor(PLAIN_HOST, UnmeasuredFolder(257));
            var s := RenderedOnce(SizeMapBridge(renders), sent, plan);
            && RequestFor(PLAIN_HOST, now).mappings != sent.mappings && s.results != []
            && var cache := Drained(SizeMapBridge(renders), s).cache;
               var key := RequestKey(RequestFor(PLAIN_HOST, now));
               key in cache && cache[key] == plan
  {
    hide RequestFor;
    hide RequestKey;
    hide RenderedOnce;
    var h := UnmeasuredFolder(257);
    var i, j := CrowdedFolder();
    now := WithItem(h, i, Measured(h.items[i]));
    MeasuredItemShowsStalePlan(PLAIN_HOST, (_, _) => true, h, i, j, plan);
  }
}

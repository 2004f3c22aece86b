/** What a size-map key determines of its request, and what it does not. */
module SizeMapKeys {
  import opened Common
  import opened RenderKeys
  import opened SizeMapRequests
  import SizeMapProjection
  import SizeMapOther

  /** The same navigation context and the same items, in the same order. */
  predicate SameScope(a: HostContext, b: HostContext) {
    a.request == b.request && IdsIn(a.items) == IdsIn(b.items)
  }

  /** The 64-bit scope hashes of these two contexts do not coincide by chance. */
  predicate ScopesTold(host: Host, a: HostContext, b: HostContext) {
    host.scopeHash(a.request, IdsIn(a.items)) == host.scopeHash(b.request, IdsIn(b.items)) ==> SameScope(a, b)
  }

  /** For any folder, some 64-bit hash tells its scope from all others; no id depends on it. */
  lemma SomeHashTells(host: Host, h: HostContext) returns (telling: Host)
    ensures telling == host.(scopeHash := telling.scopeHash) && Collides(telling, h) == Collides(host, h)
    ensures forall other :: ScopesTold(telling, h, other)
  {
    telling := host.(scopeHash := (r: RequestContext, ids: seq<ItemId>) =>
                                    if r == h.request && ids == IdsIn(h.items) then 1 else 0);
  }

  ghost function KeyOf(host: Host, h: HostContext): seq<Byte> {
    SizeMapRenderKey(ContextOf(host, h), ScopeOf(host, h), host.revisionFor)
  }

  lemma KeyIsRequestKey(host: Host, h: HostContext)
    ensures KeyOf(host, h) == RequestKey(RequestFor(host, h))
  {
  }

  // ------------------------------------------------------------- what equal keys share

  lemma FirstRevisionKeys(x: SizeMapContext, p: Scope, y: SizeMapContext, q: Scope, revisionFor: seq<Byte> -> U64)
    requires x.snapshot.renderRevision == 1 && y.snapshot.renderRevision == 1
    ensures SizeMapRenderKey(x, p, revisionFor) == SizeMapRenderKey(y, q, revisionFor) <==> x == y && p == q
  {
    hide SizeMapRenderKey;
    assert WithRevision(x, 1) == x && WithRevision(y, 1) == y;
    SizeMapRenderKeyInjective(x, p, y, q, revisionFor);
  }

  lemma ContextFacts(host: Host, h: HostContext)
    ensures ContextOf(host, h).snapshot.renderRevision == 1
    ensures ContextOf(host, h).widthMilli == h.widthMilli && ContextOf(host, h).heightMilli == h.heightMilli
    ensures ContextOf(host, h).nodes == PublicNodes(host, h, ShownOf(h), OmittedOf(h), OtherTotal(h, OmittedOf(h)))
  {
  }

  /** The key covers exactly the public context and the scope. */
  lemma KeyCovers(host: Host, a: HostContext, b: HostContext)
    ensures KeyOf(host, a) == KeyOf(host, b) <==>
              ContextOf(host, a) == ContextOf(host, b) && ScopeOf(host, a) == ScopeOf(host, b)
  {
    hide ContextOf;
    hide ScopeOf;
    hide SizeMapRenderKey;
    ContextFacts(host, a);
    ContextFacts(host, b);
    FirstRevisionKeys(ContextOf(host, a), ScopeOf(host, a), ContextOf(host, b), ScopeOf(host, b), host.revisionFor);
  }

  /** `nodes` lists the shown items, then the aggregate if there is one. */
  predicate Lists(host: Host, h: HostContext, shown: seq<nat>, aggregate: bool, nodes: seq<Node>) {
    && Within(h, shown) && |nodes| == |shown| + (if aggregate then 1 else 0)
    && (forall k :: 0 <= k < |shown| ==> nodes[k] == PublicNode(host, h, shown[k]))
    && (aggregate ==> nodes[|shown|].kind == OTHER)
  }

  lemma NodesList(host: Host, h: HostContext)
    ensures Lists(host, h, ShownOf(h), OmittedOf(h) != [], ContextOf(host, h).nodes)
  {
    ContextFacts(host, h);
  }

  lemma SameLengths(host: Host, a: HostContext, p: seq<nat>, x: bool, b: HostContext, q: seq<nat>, y: bool,
      nodes: seq<Node>)
    requires Lists(host, a, p, x, nodes) && Lists(host, b, q, y, nodes)
    ensures |p| == |q| && x == y
  {
  }

  lemma SameIndexes(host: Host, a: HostContext, p: seq<nat>, x: bool, b: HostContext, q: seq<nat>, y: bool,
      nodes: seq<Node>)
    requires Lists(host, a, p, x, nodes) && Lists(host, b, q, y, nodes)
    requires IdsIn(a.items) == IdsIn(b.items) && !Collides(host, a)
    ensures p == q && x == y
  {
    SameLengths(host, a, p, x, b, q, y, nodes);
    assert |IdsIn(a.items)| == |a.items| == |b.items|;
    forall k | 0 <= k < |p| ensures p[k] == q[k] {
      assert nodes[k].nodeId == IdOf(host, a.items[p[k]].itemId) == IdOf(host, b.items[q[k]].itemId);
      assert IdsIn(b.items)[q[k]] == IdsIn(a.items)[q[k]];
    }
  }

  /** Equal keys come from the same navigation context and the same items, and show the same ones. */
  lemma SameKeySameItems(host: Host, a: HostContext, b: HostContext)
    requires ScopesTold(host, a, b) && !Collides(host, a) && KeyOf(host, a) == KeyOf(host, b)
    ensures SameScope(a, b)
    ensures ShownOf(a) == ShownOf(b) && OmittedOf(a) == OmittedOf(b)
    ensures a.widthMilli == b.widthMilli && a.heightMilli == b.heightMilli
  {
    hide ContextOf;
    hide KeyOf;
    KeyCovers(host, a, b);
    ContextFacts(host, a);
    ContextFacts(host, b);
    NodesList(host, a);
    NodesList(host, b);
    assert IdsIn(a.items) == IdsIn(b.items);
    SameIndexes(host, a, ShownOf(a), OmittedOf(a) != [], b, ShownOf(b), OmittedOf(b) != [], ContextOf(host, a).nodes);
    SameOmitted(a, b);
  }

  lemma SameOmitted(a: HostContext, b: HostContext)
    requires IdsIn(a.items) == IdsIn(b.items) && ShownOf(a) == ShownOf(b)
    ensures OmittedOf(a) == OmittedOf(b)
  {
    assert |a.items| == |IdsIn(a.items)| == |b.items|;
  }

  // -------------------------------------------------------------- when that is everything

  /** Where an item leads is a property of the item. */
  predicate SameTargets(a: HostContext, b: HostContext) {
    forall i, j :: 0 <= i < |a.items| && 0 <= j < |b.items| && a.items[i].itemId == b.items[j].itemId ==>
      a.items[i].selectionItemId == b.items[j].selectionItemId && a.items[i].location == b.items[j].location
  }

  lemma {:induction false} SameItemMappings(host: Host, a: HostContext, b: HostContext, shown: seq<nat>)
    requires Within(a, shown) && Within(b, shown)
    requires forall k :: 0 <= k < |shown| ==>
               a.items[shown[k]].itemId == b.items[shown[k]].itemId
               && MappingOf(a.items[shown[k]]) == MappingOf(b.items[shown[k]])
    ensures ItemMappings(host, a, shown) == ItemMappings(host, b, shown)
    decreases |shown|
  {
    if shown != [] {
      SameItemMappings(host, a, b, shown[..|shown| - 1]);
    }
  }

  lemma SameMappingsOfShown(host: Host, a: HostContext, b: HostContext, shown: seq<nat>, x: bool, nodes: seq<Node>)
    requires Lists(host, a, shown, x, nodes) && Lists(host, b, shown, x, nodes)
    requires IdsIn(a.items) == IdsIn(b.items) && SameTargets(a, b)
    ensures ItemMappings(host, a, shown) == ItemMappings(host, b, shown)
  {
    forall k | 0 <= k < |shown| ensures MappingOf(a.items[shown[k]]) == MappingOf(b.items[shown[k]])
                                        && a.items[shown[k]].itemId == b.items[shown[k]].itemId
    {
      assert nodes[k] == PublicNode(host, a, shown[k]) == PublicNode(host, b, shown[k]);
      assert IdsIn(a.items)[shown[k]] == IdsIn(b.items)[shown[k]];
    }
    SameItemMappings(host, a, b, shown);
  }

  /** With nothing omitted the key determines the whole request. */
  lemma FullyShownIsKeyed(host: Host, a: HostContext, b: HostContext)
    requires ScopesTold(host, a, b) && !Collides(host, a)
    requires KeyOf(host, a) == KeyOf(host, b) && SameTargets(a, b) && OmittedOf(a) == []
    ensures RequestFor(host, a) == RequestFor(host, b)
  {
    hide ContextOf;
    hide ScopeOf;
    hide KeyOf;
    hide RequestFor;
    KeyCovers(host, a, b);
    SameKeySameItems(host, a, b);
    NodesList(host, a);
    NodesList(host, b);
    SameMappingsOfShown(host, a, b, ShownOf(a), false, ContextOf(host, a).nodes);
    SameRequest(host, a, b);
  }

  lemma SameRequest(host: Host, a: HostContext, b: HostContext)
    requires ContextOf(host, a) == ContextOf(host, b) && ScopeOf(host, a) == ScopeOf(host, b)
    requires MappingsOf(host, a) == MappingsOf(host, b)
    requires a.widthMilli == b.widthMilli && a.heightMilli == b.heightMilli
    ensures RequestFor(host, a) == RequestFor(host, b)
  {
    hide ContextOf;
    hide MappingsOf;
    hide ScopeOf;
    hide Revised;
  }

  // ---------------------------------------------------------------- and when it is not

  /** The context with one item replaced. */
  function WithItem(h: HostContext, i: nat, item: HostItem): HostContext
    requires i < |h.items|
  {
    h.(items := h.items[i := item])
  }

  /** A change that the projection and the public nodes of shown items cannot see. */
  predicate Unseen(before: HostItem, after: HostItem) {
    && after.itemId == before.itemId && after.parentItemId == before.parentItemId && after.error == before.error
    && SizeMapProjection.Bytes(NodeOf(after)) == SizeMapProjection.Bytes(NodeOf(before))
  }

  lemma UnseenKeepsShown(h: HostContext, i: nat, item: HostItem)
    requires i < |h.items| && Unseen(h.items[i], item)
    ensures ShownOf(WithItem(h, i, item)) == ShownOf(h) && OmittedOf(WithItem(h, i, item)) == OmittedOf(h)
    ensures IdsIn(WithItem(h, i, item).items) == IdsIn(h.items)
  {
    SizeMapProjection.SameProjection(NodesOf(h.items), NodesOf(WithItem(h, i, item).items));
  }

  lemma {:induction false} UnseenKeepsScan(items: seq<HostItem>, i: nat, item: HostItem)
    requires i < |items| && item.error == items[i].error
    ensures ScanMethod(items[i := item]) == ScanMethod(items)
  {
    var after := items[i := item];
    if i == 0 {
      assert after[1..] == items[1..];
    } else {
      assert after[1..] == items[1..][i - 1 := item];
      UnseenKeepsScan(items[1..], i - 1, item);
    }
  }

  lemma SamePublicNodes(host: Host, h: HostContext, i: nat, item: HostItem, shown: seq<nat>)
    requires i < |h.items| && i !in shown && Unseen(h.items[i], item) && Within(h, shown)
    ensures ItemNodes(host, WithItem(h, i, item), shown) == ItemNodes(host, h, shown)
  {
    var after := WithItem(h, i, item);
    assert IdsIn(after.items) == IdsIn(h.items);
    forall k | 0 <= k < |shown| ensures PublicNode(host, after, shown[k]) == PublicNode(host, h, shown[k]) {
      assert shown[k] in shown;
    }
  }

  lemma SameOtherId(host: Host, h: HostContext, i: nat, item: HostItem, omitted: seq<nat>)
    requires i < |h.items| && Unseen(h.items[i], item) && Within(h, omitted)
    ensures OtherId(host, WithItem(h, i, item), omitted) == OtherId(host, h, omitted)
    ensures IdsAt(WithItem(h, i, item), omitted) == IdsAt(h, omitted)
    ensures Collides(host, WithItem(h, i, item)) == Collides(host, h)
  {
    var after := WithItem(h, i, item);
    assert forall k :: 0 <= k < |h.items| ==> after.items[k].itemId == h.items[k].itemId;
    assert IdsAt(after, omitted) == IdsAt(h, omitted);
  }

  lemma UnseenKeepsKey(host: Host, h: HostContext, i: nat, item: HostItem)
    requires i < |h.items| && Unseen(h.items[i], item)
    requires ItemNodes(host, WithItem(h, i, item), ShownOf(h)) == ItemNodes(host, h, ShownOf(h))
    requires OtherTotal(WithItem(h, i, item), OmittedOf(h)) == OtherTotal(h, OmittedOf(h))
    ensures KeyOf(host, WithItem(h, i, item)) == KeyOf(host, h)
    ensures Collides(host, WithItem(h, i, item)) == Collides(host, h)
  {
    var after := WithItem(h, i, item);
    UnseenKeepsShown(h, i, item);
    UnseenKeepsScan(h.items, i, item);
    SameOtherId(host, h, i, item, OmittedOf(h));
    SameOtherId(host, h, i, item, ShownOf(h));
    assert ContextOf(host, after) == ContextOf(host, h);
    assert ScopeOf(host, after) == ScopeOf(host, h);
  }

  /** Such a change to an omitted item leaves the key alone unless it changes the aggregate's total. */
  lemma OmittedChangeKeepsKey(host: Host, h: HostContext, i: nat, item: HostItem)
    requires i in OmittedOf(h) && i < |h.items| && Unseen(h.items[i], item)
    requires OtherTotal(WithItem(h, i, item), OmittedOf(h)) == OtherTotal(h, OmittedOf(h))
    ensures KeyOf(host, WithItem(h, i, item)) == KeyOf(host, h)
    ensures Collides(host, WithItem(h, i, item)) == Collides(host, h)
  {
    hide KeyOf;
    hide Collides;
    SamePublicNodes(host, h, i, item, ShownOf(h));
    UnseenKeepsKey(host, h, i, item);
  }

  /** The aggregate's entry shows the change. */
  lemma OmittedChangeShows(host: Host, h: HostContext, i: nat, item: HostItem)
    requires i in OmittedOf(h) && i < |h.items| && Unseen(h.items[i], item)
    requires item.displayName != h.items[i].displayName || DetailOf(item) != DetailOf(h.items[i])
    ensures MappingsOf(host, WithItem(h, i, item)) != MappingsOf(host, h)
  {
    var after, omitted := WithItem(h, i, item), OmittedOf(h);
    UnseenKeepsShown(h, i, item);
    SameOtherId(host, h, i, item, omitted);
    AggregatesDiffer(h, i, item, omitted);
    var id := OtherId(host, h, omitted);
    assert Mappings(host, h, ShownOf(h), omitted)[id] == AggregateMapping(Aggregated(h, omitted));
    assert Mappings(host, after, ShownOf(h), omitted)[id] == AggregateMapping(Aggregated(after, omitted));
  }

  lemma AggregatesDiffer(h: HostContext, i: nat, item: HostItem, omitted: seq<nat>)
    requires i < |h.items| && i in omitted && Within(h, omitted)
    requires item.displayName != h.items[i].displayName || DetailOf(item) != DetailOf(h.items[i])
    ensures Aggregated(WithItem(h, i, item), omitted) != Aggregated(h, omitted)
  {
    var k :| 0 <= k < |omitted| && omitted[k] == i;
    assert Aggregated(WithItem(h, i, item), omitted)[k] != Aggregated(h, omitted)[k];
  }

  /** Another context with the same targets and the same key, but another request. */
  ghost predicate HiddenChange(host: Host, h: HostContext, other: HostContext) {
    SameTargets(h, other) && KeyOf(host, other) == KeyOf(host, h) && MappingsOf(host, other) != MappingsOf(host, h)
  }

  lemma HiddenByKey(host: Host, h: HostContext, i: nat, item: HostItem)
    requires i in OmittedOf(h) && i < |h.items| && Unseen(h.items[i], item)
    requires item.selectionItemId == h.items[i].selectionItemId && item.location == h.items[i].location
    requires !Collides(host, h) && OtherTotal(WithItem(h, i, item), OmittedOf(h)) == OtherTotal(h, OmittedOf(h))
    requires item.displayName != h.items[i].displayName || DetailOf(item) != DetailOf(h.items[i])
    ensures HiddenChange(host, h, WithItem(h, i, item))
  {
    hide KeyOf;
    hide MappingsOf;
    TargetsKept(host, h, i, item);
    OmittedChangeKeepsKey(host, h, i, item);
    OmittedChangeShows(host, h, i, item);
  }

  /** Something is omitted: another folder of the same scope and targets has the same key and another request. */
  lemma OmittedIsNotKeyed(host: Host, h: HostContext)
    requires !Collides(host, h) && OmittedOf(h) != []
    ensures exists other :: SameScope(h, other) && SameTargets(h, other) && KeyOf(host, other) == KeyOf(host, h)
                            && RequestFor(host, other) != RequestFor(host, h)
  {
    hide KeyOf;
    hide MappingsOf;
    hide ContextOf;
    var i := OmittedOf(h)[0];
    var other := WithItem(h, i, Renamed(h.items[i]));
    RenamingIsUnseen(host, h, i);
    assert IdsIn(other.items) == IdsIn(h.items);
    assert RequestFor(host, other) != RequestFor(host, h);
  }

  /**
   * Chance collisions of the scope hash apart, the key says everything about the request exactly
   * when nothing is omitted: otherwise renaming an omitted item changes what the aggregate
   * announces, under the same key.
   */
  lemma KeyedIffFullyShown(host: Host, h: HostContext)
    requires !Collides(host, h)
    ensures (forall other :: ScopesTold(host, h, other) && SameTargets(h, other) && KeyOf(host, other) == KeyOf(host, h)
                             ==> RequestFor(host, other) == RequestFor(host, h))
            <==> OmittedOf(h) == []
  {
    hide KeyOf;
    hide MappingsOf;
    hide ContextOf;
    if OmittedOf(h) == [] {
      forall other | ScopesTold(host, h, other) && SameTargets(h, other) && KeyOf(host, other) == KeyOf(host, h)
        ensures RequestFor(host, other) == RequestFor(host, h)
      {
        FullyShownIsKeyed(host, h, other);
      }
    } else {
      OmittedIsNotKeyed(host, h);
    }
  }

  function Renamed(item: HostItem): HostItem {
    item.(displayName := if item.displayName == [] then [0] else [])
  }

  lemma RenamingIsUnseen(host: Host, h: HostContext, i: nat)
    requires i in OmittedOf(h) && i < |h.items| && !Collides(host, h)
    ensures HiddenChange(host, h, WithItem(h, i, Renamed(h.items[i])))
  {
    hide HiddenChange;
    SameNodesTotal(h, i, Renamed(h.items[i]));
    HiddenByKey(host, h, i, Renamed(h.items[i]));
  }

  lemma SameNodesTotal(h: HostContext, i: nat, item: HostItem)
    requires i < |h.items| && NodeOf(item) == NodeOf(h.items[i])
    ensures OtherTotal(WithItem(h, i, item), OmittedOf(h)) == OtherTotal(h, OmittedOf(h))
  {
    assert NodesOf(WithItem(h, i, item).items) == NodesOf(h.items);
  }

  lemma TargetsKept(host: Host, h: HostContext, i: nat, item: HostItem)
    requires i < |h.items| && !Collides(host, h) && item.itemId == h.items[i].itemId
    requires item.selectionItemId == h.items[i].selectionItemId && item.location == h.items[i].location
    ensures SameTargets(h, WithItem(h, i, item))
  {
  }

  /** A partial item once it is measured, at the size it already counted with. */
  function Measured(item: HostItem): HostItem {
    item.(partial := false, exactBytes := Some(if item.exactBytes.Some? then item.exactBytes.value else 0))
  }

  /**
   * Two omitted items are partial. Measuring one changes the detail announced for it and leaves the
   * key alone: the plan rendered before is shown again.
   */
  lemma MeasuringOneOfTwoIsUnseen(host: Host, h: HostContext, i: nat, j: nat)
    requires i in OmittedOf(h) && j in OmittedOf(h) && i < |h.items| && j < |h.items| && i != j
    requires !Collides(host, h) && h.items[i].partial && h.items[j].partial && h.items[i].error.None?
    ensures HiddenChange(host, h, WithItem(h, i, Measured(h.items[i])))
    ensures DetailOf(h.items[i]) == PartialDetail && DetailOf(Measured(h.items[i])).CompleteDetail?
  {
    hide HiddenChange;
    StillIncomplete(h, j, OmittedOf(h));
    StillIncomplete(WithItem(h, i, Measured(h.items[i])), j, OmittedOf(h));
    HiddenByKey(host, h, i, Measured(h.items[i]));
  }

  lemma StillIncomplete(h: HostContext, j: nat, omitted: seq<nat>)
    requires Within(h, omitted) && j in omitted && j < |h.items| && h.items[j].partial
    ensures OtherTotal(h, omitted) == None
  {
    var k :| 0 <= k < |omitted| && omitted[k] == j;
    assert !SizeMapProjection.Complete(NodesOf(h.items)[omitted[k]]);
  }

  // ----------------------------------------------------------------- targets are not keyed

  lemma {:induction false} MappedAt(host: Host, h: HostContext, shown: seq<nat>, k: nat)
    requires Within(h, shown) && SizeMapProjection.Distinct(shown) && !Collides(host, h) && k < |shown|
    ensures var id := IdOf(host, h.items[shown[k]].itemId);
            id in ItemMappings(host, h, shown) && ItemMappings(host, h, shown)[id] == MappingOf(h.items[shown[k]])
    decreases |shown|
  {
    var n := |shown| - 1;
    if k < n {
      MappedAt(host, h, shown[..n], k);
      assert IdOf(host, h.items[shown[k]].itemId) != IdOf(host, h.items[shown[n]].itemId) by {
        assert shown[k] < shown[n] || shown[n] < shown[k];
      }
    }
  }

  function Relocated(item: HostItem): HostItem {
    item.(location := item.location + 1)
  }

  /** The same folder, with one item leading elsewhere: the key cannot tell. */
  lemma RelocatingIsUnseen(host: Host, h: HostContext, i: nat)
    requires i < |h.items| && !Collides(host, h)
    ensures KeyOf(host, WithItem(h, i, Relocated(h.items[i]))) == KeyOf(host, h)
    ensures OmittedOf(h) == [] ==> MappingsOf(host, WithItem(h, i, Relocated(h.items[i]))) != MappingsOf(host, h)
  {
    hide KeyOf;
    hide MappingsOf;
    SameNodesTotal(h, i, Relocated(h.items[i]));
    SameNodesButTarget(host, h, i, Relocated(h.items[i]), ShownOf(h));
    UnseenKeepsKey(host, h, i, Relocated(h.items[i]));
    if OmittedOf(h) == [] {
      RelocatedMapping(host, h, i, Relocated(h.items[i]));
    }
  }

  lemma SameNodesButTarget(host: Host, h: HostContext, i: nat, item: HostItem, shown: seq<nat>)
    requires i < |h.items| && item == h.items[i].(location := item.location) && Within(h, shown)
    ensures ItemNodes(host, WithItem(h, i, item), shown) == ItemNodes(host, h, shown)
  {
    var after := WithItem(h, i, item);
    assert IdsIn(after.items) == IdsIn(h.items);
    forall k | 0 <= k < |shown| ensures PublicNode(host, after, shown[k]) == PublicNode(host, h, shown[k]) {
      assert StatusOf(after.items[shown[k]]) == StatusOf(h.items[shown[k]]);
    }
  }

  lemma RelocatedMapping(host: Host, h: HostContext, i: nat, item: HostItem)
    requires i < |h.items| && !Collides(host, h) && OmittedOf(h) == [] && Unseen(h.items[i], item)
    requires item.location != h.items[i].location
    ensures MappingsOf(host, WithItem(h, i, item)) != MappingsOf(host, h)
  {
    var after, shown := WithItem(h, i, item), ShownOf(h);
    UnseenKeepsShown(h, i, item);
    SameOtherId(host, h, i, item, shown);
    SizeMapProjection.ProjectionIsPartition(NodesOf(h.items), shown, OmittedOf(h));
    assert i in shown || i in OmittedOf(h);
    var k :| 0 <= k < |shown| && shown[k] == i;
    MappedAt(host, h, shown, k);
    MappedAt(host, after, shown, k);
  }

  /** The folder is not empty: another folder of the same scope has the same key and another request. */
  lemma ItemsAreNotKeyed(host: Host, h: HostContext)
    requires !Collides(host, h) && h.items != []
    ensures exists other :: SameScope(h, other) && KeyOf(host, other) == KeyOf(host, h)
                            && RequestFor(host, other) != RequestFor(host, h)
  {
    hide KeyOf;
    hide MappingsOf;
    hide ContextOf;
    if OmittedOf(h) != [] {
      OmittedIsNotKeyed(host, h);
    } else {
      var other := WithItem(h, 0, Relocated(h.items[0]));
      RelocatingIsUnseen(host, h, 0);
      assert IdsIn(other.items) == IdsIn(h.items);
      assert RequestFor(host, other) != RequestFor(host, h);
    }
  }

  /** Without knowing where items lead, the key says everything only about an empty folder. */
  lemma KeyedIffEmpty(host: Host, h: HostContext)
    requires !Collides(host, h)
    ensures (forall other :: ScopesTold(host, h, other) && KeyOf(host, other) == KeyOf(host, h)
                             ==> RequestFor(host, other) == RequestFor(host, h))
            <==> h.items == []
  {
    hide KeyOf;
    hide MappingsOf;
    hide ContextOf;
    if h.items == [] {
      forall other | ScopesTold(host, h, other) && KeyOf(host, other) == KeyOf(host, h)
        ensures RequestFor(host, other) == RequestFor(host, h)
      {
        SameKeySameItems(host, h, other);
        assert |IdsIn(h.items)| == |h.items| == 0;
        FullyShownIsKeyed(host, h, other);
      }
    } else {
      ItemsAreNotKeyed(host, h);
    }
  }

  // ---------------------------------------------------------------------- a crowded folder

  /** With more than 256 items at least two are omitted. */
  lemma TwoAreOmitted(h: HostContext) returns (i: nat, j: nat)
    requires 257 <= |h.items|
    ensures i in OmittedOf(h) && j in OmittedOf(h) && i < j < |h.items|
  {
    var nodes, shown, omitted := NodesOf(h.items), ShownOf(h), OmittedOf(h);
    SizeMapOther.AllOnce(nodes, shown, omitted);
    SizeMapOther.RangeContents(|nodes|);
    assert |multiset(shown + omitted)| == |shown + omitted| == |shown| + |omitted|;
    assert |multiset(SizeMapProjection.Range(|nodes|))| == |SizeMapProjection.Range(|nodes|)|;
    i, j := omitted[0], omitted[1];
  }

  /** A host whose hashes keep small numbers apart, and folders of unmeasured files with distinct ids. */
  const PLAIN_HOST: Host := Host(
    (id: ItemId) => id % 0x1_0000_0000_0000_0000, (r: RequestContext, ids: seq<ItemId>) => r.requestId % 2,
    (g: U64, ids: seq<ItemId>) => g, (bytes: seq<Byte>) => 1, (id: U64) => id, (n: nat) => [], 0)

  function UnmeasuredItem(k: nat): HostItem {
    HostItem(k, k, None, k, [], false, None, true, None)
  }

  function UnmeasuredFolder(n: nat): HostContext {
    HostContext(RequestContext(0, 0, 0), seq(n, k requires 0 <= k < n => UnmeasuredItem(k)), [], 0, 0, false)
  }

  lemma UnmeasuredIds(n: nat, k: nat)
    requires k < n <= 0x1_0000_0000
    ensures |UnmeasuredFolder(n).items| == n && UnmeasuredFolder(n).items[k] == UnmeasuredItem(k)
    ensures IdOf(PLAIN_HOST, UnmeasuredFolder(n).items[k].itemId) == StableId(EXTENSION_ID_NAMESPACE, k)
  {
  }

  /** The case is real: 257 unmeasured files leave two partial items omitted, and their ids do not collide. */
  lemma CrowdedFolder() returns (i: nat, j: nat)
    ensures var h := UnmeasuredFolder(257);
            && !Collides(PLAIN_HOST, h) && i in OmittedOf(h) && j in OmittedOf(h) && i < j < |h.items|
            && h.items[i].partial && h.items[j].partial && h.items[i].error.None?
  {
    hide UnmeasuredFolder, OmittedOf, IdOf;
    var h := UnmeasuredFolder(257);
    forall k: nat | k < 257
      ensures |h.items| == 257 && h.items[k] == UnmeasuredItem(k)
      ensures IdOf(PLAIN_HOST, h.items[k].itemId) == StableId(EXTENSION_ID_NAMESPACE, k)
    {
      UnmeasuredIds(257, k);
    }
    UnmeasuredIds(257, 0);
    i, j := TwoAreOmitted(h);
  }
}

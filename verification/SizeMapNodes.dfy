/** What a size-map renderer is told about a folder, and what the host makes of its rectangles. */
module SizeMapNodes {
  import opened Common
  import opened RenderKeys
  import opened SizeMapRequests
  import SizeMapProjection
  import SizeMapOther
  import SizeMapKeys

  // ------------------------------------------------------------------------------ the status

  /** The diagnostic begins with this text. */
  predicate Begins(item: HostItem, text: string) {
    item.error.Some? && |text| <= |item.error.value|
    && forall k :: 0 <= k < |text| ==> item.error.value[k] == text[k] as int
  }

  /** The text occurs somewhere in the diagnostic. */
  predicate Mentions(item: HostItem, text: string) {
    item.error.Some? && exists from {:trigger item.error.value[from..]} ::
      0 <= from <= |item.error.value| - |text|
      && forall k :: 0 <= k < |text| ==> item.error.value[from..][k] == text[k] as int
  }

  predicate Plain(text: string) {
    text != "" && forall k :: 0 <= k < |text| ==> text[k] as int < 256
  }

  lemma BeginsIsPrefix(item: HostItem, text: string)
    requires Plain(text)
    ensures Begins(item, text) <==> Ascii(text) <= Diagnostic(item)
  {
    var d, t := Diagnostic(item), Ascii(text);
    assert forall k :: 0 <= k < |t| ==> t[k] == text[k] as int;
    if Begins(item, text) {
      assert forall k :: 0 <= k < |t| ==> d[k] == t[k];
    }
    if t <= d {
      assert forall k :: 0 <= k < |t| ==> d[k] == t[k];
    }
  }

  lemma MentionsIsContains(item: HostItem, text: string)
    requires Plain(text)
    ensures Mentions(item, text) <==> Contains(Diagnostic(item), Ascii(text))
  {
    var d, t := Diagnostic(item), Ascii(text);
    assert forall k :: 0 <= k < |t| ==> t[k] == text[k] as int;
    if Mentions(item, text) {
      var from :| 0 <= from <= |d| - |text| && forall k :: 0 <= k < |text| ==> d[from..][k] == text[k] as int;
      assert forall k :: 0 <= k < |t| ==> d[from..][k] == t[k];
      assert t <= d[from..];
    }
    if Contains(d, t) {
      var from :| 0 <= from <= |d| && t <= d[from..];
      assert forall k :: 0 <= k < |t| ==> d[from..][k] == t[k];
    }
  }

  /** The diagnostic names an outcome of its own, before anything else is looked at. */
  predicate SaysCancelled(item: HostItem) {
    Begins(item, "cancelled:")
  }

  predicate SaysLimited(item: HostItem) {
    !SaysCancelled(item)
    && (Begins(item, "resource-limited:") || Mentions(item, "resource limit") || Mentions(item, "depth limit"))
  }

  predicate SaysUnavailable(item: HostItem) {
    !SaysCancelled(item) && !SaysLimited(item) && Begins(item, "unavailable:")
  }

  predicate SaysNothing(item: HostItem) {
    !SaysCancelled(item) && !SaysLimited(item) && !SaysUnavailable(item)
  }

  /** Which item has which status: one is complete only without any error, and measured. */
  lemma StatusTells(item: HostItem)
    ensures StatusOf(item) == 1 <==> item.error.None? && !item.partial && item.exactBytes.Some?
    ensures StatusOf(item) == 2 <==> SaysNothing(item) && item.partial
    ensures StatusOf(item) == 3 <==>
              SaysUnavailable(item) || (item.error.None? && !item.partial && item.exactBytes.None?)
    ensures StatusOf(item) == 4 <==> SaysNothing(item) && !item.partial && item.error.Some?
    ensures StatusOf(item) == 5 <==> SaysCancelled(item)
    ensures StatusOf(item) == 6 <==> SaysLimited(item)
  {
    BeginsIsPrefix(item, "cancelled:");
    BeginsIsPrefix(item, "resource-limited:");
    BeginsIsPrefix(item, "unavailable:");
    MentionsIsContains(item, "resource limit");
    MentionsIsContains(item, "depth limit");
    hide Begins, Mentions, Ascii, Contains;
    if item.error.None? {
      SilentItem(item);
    }
  }

  lemma SilentItem(item: HostItem)
    requires item.error.None?
    ensures forall text :: !Begins(item, text) && !Mentions(item, text)
  {
  }

  // ------------------------------------------------------------------------------- the nodes

  /** The public id of an item: the extension namespace, and the hash of the item's identity. */
  predicate IsIdOf(host: Host, id: StableId, item: ItemId) {
    id == StableId(0x5345_0001, host.nodeHash(item))
  }

  /** The node shows this item under its public id, with its own name, kind, size and status. */
  predicate Shows(host: Host, node: Node, item: HostItem) {
    && IsIdOf(host, node.nodeId, item.itemId) && node.name == item.displayName
    && node.kind == (if item.isContainer then 1 else 2) && node.exactBytes == item.exactBytes
    && node.status == StatusOf(item)
  }

  /** One node for each shown item, in display order, and one for the rest, complete exactly when its size is known. */
  predicate NodesTell(host: Host, h: HostContext, shown: seq<nat>, omitted: seq<nat>, total: Option<U64>,
                      nodes: seq<Node>)
    requires Within(h, shown)
  {
    && |nodes| == |shown| + (if omitted == [] then 0 else 1)
    && (forall k :: 0 <= k < |shown| ==> Shows(host, nodes[k], h.items[shown[k]]))
    && (omitted != [] ==>
          var rest := nodes[|shown|];
          && rest.nodeId.namespace == 0x5345_0001 && rest.parentId == None && rest.kind == 3
          && rest.exactBytes == total && rest.status == if total.Some? then 1 else 2)
  }

  /** The public hierarchy is closed: a node's parent is the node of its item's parent. */
  predicate ClosedHierarchy(h: HostContext, shown: seq<nat>, nodes: seq<Node>)
    requires Within(h, shown)
  {
    |nodes| >= |shown| && forall k :: 0 <= k < |shown| ==> HasItsParent(h, shown, nodes, k)
  }

  predicate HasItsParent(h: HostContext, shown: seq<nat>, nodes: seq<Node>, k: nat)
    requires Within(h, shown) && k < |shown| <= |nodes|
  {
    var parent := h.items[shown[k]].parentItemId;
    if parent.None? then nodes[k].parentId == None
    else exists j :: 0 <= j < |shown| && h.items[shown[j]].itemId == parent.value
                     && nodes[k].parentId == Some(nodes[j].nodeId)
  }

  lemma ListTells(host: Host, h: HostContext, shown: seq<nat>, omitted: seq<nat>, total: Option<U64>)
    requires Within(h, shown) && Within(h, omitted)
    ensures NodesTell(host, h, shown, omitted, total, PublicNodes(host, h, shown, omitted, total))
  {
    RestNamespace(host, h, omitted);
    hide StatusOf, OtherId;
    var nodes := PublicNodes(host, h, shown, omitted, total);
    forall k | 0 <= k < |shown| ensures Shows(host, nodes[k], h.items[shown[k]]) {
      assert nodes[k] == PublicNode(host, h, shown[k]);
    }
  }

  lemma RestNamespace(host: Host, h: HostContext, omitted: seq<nat>)
    requires Within(h, omitted)
    ensures OtherId(host, h, omitted).namespace == 0x5345_0001
  {
  }

  lemma ListIsClosed(host: Host, h: HostContext, shown: seq<nat>, omitted: seq<nat>, total: Option<U64>)
    requires Within(h, shown) && Within(h, omitted) && SizeMapProjection.ParentsShown(NodesOf(h.items), shown)
    ensures ClosedHierarchy(h, shown, PublicNodes(host, h, shown, omitted, total))
  {
    var nodes := PublicNodes(host, h, shown, omitted, total);
    forall k | 0 <= k < |shown| ensures HasItsParent(h, shown, nodes, k) {
      ParentIsListed(host, h, shown, nodes, k);
    }
  }

  lemma ParentIsListed(host: Host, h: HostContext, shown: seq<nat>, nodes: seq<Node>, k: nat)
    requires Within(h, shown) && k < |shown| <= |nodes|
    requires SizeMapProjection.ParentsShown(NodesOf(h.items), shown)
    requires forall j :: 0 <= j < |shown| ==> nodes[j] == PublicNode(host, h, shown[j])
    ensures HasItsParent(h, shown, nodes, k)
  {
    hide StatusOf;
    var parent := h.items[shown[k]].parentItemId;
    assert NodesOf(h.items)[shown[k]] == NodeOf(h.items[shown[k]]);
    if parent.Some? {
      assert parent.value in SizeMapProjection.IdsOf(NodesOf(h.items), shown);
      var j :| 0 <= j < |shown| && NodesOf(h.items)[shown[j]].itemId == parent.value;
      assert IdsIn(h.items)[shown[j]] == parent.value;
      assert nodes[k] == PublicNode(host, h, shown[k]) && nodes[j] == PublicNode(host, h, shown[j]);
    }
  }

  lemma ShownHaveParents(h: HostContext)
    ensures SizeMapProjection.ParentsShown(NodesOf(h.items), ShownOf(h)) && SizeMapProjection.Distinct(ShownOf(h))
  {
  }

  lemma ContextParts(host: Host, h: HostContext)
    ensures var c, shown, omitted := ContextOf(host, h), ShownOf(h), OmittedOf(h);
            && c.nodes == PublicNodes(host, h, shown, omitted, OtherTotal(h, omitted))
            && c.selected == SelectedIds(host, h.selected, set i | i in IdsAt(h, shown))
            && c.settings == ScanMethod(h.items)
  {
    hide PublicNodes, ShownOf, OmittedOf, OtherTotal, SelectedIds, ScanMethod;
  }

  lemma SentParts(host: Host, h: HostContext)
    ensures var r, shown, omitted := RequestFor(host, h), ShownOf(h), OmittedOf(h);
            && r.context.nodes == PublicNodes(host, h, shown, omitted, OtherTotal(h, omitted))
            && r.context.selected == SelectedIds(host, h.selected, set i | i in IdsAt(h, shown))
            && r.context.settings == ScanMethod(h.items)
            && r.mappings == Mappings(host, h, shown, omitted)
  {
    ContextParts(host, h);
    hide ContextOf, PublicNodes, ShownOf, OmittedOf, OtherTotal, SelectedIds, ScanMethod, Mappings;
  }

  /** The nodes of a request: the shown items, the rest, and a hierarchy without orphans. */
  lemma RequestTells(host: Host, h: HostContext)
    ensures NodesTell(host, h, ShownOf(h), OmittedOf(h), OtherTotal(h, OmittedOf(h)),
                      RequestFor(host, h).context.nodes)
    ensures ClosedHierarchy(h, ShownOf(h), RequestFor(host, h).context.nodes)
  {
    SentParts(host, h);
    ShownHaveParents(h);
    hide RequestFor, ShownOf, OmittedOf, OtherTotal, PublicNodes, NodesTell, ClosedHierarchy;
    ListTells(host, h, ShownOf(h), OmittedOf(h), OtherTotal(h, OmittedOf(h)));
    ListIsClosed(host, h, ShownOf(h), OmittedOf(h), OtherTotal(h, OmittedOf(h)));
  }

  /** The rest has a size exactly when every omitted item was measured without error. */
  lemma RestIsKnown(h: HostContext)
    ensures OtherTotal(h, OmittedOf(h)).Some? <==>
              forall k :: 0 <= k < |OmittedOf(h)| ==>
                var item := h.items[OmittedOf(h)[k]];
                !item.partial && item.error.None? && item.exactBytes.Some?
  {
    RestIsKnownOf(h, OmittedOf(h));
  }

  lemma RestIsKnownOf(h: HostContext, omitted: seq<nat>)
    requires Within(h, omitted)
    ensures OtherTotal(h, omitted).Some? <==>
              forall k :: 0 <= k < |omitted| ==>
                var item := h.items[omitted[k]];
                !item.partial && item.error.None? && item.exactBytes.Some?
  {
    forall k | 0 <= k < |omitted| ensures NodesOf(h.items)[omitted[k]] == NodeOf(h.items[omitted[k]]) {
    }
  }

  /** The frame of a request: the folder's generation, its viewport, and the theme it is drawn in. */
  lemma FrameTells(host: Host, h: HostContext)
    ensures var c := RequestFor(host, h).context;
            && c.snapshot.locationGeneration == c.snapshot.refreshGeneration == h.request.generation
            && c.widthMilli == h.widthMilli && c.heightMilli == h.heightMilli && c.dpiMilli == 1000
            && c.theme.foreground == (if h.dark then Color(245, 245, 245, 255) else Color(32, 32, 32, 255))
            && c.theme.background == (if h.dark then Color(32, 32, 32, 255) else Color(250, 250, 250, 255))
  {
    hide PublicNodes, ShownOf, OmittedOf, OtherTotal, SelectedIds, ScanMethod, MappingsOf;
  }

  // ---------------------------------------------------------------------------- the mappings

  /** A rectangle of this item leads where the item leads. */
  predicate LeadsTo(mapping: Mapping, item: HostItem) {
    && mapping.ItemMapping? && mapping.status == StatusOf(item)
    && mapping.target.itemId == item.itemId && mapping.target.selectionItemId == item.selectionItemId
    && mapping.target.location == item.location && mapping.target.isContainer == item.isContainer
  }

  /** An omitted item is announced with its own name and what is known of it. */
  predicate Announces(x: AggregateItem, item: HostItem) {
    && x.itemId == item.itemId && x.name == item.displayName
    && (x.detail.PartialDetail? <==> item.partial)
    && (x.detail.FailedDetail? <==> !item.partial && item.error.Some?)
    && (x.detail.FailedDetail? ==> Some(x.detail.error) == item.error)
    && (x.detail.CompleteDetail? <==> !item.partial && item.error.None? && item.exactBytes.Some?)
    && (x.detail.CompleteDetail? ==> Some(x.detail.bytes) == item.exactBytes)
  }

  predicate ListsOmitted(h: HostContext, mapping: Mapping, omitted: seq<nat>)
    requires Within(h, omitted)
  {
    && mapping.AggregateMapping? && |mapping.items| == |omitted|
    && forall k :: 0 <= k < |omitted| ==> Announces(mapping.items[k], h.items[omitted[k]])
  }

  /**
   * Exactly the nodes that are sent have a mapping; the rest's lists every omitted item, and an item's
   * leads to the item unless its id is also the rest's.
   */
  ghost predicate MappingsTell(h: HostContext, shown: seq<nat>, omitted: seq<nat>, nodes: seq<Node>,
                               mappings: map<StableId, Mapping>)
    requires Within(h, shown) && Within(h, omitted) && |nodes| == |shown| + if omitted == [] then 0 else 1
  {
    && (forall id :: id in mappings <==> exists k :: 0 <= k < |nodes| && nodes[k].nodeId == id)
    && (omitted != [] ==>
          nodes[|shown|].nodeId in mappings && ListsOmitted(h, mappings[nodes[|shown|].nodeId], omitted))
    && forall k :: 0 <= k < |shown| ==>
         nodes[k].nodeId in mappings
         && ((omitted != [] && nodes[k].nodeId == nodes[|shown|].nodeId)
             || LeadsTo(mappings[nodes[k].nodeId], h.items[shown[k]]))
  }

  lemma {:induction false} MappedIds(host: Host, h: HostContext, shown: seq<nat>, ids: seq<StableId>)
    requires Within(h, shown) && |ids| == |shown|
    requires forall k :: 0 <= k < |shown| ==> ids[k] == IdOf(host, h.items[shown[k]].itemId)
    ensures forall id :: id in ItemMappings(host, h, shown) <==> id in ids
    decreases |shown|
  {
    hide StatusOf, IdOf;
    if shown != [] {
      var n := |shown| - 1;
      MappedIds(host, h, shown[..n], ids[..n]);
      assert ids == ids[..n] + [ids[n]];
    }
  }

  lemma ShownAreMapped(host: Host, h: HostContext, shown: seq<nat>)
    requires Within(h, shown) && SizeMapProjection.Distinct(shown) && !Collides(host, h)
    ensures forall k :: 0 <= k < |shown| ==>
              var id := IdOf(host, h.items[shown[k]].itemId);
              id in ItemMappings(host, h, shown) && LeadsTo(ItemMappings(host, h, shown)[id], h.items[shown[k]])
  {
    forall k | 0 <= k < |shown|
      ensures var id := IdOf(host, h.items[shown[k]].itemId);
              id in ItemMappings(host, h, shown) && LeadsTo(ItemMappings(host, h, shown)[id], h.items[shown[k]])
    {
      SizeMapKeys.MappedAt(host, h, shown, k);
      hide ItemMappings, StatusOf;
    }
  }

  lemma OmittedAreListed(h: HostContext, omitted: seq<nat>)
    requires Within(h, omitted)
    ensures ListsOmitted(h, AggregateMapping(Aggregated(h, omitted)), omitted)
  {
  }

  /** A list of nodes begins with those of the shown items, and the rest follows if there is one. */
  lemma MapsNodes(host: Host, h: HostContext, shown: seq<nat>, omitted: seq<nat>, ids: seq<StableId>, nodes: seq<Node>,
                  items: map<StableId, Mapping>, rest: StableId)
    requires Within(h, shown) && Within(h, omitted) && |ids| == |shown|
    requires |nodes| == |shown| + if omitted == [] then 0 else 1
    requires forall k :: 0 <= k < |shown| ==> nodes[k].nodeId == ids[k]
    requires omitted != [] ==> nodes[|shown|].nodeId == rest
    requires forall id :: id in items <==> id in ids
    requires forall k :: 0 <= k < |shown| ==> ids[k] in items && LeadsTo(items[ids[k]], h.items[shown[k]])
    ensures var all := if omitted == [] then items else items[rest := AggregateMapping(Aggregated(h, omitted))];
            MappingsTell(h, shown, omitted, nodes, all)
  {
    OmittedAreListed(h, omitted);
    hide ListsOmitted, LeadsTo, Aggregated;
    var all := if omitted == [] then items else items[rest := AggregateMapping(Aggregated(h, omitted))];
    forall id ensures id in all <==> exists k :: 0 <= k < |nodes| && nodes[k].nodeId == id {
      if id in ids {
        var k :| 0 <= k < |ids| && ids[k] == id;
        assert nodes[k].nodeId == id;
      }
      if k :| 0 <= k < |nodes| && nodes[k].nodeId == id {
        assert k < |shown| ==> ids[k] == id;
      }
    }
  }

  lemma ListIsMapped(host: Host, h: HostContext, shown: seq<nat>, omitted: seq<nat>, total: Option<U64>)
    requires Within(h, shown) && Within(h, omitted) && SizeMapProjection.Distinct(shown) && !Collides(host, h)
    ensures MappingsTell(h, shown, omitted, PublicNodes(host, h, shown, omitted, total),
                         Mappings(host, h, shown, omitted))
  {
    var ids := seq(|shown|, k requires 0 <= k < |shown| && shown[k] < |h.items| =>
      IdOf(host, h.items[shown[k]].itemId));
    MappedIds(host, h, shown, ids);
    ShownAreMapped(host, h, shown);
    hide ItemMappings, OtherId, StatusOf, Collides, MappingsTell, LeadsTo, Aggregated, IdOf;
    MapsNodes(host, h, shown, omitted, ids, PublicNodes(host, h, shown, omitted, total), ItemMappings(host, h, shown),
              OtherId(host, h, omitted));
  }

  /** While public ids are distinct, every rectangle of a request leads where it should. */
  lemma RectanglesLead(host: Host, h: HostContext)
    requires !Collides(host, h)
    ensures |RequestFor(host, h).context.nodes| == |ShownOf(h)| + if OmittedOf(h) == [] then 0 else 1
    ensures MappingsTell(h, ShownOf(h), OmittedOf(h), RequestFor(host, h).context.nodes, RequestFor(host, h).mappings)
  {
    ShownHaveParents(h);
    SentParts(host, h);
    RequestTells(host, h);
    hide RequestFor, ShownOf, OmittedOf, OtherTotal, PublicNodes, Mappings, MappingsTell, Collides;
    hide ClosedHierarchy;
    ListIsMapped(host, h, ShownOf(h), OmittedOf(h), OtherTotal(h, OmittedOf(h)));
  }

  // ------------------------------------------------------------------- selection and settings

  predicate IsShown(h: HostContext, shown: seq<nat>, id: ItemId)
    requires Within(h, shown)
  {
    exists k :: 0 <= k < |shown| && h.items[shown[k]].itemId == id
  }

  /** `ids` are the public ids of the selected items that are shown, in the order of the selection. */
  predicate Selects(host: Host, h: HostContext, shown: seq<nat>, selected: seq<ItemId>, ids: seq<StableId>)
    requires Within(h, shown)
    decreases |selected|
  {
    if selected == [] then ids == []
    else if IsShown(h, shown, selected[|selected| - 1]) then
      ids != [] && IsIdOf(host, ids[|ids| - 1], selected[|selected| - 1])
      && Selects(host, h, shown, selected[..|selected| - 1], ids[..|ids| - 1])
    else Selects(host, h, shown, selected[..|selected| - 1], ids)
  }

  lemma {:induction false} SelectedSnoc(host: Host, selected: seq<ItemId>, last: ItemId, shown: set<ItemId>)
    ensures SelectedIds(host, selected + [last], shown)
         == SelectedIds(host, selected, shown) + if last in shown then [IdOf(host, last)] else []
  {
    if selected == [] {
      assert selected + [last] == [last] && [last][1..] == [];
    } else {
      SelectedSnoc(host, selected[1..], last, shown);
      assert (selected + [last])[1..] == selected[1..] + [last];
    }
  }

  lemma {:induction false} SelectionTells(host: Host, h: HostContext, shown: seq<nat>, ids: set<ItemId>,
                                          selected: seq<ItemId>)
    requires Within(h, shown) && forall i :: i in ids <==> IsShown(h, shown, i)
    ensures Selects(host, h, shown, selected, SelectedIds(host, selected, ids))
    decreases |selected|
  {
    hide IsShown;
    if selected != [] {
      var n := |selected| - 1;
      var before, all := SelectedIds(host, selected[..n], ids), SelectedIds(host, selected, ids);
      SelectionTells(host, h, shown, ids, selected[..n]);
      SelectedSnoc(host, selected[..n], selected[n], ids);
      assert selected == selected[..n] + [selected[n]];
      assert selected[n] in ids ==> all[..|all| - 1] == before;
      assert selected[n] !in ids ==> all == before;
    }
  }

  lemma ShownIds(h: HostContext, shown: seq<nat>)
    requires Within(h, shown)
    ensures forall i :: i in (set i | i in IdsAt(h, shown)) <==> IsShown(h, shown, i)
  {
    forall i | IsShown(h, shown, i) ensures i in IdsAt(h, shown) {
      var k :| 0 <= k < |shown| && h.items[shown[k]].itemId == i;
      assert IdsAt(h, shown)[k] == i;
    }
  }

  /** The request selects exactly the shown items among the selected ones. */
  lemma RequestSelects(host: Host, h: HostContext)
    ensures Selects(host, h, ShownOf(h), h.selected, RequestFor(host, h).context.selected)
  {
    hide RequestFor, ShownOf, OmittedOf, OtherTotal, PublicNodes, Mappings, ScanMethod, Selects, SelectedIds, IdsAt;
    hide IsShown;
    SentParts(host, h);
    ShownIds(h, ShownOf(h));
    SelectionTells(host, h, ShownOf(h), (set i | i in IdsAt(h, ShownOf(h))), h.selected);
  }

  /** The diagnostic names a way of scanning. */
  predicate NamesWay(item: HostItem) {
    Mentions(item, "NTFS MFT") || Mentions(item, "Breadth-first fallback") || Mentions(item, "Detecting scan method")
  }

  lemma NamesWayIsScan(item: HostItem)
    ensures NamesWay(item) <==> item.error.Some? && NamesScan(item.error.value)
  {
    MentionsIsContains(item, "NTFS MFT");
    MentionsIsContains(item, "Breadth-first fallback");
    MentionsIsContains(item, "Detecting scan method");
    hide Mentions, Contains, Ascii;
    if item.error.None? {
      SilentItem(item);
    }
  }

  /** The settings repeat the first diagnostic that names a way of scanning, if there is one. */
  lemma {:induction false} ScanTells(items: seq<HostItem>) returns (k: nat)
    ensures k <= |items| && forall j :: 0 <= j < k ==> !NamesWay(items[j])
    ensures if k == |items| then ScanMethod(items) == Ascii("Detecting scan method")
            else NamesWay(items[k]) && items[k].error == Some(ScanMethod(items))
  {
    k := 0;
    if items != [] {
      NamesWayIsScan(items[0]);
      hide NamesWay, NamesScan, Ascii;
      if !NamesWay(items[0]) {
        var m := ScanTells(items[1..]);
        k := m + 1;
        assert forall j :: 0 < j < k ==> items[j] == items[1..][j - 1];
      }
    }
  }
}

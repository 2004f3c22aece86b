/**
 * From the items of a folder to the request a size-map renderer gets, and what the request's key
 * says about the rest of it.
 */
module SizeMapRequests {
  import opened Common
  import opened RenderKeys
  import SizeMapProjection
  import SizeMapOther

  /** Provider bytes of a Shell item, and a location descriptor. */
  type ItemId = nat
  type Location = nat

  datatype HostItem = HostItem(
    itemId: ItemId, selectionItemId: ItemId, parentItemId: Option<ItemId>, location: Location,
    displayName: Bytes, isContainer: bool, exactBytes: Option<U64>, partial: bool, error: Option<Bytes>)

  datatype RequestContext = RequestContext(requestId: nat, tabId: nat, generation: U64)

  type Selected = s: seq<ItemId> | |s| < 0x1_0000_0000_0000_0000

  datatype HostContext = HostContext(
    request: RequestContext, items: seq<HostItem>, selected: Selected, widthMilli: U32, heightMilli: U32, dark: bool)

  /** The hashers, the text of the aggregate's name, the bit flip of a colliding id, and the package incarnation. */
  datatype Host = Host(
    nodeHash: ItemId -> U64, scopeHash: (RequestContext, seq<ItemId>) -> U64,
    otherHash: (U64, seq<ItemId>) -> U64, revisionFor: seq<Byte> -> U64,
    flip: U64 -> U64, otherName: nat -> Bytes, packageIncarnation: U64)

  const EXTENSION_ID_NAMESPACE: U32 := 0x5345_0001

  const DIRECTORY: U32 := 1
  const FILE: U32 := 2
  const OTHER: U32 := 3

  const COMPLETE: U32 := 1
  const PARTIAL: U32 := 2
  const UNAVAILABLE: U32 := 3
  const FAILED: U32 := 4
  const CANCELLED: U32 := 5
  const RESOURCE_LIMITED: U32 := 6

  // ------------------------------------------------------------------ the public nodes

  function Ascii(s: string): (r: seq<Byte>)
    ensures |r| == |s|
  {
    seq(|s|, k requires 0 <= k < |s| => if s[k] as int < 256 then s[k] as int else 63)
  }

  predicate Contains(text: seq<Byte>, part: seq<Byte>) {
    exists k :: 0 <= k <= |text| && part <= text[k..]
  }

  function Diagnostic(item: HostItem): seq<Byte> {
    if item.error.Some? then item.error.value else []
  }

  function StatusOf(item: HostItem): U32 {
    var diagnostic := Diagnostic(item);
    if Ascii("cancelled:") <= diagnostic then CANCELLED
    else if Ascii("resource-limited:") <= diagnostic || Contains(diagnostic, Ascii("resource limit"))
            || Contains(diagnostic, Ascii("depth limit")) then RESOURCE_LIMITED
    else if Ascii("unavailable:") <= diagnostic then UNAVAILABLE
    else if item.partial then PARTIAL
    else if item.error.Some? then FAILED
    else if item.exactBytes.Some? then COMPLETE
    else UNAVAILABLE
  }

  function NodeOf(item: HostItem): SizeMapProjection.Node {
    SizeMapProjection.Node(item.itemId, item.parentItemId,
      if item.exactBytes.Some? then Some(item.exactBytes.value) else None, item.partial, item.error.Some?)
  }

  /** The items as the projection reads them. */
  function NodesOf(items: seq<HostItem>): (r: seq<SizeMapProjection.Node>)
    ensures |r| == |items| && forall k :: 0 <= k < |r| ==> r[k] == NodeOf(items[k])
  {
    seq(|items|, k requires 0 <= k < |items| => NodeOf(items[k]))
  }

  function IdsIn(items: seq<HostItem>): (r: seq<ItemId>)
    ensures |r| == |items| && forall k :: 0 <= k < |r| ==> r[k] == items[k].itemId
  {
    seq(|items|, k requires 0 <= k < |items| => items[k].itemId)
  }

  predicate Within(h: HostContext, indexes: seq<nat>) {
    forall k :: 0 <= k < |indexes| ==> indexes[k] < |h.items|
  }

  function IdOf(host: Host, id: ItemId): StableId {
    StableId(EXTENSION_ID_NAMESPACE, host.nodeHash(id))
  }

  /** Two items whose public ids coincide; nothing is rendered then. */
  predicate Collides(host: Host, h: HostContext) {
    exists i, j :: 0 <= i < j < |h.items| && IdOf(host, h.items[i].itemId) == IdOf(host, h.items[j].itemId)
  }

  function PublicNode(host: Host, h: HostContext, i: nat): Node
    requires i < |h.items|
  {
    var item := h.items[i];
    var parent := item.parentItemId;
    Node(IdOf(host, item.itemId),
         if parent.Some? && parent.value in IdsIn(h.items) then Some(IdOf(host, parent.value)) else None,
         item.displayName, if item.isContainer then DIRECTORY else FILE, item.exactBytes, StatusOf(item))
  }

  function ItemNodes(host: Host, h: HostContext, shown: seq<nat>): (r: seq<Node>)
    requires Within(h, shown)
    ensures |r| == |shown| && forall k :: 0 <= k < |r| ==> r[k] == PublicNode(host, h, shown[k])
  {
    seq(|shown|, k requires 0 <= k < |shown| && shown[k] < |h.items| => PublicNode(host, h, shown[k]))
  }

  // -------------------------------------------------------------------- the aggregate

  function IdsAt(h: HostContext, indexes: seq<nat>): seq<ItemId>
    requires Within(h, indexes)
  {
    seq(|indexes|, k requires 0 <= k < |indexes| && indexes[k] < |h.items| => h.items[indexes[k]].itemId)
  }

  function OtherId(host: Host, h: HostContext, omitted: seq<nat>): StableId
    requires Within(h, omitted)
  {
    var value := host.otherHash(h.request.generation, IdsAt(h, omitted));
    var id := StableId(EXTENSION_ID_NAMESPACE, value);
    if exists k :: 0 <= k < |h.items| && IdOf(host, h.items[k].itemId) == id
    then StableId(EXTENSION_ID_NAMESPACE, host.flip(value))
    else id
  }

  /** The aggregate's bytes, while everything omitted is complete. */
  function OtherTotal(h: HostContext, omitted: seq<nat>): Option<U64>
    requires Within(h, omitted)
  {
    var nodes := NodesOf(h.items);
    if forall k :: 0 <= k < |omitted| ==> SizeMapProjection.Complete(nodes[omitted[k]])
    then Some(SizeMapOther.Min(SizeMapOther.TopBytes(nodes, SizeMapProjection.IdsOf(nodes, omitted), omitted),
                               U64_MAX))
    else None
  }

  function OtherNode(host: Host, h: HostContext, omitted: seq<nat>, total: Option<U64>): Node
    requires Within(h, omitted)
  {
    Node(OtherId(host, h, omitted), None, host.otherName(|omitted|), OTHER, total,
         if total.Some? then COMPLETE else PARTIAL)
  }

  /** The text an omitted item is announced with. */
  datatype Detail = PartialDetail | FailedDetail(error: Bytes) | CompleteDetail(bytes: U64) | UnavailableDetail

  datatype AggregateItem = AggregateItem(itemId: ItemId, name: Bytes, detail: Detail)

  function DetailOf(item: HostItem): Detail {
    if item.partial then PartialDetail
    else if item.error.Some? then FailedDetail(item.error.value)
    else if item.exactBytes.Some? then CompleteDetail(item.exactBytes.value)
    else UnavailableDetail
  }

  function Aggregated(h: HostContext, omitted: seq<nat>): (r: seq<AggregateItem>)
    requires Within(h, omitted)
    ensures |r| == |omitted|
    ensures forall k :: 0 <= k < |r| ==>
              r[k] == AggregateItem(h.items[omitted[k]].itemId, h.items[omitted[k]].displayName,
                                    DetailOf(h.items[omitted[k]]))
  {
    seq(|omitted|, k requires 0 <= k < |omitted| && omitted[k] < |h.items| =>
      AggregateItem(h.items[omitted[k]].itemId, h.items[omitted[k]].displayName, DetailOf(h.items[omitted[k]])))
  }

  // --------------------------------------------------------------------- the mappings

  datatype Target = Target(itemId: ItemId, selectionItemId: ItemId, location: Location, isContainer: bool)

  /** What a rectangle stands for: one item with its status text, or the omitted items. */
  datatype Mapping = ItemMapping(target: Target, status: U32) | AggregateMapping(items: seq<AggregateItem>)

  function MappingOf(item: HostItem): Mapping {
    ItemMapping(Target(item.itemId, item.selectionItemId, item.location, item.isContainer), StatusOf(item))
  }

  function ItemMappings(host: Host, h: HostContext, shown: seq<nat>): map<StableId, Mapping>
    requires Within(h, shown)
    decreases |shown|
  {
    if shown == [] then map[]
    else
      var item := h.items[shown[|shown| - 1]];
      ItemMappings(host, h, shown[..|shown| - 1])[IdOf(host, item.itemId) := MappingOf(item)]
  }

  function Mappings(host: Host, h: HostContext, shown: seq<nat>, omitted: seq<nat>): map<StableId, Mapping>
    requires Within(h, shown) && Within(h, omitted)
  {
    var items := ItemMappings(host, h, shown);
    if omitted == [] then items else items[OtherId(host, h, omitted) := AggregateMapping(Aggregated(h, omitted))]
  }

  // ---------------------------------------------------------------------- the request

  function Grey(level: Byte): Color { Color(level, level, level, 255) }

  function ThemeOf(dark: bool): Theme {
    Theme(if dark then Grey(245) else Grey(32), Grey(112), if dark then Grey(32) else Grey(250),
          Color(0, 95, 184, 255), Color(0, 120, 212, 255))
  }

  predicate NamesScan(text: seq<Byte>) {
    || Contains(text, Ascii("NTFS MFT")) || Contains(text, Ascii("Breadth-first fallback"))
    || Contains(text, Ascii("Detecting scan method"))
  }

  /** The first error text that names the way the folder was scanned. */
  function ScanMethod(items: seq<HostItem>): Bytes {
    if items == [] then Ascii("Detecting scan method")
    else if items[0].error.Some? && NamesScan(items[0].error.value) then items[0].error.value
    else ScanMethod(items[1..])
  }

  function SelectedIds(host: Host, selected: seq<ItemId>, shown: set<ItemId>): (r: seq<StableId>)
    ensures |r| <= |selected|
  {
    if selected == [] then []
    else (if selected[0] in shown then [IdOf(host, selected[0])] else []) + SelectedIds(host, selected[1..], shown)
  }

  function PublicNodes(host: Host, h: HostContext, shown: seq<nat>, omitted: seq<nat>, total: Option<U64>): seq<Node>
    requires Within(h, shown) && Within(h, omitted)
  {
    ItemNodes(host, h, shown) + if omitted == [] then [] else [OtherNode(host, h, omitted, total)]
  }

  function PublicContext(host: Host, h: HostContext, shown: seq<nat>, omitted: seq<nat>, total: Option<U64>)
    : SizeMapContext
    requires Within(h, shown) && Within(h, omitted) && |shown| <= SizeMapProjection.MAX_INDIVIDUAL_NODES
  {
    SizeMapContext(Snapshot(h.request.generation, h.request.generation, 1),
                   PublicNodes(host, h, shown, omitted, total), h.widthMilli, h.heightMilli, 1_000, ThemeOf(h.dark),
                   SelectedIds(host, h.selected, set i | i in IdsAt(h, shown)), ScanMethod(h.items))
  }

  function ScopeOf(host: Host, h: HostContext): Scope {
    Scope(host.scopeHash(h.request, IdsIn(h.items)), host.packageIncarnation)
  }

  /** What is sent to the worker: the revised public context, its scope, and what only the host sees. */
  datatype SizeMapRequest = SizeMapRequest(
    context: SizeMapContext, scope: Scope, mappings: map<StableId, Mapping>, width: real, height: real)

  /** The key covers the context and the scope only. */
  function RequestKey(r: SizeMapRequest): seq<Byte> {
    PutScoped(r.context, r.scope)
  }

  function Assembled(host: Host, h: HostContext, context: SizeMapContext, mappings: map<StableId, Mapping>)
    : SizeMapRequest
  {
    SizeMapRequest(Revised(context, ScopeOf(host, h), host.revisionFor), ScopeOf(host, h), mappings,
                   h.widthMilli as real / 1000.0, h.heightMilli as real / 1000.0)
  }

  ghost function ShownOf(h: HostContext): (shown: seq<nat>)
    ensures Within(h, shown) && |shown| <= SizeMapProjection.MAX_INDIVIDUAL_NODES
  {
    SizeMapProjection.Projected(NodesOf(h.items))
  }

  ghost function OmittedOf(h: HostContext): (omitted: seq<nat>)
    ensures Within(h, omitted)
  {
    var omitted := SizeMapProjection.OmittedBy(NodesOf(h.items), ShownOf(h));
    assert forall k :: 0 <= k < |omitted| ==> omitted[k] in omitted;
    omitted
  }

  ghost function ContextOf(host: Host, h: HostContext): SizeMapContext {
    PublicContext(host, h, ShownOf(h), OmittedOf(h), OtherTotal(h, OmittedOf(h)))
  }

  ghost function MappingsOf(host: Host, h: HostContext): map<StableId, Mapping> {
    Mappings(host, h, ShownOf(h), OmittedOf(h))
  }

  /** The request a folder's context becomes. */
  ghost function RequestFor(host: Host, h: HostContext): SizeMapRequest {
    Assembled(host, h, ContextOf(host, h), MappingsOf(host, h))
  }

  /** No request when public ids collide, else the one for this context. */
  method BuildRequest(host: Host, h: HostContext) returns (request: Option<SizeMapRequest>)
    ensures request == if Collides(host, h) then None else Some(RequestFor(host, h))
  {
    if Collides(host, h) {
      return None;
    }
    var nodes := NodesOf(h.items);
    var shown, omitted := SizeMapProjection.Partition(nodes);
    SizeMapProjection.GreedyIsUnique(nodes, shown, ShownOf(h));
    assert omitted == OmittedOf(h);
    var total := SizeMapOther.OtherBytes(nodes, omitted);
    assert total == OtherTotal(h, omitted);
    var context := PublicContext(host, h, shown, omitted, total);
    request := Some(Assembled(host, h, context, Mappings(host, h, shown, omitted)));
  }
}

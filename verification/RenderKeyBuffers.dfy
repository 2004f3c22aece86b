/** The key encoders as the program runs them: a growing byte buffer, extended field by field. */
module RenderKeyBuffers {
  import opened Common
  import opened RenderKeys

  lemma {:induction false} LeAppend(n: nat, width: nat, tail: seq<Byte>)
    ensures Le(n, width, []) + tail == Le(n, width, tail)
    decreases width
  {
    if width != 0 {
      LeAppend(n / 256, width - 1, tail);
      assert ([n % 256] + Le(n / 256, width - 1, [])) + tail == [n % 256] + (Le(n / 256, width - 1, []) + tail);
    }
  }

  class ByteBuffer {
    var bytes: seq<Byte>

    constructor ()
      ensures bytes == []
    {
      bytes := [];
    }

    method Extend(slice: seq<Byte>)
      modifies this
      ensures forall tail :: bytes + tail == old(bytes) + (slice + tail)
    {
      bytes := bytes + slice;
    }

    method ExtendLe(n: nat, width: nat)
      modifies this
      ensures forall tail :: bytes + tail == old(bytes) + Le(n, width, tail)
    {
      forall tail ensures Le(n, width, []) + tail == Le(n, width, tail) { LeAppend(n, width, tail); }
      Extend(Le(n, width, []));
    }

    method ExtendU32(n: U32)
      modifies this
      ensures forall tail :: bytes + tail == old(bytes) + PutU32(n, tail)
    {
      ExtendLe(n, 4);
    }

    method ExtendU64(n: U64)
      modifies this
      ensures forall tail :: bytes + tail == old(bytes) + PutU64(n, tail)
    {
      ExtendLe(n, 8);
    }

    method ExtendI64(n: I64)
      modifies this
      ensures forall tail :: bytes + tail == old(bytes) + PutI64(n, tail)
    {
      ExtendLe(if n < 0 then n + 0x1_0000_0000_0000_0000 else n, 8);
    }

    method AppendBytes(value: Bytes)
      modifies this
      ensures forall tail :: bytes + tail == old(bytes) + PutBytes(value, tail)
    {
      ExtendU64(|value|);
      Extend(value);
    }

    method AppendId(value: StableId)
      modifies this
      ensures forall tail :: bytes + tail == old(bytes) + PutId(value, tail)
    {
      ExtendU32(value.namespace);
      ExtendU64(value.value);
    }

    method AppendOptionU64(value: Option<U64>)
      modifies this
      ensures forall tail :: bytes + tail == old(bytes) + PutOptionU64(value, tail)
    {
      match value
      case Some(n) =>
        Extend([1]);
        ExtendU64(n);
      case None => Extend([0]);
    }

    method AppendPluginValue(value: PluginValue)
      modifies this
      ensures forall tail :: bytes + tail == old(bytes) + PutValue(value, tail)
    {
      ExtendU32(value.kind);
      ExtendU32(value.reserved);
      ExtendI64(value.integer);
      ExtendU64(value.floatBits);
      AppendValueTail(value);
    }

    method AppendValueTail(value: PluginValue)
      modifies this
      ensures forall tail :: bytes + tail == old(bytes) + PutValueTail(value, tail)
    {
      AppendBytes(value.text);
      AppendBytes(value.payload);
      AppendId(value.opaqueSchema);
      ExtendU32(value.opaqueSchemaVersion);
      ExtendU32(value.reservedTail);
    }

    method AppendOptionPluginValue(value: Option<PluginValue>)
      modifies this
      ensures forall tail :: bytes + tail == old(bytes) + PutOptionValue(value, tail)
    {
      match value
      case Some(v) =>
        Extend([1]);
        AppendPluginValue(v);
      case None => Extend([0]);
    }

    method AppendColor(color: Color)
      modifies this
      ensures forall tail :: bytes + tail == old(bytes) + PutColor(color, tail)
    {
      forall tail
        ensures [color.red, color.green, color.blue, color.alpha] + tail == PutColor(color, tail)
      {
      }
      Extend([color.red, color.green, color.blue, color.alpha]);
    }

    method AppendTheme(theme: Theme)
      modifies this
      ensures forall tail :: bytes + tail == old(bytes) + PutTheme(theme, tail)
    {
      AppendColor(theme.foreground);
      AppendColor(theme.mutedForeground);
      AppendColor(theme.background);
      AppendColor(theme.selectionBackground);
      AppendColor(theme.accent);
    }

    method AppendAggregate(aggregate: Option<Aggregate>)
      modifies this
      ensures forall tail :: bytes + tail == old(bytes) + PutAggregate(aggregate, tail)
    {
      match aggregate
      case Some(a) =>
        Extend([1]);
        AppendOptionPluginValue(a.largestValue);
        AppendOptionU64(a.largestBytes);
      case None => Extend([0]);
    }

    method AppendError(error: Option<Bytes>)
      modifies this
      ensures forall tail :: bytes + tail == old(bytes) + PutError(error, tail)
    {
      match error
      case Some(text) =>
        Extend([1]);
        AppendBytes(text);
      case None => Extend([0]);
    }

    method AppendFlags(loading: bool, selected: bool, hovered: bool)
      modifies this
      ensures forall tail :: bytes + tail == old(bytes) + PutBool(loading, PutBool(selected, PutBool(hovered, tail)))
    {
      var flags: seq<Byte> := [if loading then 1 else 0, if selected then 1 else 0, if hovered then 1 else 0];
      forall tail ensures flags + tail == PutBool(loading, PutBool(selected, PutBool(hovered, tail))) { }
      Extend(flags);
    }

    method AppendNode(node: Node)
      modifies this
      ensures forall tail :: bytes + tail == old(bytes) + PutNode(node, tail)
    {
      AppendId(node.nodeId);
      match node.parentId {
        case Some(parent) =>
          Extend([1]);
          AppendId(parent);
        case None => Extend([0]);
      }
      AppendBytes(node.name);
      ExtendU32(node.kind);
      AppendOptionU64(node.exactBytes);
      ExtendU32(node.status);
    }
  }

  method AppendCellTail(buffer: ByteBuffer, context: CellContext)
    modifies buffer
    ensures forall tail :: buffer.bytes + tail == old(buffer.bytes) + PutCellTail(context, tail)
  {
    buffer.ExtendU32(context.dpiMilli);
    buffer.AppendTheme(context.theme);
    buffer.AppendBytes(context.settings);
    buffer.AppendId(context.itemId);
    buffer.ExtendU64(context.requestGeneration);
    buffer.ExtendU64(context.renderGeneration);
  }

  method AppendCell(buffer: ByteBuffer, context: CellContext)
    modifies buffer
    ensures forall tail :: buffer.bytes + tail == old(buffer.bytes) + PutCell(context, tail)
  {
    buffer.AppendOptionPluginValue(context.value);
    buffer.AppendOptionU64(context.exactBytes);
    buffer.AppendAggregate(context.aggregate);
    label middle:
    buffer.AppendFlags(context.loading, context.selected, context.hovered);
    buffer.AppendError(context.error);
    AppendCellTail(buffer, context);
    assert forall tail :: buffer.bytes + tail == old@middle(buffer.bytes) + PutCellMiddle(context, tail);
  }

  lemma EmptyEnds(s: seq<Byte>)
    ensures s + [] == s && [] + s == s
  {
  }

  method ComputeCellKey(context: CellContext) returns (key: seq<Byte>)
    ensures key == CellRenderKey(context)
  {
    var buffer := new ByteBuffer();
    AppendCell(buffer, context);
    EmptyEnds(buffer.bytes);
    EmptyEnds(PutCell(context, []));
    key := buffer.bytes;
  }

  lemma {:induction false} PutNodesSnoc(nodes: seq<Node>, node: Node, tail: seq<Byte>)
    ensures PutNodes(nodes + [node], tail) == PutNodes(nodes, PutNode(node, tail))
  {
    if nodes != [] {
      assert (nodes + [node])[1..] == nodes[1..] + [node];
      PutNodesSnoc(nodes[1..], node, tail);
    }
  }

  lemma {:induction false} PutSelectionSnoc(ids: seq<StableId>, id: StableId, tail: seq<Byte>)
    ensures PutSelection(ids + [id], tail) == PutSelection(ids, PutId(id, tail))
  {
    if ids != [] {
      assert (ids + [id])[1..] == ids[1..] + [id];
      PutSelectionSnoc(ids[1..], id, tail);
    }
  }

  ghost predicate NodesWritten(start: seq<Byte>, bytes: seq<Byte>, nodes: seq<Node>) {
    forall tail :: bytes + tail == start + PutNodes(nodes, tail)
  }

  ghost predicate SelectionWritten(start: seq<Byte>, bytes: seq<Byte>, ids: seq<StableId>) {
    forall tail :: bytes + tail == start + PutSelection(ids, tail)
  }

  lemma NodeWritten(start: seq<Byte>, before: seq<Byte>, after: seq<Byte>, nodes: seq<Node>, node: Node)
    requires NodesWritten(start, before, nodes)
    requires forall tail :: after + tail == before + PutNode(node, tail)
    ensures NodesWritten(start, after, nodes + [node])
  {
    forall tail ensures after + tail == start + PutNodes(nodes + [node], tail) {
      PutNodesSnoc(nodes, node, tail);
      assert before + PutNode(node, tail) == start + PutNodes(nodes, PutNode(node, tail));
    }
  }

  lemma IdWritten(start: seq<Byte>, before: seq<Byte>, after: seq<Byte>, ids: seq<StableId>, id: StableId)
    requires SelectionWritten(start, before, ids)
    requires forall tail :: after + tail == before + PutId(id, tail)
    ensures SelectionWritten(start, after, ids + [id])
  {
    forall tail ensures after + tail == start + PutSelection(ids + [id], tail) {
      PutSelectionSnoc(ids, id, tail);
      assert before + PutId(id, tail) == start + PutSelection(ids, PutId(id, tail));
    }
  }

  method AppendNodes(buffer: ByteBuffer, nodes: seq<Node>)
    modifies buffer
    ensures forall tail :: buffer.bytes + tail == old(buffer.bytes) + PutNodes(nodes, tail)
  {
    assert nodes[..0] == [];
    for i := 0 to |nodes|
      invariant NodesWritten(old(buffer.bytes), buffer.bytes, nodes[..i])
    {
      ghost var before := buffer.bytes;
      buffer.AppendNode(nodes[i]);
      NodeWritten(old(buffer.bytes), before, buffer.bytes, nodes[..i], nodes[i]);
      assert nodes[..i + 1] == nodes[..i] + [nodes[i]];
    }
    assert nodes[..|nodes|] == nodes;
  }

  method AppendSelection(buffer: ByteBuffer, ids: seq<StableId>)
    modifies buffer
    ensures forall tail :: buffer.bytes + tail == old(buffer.bytes) + PutSelection(ids, tail)
  {
    assert ids[..0] == [];
    for i := 0 to |ids|
      invariant SelectionWritten(old(buffer.bytes), buffer.bytes, ids[..i])
    {
      ghost var before := buffer.bytes;
      buffer.AppendId(ids[i]);
      IdWritten(old(buffer.bytes), before, buffer.bytes, ids[..i], ids[i]);
      assert ids[..i + 1] == ids[..i] + [ids[i]];
    }
    assert ids[..|ids|] == ids;
  }

  method AppendSnapshot(buffer: ByteBuffer, context: SizeMapContext)
    modifies buffer
    ensures forall tail :: buffer.bytes + tail == old(buffer.bytes) + PutSizeMap(context, tail)
  {
    buffer.ExtendU64(context.snapshot.locationGeneration);
    buffer.ExtendU64(context.snapshot.refreshGeneration);
    buffer.ExtendU64(context.snapshot.renderRevision);
    label list:
    buffer.ExtendU64(|context.nodes|);
    AppendNodes(buffer, context.nodes);
    label last:
    buffer.ExtendU32(context.widthMilli);
    buffer.ExtendU32(context.heightMilli);
    buffer.ExtendU32(context.dpiMilli);
    buffer.AppendTheme(context.theme);
    buffer.ExtendU64(|context.selected|);
    AppendSelection(buffer, context.selected);
    buffer.AppendBytes(context.settings);
    assert forall tail :: buffer.bytes + tail == old@last(buffer.bytes) + PutSizeMapTail(context, tail);
    assert forall tail :: old@last(buffer.bytes) + tail == old@list(buffer.bytes) + PutNodeList(context.nodes, tail);
  }

  method AppendScope(buffer: ByteBuffer, scope: Scope)
    modifies buffer
    ensures forall tail :: buffer.bytes + tail
                        == old(buffer.bytes) + PutU64(scope.hostScope, PutU64(scope.packageIncarnation, tail))
  {
    buffer.ExtendU64(scope.hostScope);
    buffer.ExtendU64(scope.packageIncarnation);
  }

  method ScopedBytes(context: SizeMapContext, scope: Scope) returns (bytes: seq<Byte>)
    ensures bytes == PutScoped(context, scope)
  {
    var buffer := new ByteBuffer();
    AppendSnapshot(buffer, context);
    AppendScope(buffer, scope);
    EmptyEnds(buffer.bytes);
    EmptyEnds(PutScoped(context, scope));
    bytes := buffer.bytes;
  }

  /** Overwrites the incoming revision twice: with 1 for the hash, then with the hash for the key. */
  method ComputeSizeMapKey(context: SizeMapContext, scope: Scope, revisionFor: seq<Byte> -> U64)
    returns (revised: SizeMapContext, key: seq<Byte>)
    ensures revised == Revised(context, scope, revisionFor)
    ensures key == SizeMapRenderKey(context, scope, revisionFor)
  {
    revised := context.(snapshot := context.snapshot.(renderRevision := 1));
    var revisionInput := ScopedBytes(revised, scope);
    revised := revised.(snapshot := revised.snapshot.(renderRevision := revisionFor(revisionInput)));
    RevisionsCommute(context, 1, revisionFor(revisionInput));
    key := ScopedBytes(revised, scope);
  }
}

/**
 * The byte keys that identify a render request.
 *
 * Each encoder is written with the bytes that follow it as its last argument, so that "equal bytes
 * mean equal values and equal rest" composes field by field.
 */
module RenderKeys {
  import opened Common

  type Byte = n: int | 0 <= n < 256
  type U32 = n: int | 0 <= n < 0x1_0000_0000
  type U64 = n: int | 0 <= n < 0x1_0000_0000_0000_0000
  type I64 = n: int | -0x8000_0000_0000_0000 <= n < 0x8000_0000_0000_0000

  /** In-memory byte strings; their length always fits the 64-bit length prefix. */
  type Bytes = s: seq<Byte> | |s| < 0x1_0000_0000_0000_0000

  // -------------------------------------------------------------------- contexts

  datatype StableId = StableId(namespace: U32, value: U64)

  datatype PluginValue = PluginValue(
    kind: U32, reserved: U32, integer: I64, floatBits: U64, text: Bytes, payload: Bytes,
    opaqueSchema: StableId, opaqueSchemaVersion: U32, reservedTail: U32)

  datatype Color = Color(red: Byte, green: Byte, blue: Byte, alpha: Byte)

  datatype Theme = Theme(
    foreground: Color, mutedForeground: Color, background: Color, selectionBackground: Color, accent: Color)

  datatype Aggregate = Aggregate(largestValue: Option<PluginValue>, largestBytes: Option<U64>)

  datatype CellContext = CellContext(
    value: Option<PluginValue>, exactBytes: Option<U64>, aggregate: Option<Aggregate>,
    loading: bool, error: Option<Bytes>, selected: bool, hovered: bool, dpiMilli: U32, theme: Theme,
    settings: Bytes, itemId: StableId, renderGeneration: U64, requestGeneration: U64)

  datatype Node = Node(
    nodeId: StableId, parentId: Option<StableId>, name: Bytes, kind: U32, exactBytes: Option<U64>, status: U32)

  type Nodes = s: seq<Node> | |s| < 0x1_0000_0000_0000_0000
  type Selection = s: seq<StableId> | |s| < 0x1_0000_0000_0000_0000

  datatype Snapshot = Snapshot(locationGeneration: U64, refreshGeneration: U64, renderRevision: U64)

  datatype SizeMapContext = SizeMapContext(
    snapshot: Snapshot, nodes: Nodes, widthMilli: U32, heightMilli: U32, dpiMilli: U32,
    theme: Theme, selected: Selection, settings: Bytes)

  // ------------------------------------------------------------- fixed-width numbers

  function Power256(width: nat): nat {
    if width == 0 then 1 else 256 * Power256(width - 1)
  }

  /** `width` little-endian bytes of `n`, then `tail`. */
  function Le(n: nat, width: nat, tail: seq<Byte>): seq<Byte>
    decreases width
  {
    if width == 0 then tail else [n % 256] + Le(n / 256, width - 1, tail)
  }

  lemma {:induction false} LeInjective(a: nat, b: nat, width: nat, s: seq<Byte>, t: seq<Byte>)
    requires a < Power256(width) && b < Power256(width)
    requires Le(a, width, s) == Le(b, width, t)
    ensures a == b && s == t
    decreases width
  {
    if width != 0 {
      var x, y := Le(a, width, s), Le(b, width, t);
      assert x[0] == a % 256 && y[0] == b % 256;
      assert x[1..] == Le(a / 256, width - 1, s) && y[1..] == Le(b / 256, width - 1, t);
      LeInjective(a / 256, b / 256, width - 1, s, t);
    }
  }

  function PutU32(n: U32, tail: seq<Byte>): seq<Byte> { Le(n, 4, tail) }

  function PutU64(n: U64, tail: seq<Byte>): seq<Byte> { Le(n, 8, tail) }

  /** Two's complement. */
  function PutI64(n: I64, tail: seq<Byte>): seq<Byte> {
    Le(if n < 0 then n + 0x1_0000_0000_0000_0000 else n, 8, tail)
  }

  lemma Powers()
    ensures Power256(4) == 0x1_0000_0000 && Power256(8) == 0x1_0000_0000_0000_0000
  {
    assert Power256(1) == 256 && Power256(2) == 0x1_0000 && Power256(3) == 0x100_0000;
    assert Power256(4) == 0x1_0000_0000 && Power256(5) == 0x100_0000_0000;
    assert Power256(6) == 0x1_0000_0000_0000 && Power256(7) == 0x100_0000_0000_0000;
  }

  lemma U32Injective(a: U32, b: U32, s: seq<Byte>, t: seq<Byte>)
    requires PutU32(a, s) == PutU32(b, t)
    ensures a == b && s == t
  {
    Powers();
    LeInjective(a, b, 4, s, t);
  }

  lemma U64Injective(a: U64, b: U64, s: seq<Byte>, t: seq<Byte>)
    requires PutU64(a, s) == PutU64(b, t)
    ensures a == b && s == t
  {
    Powers();
    LeInjective(a, b, 8, s, t);
  }

  lemma I64Injective(a: I64, b: I64, s: seq<Byte>, t: seq<Byte>)
    requires PutI64(a, s) == PutI64(b, t)
    ensures a == b && s == t
  {
    Powers();
    LeInjective(if a < 0 then a + 0x1_0000_0000_0000_0000 else a,
                if b < 0 then b + 0x1_0000_0000_0000_0000 else b, 8, s, t);
  }

  // ------------------------------------------------------------------- the parts

  function PutByte(b: Byte, tail: seq<Byte>): seq<Byte> { [b] + tail }

  function PutBool(b: bool, tail: seq<Byte>): seq<Byte> { PutByte(if b then 1 else 0, tail) }

  lemma ByteInjective(a: Byte, b: Byte, s: seq<Byte>, t: seq<Byte>)
    requires PutByte(a, s) == PutByte(b, t)
    ensures a == b && s == t
  {
    assert PutByte(a, s)[0] == a && PutByte(b, t)[0] == b;
    assert PutByte(a, s)[1..] == s && PutByte(b, t)[1..] == t;
  }

  function PutBytes(v: Bytes, tail: seq<Byte>): seq<Byte> { PutU64(|v|, v + tail) }

  lemma BytesInjective(a: Bytes, b: Bytes, s: seq<Byte>, t: seq<Byte>)
    requires PutBytes(a, s) == PutBytes(b, t)
    ensures a == b && s == t
  {
    U64Injective(|a|, |b|, a + s, b + t);
    assert (a + s)[..|a|] == a && (b + t)[..|b|] == b;
    assert (a + s)[|a|..] == s && (b + t)[|b|..] == t;
  }

  function PutId(v: StableId, tail: seq<Byte>): seq<Byte> { PutU32(v.namespace, PutU64(v.value, tail)) }

  lemma IdInjective(a: StableId, b: StableId, s: seq<Byte>, t: seq<Byte>)
    requires PutId(a, s) == PutId(b, t)
    ensures a == b && s == t
  {
    U32Injective(a.namespace, b.namespace, PutU64(a.value, s), PutU64(b.value, t));
    U64Injective(a.value, b.value, s, t);
  }

  function PutOptionU64(v: Option<U64>, tail: seq<Byte>): seq<Byte> {
    if v.None? then PutByte(0, tail) else PutByte(1, PutU64(v.value, tail))
  }

  lemma OptionU64Injective(a: Option<U64>, b: Option<U64>, s: seq<Byte>, t: seq<Byte>)
    requires PutOptionU64(a, s) == PutOptionU64(b, t)
    ensures a == b && s == t
  {
    ByteInjective(if a.None? then 0 else 1, if b.None? then 0 else 1,
                  if a.None? then s else PutU64(a.value, s), if b.None? then t else PutU64(b.value, t));
    if a.Some? {
      U64Injective(a.value, b.value, s, t);
    }
  }

  function PutValue(v: PluginValue, tail: seq<Byte>): seq<Byte> {
    PutU32(v.kind, PutU32(v.reserved, PutI64(v.integer, PutU64(v.floatBits, PutValueTail(v, tail)))))
  }

  function PutValueTail(v: PluginValue, tail: seq<Byte>): seq<Byte> {
    PutBytes(v.text, PutBytes(v.payload, PutId(v.opaqueSchema,
      PutU32(v.opaqueSchemaVersion, PutU32(v.reservedTail, tail)))))
  }

  lemma ValueInjective(a: PluginValue, b: PluginValue, s: seq<Byte>, t: seq<Byte>)
    requires PutValue(a, s) == PutValue(b, t)
    ensures a == b && s == t
  {
    var a1, b1 := PutValueTail(a, s), PutValueTail(b, t);
    var a2, b2 := PutU64(a.floatBits, a1), PutU64(b.floatBits, b1);
    var a3, b3 := PutI64(a.integer, a2), PutI64(b.integer, b2);
    U32Injective(a.kind, b.kind, PutU32(a.reserved, a3), PutU32(b.reserved, b3));
    U32Injective(a.reserved, b.reserved, a3, b3);
    I64Injective(a.integer, b.integer, a2, b2);
    U64Injective(a.floatBits, b.floatBits, a1, b1);
    ValueTailInjective(a, b, s, t);
  }

  lemma ValueTailInjective(a: PluginValue, b: PluginValue, s: seq<Byte>, t: seq<Byte>)
    requires PutValueTail(a, s) == PutValueTail(b, t)
    ensures a.text == b.text && a.payload == b.payload && a.opaqueSchema == b.opaqueSchema
    ensures a.opaqueSchemaVersion == b.opaqueSchemaVersion && a.reservedTail == b.reservedTail && s == t
  {
    var a1, b1 := PutU32(a.reservedTail, s), PutU32(b.reservedTail, t);
    var a2, b2 := PutU32(a.opaqueSchemaVersion, a1), PutU32(b.opaqueSchemaVersion, b1);
    var a3, b3 := PutId(a.opaqueSchema, a2), PutId(b.opaqueSchema, b2);
    BytesInjective(a.text, b.text, PutBytes(a.payload, a3), PutBytes(b.payload, b3));
    BytesInjective(a.payload, b.payload, a3, b3);
    IdInjective(a.opaqueSchema, b.opaqueSchema, a2, b2);
    U32Injective(a.opaqueSchemaVersion, b.opaqueSchemaVersion, a1, b1);
    U32Injective(a.reservedTail, b.reservedTail, s, t);
  }

  function PutOptionValue(v: Option<PluginValue>, tail: seq<Byte>): seq<Byte> {
    if v.None? then PutByte(0, tail) else PutByte(1, PutValue(v.value, tail))
  }

  lemma OptionValueInjective(a: Option<PluginValue>, b: Option<PluginValue>, s: seq<Byte>, t: seq<Byte>)
    requires PutOptionValue(a, s) == PutOptionValue(b, t)
    ensures a == b && s == t
  {
    ByteInjective(if a.None? then 0 else 1, if b.None? then 0 else 1,
                  if a.None? then s else PutValue(a.value, s), if b.None? then t else PutValue(b.value, t));
    if a.Some? {
      ValueInjective(a.value, b.value, s, t);
    }
  }

  function PutColor(c: Color, tail: seq<Byte>): seq<Byte> {
    PutByte(c.red, PutByte(c.green, PutByte(c.blue, PutByte(c.alpha, tail))))
  }

  lemma ColorInjective(a: Color, b: Color, s: seq<Byte>, t: seq<Byte>)
    requires PutColor(a, s) == PutColor(b, t)
    ensures a == b && s == t
  {
    var a1, b1 := PutByte(a.alpha, s), PutByte(b.alpha, t);
    var a2, b2 := PutByte(a.blue, a1), PutByte(b.blue, b1);
    ByteInjective(a.red, b.red, PutByte(a.green, a2), PutByte(b.green, b2));
    ByteInjective(a.green, b.green, a2, b2);
    ByteInjective(a.blue, b.blue, a1, b1);
    ByteInjective(a.alpha, b.alpha, s, t);
  }

  function PutTheme(v: Theme, tail: seq<Byte>): seq<Byte> {
    PutColor(v.foreground, PutColor(v.mutedForeground, PutColor(v.background,
      PutColor(v.selectionBackground, PutColor(v.accent, tail)))))
  }

  lemma ThemeInjective(a: Theme, b: Theme, s: seq<Byte>, t: seq<Byte>)
    requires PutTheme(a, s) == PutTheme(b, t)
    ensures a == b && s == t
  {
    var a1, b1 := PutColor(a.accent, s), PutColor(b.accent, t);
    var a2, b2 := PutColor(a.selectionBackground, a1), PutColor(b.selectionBackground, b1);
    var a3, b3 := PutColor(a.background, a2), PutColor(b.background, b2);
    ColorInjective(a.foreground, b.foreground, PutColor(a.mutedForeground, a3), PutColor(b.mutedForeground, b3));
    ColorInjective(a.mutedForeground, b.mutedForeground, a3, b3);
    ColorInjective(a.background, b.background, a2, b2);
    ColorInjective(a.selectionBackground, b.selectionBackground, a1, b1);
    ColorInjective(a.accent, b.accent, s, t);
  }

  // -------------------------------------------------------------------- cell keys

  function PutAggregate(v: Option<Aggregate>, tail: seq<Byte>): seq<Byte> {
    if v.None? then PutByte(0, tail)
    else PutByte(1, PutOptionValue(v.value.largestValue, PutOptionU64(v.value.largestBytes, tail)))
  }

  lemma AggregateInjective(a: Option<Aggregate>, b: Option<Aggregate>, s: seq<Byte>, t: seq<Byte>)
    requires PutAggregate(a, s) == PutAggregate(b, t)
    ensures a == b && s == t
  {
    if a.Some? && b.Some? {
      var a1, b1 := PutOptionU64(a.value.largestBytes, s), PutOptionU64(b.value.largestBytes, t);
      ByteInjective(1, 1, PutOptionValue(a.value.largestValue, a1), PutOptionValue(b.value.largestValue, b1));
      OptionValueInjective(a.value.largestValue, b.value.largestValue, a1, b1);
      OptionU64Injective(a.value.largestBytes, b.value.largestBytes, s, t);
    } else {
      assert PutAggregate(a, s)[0] == if a.None? then 0 else 1;
      assert PutAggregate(b, t)[0] == if b.None? then 0 else 1;
      ByteInjective(0, 0, s, t);
    }
  }

  function PutError(v: Option<Bytes>, tail: seq<Byte>): seq<Byte> {
    if v.None? then PutByte(0, tail) else PutByte(1, PutBytes(v.value, tail))
  }

  lemma ErrorInjective(a: Option<Bytes>, b: Option<Bytes>, s: seq<Byte>, t: seq<Byte>)
    requires PutError(a, s) == PutError(b, t)
    ensures a == b && s == t
  {
    ByteInjective(if a.None? then 0 else 1, if b.None? then 0 else 1,
                  if a.None? then s else PutBytes(a.value, s), if b.None? then t else PutBytes(b.value, t));
    if a.Some? {
      BytesInjective(a.value, b.value, s, t);
    }
  }

  function PutCellTail(c: CellContext, tail: seq<Byte>): seq<Byte> {
    PutU32(c.dpiMilli, PutTheme(c.theme, PutBytes(c.settings, PutId(c.itemId,
      PutU64(c.requestGeneration, PutU64(c.renderGeneration, tail))))))
  }

  function PutCellMiddle(c: CellContext, tail: seq<Byte>): seq<Byte> {
    PutBool(c.loading, PutBool(c.selected, PutBool(c.hovered, PutError(c.error, PutCellTail(c, tail)))))
  }

  function PutCell(c: CellContext, tail: seq<Byte>): seq<Byte> {
    PutOptionValue(c.value, PutOptionU64(c.exactBytes, PutAggregate(c.aggregate, PutCellMiddle(c, tail))))
  }

  function CellRenderKey(c: CellContext): seq<Byte> { PutCell(c, []) }

  lemma CellTailInjective(a: CellContext, b: CellContext, s: seq<Byte>, t: seq<Byte>)
    requires PutCellTail(a, s) == PutCellTail(b, t)
    ensures a.dpiMilli == b.dpiMilli && a.theme == b.theme && a.settings == b.settings && a.itemId == b.itemId
    ensures a.requestGeneration == b.requestGeneration && a.renderGeneration == b.renderGeneration && s == t
  {
    var a1, b1 := PutU64(a.renderGeneration, s), PutU64(b.renderGeneration, t);
    var a2, b2 := PutU64(a.requestGeneration, a1), PutU64(b.requestGeneration, b1);
    var a3, b3 := PutId(a.itemId, a2), PutId(b.itemId, b2);
    var a4, b4 := PutBytes(a.settings, a3), PutBytes(b.settings, b3);
    U32Injective(a.dpiMilli, b.dpiMilli, PutTheme(a.theme, a4), PutTheme(b.theme, b4));
    ThemeInjective(a.theme, b.theme, a4, b4);
    BytesInjective(a.settings, b.settings, a3, b3);
    IdInjective(a.itemId, b.itemId, a2, b2);
    U64Injective(a.requestGeneration, b.requestGeneration, a1, b1);
    U64Injective(a.renderGeneration, b.renderGeneration, s, t);
  }

  lemma CellMiddleInjective(a: CellContext, b: CellContext, s: seq<Byte>, t: seq<Byte>)
    requires PutCellMiddle(a, s) == PutCellMiddle(b, t)
    ensures a.loading == b.loading && a.selected == b.selected && a.hovered == b.hovered && a.error == b.error
    ensures PutCellTail(a, s) == PutCellTail(b, t)
  {
    var a1, b1 := PutError(a.error, PutCellTail(a, s)), PutError(b.error, PutCellTail(b, t));
    var a2, b2 := PutBool(a.hovered, a1), PutBool(b.hovered, b1);
    ByteInjective(if a.loading then 1 else 0, if b.loading then 1 else 0,
                  PutBool(a.selected, a2), PutBool(b.selected, b2));
    ByteInjective(if a.selected then 1 else 0, if b.selected then 1 else 0, a2, b2);
    ByteInjective(if a.hovered then 1 else 0, if b.hovered then 1 else 0, a1, b1);
    ErrorInjective(a.error, b.error, PutCellTail(a, s), PutCellTail(b, t));
  }

  /** Equal cell keys come only from equal contexts, field by field. */
  lemma CellRenderKeyInjective(a: CellContext, b: CellContext)
    ensures CellRenderKey(a) == CellRenderKey(b) <==> a == b
  {
    if CellRenderKey(a) == CellRenderKey(b) {
      var a1, b1 := PutCellMiddle(a, []), PutCellMiddle(b, []);
      var a2, b2 := PutAggregate(a.aggregate, a1), PutAggregate(b.aggregate, b1);
      OptionValueInjective(a.value, b.value, PutOptionU64(a.exactBytes, a2), PutOptionU64(b.exactBytes, b2));
      OptionU64Injective(a.exactBytes, b.exactBytes, a2, b2);
      AggregateInjective(a.aggregate, b.aggregate, a1, b1);
      CellMiddleInjective(a, b, [], []);
      CellTailInjective(a, b, [], []);
    }
  }

  // ---------------------------------------------------------------- size-map keys

  function PutParent(v: Option<StableId>, tail: seq<Byte>): seq<Byte> {
    if v.None? then PutByte(0, tail) else PutByte(1, PutId(v.value, tail))
  }

  lemma ParentInjective(a: Option<StableId>, b: Option<StableId>, s: seq<Byte>, t: seq<Byte>)
    requires PutParent(a, s) == PutParent(b, t)
    ensures a == b && s == t
  {
    ByteInjective(if a.None? then 0 else 1, if b.None? then 0 else 1,
                  if a.None? then s else PutId(a.value, s), if b.None? then t else PutId(b.value, t));
    if a.Some? {
      IdInjective(a.value, b.value, s, t);
    }
  }

  function PutNode(v: Node, tail: seq<Byte>): seq<Byte> {
    PutId(v.nodeId, PutParent(v.parentId, PutBytes(v.name, PutU32(v.kind,
      PutOptionU64(v.exactBytes, PutU32(v.status, tail))))))
  }

  lemma NodeInjective(a: Node, b: Node, s: seq<Byte>, t: seq<Byte>)
    requires PutNode(a, s) == PutNode(b, t)
    ensures a == b && s == t
  {
    var a1, b1 := PutU32(a.status, s), PutU32(b.status, t);
    var a2, b2 := PutOptionU64(a.exactBytes, a1), PutOptionU64(b.exactBytes, b1);
    var a3, b3 := PutU32(a.kind, a2), PutU32(b.kind, b2);
    var a4, b4 := PutBytes(a.name, a3), PutBytes(b.name, b3);
    IdInjective(a.nodeId, b.nodeId, PutParent(a.parentId, a4), PutParent(b.parentId, b4));
    ParentInjective(a.parentId, b.parentId, a4, b4);
    BytesInjective(a.name, b.name, a3, b3);
    U32Injective(a.kind, b.kind, a2, b2);
    OptionU64Injective(a.exactBytes, b.exactBytes, a1, b1);
    U32Injective(a.status, b.status, s, t);
  }

  function PutNodes(v: seq<Node>, tail: seq<Byte>): seq<Byte> {
    if v == [] then tail else PutNode(v[0], PutNodes(v[1..], tail))
  }

  lemma {:induction false} NodesInjective(a: seq<Node>, b: seq<Node>, s: seq<Byte>, t: seq<Byte>)
    requires |a| == |b| && PutNodes(a, s) == PutNodes(b, t)
    ensures a == b && s == t
  {
    if a != [] {
      NodeInjective(a[0], b[0], PutNodes(a[1..], s), PutNodes(b[1..], t));
      NodesInjective(a[1..], b[1..], s, t);
      assert a == [a[0]] + a[1..] && b == [b[0]] + b[1..];
    }
  }

  function PutSelection(v: seq<StableId>, tail: seq<Byte>): seq<Byte> {
    if v == [] then tail else PutId(v[0], PutSelection(v[1..], tail))
  }

  lemma {:induction false} SelectionInjective(a: seq<StableId>, b: seq<StableId>, s: seq<Byte>, t: seq<Byte>)
    requires |a| == |b| && PutSelection(a, s) == PutSelection(b, t)
    ensures a == b && s == t
  {
    if a != [] {
      IdInjective(a[0], b[0], PutSelection(a[1..], s), PutSelection(b[1..], t));
      SelectionInjective(a[1..], b[1..], s, t);
      assert a == [a[0]] + a[1..] && b == [b[0]] + b[1..];
    }
  }

  function PutSizeMapTail(c: SizeMapContext, tail: seq<Byte>): seq<Byte> {
    PutU32(c.widthMilli, PutU32(c.heightMilli, PutU32(c.dpiMilli, PutTheme(c.theme,
      PutU64(|c.selected|, PutSelection(c.selected, PutBytes(c.settings, tail)))))))
  }

  function PutSnapshot(v: Snapshot, tail: seq<Byte>): seq<Byte> {
    PutU64(v.locationGeneration, PutU64(v.refreshGeneration, PutU64(v.renderRevision, tail)))
  }

  lemma SnapshotInjective(a: Snapshot, b: Snapshot, s: seq<Byte>, t: seq<Byte>)
    requires PutSnapshot(a, s) == PutSnapshot(b, t)
    ensures a == b && s == t
  {
    var a1, b1 := PutU64(a.renderRevision, s), PutU64(b.renderRevision, t);
    U64Injective(a.locationGeneration, b.locationGeneration,
                 PutU64(a.refreshGeneration, a1), PutU64(b.refreshGeneration, b1));
    U64Injective(a.refreshGeneration, b.refreshGeneration, a1, b1);
    U64Injective(a.renderRevision, b.renderRevision, s, t);
  }

  function PutNodeList(v: Nodes, tail: seq<Byte>): seq<Byte> { PutU64(|v|, PutNodes(v, tail)) }

  lemma NodeListInjective(a: Nodes, b: Nodes, s: seq<Byte>, t: seq<Byte>)
    requires PutNodeList(a, s) == PutNodeList(b, t)
    ensures a == b && s == t
  {
    U64Injective(|a|, |b|, PutNodes(a, s), PutNodes(b, t));
    NodesInjective(a, b, s, t);
  }

  function PutSizeMap(c: SizeMapContext, tail: seq<Byte>): seq<Byte> {
    PutSnapshot(c.snapshot, PutNodeList(c.nodes, PutSizeMapTail(c, tail)))
  }

  function SizeMapSnapshotBytes(c: SizeMapContext): seq<Byte> { PutSizeMap(c, []) }

  lemma SizeMapTailInjective(a: SizeMapContext, b: SizeMapContext, s: seq<Byte>, t: seq<Byte>)
    requires PutSizeMapTail(a, s) == PutSizeMapTail(b, t)
    ensures a.widthMilli == b.widthMilli && a.heightMilli == b.heightMilli && a.dpiMilli == b.dpiMilli
    ensures a.theme == b.theme && a.selected == b.selected && a.settings == b.settings && s == t
  {
    var a1, b1 := PutBytes(a.settings, s), PutBytes(b.settings, t);
    var a2, b2 := PutSelection(a.selected, a1), PutSelection(b.selected, b1);
    var a3, b3 := PutU64(|a.selected|, a2), PutU64(|b.selected|, b2);
    var a4, b4 := PutTheme(a.theme, a3), PutTheme(b.theme, b3);
    var a5, b5 := PutU32(a.dpiMilli, a4), PutU32(b.dpiMilli, b4);
    U32Injective(a.widthMilli, b.widthMilli, PutU32(a.heightMilli, a5), PutU32(b.heightMilli, b5));
    U32Injective(a.heightMilli, b.heightMilli, a5, b5);
    U32Injective(a.dpiMilli, b.dpiMilli, a4, b4);
    ThemeInjective(a.theme, b.theme, a3, b3);
    U64Injective(|a.selected|, |b.selected|, a2, b2);
    SelectionInjective(a.selected, b.selected, a1, b1);
    BytesInjective(a.settings, b.settings, s, t);
  }

  lemma SizeMapInjective(a: SizeMapContext, b: SizeMapContext, s: seq<Byte>, t: seq<Byte>)
    requires PutSizeMap(a, s) == PutSizeMap(b, t)
    ensures a == b && s == t
  {
    var a1, b1 := PutSizeMapTail(a, s), PutSizeMapTail(b, t);
    SnapshotInjective(a.snapshot, b.snapshot, PutNodeList(a.nodes, a1), PutNodeList(b.nodes, b1));
    NodeListInjective(a.nodes, b.nodes, a1, b1);
    SizeMapTailInjective(a, b, s, t);
  }

  /** Equal snapshot bytes come only from equal node lists, viewports, selections and settings. */
  lemma SizeMapSnapshotInjective(a: SizeMapContext, b: SizeMapContext)
    ensures SizeMapSnapshotBytes(a) == SizeMapSnapshotBytes(b) <==> a == b
  {
    if SizeMapSnapshotBytes(a) == SizeMapSnapshotBytes(b) {
      SizeMapInjective(a, b, [], []);
    }
  }

  /** What the key depends on beside the context: the hashed host scope and the package incarnation. */
  datatype Scope = Scope(hostScope: U64, packageIncarnation: U64)

  function PutScoped(c: SizeMapContext, scope: Scope): seq<Byte> {
    PutSizeMap(c, PutU64(scope.hostScope, PutU64(scope.packageIncarnation, [])))
  }

  function WithRevision(c: SizeMapContext, revision: U64): SizeMapContext {
    c.(snapshot := c.snapshot.(renderRevision := revision))
  }

  /** The context whose revision is the hash of itself under revision 1; `revisionFor` is the hasher. */
  function Revised(c: SizeMapContext, scope: Scope, revisionFor: seq<Byte> -> U64): SizeMapContext {
    WithRevision(c, revisionFor(PutScoped(WithRevision(c, 1), scope)))
  }

  function SizeMapRenderKey(c: SizeMapContext, scope: Scope, revisionFor: seq<Byte> -> U64): seq<Byte> {
    PutScoped(Revised(c, scope, revisionFor), scope)
  }

  /** Equal scoped bytes come only from equal contexts, scopes and incarnations. */
  lemma ScopedInjective(a: SizeMapContext, p: Scope, b: SizeMapContext, q: Scope)
    ensures PutScoped(a, p) == PutScoped(b, q) <==> a == b && p == q
  {
    if PutScoped(a, p) == PutScoped(b, q) {
      var s, t := PutU64(p.packageIncarnation, []), PutU64(q.packageIncarnation, []);
      SizeMapInjective(a, b, PutU64(p.hostScope, s), PutU64(q.hostScope, t));
      U64Injective(p.hostScope, q.hostScope, s, t);
      U64Injective(p.packageIncarnation, q.packageIncarnation, [], []);
    }
  }

  lemma RevisionsCommute(c: SizeMapContext, x: U64, y: U64)
    ensures WithRevision(WithRevision(c, x), y) == WithRevision(c, y)
  {
  }

  /** The incoming revision has no influence. */
  lemma RevisedFromBase(a: SizeMapContext, b: SizeMapContext, scope: Scope, revisionFor: seq<Byte> -> U64)
    requires WithRevision(a, 1) == WithRevision(b, 1)
    ensures Revised(a, scope, revisionFor) == Revised(b, scope, revisionFor)
  {
    var revision := revisionFor(PutScoped(WithRevision(a, 1), scope));
    RevisionsCommute(a, 1, revision);
    RevisionsCommute(b, 1, revision);
  }

  /** Computing the key again, or from any incoming revision, gives the same context and the same key. */
  lemma SizeMapRenderKeyIdempotent(c: SizeMapContext, incoming: U64, scope: Scope, revisionFor: seq<Byte> -> U64)
    ensures Revised(Revised(c, scope, revisionFor), scope, revisionFor) == Revised(c, scope, revisionFor)
    ensures SizeMapRenderKey(Revised(c, scope, revisionFor), scope, revisionFor)
         == SizeMapRenderKey(c, scope, revisionFor)
    ensures SizeMapRenderKey(WithRevision(c, incoming), scope, revisionFor) == SizeMapRenderKey(c, scope, revisionFor)
  {
    RevisionsCommute(c, revisionFor(PutScoped(WithRevision(c, 1), scope)), 1);
    RevisedFromBase(Revised(c, scope, revisionFor), c, scope, revisionFor);
    RevisionsCommute(c, incoming, 1);
    RevisedFromBase(WithRevision(c, incoming), c, scope, revisionFor);
  }

  lemma SameKeySameBase(a: SizeMapContext, p: Scope, b: SizeMapContext, q: Scope, revisionFor: seq<Byte> -> U64)
    requires SizeMapRenderKey(a, p, revisionFor) == SizeMapRenderKey(b, q, revisionFor)
    ensures SameInput(a, p, b, q)
  {
    var x, y := Revised(a, p, revisionFor), Revised(b, q, revisionFor);
    ScopedInjective(x, p, y, q);
    RevisionsCommute(a, x.snapshot.renderRevision, 1);
    RevisionsCommute(b, y.snapshot.renderRevision, 1);
  }

  predicate SameInput(a: SizeMapContext, p: Scope, b: SizeMapContext, q: Scope) {
    p == q && WithRevision(a, 1) == WithRevision(b, 1)
  }

  lemma SameBaseSameKey(a: SizeMapContext, p: Scope, b: SizeMapContext, q: Scope, revisionFor: seq<Byte> -> U64)
    requires SameInput(a, p, b, q)
    ensures SizeMapRenderKey(a, p, revisionFor) == SizeMapRenderKey(b, q, revisionFor)
  {
    RevisedFromBase(a, b, p, revisionFor);
  }

  /** Equal size-map keys mean equal contexts up to the incoming revision, equal host scope and incarnation. */
  lemma SizeMapRenderKeyInjective(
    a: SizeMapContext, p: Scope, b: SizeMapContext, q: Scope, revisionFor: seq<Byte> -> U64)
    ensures SizeMapRenderKey(a, p, revisionFor) == SizeMapRenderKey(b, q, revisionFor) <==> SameInput(a, p, b, q)
  {
    if SameInput(a, p, b, q) {
      SameBaseSameKey(a, p, b, q, revisionFor);
    } else if SizeMapRenderKey(a, p, revisionFor) == SizeMapRenderKey(b, q, revisionFor) {
      SameKeySameBase(a, p, b, q, revisionFor);
    }
  }
}

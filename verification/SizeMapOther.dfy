/** The bytes of the "Other" aggregate: nothing counted twice, nothing lost. */
module SizeMapOther {
  import opened Common
  import opened SizeMapProjection

  function Min(a: nat, b: nat): nat {
    if a < b then a else b
  }

  /** The nodes listed by `s` that have no listed parent. */
  function TopBytes(nodes: seq<Node>, ids: set<nat>, s: seq<nat>): nat
    requires Indexes(nodes, s)
    decreases |s|
  {
    if s == [] then 0
    else
      var last := s[|s| - 1];
      TopBytes(nodes, ids, s[..|s| - 1]) + if ParentIn(nodes, ids, last) then 0 else Bytes(nodes[last])
  }

  /** The aggregate's fields: `None` while any omitted node is incomplete. */
  method OtherBytes(nodes: seq<Node>, omitted: seq<nat>) returns (bytes: Option<nat>)
    requires Indexes(nodes, omitted)
    ensures bytes.Some? <==> forall k :: 0 <= k < |omitted| ==> Complete(nodes[omitted[k]])
    ensures bytes.Some? ==> bytes.value == Min(TopBytes(nodes, IdsOf(nodes, omitted), omitted), U64_MAX)
  {
    var omittedIds := IdsOf(nodes, omitted);
    var total := 0;
    assert omitted[..0] == [];
    for k := 0 to |omitted|
      invariant forall a :: 0 <= a < k ==> Complete(nodes[omitted[a]])
      invariant total == Min(TopBytes(nodes, omittedIds, omitted[..k]), U64_MAX)
    {
      var node := nodes[omitted[k]];
      if !Complete(node) {
        return None;
      }
      assert omitted[..k + 1][..k] == omitted[..k];
      if !(node.parentId.Some? && node.parentId.value in omittedIds) {
        total := Min(total + Bytes(node), U64_MAX);
      }
    }
    assert omitted[..|omitted|] == omitted;
    bytes := Some(total);
  }

  // -------------------------------------------------------------- own bytes of a node

  /** The bytes of those of the first `n` nodes whose parent is `id`. */
  function ChildBytes(nodes: seq<Node>, id: nat, n: nat): nat
    requires n <= |nodes|
  {
    if n == 0 then 0
    else ChildBytes(nodes, id, n - 1) + if nodes[n - 1].parentId == Some(id) then Bytes(nodes[n - 1]) else 0
  }

  /** A node's bytes beyond those of its present children. */
  function OwnBytes(nodes: seq<Node>, i: nat): int
    requires i < |nodes|
  {
    Bytes(nodes[i]) - ChildBytes(nodes, nodes[i].itemId, |nodes|)
  }

  function SumOwn(nodes: seq<Node>, s: seq<nat>): int
    requires Indexes(nodes, s)
    decreases |s|
  {
    if s == [] then 0 else SumOwn(nodes, s[..|s| - 1]) + OwnBytes(nodes, s[|s| - 1])
  }

  function SumBytes(nodes: seq<Node>, s: seq<nat>): nat
    requires Indexes(nodes, s)
    decreases |s|
  {
    if s == [] then 0 else SumBytes(nodes, s[..|s| - 1]) + Bytes(nodes[s[|s| - 1]])
  }

  /** All child bytes of the listed nodes, counting only the first `n` nodes as children. */
  function SumChildren(nodes: seq<Node>, s: seq<nat>, n: nat): nat
    requires Indexes(nodes, s) && n <= |nodes|
    decreases |s|
  {
    if s == [] then 0
    else SumChildren(nodes, s[..|s| - 1], n) + ChildBytes(nodes, nodes[s[|s| - 1]].itemId, n)
  }

  lemma {:induction false} OwnSplits(nodes: seq<Node>, s: seq<nat>)
    requires Indexes(nodes, s)
    ensures SumOwn(nodes, s) == SumBytes(nodes, s) - SumChildren(nodes, s, |nodes|)
    decreases |s|
  {
    if s != [] {
      OwnSplits(nodes, s[..|s| - 1]);
    }
  }

  /** The bytes of the first `n` nodes whose parent is among `ids`. */
  function Attached(nodes: seq<Node>, ids: set<nat>, n: nat): nat
    requires n <= |nodes|
  {
    if n == 0 then 0
    else Attached(nodes, ids, n - 1) + if ParentIn(nodes, ids, n - 1) then Bytes(nodes[n - 1]) else 0
  }

  lemma IdsSplit(nodes: seq<Node>, s: seq<nat>)
    requires Indexes(nodes, s) && s != []
    ensures IdsOf(nodes, s) == IdsOf(nodes, s[..|s| - 1]) + {nodes[s[|s| - 1]].itemId}
  {
    assert s == s[..|s| - 1] + [s[|s| - 1]];
    IdsSnoc(nodes, s[..|s| - 1], s[|s| - 1]);
  }

  lemma LastIdIsNew(nodes: seq<Node>, s: seq<nat>)
    requires Indexes(nodes, s) && s != [] && Distinct(s) && DistinctIds(nodes)
    ensures nodes[s[|s| - 1]].itemId !in IdsOf(nodes, s[..|s| - 1])
  {
    var last, t := s[|s| - 1], s[..|s| - 1];
    forall k | 0 <= k < |t| ensures nodes[t[k]].itemId != nodes[last].itemId {
      assert t[k] == s[k] != last;
    }
  }

  /** One more node adds its bytes exactly once, to the one listed node it is a child of. */
  lemma {:induction false} OneMoreChild(nodes: seq<Node>, s: seq<nat>, n: nat)
    requires Indexes(nodes, s) && n < |nodes| && Distinct(s) && DistinctIds(nodes)
    ensures SumChildren(nodes, s, n + 1)
         == SumChildren(nodes, s, n) + if ParentIn(nodes, IdsOf(nodes, s), n) then Bytes(nodes[n]) else 0
    decreases |s|
  {
    if s != [] {
      OneMoreChild(nodes, s[..|s| - 1], n);
      IdsSplit(nodes, s);
      LastIdIsNew(nodes, s);
    }
  }

  /** The double sum, by child instead of by parent. */
  lemma {:induction false} ChildrenAreAttached(nodes: seq<Node>, s: seq<nat>, n: nat)
    requires Indexes(nodes, s) && n <= |nodes| && Distinct(s) && DistinctIds(nodes)
    ensures SumChildren(nodes, s, n) == Attached(nodes, IdsOf(nodes, s), n)
  {
    if n == 0 {
      NoChildren(nodes, s);
    } else {
      ChildrenAreAttached(nodes, s, n - 1);
      OneMoreChild(nodes, s, n - 1);
    }
  }

  lemma {:induction false} NoChildren(nodes: seq<Node>, s: seq<nat>)
    requires Indexes(nodes, s)
    ensures SumChildren(nodes, s, 0) == 0
    decreases |s|
  {
    if s != [] {
      NoChildren(nodes, s[..|s| - 1]);
    }
  }

  /** When every attached node is omitted, what is left over is the bytes of the top omitted nodes. */
  lemma {:induction false} AttachedAreOmitted(nodes: seq<Node>, ids: set<nat>, projected: set<nat>, n: nat)
    requires n <= |nodes| && forall j: nat :: j < |nodes| && ParentIn(nodes, ids, j) ==> j !in projected
    ensures Indexes(nodes, Omitted(projected, n))
    ensures SumBytes(nodes, Omitted(projected, n))
         == Attached(nodes, ids, n) + TopBytes(nodes, ids, Omitted(projected, n))
  {
    OmittedIndexes(nodes, projected, n);
    if n != 0 {
      AttachedAreOmitted(nodes, ids, projected, n - 1);
      OmittedIndexes(nodes, projected, n - 1);
      OneMoreNode(nodes, ids, projected, n);
      hide Omitted, Attached, SumBytes, TopBytes;
      if n - 1 in projected {
        assert !ParentIn(nodes, ids, n - 1);
      } else {
        OneMoreTop(nodes, ids, Omitted(projected, n - 1), n - 1);
      }
    }
  }

  lemma OneMoreNode(nodes: seq<Node>, ids: set<nat>, projected: set<nat>, n: nat)
    requires 0 < n <= |nodes|
    ensures Omitted(projected, n)
         == Omitted(projected, n - 1) + if n - 1 in projected then [] else [n - 1]
    ensures Attached(nodes, ids, n)
         == Attached(nodes, ids, n - 1) + if ParentIn(nodes, ids, n - 1) then Bytes(nodes[n - 1]) else 0
  {
  }

  lemma OmittedIndexes(nodes: seq<Node>, projected: set<nat>, n: nat)
    requires n <= |nodes|
    ensures Indexes(nodes, Omitted(projected, n))
  {
    var o := Omitted(projected, n);
    assert forall k :: 0 <= k < |o| ==> o[k] in o;
  }

  lemma OneMoreTop(nodes: seq<Node>, ids: set<nat>, s: seq<nat>, i: nat)
    requires Indexes(nodes, s) && i < |nodes|
    ensures Indexes(nodes, s + [i])
    ensures SumBytes(nodes, s + [i]) == SumBytes(nodes, s) + Bytes(nodes[i])
    ensures TopBytes(nodes, ids, s + [i])
         == TopBytes(nodes, ids, s) + if ParentIn(nodes, ids, i) then 0 else Bytes(nodes[i])
  {
    assert (s + [i])[..|s|] == s;
  }

  lemma ProjectionShape(nodes: seq<Node>, projected: seq<nat>, omitted: seq<nat>)
    requires Projection(nodes, projected, omitted)
    ensures Indexes(nodes, omitted) && Distinct(omitted)
  {
    assert forall k :: 0 <= k < |omitted| ==> omitted[k] in omitted;
  }

  /**
   * With distinct ids the top omitted nodes' bytes are exactly the omitted nodes' own bytes: each
   * node's bytes minus those of its present children, summed over everything omitted.
   */
  lemma OtherConservesBytes(nodes: seq<Node>, projected: seq<nat>, omitted: seq<nat>)
    requires Projection(nodes, projected, omitted) && DistinctIds(nodes)
    ensures Indexes(nodes, omitted)
    ensures TopBytes(nodes, IdsOf(nodes, omitted), omitted) == SumOwn(nodes, omitted)
  {
    ProjectionShape(nodes, projected, omitted);
    var ids := IdsOf(nodes, omitted);
    forall j: nat | j < |nodes| && ParentIn(nodes, ids, j) ensures j !in projected {
      var k :| 0 <= k < |omitted| && nodes[omitted[k]].itemId == nodes[j].parentId.value;
      assert omitted[k] in omitted;
      OmittedClosedUnderChildren(nodes, projected, omitted, omitted[k], j);
    }
    AttachedAreOmitted(nodes, ids, set i | i in projected, |nodes|);
    ChildrenAreAttached(nodes, omitted, |nodes|);
    OwnSplits(nodes, omitted);
  }

  // ----------------------------------------------------------- the whole display

  lemma {:induction false} SumOwnAppend(nodes: seq<Node>, p: seq<nat>, q: seq<nat>)
    requires Indexes(nodes, p) && Indexes(nodes, q)
    ensures Indexes(nodes, p + q) && SumOwn(nodes, p + q) == SumOwn(nodes, p) + SumOwn(nodes, q)
    decreases |q|
  {
    assert forall k :: 0 <= k < |p + q| ==> (p + q)[k] < |nodes|;
    if q == [] {
      assert p + q == p;
    } else {
      SumOwnAppend(nodes, p, q[..|q| - 1]);
      assert (p + q)[..|p + q| - 1] == p + q[..|q| - 1];
    }
  }

  lemma SumOwnWithout(nodes: seq<Node>, q: seq<nat>, k: nat)
    requires Indexes(nodes, q) && k < |q|
    ensures Indexes(nodes, WithoutAt(q, k))
    ensures SumOwn(nodes, q) == SumOwn(nodes, WithoutAt(q, k)) + OwnBytes(nodes, q[k])
  {
    var head, one, tail := q[..k], [q[k]], q[k + 1..];
    SumOwnAppend(nodes, head, tail);
    SumOwnAppend(nodes, one, tail);
    SumOwnAppend(nodes, head, one + tail);
    assert q == head + (one + tail);
    assert one[..0] == [];
  }

  /** Sums do not depend on the order of the list. */
  lemma {:induction false} SumOwnOrderFree(nodes: seq<Node>, p: seq<nat>, q: seq<nat>)
    requires Indexes(nodes, p) && Indexes(nodes, q) && multiset(p) == multiset(q)
    ensures SumOwn(nodes, p) == SumOwn(nodes, q)
    decreases |p|
  {
    assert |p| == |multiset(p)| == |q|;
    if p != [] {
      var n := |p| - 1;
      assert p == p[..n] + [p[n]];
      assert p[n] in multiset(q);
      var k :| 0 <= k < |q| && q[k] == p[n];
      SumOwnWithout(nodes, q, k);
      SumOwnOrderFree(nodes, p[..n], WithoutAt(q, k));
    }
  }

  lemma {:induction false} RangeContents(n: nat)
    ensures |Range(n)| == n && forall k :: 0 <= k < n ==> Range(n)[k] == k
  {
    if n != 0 {
      RangeContents(n - 1);
    }
  }

  lemma SameElements(p: seq<nat>, q: seq<nat>)
    requires Distinct(p) && Distinct(q) && forall x :: x in p <==> x in q
    ensures multiset(p) == multiset(q)
  {
    forall x ensures multiset(p)[x] == multiset(q)[x] {
      DistinctCount(p, x);
      DistinctCount(q, x);
    }
  }

  lemma {:induction false} DistinctCount(p: seq<nat>, x: int)
    requires Distinct(p)
    ensures multiset(p)[x] == if x in p then 1 else 0
  {
    if p != [] {
      assert p == [p[0]] + p[1..];
      DistinctCount(p[1..], x);
    }
  }

  /** The shown nodes and "Other" together account for the own bytes of every node, once each. */
  lemma DisplayConservesBytes(nodes: seq<Node>, projected: seq<nat>, omitted: seq<nat>)
    requires Projection(nodes, projected, omitted) && DistinctIds(nodes)
    ensures Indexes(nodes, omitted) && Indexes(nodes, projected) && Indexes(nodes, Range(|nodes|))
    ensures SumOwn(nodes, projected) + TopBytes(nodes, IdsOf(nodes, omitted), omitted)
         == SumOwn(nodes, Range(|nodes|))
  {
    ProjectionShape(nodes, projected, omitted);
    OtherConservesBytes(nodes, projected, omitted);
    ProjectionIsPartition(nodes, projected, omitted);
    var all := projected + omitted;
    RangeContents(|nodes|);
    SumOwnAppend(nodes, projected, omitted);
    AllOnce(nodes, projected, omitted);
    SumOwnOrderFree(nodes, all, Range(|nodes|));
  }

  lemma AllOnce(nodes: seq<Node>, projected: seq<nat>, omitted: seq<nat>)
    requires Projection(nodes, projected, omitted)
    ensures multiset(projected + omitted) == multiset(Range(|nodes|))
  {
    ProjectionShape(nodes, projected, omitted);
    ProjectionIsPartition(nodes, projected, omitted);
    RangeContents(|nodes|);
    var all, range := projected + omitted, Range(|nodes|);
    assert forall k :: 0 <= k < |projected| ==> projected[k] in projected;
    assert forall k :: 0 <= k < |omitted| ==> omitted[k] in omitted;
    assert Distinct(all);
    forall x ensures x in all <==> x in range {
      if x in all {
        assert x in projected || x in omitted;
        assert range[x] == x;
      }
    }
    SameElements(all, range);
  }
}

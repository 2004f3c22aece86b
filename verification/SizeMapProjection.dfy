/** Which size-map nodes are shown one by one, and what the "Other" aggregate stands for. */
module SizeMapProjection {
  import opened Common

  const MAX_INDIVIDUAL_NODES: nat := 255

  type Bytes64 = n: nat | n <= U64_MAX

  datatype Node = Node(itemId: nat, parentId: Option<nat>, exactBytes: Option<Bytes64>, partial: bool, failed: bool)

  function Bytes(node: Node): nat {
    if node.exactBytes.Some? then node.exactBytes.value else 0
  }

  predicate Complete(node: Node) {
    !node.partial && !node.failed && node.exactBytes.Some?
  }

  predicate Indexes(nodes: seq<Node>, s: seq<nat>) {
    forall k :: 0 <= k < |s| ==> s[k] < |nodes|
  }

  predicate Distinct(s: seq<nat>) {
    forall a, b :: 0 <= a < b < |s| ==> s[a] != s[b]
  }

  predicate DistinctIds(nodes: seq<Node>) {
    forall a, b :: 0 <= a < b < |nodes| ==> nodes[a].itemId != nodes[b].itemId
  }

  function IdsOf(nodes: seq<Node>, s: seq<nat>): set<nat>
    requires Indexes(nodes, s)
  {
    set k | 0 <= k < |s| :: nodes[s[k]].itemId
  }

  // ------------------------------------------------------------------ sorting roots

  /** Larger first; equal totals keep their source order. */
  predicate Precedes(nodes: seq<Node>, i: nat, j: nat)
    requires i < |nodes| && j < |nodes|
  {
    Bytes(nodes[i]) > Bytes(nodes[j]) || (Bytes(nodes[i]) == Bytes(nodes[j]) && i < j)
  }

  predicate Ordered(nodes: seq<Node>, s: seq<nat>)
    requires Indexes(nodes, s)
  {
    forall a, b :: 0 <= a < b < |s| ==> Precedes(nodes, s[a], s[b])
  }

  predicate Increasing(s: seq<nat>) {
    forall a, b :: 0 <= a < b < |s| ==> s[a] < s[b]
  }

  /** One insertion of a stable sort: `i` goes before everything that is not strictly larger. */
  function Insert(nodes: seq<Node>, i: nat, sorted: seq<nat>): (r: seq<nat>)
    requires i < |nodes| && Indexes(nodes, sorted)
    ensures Indexes(nodes, r) && |r| == |sorted| + 1
    ensures forall x :: x in r <==> x == i || x in sorted
  {
    if sorted == [] || Bytes(nodes[sorted[0]]) <= Bytes(nodes[i]) then [i] + sorted
    else
      assert sorted == [sorted[0]] + sorted[1..];
      [sorted[0]] + Insert(nodes, i, sorted[1..])
  }

  function SortRoots(nodes: seq<Node>, roots: seq<nat>): (r: seq<nat>)
    requires Indexes(nodes, roots)
    ensures Indexes(nodes, r) && |r| == |roots|
    ensures forall x :: x in r <==> x in roots
  {
    if roots == [] then []
    else
      assert roots == [roots[0]] + roots[1..];
      Insert(nodes, roots[0], SortRoots(nodes, roots[1..]))
  }

  lemma {:induction false} InsertOrdered(nodes: seq<Node>, i: nat, sorted: seq<nat>)
    requires i < |nodes| && Indexes(nodes, sorted) && Ordered(nodes, sorted)
    requires forall j :: j in sorted ==> i < j
    ensures Ordered(nodes, Insert(nodes, i, sorted))
  {
    if sorted == [] || Bytes(nodes[sorted[0]]) <= Bytes(nodes[i]) {
      assert forall a :: 0 <= a < |sorted| ==> sorted[a] in sorted;
      assert forall a :: 0 < a < |sorted| ==> Precedes(nodes, sorted[0], sorted[a]);
    } else {
      var t := sorted[1..];
      assert forall j :: j in t ==> j in sorted;
      InsertOrdered(nodes, i, t);
      var r := Insert(nodes, i, t);
      forall a | 0 <= a < |r| ensures Precedes(nodes, sorted[0], r[a]) {
        assert r[a] in r;
        if r[a] != i {
          var b :| 0 <= b < |t| && t[b] == r[a];
          assert sorted[b + 1] == t[b];
        }
      }
    }
  }

  lemma {:induction false} SortOrdered(nodes: seq<Node>, roots: seq<nat>)
    requires Indexes(nodes, roots) && Increasing(roots)
    ensures Ordered(nodes, SortRoots(nodes, roots))
  {
    if roots != [] {
      var t := roots[1..];
      SortOrdered(nodes, t);
      forall j | j in SortRoots(nodes, t) ensures roots[0] < j {
        var b :| 0 <= b < |t| && t[b] == j;
        assert roots[b + 1] == t[b];
      }
      InsertOrdered(nodes, roots[0], SortRoots(nodes, t));
    }
  }

  // -------------------------------------------------------------------- the partition

  predicate IsRoot(nodes: seq<Node>, i: nat) {
    i < |nodes| && nodes[i].parentId.None?
  }

  predicate ParentIn(nodes: seq<Node>, ids: set<nat>, i: nat) {
    i < |nodes| && nodes[i].parentId.Some? && nodes[i].parentId.value in ids
  }

  function RootsBelow(nodes: seq<Node>, n: nat): (r: seq<nat>)
    requires n <= |nodes|
    ensures forall x: nat :: x in r <==> x < n && IsRoot(nodes, x)
    ensures Increasing(r) && Indexes(nodes, r)
  {
    if n == 0 then []
    else
      var r := RootsBelow(nodes, n - 1);
      assert forall k :: 0 <= k < |r| ==> r[k] in r;
      if IsRoot(nodes, n - 1) then r + [n - 1] else r
  }

  /** The indexes below `n` that are not projected, in order. */
  function Omitted(projected: set<nat>, n: nat): (r: seq<nat>)
    ensures forall i: nat :: i in r <==> i < n && i !in projected
    ensures Increasing(r)
  {
    if n == 0 then []
    else
      var r := Omitted(projected, n - 1);
      assert forall k :: 0 <= k < |r| ==> r[k] in r;
      if n - 1 in projected then r else r + [n - 1]
  }

  function Range(n: nat): seq<nat> {
    if n == 0 then [] else Range(n - 1) + [n - 1]
  }

  predicate Sane(nodes: seq<Node>, projected: seq<nat>) {
    Indexes(nodes, projected) && Distinct(projected) && |projected| <= MAX_INDIVIDUAL_NODES
  }

  /** The public hierarchy has no orphan. */
  predicate ParentsShown(nodes: seq<Node>, projected: seq<nat>)
    requires Indexes(nodes, projected)
  {
    forall k :: 0 <= k < |projected| ==>
      IsRoot(nodes, projected[k]) || ParentIn(nodes, IdsOf(nodes, projected), projected[k])
  }

  /** A root is left out only behind 255 larger ones, and then no child is shown at all. */
  predicate RootsRanked(nodes: seq<Node>, projected: seq<nat>)
    requires Indexes(nodes, projected)
  {
    forall o: nat :: o < |nodes| && o !in projected && IsRoot(nodes, o) ==>
      && |projected| == MAX_INDIVIDUAL_NODES
      && forall k :: 0 <= k < |projected| ==> IsRoot(nodes, projected[k]) && Precedes(nodes, projected[k], o)
  }

  predicate LacksEarlierParent(nodes: seq<Node>, projected: seq<nat>, o: nat)
    requires Indexes(nodes, projected) && o < |nodes|
  {
    nodes[o].parentId.Some? ==>
      forall k :: 0 <= k < |projected| && projected[k] < o ==> nodes[projected[k]].itemId != nodes[o].parentId.value
  }

  /** A child passed over had no admitted parent when it was looked at. */
  predicate PassedOver(nodes: seq<Node>, projected: seq<nat>, upTo: nat)
    requires Indexes(nodes, projected) && upTo <= |nodes|
  {
    forall o: nat :: o < upTo && o !in projected ==> LacksEarlierParent(nodes, projected, o)
  }

  /** What the returned pair means. */
  ghost predicate Projection(nodes: seq<Node>, projected: seq<nat>, omitted: seq<nat>) {
    && Sane(nodes, projected)
    && omitted == Omitted(set i | i in projected, |nodes|)
    && ParentsShown(nodes, projected)
    && RootsRanked(nodes, projected)
    && (|projected| < MAX_INDIVIDUAL_NODES ==> PassedOver(nodes, projected, |nodes|))
  }

  method CollectRoots(nodes: seq<Node>) returns (roots: seq<nat>)
    ensures roots == RootsBelow(nodes, |nodes|)
  {
    roots := [];
    for index := 0 to |nodes|
      invariant roots == RootsBelow(nodes, index)
    {
      if nodes[index].parentId.None? {
        roots := roots + [index];
      }
    }
  }

  method CollectOmitted(projected: set<nat>, n: nat) returns (omitted: seq<nat>)
    ensures omitted == Omitted(projected, n)
  {
    omitted := [];
    for index := 0 to n
      invariant omitted == Omitted(projected, index)
    {
      if index !in projected {
        omitted := omitted + [index];
      }
    }
  }

  /** The first 255 roots in display order. */
  function FirstRoots(nodes: seq<Node>): (r: seq<nat>)
    ensures Indexes(nodes, r)
  {
    var roots := SortRoots(nodes, RootsBelow(nodes, |nodes|));
    if |roots| <= MAX_INDIVIDUAL_NODES then roots else roots[..MAX_INDIVIDUAL_NODES]
  }

  lemma FirstRootsLead(nodes: seq<Node>)
    ensures var r := FirstRoots(nodes);
            && |r| <= MAX_INDIVIDUAL_NODES && Distinct(r)
            && (forall i :: i in r ==> IsRoot(nodes, i))
            && (forall o :: o !in r && IsRoot(nodes, o) ==>
                  |r| == MAX_INDIVIDUAL_NODES && forall i :: i in r ==> IsRoot(nodes, i) && Precedes(nodes, i, o))
  {
    var all, r := SortRoots(nodes, RootsBelow(nodes, |nodes|)), FirstRoots(nodes);
    SortOrdered(nodes, RootsBelow(nodes, |nodes|));
    assert forall k :: 0 <= k < |r| ==> r[k] == all[k] && r[k] in all;
    assert forall k :: 0 <= k < |r| ==> all[k] in r;
    forall o | o !in r && IsRoot(nodes, o)
      ensures |r| == MAX_INDIVIDUAL_NODES && forall i :: i in r ==> IsRoot(nodes, i) && Precedes(nodes, i, o)
    {
      assert o in all;
      var b :| 0 <= b < |all| && all[b] == o;
    }
  }

  /** Every admitted node is a first root, or an earlier child of an admitted node. */
  predicate Reasons(nodes: seq<Node>, projected: seq<nat>, upTo: nat)
    requires Indexes(nodes, projected)
  {
    forall k :: 0 <= k < |projected| ==>
      || projected[k] in FirstRoots(nodes)
      || (projected[k] < upTo && ParentIn(nodes, IdsOf(nodes, projected), projected[k]))
  }

  ghost predicate Admitting(nodes: seq<Node>, projected: seq<nat>, upTo: nat) {
    && upTo <= |nodes| && Sane(nodes, projected)
    && FirstRoots(nodes) <= projected
    && Reasons(nodes, projected, upTo)
    && (|FirstRoots(nodes)| == MAX_INDIVIDUAL_NODES ==> projected == FirstRoots(nodes))
    && PassedOver(nodes, projected, upTo)
  }

  lemma IdsSnoc(nodes: seq<Node>, s: seq<nat>, i: nat)
    requires Indexes(nodes, s) && i < |nodes|
    ensures Indexes(nodes, s + [i]) && IdsOf(nodes, s + [i]) == IdsOf(nodes, s) + {nodes[i].itemId}
  {
    var t := s + [i];
    assert forall k :: 0 <= k < |s| ==> t[k] == s[k];
    assert t[|s|] == i;
  }

  lemma AdmitChild(nodes: seq<Node>, projected: seq<nat>, index: nat)
    requires index < |nodes| && Admitting(nodes, projected, index) && |projected| < MAX_INDIVIDUAL_NODES
    requires ParentIn(nodes, IdsOf(nodes, projected), index)
    ensures Admitting(nodes, projected + [index], index + 1)
  {
    var t := projected + [index];
    FirstRootsLead(nodes);
    assert index !in projected by {
      assert index !in FirstRoots(nodes);
    }
    ReasonsGrow(nodes, projected, index);
    forall o: nat | o < index + 1 && o !in t ensures LacksEarlierParent(nodes, t, o) {
      assert o !in projected && o != index;
      assert forall k :: 0 <= k < |t| && t[k] < o ==> k < |projected| && t[k] == projected[k];
    }
  }

  lemma ReasonsGrow(nodes: seq<Node>, projected: seq<nat>, index: nat)
    requires index < |nodes| && Indexes(nodes, projected) && Reasons(nodes, projected, index)
    requires ParentIn(nodes, IdsOf(nodes, projected), index)
    ensures Indexes(nodes, projected + [index]) && Reasons(nodes, projected + [index], index + 1)
  {
    var t := projected + [index];
    IdsSnoc(nodes, projected, index);
    assert forall k :: 0 <= k < |projected| ==> t[k] == projected[k];
    assert t[|projected|] == index;
  }

  lemma PassOver(nodes: seq<Node>, projected: seq<nat>, index: nat)
    requires index < |nodes| && Admitting(nodes, projected, index)
    requires !ParentIn(nodes, IdsOf(nodes, projected), index)
    ensures Admitting(nodes, projected, index + 1)
  {
    assert LacksEarlierParent(nodes, projected, index);
  }

  lemma StartsAdmitting(nodes: seq<Node>)
    ensures Admitting(nodes, FirstRoots(nodes), 0)
  {
    FirstRootsLead(nodes);
    var r := FirstRoots(nodes);
    assert forall k :: 0 <= k < |r| ==> r[k] in r;
  }

  lemma AdmittedIsProjection(nodes: seq<Node>, projected: seq<nat>, upTo: nat)
    requires Admitting(nodes, projected, upTo)
    requires upTo == |nodes| || |projected| == MAX_INDIVIDUAL_NODES
    ensures Projection(nodes, projected, Omitted(set i | i in projected, |nodes|))
  {
    FirstRootsLead(nodes);
    assert ParentsShown(nodes, projected);
    assert RootsRanked(nodes, projected) by {
      assert forall k :: 0 <= k < |FirstRoots(nodes)| ==> projected[k] == FirstRoots(nodes)[k];
      assert forall k :: 0 <= k < |projected| ==> projected[k] in projected;
    }
  }

  // ------------------------------------------------------------------- one pass, greedily

  /** Where the search for child `k` of the projection begins: behind the child before it. */
  function SearchFrom(nodes: seq<Node>, projected: seq<nat>, k: nat): nat
    requires k <= |projected|
  {
    if k <= |FirstRoots(nodes)| then 0 else projected[k - 1] + 1
  }

  predicate NoneQualifies(nodes: seq<Node>, ids: set<nat>, from: nat, to: nat) {
    forall o: nat :: from <= o < to ==> !ParentIn(nodes, ids, o)
  }

  /** Child `k` is the first node, behind the child before it, whose parent stands in front of it. */
  predicate NextChild(nodes: seq<Node>, projected: seq<nat>, k: nat)
    requires k < |projected| && Indexes(nodes, projected)
  {
    var ids := IdsOf(nodes, projected[..k]);
    && SearchFrom(nodes, projected, k) <= projected[k] && ParentIn(nodes, ids, projected[k])
    && NoneQualifies(nodes, ids, SearchFrom(nodes, projected, k), projected[k])
  }

  ghost predicate Grown(nodes: seq<Node>, projected: seq<nat>) {
    && Indexes(nodes, projected) && FirstRoots(nodes) <= projected
    && forall k: nat :: |FirstRoots(nodes)| <= k < |projected| ==> NextChild(nodes, projected, k)
  }

  ghost predicate GreedyUpTo(nodes: seq<Node>, projected: seq<nat>, upTo: nat) {
    && Grown(nodes, projected)
    && SearchFrom(nodes, projected, |projected|) <= upTo
    && NoneQualifies(nodes, IdsOf(nodes, projected), SearchFrom(nodes, projected, |projected|), upTo)
  }

  /** The first roots, then children in one pass, until 255 are shown or the nodes are exhausted. */
  ghost predicate Greedy(nodes: seq<Node>, projected: seq<nat>) {
    exists upTo :: 0 <= upTo <= |nodes| && GreedyUpTo(nodes, projected, upTo)
                   && |projected| <= MAX_INDIVIDUAL_NODES
                   && (upTo == |nodes| || |projected| == MAX_INDIVIDUAL_NODES)
  }

  lemma GreedyAdmits(nodes: seq<Node>, projected: seq<nat>, index: nat)
    requires index < |nodes| && GreedyUpTo(nodes, projected, index) && ParentIn(nodes, IdsOf(nodes, projected), index)
    ensures GreedyUpTo(nodes, projected + [index], index + 1)
  {
    var t := projected + [index];
    assert t[..|projected|] == projected;
    forall k: nat | |FirstRoots(nodes)| <= k < |t| ensures NextChild(nodes, t, k) {
      if k < |projected| {
        assert NextChild(nodes, projected, k) && t[..k] == projected[..k];
      }
    }
  }

  /** The projection is determined: nothing else is made of the first roots in one greedy pass. */
  lemma GreedyIsUnique(nodes: seq<Node>, p: seq<nat>, q: seq<nat>)
    ensures Greedy(nodes, p) && Greedy(nodes, q) ==> p == q
  {
    if Greedy(nodes, p) && Greedy(nodes, q) {
      NoneLonger(nodes, p, q);
      NoneLonger(nodes, q, p);
      SamePrefix(nodes, p, q, |p|);
      assert p[..|p|] == p && q[..|p|] == q;
    }
  }

  lemma NoneLonger(nodes: seq<Node>, p: seq<nat>, q: seq<nat>)
    requires Greedy(nodes, p) && Greedy(nodes, q)
    ensures |q| <= |p|
  {
    if |p| <= |q| {
      SamePrefix(nodes, p, q, |p|);
      assert p[..|p|] == p;
      GreedyEnds(nodes, p, q);
    }
  }

  lemma {:induction false} SamePrefix(nodes: seq<Node>, p: seq<nat>, q: seq<nat>, k: nat)
    requires Grown(nodes, p) && Grown(nodes, q) && k <= |p| && k <= |q|
    ensures p[..k] == q[..k]
  {
    hide NextChild, FirstRoots;
    if k <= |FirstRoots(nodes)| {
      PrefixPrefix(FirstRoots(nodes), p, k);
      PrefixPrefix(FirstRoots(nodes), q, k);
    } else {
      SamePrefix(nodes, p, q, k - 1);
      SameChild(nodes, p, q, k - 1);
      assert p[..k] == p[..k - 1] + [p[k - 1]] && q[..k] == q[..k - 1] + [q[k - 1]];
    }
  }

  lemma PrefixPrefix(r: seq<nat>, p: seq<nat>, k: nat)
    requires r <= p && k <= |r|
    ensures p[..k] == r[..k]
  {
  }

  lemma SameSearch(nodes: seq<Node>, p: seq<nat>, q: seq<nat>, k: nat)
    requires k <= |p| && k <= |q| && p[..k] == q[..k]
    ensures SearchFrom(nodes, p, k) == SearchFrom(nodes, q, k)
  {
    assert k > 0 ==> p[..k][k - 1] == q[..k][k - 1];
  }

  lemma SameChild(nodes: seq<Node>, p: seq<nat>, q: seq<nat>, k: nat)
    requires Indexes(nodes, p) && Indexes(nodes, q) && k < |p| && k < |q| && p[..k] == q[..k]
    requires NextChild(nodes, p, k) && NextChild(nodes, q, k)
    ensures p[k] == q[k]
  {
    SameSearch(nodes, p, q, k);
  }

  /** A pass that ended early had nothing left to admit. */
  lemma GreedyEnds(nodes: seq<Node>, p: seq<nat>, q: seq<nat>)
    requires Greedy(nodes, p) && Greedy(nodes, q) && p <= q
    ensures |q| <= |p|
  {
    assert q[..|p|] == p[..|p|] == p;
    SameSearch(nodes, p, q, |p|);
    assert |p| < |q| ==> NextChild(nodes, q, |p|);
  }

  ghost predicate UnderWay(nodes: seq<Node>, projected: seq<nat>, upTo: nat) {
    Admitting(nodes, projected, upTo) && GreedyUpTo(nodes, projected, upTo)
  }

  lemma StartsUnderWay(nodes: seq<Node>)
    ensures UnderWay(nodes, FirstRoots(nodes), 0)
  {
    StartsAdmitting(nodes);
  }

  lemma Admits(nodes: seq<Node>, projected: seq<nat>, index: nat)
    requires index < |nodes| && UnderWay(nodes, projected, index) && |projected| < MAX_INDIVIDUAL_NODES
    requires ParentIn(nodes, IdsOf(nodes, projected), index)
    ensures UnderWay(nodes, projected + [index], index + 1)
  {
    AdmitChild(nodes, projected, index);
    GreedyAdmits(nodes, projected, index);
  }

  lemma GreedyPasses(nodes: seq<Node>, projected: seq<nat>, index: nat)
    requires index < |nodes| && GreedyUpTo(nodes, projected, index) && !ParentIn(nodes, IdsOf(nodes, projected), index)
    ensures GreedyUpTo(nodes, projected, index + 1)
  {
  }

  lemma Passes(nodes: seq<Node>, projected: seq<nat>, index: nat)
    requires index < |nodes| && UnderWay(nodes, projected, index)
    requires !ParentIn(nodes, IdsOf(nodes, projected), index)
    ensures UnderWay(nodes, projected, index + 1)
  {
    PassOver(nodes, projected, index);
    GreedyPasses(nodes, projected, index);
  }

  lemma PassEnds(nodes: seq<Node>, projected: seq<nat>, upTo: nat)
    requires UnderWay(nodes, projected, upTo)
    requires upTo == |nodes| || |projected| == MAX_INDIVIDUAL_NODES
    ensures Greedy(nodes, projected) && Projection(nodes, projected, Omitted(set i | i in projected, |nodes|))
  {
    AdmittedIsProjection(nodes, projected, upTo);
  }

  /** Admits one node if its parent is admitted. */
  method Consider(nodes: seq<Node>, projected: seq<nat>, projectedIds: set<nat>, index: nat)
    returns (more: seq<nat>, moreIds: set<nat>)
    requires index < |nodes| && UnderWay(nodes, projected, index) && |projected| < MAX_INDIVIDUAL_NODES
    requires projectedIds == IdsOf(nodes, projected)
    ensures UnderWay(nodes, more, index + 1) && moreIds == IdsOf(nodes, more)
  {
    if nodes[index].parentId.Some? && nodes[index].parentId.value in projectedIds {
      IdsSnoc(nodes, projected, index);
      Admits(nodes, projected, index);
      return projected + [index], projectedIds + {nodes[index].itemId};
    }
    Passes(nodes, projected, index);
    return projected, projectedIds;
  }

  method Partition(nodes: seq<Node>) returns (projected: seq<nat>, omitted: seq<nat>)
    ensures Projection(nodes, projected, omitted) && Greedy(nodes, projected)
  {
    var roots := CollectRoots(nodes);
    roots := SortRoots(nodes, roots);
    projected := if |roots| <= MAX_INDIVIDUAL_NODES then roots else roots[..MAX_INDIVIDUAL_NODES];
    StartsUnderWay(nodes);
    var projectedIds := IdsOf(nodes, projected);
    var index := 0;
    while index < |nodes| && |projected| != MAX_INDIVIDUAL_NODES
      invariant 0 <= index <= |nodes| && UnderWay(nodes, projected, index)
      invariant projectedIds == IdsOf(nodes, projected)
    {
      projected, projectedIds := Consider(nodes, projected, projectedIds, index);
      index := index + 1;
    }
    PassEnds(nodes, projected, index);
    omitted := CollectOmitted(set i | i in projected, |nodes|);
  }

  lemma ProjectionIsPartition(nodes: seq<Node>, projected: seq<nat>, omitted: seq<nat>)
    requires Projection(nodes, projected, omitted)
    ensures forall i: nat :: i < |nodes| <==> i in projected || i in omitted
    ensures forall i :: i in projected ==> i !in omitted
    ensures Distinct(projected) && Increasing(omitted)
  {
    forall i | i in projected ensures i < |nodes| {
      var k :| 0 <= k < |projected| && projected[k] == i;
    }
  }

  /** With distinct ids a child of an omitted node is omitted too. */
  lemma OmittedClosedUnderChildren(nodes: seq<Node>, projected: seq<nat>, omitted: seq<nat>, i: nat, j: nat)
    requires Projection(nodes, projected, omitted) && DistinctIds(nodes)
    requires i in omitted && j < |nodes| && i < |nodes| && nodes[j].parentId == Some(nodes[i].itemId)
    ensures j in omitted
  {
    assert forall k :: 0 <= k < |projected| ==> projected[k] in projected;
  }

  // ----------------------------------------------------------- the projection as a function

  lemma {:induction false} PassFinishes(nodes: seq<Node>, projected: seq<nat>, upTo: nat) returns (p: seq<nat>)
    requires UnderWay(nodes, projected, upTo)
    ensures Greedy(nodes, p) && Projection(nodes, p, Omitted(set i | i in p, |nodes|))
    decreases |nodes| - upTo
  {
    if upTo == |nodes| || |projected| == MAX_INDIVIDUAL_NODES {
      PassEnds(nodes, projected, upTo);
      p := projected;
    } else if ParentIn(nodes, IdsOf(nodes, projected), upTo) {
      Admits(nodes, projected, upTo);
      p := PassFinishes(nodes, projected + [upTo], upTo + 1);
    } else {
      Passes(nodes, projected, upTo);
      p := PassFinishes(nodes, projected, upTo + 1);
    }
  }

  lemma ProjectionExists(nodes: seq<Node>)
    ensures exists p :: Greedy(nodes, p) && Projection(nodes, p, OmittedBy(nodes, p))
  {
    StartsUnderWay(nodes);
    var p := PassFinishes(nodes, FirstRoots(nodes), 0);
  }

  /** The indexes shown one by one. */
  ghost function Projected(nodes: seq<Node>): (p: seq<nat>)
    ensures Greedy(nodes, p) && Projection(nodes, p, OmittedBy(nodes, p))
  {
    ProjectionExists(nodes);
    var p :| Greedy(nodes, p) && Projection(nodes, p, OmittedBy(nodes, p));
    p
  }

  function OmittedBy(nodes: seq<Node>, projected: seq<nat>): seq<nat> {
    Omitted(set i | i in projected, |nodes|)
  }

  // -------------------------------------------------------- what the projection looks at

  /** Equal identities, parents and sizes; completeness may differ. */
  predicate SameShape(a: seq<Node>, b: seq<Node>) {
    |a| == |b| && forall i :: 0 <= i < |a| ==>
      a[i].itemId == b[i].itemId && a[i].parentId == b[i].parentId && Bytes(a[i]) == Bytes(b[i])
  }

  lemma {:induction false} SameRoots(a: seq<Node>, b: seq<Node>, n: nat)
    requires SameShape(a, b) && n <= |a|
    ensures RootsBelow(a, n) == RootsBelow(b, n)
  {
    if n != 0 {
      SameRoots(a, b, n - 1);
    }
  }

  lemma {:induction false} SameInsert(a: seq<Node>, b: seq<Node>, i: nat, sorted: seq<nat>)
    requires SameShape(a, b) && i < |a| && Indexes(a, sorted)
    ensures Indexes(b, sorted) && Insert(a, i, sorted) == Insert(b, i, sorted)
  {
    if sorted != [] {
      SameInsert(a, b, i, sorted[1..]);
    }
  }

  lemma {:induction false} SameSort(a: seq<Node>, b: seq<Node>, roots: seq<nat>)
    requires SameShape(a, b) && Indexes(a, roots)
    ensures Indexes(b, roots) && SortRoots(a, roots) == SortRoots(b, roots)
  {
    if roots != [] {
      SameSort(a, b, roots[1..]);
      SameInsert(a, b, roots[0], SortRoots(a, roots[1..]));
    }
  }

  lemma SameFirstRoots(a: seq<Node>, b: seq<Node>)
    requires SameShape(a, b)
    ensures FirstRoots(a) == FirstRoots(b)
  {
    SameRoots(a, b, |a|);
    SameSort(a, b, RootsBelow(a, |a|));
  }

  lemma SameIds(a: seq<Node>, b: seq<Node>, s: seq<nat>)
    requires SameShape(a, b) && Indexes(a, s)
    ensures Indexes(b, s) && IdsOf(a, s) == IdsOf(b, s)
  {
    assert forall k :: 0 <= k < |s| ==> a[s[k]].itemId == b[s[k]].itemId;
  }

  lemma SameNone(a: seq<Node>, b: seq<Node>, ids: set<nat>, from: nat, to: nat)
    requires SameShape(a, b) && NoneQualifies(a, ids, from, to)
    ensures NoneQualifies(b, ids, from, to)
  {
    forall o: nat | from <= o < to ensures !ParentIn(b, ids, o) {
      assert !ParentIn(a, ids, o);
    }
  }

  lemma SameNextChild(a: seq<Node>, b: seq<Node>, p: seq<nat>, k: nat)
    requires SameShape(a, b) && FirstRoots(a) == FirstRoots(b)
    requires Indexes(a, p) && Indexes(b, p) && k < |p| && NextChild(a, p, k)
    ensures NextChild(b, p, k)
  {
    SameIds(a, b, p[..k]);
    SameNone(a, b, IdsOf(a, p[..k]), SearchFrom(a, p, k), p[k]);
  }

  lemma SameGreedyUpTo(a: seq<Node>, b: seq<Node>, p: seq<nat>, upTo: nat)
    requires SameShape(a, b) && GreedyUpTo(a, p, upTo)
    ensures GreedyUpTo(b, p, upTo)
  {
    SameFirstRoots(a, b);
    SameIds(a, b, p);
    forall k: nat | |FirstRoots(b)| <= k < |p| ensures NextChild(b, p, k) {
      SameNextChild(a, b, p, k);
    }
    SameNone(a, b, IdsOf(a, p), SearchFrom(a, p, |p|), upTo);
  }

  /** Completeness has no influence on what is shown. */
  lemma SameProjection(a: seq<Node>, b: seq<Node>)
    requires SameShape(a, b)
    ensures Projected(a) == Projected(b)
  {
    var p := Projected(a);
    var upTo :| 0 <= upTo <= |a| && GreedyUpTo(a, p, upTo) && (upTo == |a| || |p| == MAX_INDIVIDUAL_NODES);
    SameGreedyUpTo(a, b, p, upTo);
    assert Greedy(b, p);
    GreedyIsUnique(b, p, Projected(b));
  }
}

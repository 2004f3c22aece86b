/** Merging the lock owners found by two discovery sources. */
module LockOwners {
  const MAX_OWNERS: nat := 64

  /** `foldedName` is the lower-cased display name, `rank` the application-type rank; `details` is the rest. */
  datatype Owner = Owner(processId: nat, creationTime: nat, foldedName: seq<nat>, rank: nat, details: nat)

  datatype Terminal =
    | Cancelled
    | DeadlineElapsed
    | Ready(owners: seq<Owner>)
    | Failed(error: nat)
    | Unavailable(reason: nat)
    | Empty

  /** The identity two sources agree on. */
  datatype OwnerKey = OwnerKey(processId: nat, creationTime: nat)

  function KeyOf(o: Owner): OwnerKey { OwnerKey(o.processId, o.creationTime) }

  function Found(t: Terminal): seq<Owner> {
    if t.Ready? then t.owners else []
  }

  function KeysIn(owners: seq<Owner>): set<OwnerKey> {
    set k | 0 <= k < |owners| :: KeyOf(owners[k])
  }

  predicate UniqueKeys(owners: seq<Owner>) {
    forall a, b :: 0 <= a < b < |owners| ==> KeyOf(owners[a]) != KeyOf(owners[b])
  }

  // ------------------------------------------------------------------ comparison

  predicate KeyLess(a: OwnerKey, b: OwnerKey) {
    a.processId < b.processId || (a.processId == b.processId && a.creationTime < b.creationTime)
  }

  /** Lexicographic order of names. */
  predicate NameLess(a: seq<nat>, b: seq<nat>) {
    b != [] && (a == [] || a[0] < b[0] || (a[0] == b[0] && NameLess(a[1..], b[1..])))
  }

  /** The sort's comparison: identity, then folded name, then application-type rank. */
  predicate Less(a: Owner, b: Owner) {
    || KeyLess(KeyOf(a), KeyOf(b))
    || (KeyOf(a) == KeyOf(b) &&
          (NameLess(a.foldedName, b.foldedName) || (a.foldedName == b.foldedName && a.rank < b.rank)))
  }

  /** A stable insertion: after everything that is not greater. */
  function Insert(sorted: seq<Owner>, o: Owner): seq<Owner> {
    if sorted == [] || Less(o, sorted[0]) then [o] + sorted else [sorted[0]] + Insert(sorted[1..], o)
  }

  function Sort(owners: seq<Owner>): seq<Owner> {
    if owners == [] then [] else Insert(Sort(owners[..|owners| - 1]), owners[|owners| - 1])
  }

  function Truncate(owners: seq<Owner>): seq<Owner> {
    if |owners| <= MAX_OWNERS then owners else owners[..MAX_OWNERS]
  }

  // ------------------------------------------------------------------------- merge

  /** Every restart-manager owner, then each current-directory owner of a new identity. */
  function Union(first: seq<Owner>, second: seq<Owner>): seq<Owner> {
    if second == [] then first
    else
      var merged := Union(first, second[..|second| - 1]);
      var last := second[|second| - 1];
      if KeyOf(last) in KeysIn(merged) then merged else merged + [last]
  }

  method Compose(restartManager: Terminal, currentDirectory: Terminal) returns (result: Terminal)
    ensures result == Composed(restartManager, currentDirectory)
  {
    if restartManager.Cancelled? || currentDirectory.Cancelled? {
      return Cancelled;
    }
    if restartManager.DeadlineElapsed? || currentDirectory.DeadlineElapsed? {
      return DeadlineElapsed;
    }
    var owners := [];
    if restartManager.Ready? {
      owners := owners + restartManager.owners;
    }
    assert owners == Found(restartManager);
    if currentDirectory.Ready? {
      var ready := currentDirectory.owners;
      assert ready[..0] == [];
      for i := 0 to |ready|
        invariant owners == Union(Found(restartManager), ready[..i])
      {
        assert ready[..i + 1][..i] == ready[..i];
        if !(exists k :: 0 <= k < |owners| && owners[k].processId == ready[i].processId
                         && owners[k].creationTime == ready[i].creationTime) {
          assert KeyOf(ready[i]) !in KeysIn(owners);
          owners := owners + [ready[i]];
        }
      }
      assert ready[..|ready|] == ready;
    }
    if owners != [] {
      return Ready(Truncate(Sort(owners)));
    }
    if restartManager.Failed? {
      return restartManager;
    }
    if currentDirectory.Failed? {
      return currentDirectory;
    }
    if restartManager.Unavailable? {
      return restartManager;
    }
    if currentDirectory.Unavailable? {
      return currentDirectory;
    }
    result := Empty;
  }

  function Composed(first: Terminal, second: Terminal): Terminal {
    if first.Cancelled? || second.Cancelled? then Cancelled
    else if first.DeadlineElapsed? || second.DeadlineElapsed? then DeadlineElapsed
    else
      var owners := Union(Found(first), Found(second));
      if owners != [] then Ready(Truncate(Sort(owners)))
      else if first.Failed? then first
      else if second.Failed? then second
      else if first.Unavailable? then first
      else if second.Unavailable? then second
      else Empty
  }

  // ------------------------------------------------------------- sorting facts

  predicate StrictlySorted(owners: seq<Owner>) {
    forall a, b :: 0 <= a < b < |owners| ==> KeyLess(KeyOf(owners[a]), KeyOf(owners[b]))
  }

  lemma {:induction false} InsertContents(sorted: seq<Owner>, o: Owner)
    ensures multiset(Insert(sorted, o)) == multiset(sorted) + multiset{o}
  {
    if !(sorted == [] || Less(o, sorted[0])) {
      InsertContents(sorted[1..], o);
      assert sorted == [sorted[0]] + sorted[1..];
    }
  }

  lemma {:induction false} SortContents(owners: seq<Owner>)
    ensures multiset(Sort(owners)) == multiset(owners)
    decreases |owners|
  {
    if owners != [] {
      var n := |owners| - 1;
      SortContents(owners[..n]);
      InsertContents(Sort(owners[..n]), owners[n]);
      assert owners == owners[..n] + [owners[n]];
    }
  }

  lemma {:induction false} InsertSorted(sorted: seq<Owner>, o: Owner)
    requires StrictlySorted(sorted) && forall k :: 0 <= k < |sorted| ==> KeyOf(sorted[k]) != KeyOf(o)
    ensures StrictlySorted(Insert(sorted, o))
  {
    if sorted == [] {
    } else if Less(o, sorted[0]) {
      assert forall k :: 0 <= k < |sorted| ==> KeyLess(KeyOf(o), KeyOf(sorted[k]));
    } else {
      var rest := sorted[1..];
      InsertSorted(rest, o);
      InsertContents(rest, o);
      var t := Insert(rest, o);
      forall k | 0 <= k < |t| ensures KeyLess(KeyOf(sorted[0]), KeyOf(t[k])) {
        assert t[k] in multiset(t);
        if t[k] != o {
          var j :| 0 <= j < |rest| && rest[j] == t[k];
          assert sorted[j + 1] == rest[j];
        }
      }
    }
  }

  lemma {:induction false} SortSorted(owners: seq<Owner>)
    requires UniqueKeys(owners)
    ensures StrictlySorted(Sort(owners))
    decreases |owners|
  {
    if owners != [] {
      var n := |owners| - 1;
      SortSorted(owners[..n]);
      SortContents(owners[..n]);
      var sorted := Sort(owners[..n]);
      forall k | 0 <= k < |sorted| ensures KeyOf(sorted[k]) != KeyOf(owners[n]) {
        assert sorted[k] in multiset(sorted);
        var j :| 0 <= j < n && owners[..n][j] == sorted[k];
        assert owners[j] == sorted[k];
      }
      InsertSorted(sorted, owners[n]);
    }
  }

  lemma SameHead(p: seq<Owner>, q: seq<Owner>)
    requires StrictlySorted(p) && StrictlySorted(q) && p != [] && q != []
    requires p[0] in q && q[0] in p
    ensures p[0] == q[0]
  {
    var i :| 0 <= i < |q| && q[i] == p[0];
    var j :| 0 <= j < |p| && p[j] == q[0];
    assert i != 0 ==> KeyLess(KeyOf(q[0]), KeyOf(q[i]));
    assert j != 0 ==> KeyLess(KeyOf(p[0]), KeyOf(p[j]));
  }

  lemma TailSorted(p: seq<Owner>)
    requires p != [] && StrictlySorted(p)
    ensures StrictlySorted(p[1..])
  {
  }

  lemma TailContents(p: seq<Owner>)
    requires p != []
    ensures multiset(p[1..]) == multiset(p) - multiset{p[0]}
  {
    assert p == [p[0]] + p[1..];
  }

  /** Strictly sorted lists with the same elements are the same list. */
  lemma {:induction false} SortedUnique(p: seq<Owner>, q: seq<Owner>)
    requires StrictlySorted(p) && StrictlySorted(q) && multiset(p) == multiset(q)
    ensures p == q
  {
    hide StrictlySorted;
    assert |multiset(p)| == |p| && |multiset(q)| == |q|;
    if p != [] {
      assert p[0] in multiset(q) && q[0] in multiset(p);
      SameHead(p, q);
      TailSorted(p);
      TailSorted(q);
      TailContents(p);
      TailContents(q);
      SortedUnique(p[1..], q[1..]);
      assert p == [p[0]] + p[1..] && q == [q[0]] + q[1..];
    }
  }

  // --------------------------------------------------------------------- the union

  /** The restart manager's record wins: a current-directory owner is kept only for a new identity. */
  lemma {:induction false} UnionMembers(first: seq<Owner>, second: seq<Owner>)
    requires UniqueKeys(first) && UniqueKeys(second)
    ensures UniqueKeys(Union(first, second))
    ensures forall o :: o in Union(first, second) <==> o in first || (o in second && KeyOf(o) !in KeysIn(first))
    ensures KeysIn(Union(first, second)) == KeysIn(first) + KeysIn(second)
    decreases |second|
  {
    if second != [] {
      var n := |second| - 1;
      var rest, last := second[..n], second[n];
      UnionMembers(first, rest);
      assert second == rest + [last];
      KeysSnoc(rest, last);
      KeysSnoc(Union(first, rest), last);
      forall k | 0 <= k < n ensures KeyOf(rest[k]) != KeyOf(last) {
        assert rest[k] == second[k];
      }
      assert KeyOf(last) !in KeysIn(rest);
      if KeyOf(last) !in KeysIn(Union(first, rest)) {
        UniqueSnoc(Union(first, rest), last);
      }
    }
  }

  lemma KeysSnoc(owners: seq<Owner>, o: Owner)
    ensures KeysIn(owners + [o]) == KeysIn(owners) + {KeyOf(o)}
  {
    var all := owners + [o];
    assert forall k :: 0 <= k < |owners| ==> all[k] == owners[k];
    assert all[|owners|] == o;
  }

  lemma UniqueSnoc(owners: seq<Owner>, o: Owner)
    requires UniqueKeys(owners) && KeyOf(o) !in KeysIn(owners)
    ensures UniqueKeys(owners + [o])
  {
    assert forall k :: 0 <= k < |owners| ==> KeyOf(owners[k]) in KeysIn(owners);
  }

  lemma {:induction false} UniqueCount(owners: seq<Owner>, o: Owner)
    requires UniqueKeys(owners)
    ensures multiset(owners)[o] == if o in owners then 1 else 0
  {
    if owners != [] {
      assert owners == [owners[0]] + owners[1..];
      UniqueCount(owners[1..], o);
    }
  }

  lemma SameOwners(p: seq<Owner>, q: seq<Owner>)
    requires UniqueKeys(p) && UniqueKeys(q) && forall o :: o in p <==> o in q
    ensures multiset(p) == multiset(q)
  {
    forall o ensures multiset(p)[o] == multiset(q)[o] {
      UniqueCount(p, o);
      UniqueCount(q, o);
    }
  }

  predicate SameUpToOrder(a: Terminal, b: Terminal) {
    a == b || (a.Ready? && b.Ready? && multiset(a.owners) == multiset(b.owners))
  }

  lemma ReorderedMembers(p: seq<Owner>, q: seq<Owner>)
    requires multiset(p) == multiset(q)
    ensures forall o :: o in p <==> o in q
    ensures KeysIn(p) == KeysIn(q)
  {
    forall o ensures o in p <==> o in q {
      assert (o in multiset(p)) == (o in multiset(q));
    }
    forall k | 0 <= k < |p| ensures KeyOf(p[k]) in KeysIn(q) {
      assert p[k] in q;
    }
    forall k | 0 <= k < |q| ensures KeyOf(q[k]) in KeysIn(p) {
      assert q[k] in p;
    }
  }

  lemma UnionUpToOrder(first: seq<Owner>, second: seq<Owner>, first': seq<Owner>, second': seq<Owner>)
    requires multiset(first) == multiset(first') && multiset(second) == multiset(second')
    requires UniqueKeys(first) && UniqueKeys(second) && UniqueKeys(first') && UniqueKeys(second')
    ensures multiset(Union(first, second)) == multiset(Union(first', second'))
    ensures UniqueKeys(Union(first, second)) && UniqueKeys(Union(first', second'))
  {
    ReorderedMembers(first, first');
    ReorderedMembers(second, second');
    UnionMembers(first, second);
    UnionMembers(first', second');
    SameOwners(Union(first, second), Union(first', second'));
  }

  lemma SortUpToOrder(u: seq<Owner>, v: seq<Owner>)
    requires multiset(u) == multiset(v) && UniqueKeys(u) && UniqueKeys(v)
    ensures Sort(u) == Sort(v) && (u == [] <==> v == [])
  {
    assert |multiset(u)| == |u| && |multiset(v)| == |v|;
    SortContents(u);
    SortContents(v);
    SortSorted(u);
    SortSorted(v);
    SortedUnique(Sort(u), Sort(v));
  }

  lemma SameComposition(first: Terminal, second: Terminal, first': Terminal, second': Terminal)
    requires SameUpToOrder(first, first') && SameUpToOrder(second, second')
    requires var u, v := Union(Found(first), Found(second)), Union(Found(first'), Found(second'));
             Sort(u) == Sort(v) && (u == [] <==> v == [])
    ensures Composed(first, second) == Composed(first', second')
  {
  }

  /** With identities unique inside each source, the order in which a source reports has no influence. */
  lemma MergeIsOrderIndependent(first: Terminal, second: Terminal, first': Terminal, second': Terminal)
    requires SameUpToOrder(first, first') && SameUpToOrder(second, second')
    requires UniqueKeys(Found(first)) && UniqueKeys(Found(second))
    requires UniqueKeys(Found(first')) && UniqueKeys(Found(second'))
    ensures Composed(first, second) == Composed(first', second')
  {
    var u, v := Union(Found(first), Found(second)), Union(Found(first'), Found(second'));
    UnionUpToOrder(Found(first), Found(second), Found(first'), Found(second'));
    SortUpToOrder(u, v);
    SameComposition(first, second, first', second');
  }

  /**
   * When anyone was found and neither source was cut short, the result is the sorted union keyed by
   * identity, the restart manager's record first, and truncation keeps exactly the least identities.
   */
  lemma MergeIsSortedUnion(first: Terminal, second: Terminal)
    requires UniqueKeys(Found(first)) && UniqueKeys(Found(second))
    requires !first.Cancelled? && !second.Cancelled? && !first.DeadlineElapsed? && !second.DeadlineElapsed?
    requires Found(first) != [] || Found(second) != []
    ensures var r, keys := Composed(first, second), KeysIn(Found(first)) + KeysIn(Found(second));
            && r.Ready? && StrictlySorted(r.owners)
            && (forall o :: o in r.owners ==>
                  o in Found(first) || (o in Found(second) && KeyOf(o) !in KeysIn(Found(first))))
            && |r.owners| == (if |keys| <= MAX_OWNERS then |keys| else MAX_OWNERS)
            && (forall k, o :: k in keys && k !in KeysIn(r.owners) && o in r.owners ==> KeyLess(KeyOf(o), k))
  {
    var u := Union(Found(first), Found(second));
    UnionMembers(Found(first), Found(second));
    assert u != [] by {
      if Found(first) != [] {
        assert Found(first)[0] in u;
      } else {
        assert Found(second)[0] in u;
      }
    }
    SortSorted(u);
    SortContents(u);
    ReorderedMembers(Sort(u), u);
    KeyCount(u);
    assert |multiset(u)| == |u| && |multiset(Sort(u))| == |Sort(u)|;
    TruncateKeepsLeast(Sort(u));
  }

  lemma TruncateKeepsLeast(sorted: seq<Owner>)
    requires StrictlySorted(sorted)
    ensures StrictlySorted(Truncate(sorted)) && forall o :: o in Truncate(sorted) ==> o in sorted
    ensures forall k, o :: k in KeysIn(sorted) && k !in KeysIn(Truncate(sorted)) && o in Truncate(sorted)
              ==> KeyLess(KeyOf(o), k)
  {
    var kept := Truncate(sorted);
    forall k, o | k in KeysIn(sorted) && k !in KeysIn(kept) && o in kept ensures KeyLess(KeyOf(o), k) {
      var a :| 0 <= a < |sorted| && KeyOf(sorted[a]) == k;
      var b :| 0 <= b < |kept| && kept[b] == o;
      assert forall c :: 0 <= c < |kept| ==> KeyOf(kept[c]) in KeysIn(kept) && kept[c] == sorted[c];
      assert a >= |kept| && sorted[b] == o;
    }
  }

  lemma {:induction false} KeyCount(owners: seq<Owner>)
    requires UniqueKeys(owners)
    ensures |KeysIn(owners)| == |owners|
    decreases |owners|
  {
    if owners != [] {
      var n := |owners| - 1;
      KeyCount(owners[..n]);
      assert owners == owners[..n] + [owners[n]];
      KeysSnoc(owners[..n], owners[n]);
      forall k | 0 <= k < n ensures KeyOf(owners[..n][k]) != KeyOf(owners[n]) {
        assert owners[..n][k] == owners[k];
      }
    }
  }

  lemma {:induction false} UnionIsEmpty(first: seq<Owner>, second: seq<Owner>)
    ensures Union(first, second) == [] <==> first == [] && second == []
    decreases |second|
  {
    if second != [] {
      UnionIsEmpty(first, second[..|second| - 1]);
    }
  }

  /** A source found somebody. */
  predicate Finds(t: Terminal) {
    t.Ready? && t.owners != []
  }

  lemma FoundOwners(first: Terminal, second: Terminal)
    ensures var u := Union(Found(first), Found(second));
            (u == [] <==> !Finds(first) && !Finds(second)) && (u != [] ==> Truncate(Sort(u)) != [])
  {
    UnionIsEmpty(Found(first), Found(second));
    hide Union, Sort;
    SortLength(Union(Found(first), Found(second)));
  }

  lemma SortLength(owners: seq<Owner>)
    ensures |Sort(owners)| == |owners|
  {
    SortContents(owners);
    hide Sort;
    assert |multiset(owners)| == |owners| && |multiset(Sort(owners))| == |Sort(owners)|;
  }

  /**
   * Which outcome prevails: a cancel, then a deadline, then owners from either source, then a failure,
   * then unavailability, the restart manager's before the current directory's; else nobody was found.
   */
  lemma WhatPrevails(first: Terminal, second: Terminal)
    ensures var r, cancelled := Composed(first, second), first.Cancelled? || second.Cancelled?;
            var late, found := first.DeadlineElapsed? || second.DeadlineElapsed?, Finds(first) || Finds(second);
            && (r.Cancelled? <==> cancelled)
            && (r.DeadlineElapsed? <==> !cancelled && late)
            && (r.Ready? <==> !cancelled && !late && found) && (r.Ready? ==> r.owners != [])
            && (r.Failed? <==> !cancelled && !late && !found && (first.Failed? || second.Failed?))
            && (r.Failed? ==> r == if first.Failed? then first else second)
            && (r.Unavailable? ==> !first.Failed? && !second.Failed?)
            && (r.Unavailable? ==> r == if first.Unavailable? then first else second)
            && (r.Empty? <==> (first.Empty? || first == Ready([])) && (second.Empty? || second == Ready([])))
  {
    FoundOwners(first, second);
    hide Union, Sort, Truncate, Found;
  }
}

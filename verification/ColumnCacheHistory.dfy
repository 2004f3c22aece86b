/** Freshness of the column cache over every run of its operations. */
module ColumnCacheHistory {
  import opened Common
  import opened ColumnCache

  const EPOCHS: nat := U64_MAX + 1

  /**
   * A ticket, and how often its directory had been invalidated when it was issued: in all, and since
   * a window change last dropped the directory's epoch.
   */
  datatype Issued = Issued(admission: Admission, issuedAt: nat, since: nat)

  /** An accepted value and the two counts of its ticket. */
  datatype Accepted<T> = Accepted(value: T, issuedAt: nat, since: nat)

  /**
   * The cache with its history: the last accepted value of each key since its directory was last
   * invalidated, how often each directory was invalidated in all and since its epoch was last
   * dropped, which directories ever had an epoch dropped by a window change, and the tickets handed out.
   */
  datatype History<T> = History(
    cache: Cache<T>, accepted: map<Key, Accepted<T>>, invalidations: map<Path, nat>,
    sinceDrop: map<Path, nat>, forgotten: set<Path>, issued: set<Issued>)

  datatype Event<T> =
    | Admit(key: Key)
    | Insert(ticket: Issued, value: T, now: U64, limit: U64, after: Cache<T>)
    | Invalidate(directory: Path)
    | Window(root: Path, depth: nat)

  function Invalidations<T>(h: History<T>, directory: Path): nat {
    if directory in h.invalidations then h.invalidations[directory] else 0
  }

  function Since<T>(h: History<T>, directory: Path): nat {
    if directory in h.sinceDrop then h.sinceDrop[directory] else 0
  }

  const NO_EPOCHS: map<Path, U64> := map[]

  function Start<T>(): History<T> {
    History(Cache(map[], NO_EPOCHS, None, 3), map[], map[], map[], {}, {})
  }

  ghost predicate Possible<T>(sizes: Sizes<T>, h: History<T>, e: Event<T>) {
    e.Insert? ==> e.ticket in h.issued
                  && InsertedTo(sizes, h.cache, e.ticket.admission, e.value, e.now, e.limit, e.after)
  }

  function DirectoryOf(key: Key): Path {
    if key.path == [] then [] else key.path[..|key.path| - 1]
  }

  function Next<T>(h: History<T>, e: Event<T>): History<T> {
    match e
    case Admit(key) =>
      var a := AdmissionFor(h.cache, key);
      if a.None? then h
      else h.(issued := h.issued + {Issued(a.value, Invalidations(h, a.value.directory), Since(h, a.value.directory))})
    case Insert(ticket, value, _, _, after) =>
      if Accepts(h.cache, ticket.admission)
      then h.(cache := after,
              accepted := h.accepted[ticket.admission.key := Accepted(value, ticket.issuedAt, ticket.since)])
      else h.(cache := after)
    case Invalidate(directory) =>
      h.(cache := Invalidated(h.cache, directory),
         invalidations := h.invalidations[directory := Invalidations(h, directory) + 1],
         sinceDrop := h.sinceDrop[directory := Since(h, directory) + 1],
         accepted := map k | k in h.accepted && DirectoryOf(k) != directory :: h.accepted[k])
    case Window(root, depth) =>
      var c := Windowed(h.cache, root, depth);
      h.(cache := c, sinceDrop := map d | d in h.sinceDrop && d in c.epochs :: h.sinceDrop[d],
         forgotten := h.forgotten + set d | d in h.cache.epochs && d !in c.epochs)
  }

  ghost predicate Reaches<T>(sizes: Sizes<T>, h: History<T>, events: seq<Event<T>>, end: History<T>)
    decreases |events|
  {
    if events == [] then end == h
    else Possible(sizes, h, events[0]) && Reaches(sizes, Next(h, events[0]), events[1..], end)
  }

  // -------------------------------------------------------------------- invariant

  predicate WellFormed(a: Admission) {
    a.key.path != [] && a.directory == DirectoryOf(a.key)
  }

  /** A directory's epoch counts its invalidations since the epoch was last dropped, modulo 2^64. */
  predicate CountsEpoch<T>(h: History<T>, d: Path) {
    && (d in h.sinceDrop <==> d in h.cache.epochs)
    && Epoch(h.cache, d) == Since(h, d) % EPOCHS
    && (d !in h.forgotten ==> Since(h, d) == Invalidations(h, d))
  }

  predicate TicketFits<T>(h: History<T>, i: Issued) {
    && WellFormed(i.admission)
    && i.issuedAt <= Invalidations(h, i.admission.directory)
    && i.admission.epoch == i.since % EPOCHS
    && (i.admission.directory !in h.forgotten ==> i.since == i.issuedAt)
  }

  /** A cached entry is the last accepted one, under its ticket's epoch. */
  predicate EntryFits<T(==)>(h: History<T>, k: Key) {
    k in h.cache.values ==>
      var entry := h.cache.values[k];
      && k.path != [] && entry.directory == DirectoryOf(k)
      && k in h.accepted && h.accepted[k].value == entry.value
      && entry.epoch == h.accepted[k].since % EPOCHS
      && (DirectoryOf(k) !in h.forgotten ==> entry.epoch == Epoch(h.cache, DirectoryOf(k)))
  }

  predicate AcceptedFits<T>(h: History<T>, k: Key) {
    k in h.accepted ==>
      && h.accepted[k].issuedAt <= Invalidations(h, DirectoryOf(k))
      && (DirectoryOf(k) !in h.forgotten ==>
            (Invalidations(h, DirectoryOf(k)) - h.accepted[k].issuedAt) % EPOCHS == 0)
  }

  ghost predicate Consistent<T>(h: History<T>) {
    && (forall d :: CountsEpoch(h, d))
    && (forall i :: i in h.issued ==> TicketFits(h, i))
    && (forall k :: EntryFits(h, k))
    && (forall k :: AcceptedFits(h, k))
  }

  lemma SameResidue(a: nat, b: nat)
    ensures a % EPOCHS == b % EPOCHS <==> (a - b) % EPOCHS == 0
  {
    assert a == EPOCHS * (a / EPOCHS) + a % EPOCHS;
    assert b == EPOCHS * (b / EPOCHS) + b % EPOCHS;
    assert a - b == EPOCHS * (a / EPOCHS - b / EPOCHS) + (a % EPOCHS - b % EPOCHS);
  }

  lemma InsertKeepsEntry<T>(sizes: Sizes<T>, h: History<T>, e: Event<T>, k: Key)
    requires e.Insert? && Possible(sizes, h, e) && EntryFits(h, k) && TicketFits(h, e.ticket)
    ensures EntryFits(Next(h, e), k)
  {
  }

  lemma InsertKeepsAccepted<T>(sizes: Sizes<T>, h: History<T>, e: Event<T>, k: Key)
    requires e.Insert? && Possible(sizes, h, e) && AcceptedFits(h, k) && TicketFits(h, e.ticket)
    requires CountsEpoch(h, e.ticket.admission.directory)
    ensures AcceptedFits(Next(h, e), k)
  {
    hide Possible;
    if k == e.ticket.admission.key && Accepts(h.cache, e.ticket.admission) {
      SameResidue(Since(h, DirectoryOf(k)), e.ticket.since);
    }
  }

  lemma InvalidateCounts<T>(h: History<T>, directory: Path, d: Path)
    requires CountsEpoch(h, d)
    ensures CountsEpoch(Next(h, Invalidate(directory)), d)
  {
  }

  lemma InvalidateTicket<T>(h: History<T>, directory: Path, i: Issued)
    requires TicketFits(h, i)
    ensures TicketFits(Next(h, Invalidate(directory)), i)
  {
  }

  lemma InvalidateEntry<T>(h: History<T>, directory: Path, k: Key)
    requires EntryFits(h, k) && AcceptedFits(h, k)
    ensures EntryFits(Next(h, Invalidate(directory)), k) && AcceptedFits(Next(h, Invalidate(directory)), k)
  {
  }

  lemma InvalidateKeeps<T>(h: History<T>, directory: Path)
    requires Consistent(h)
    ensures Consistent(Next(h, Invalidate(directory)))
  {
    hide CountsEpoch, TicketFits, EntryFits, AcceptedFits;
    var t := Next(h, Invalidate(directory));
    assert t.issued == h.issued;
    hide Next;
    forall d ensures CountsEpoch(t, d) {
      InvalidateCounts(h, directory, d);
    }
    forall i | i in t.issued ensures TicketFits(t, i) {
      InvalidateTicket(h, directory, i);
    }
    forall k ensures EntryFits(t, k) && AcceptedFits(t, k) {
      InvalidateEntry(h, directory, k);
    }
  }

  lemma WindowKeeps<T>(h: History<T>, root: Path, depth: nat)
    requires Consistent(h)
    ensures Consistent(Next(h, Window(root, depth)))
  {
    var t := Next(h, Window(root, depth));
    forall d ensures CountsEpoch(t, d) {
      assert CountsEpoch(h, d);
    }
    forall i | i in t.issued ensures TicketFits(t, i) {
      assert TicketFits(h, i);
    }
    forall k ensures EntryFits(t, k) && AcceptedFits(t, k) {
      assert EntryFits(h, k) && AcceptedFits(h, k);
    }
  }

  lemma AdmitKeeps<T>(h: History<T>, key: Key)
    requires Consistent(h)
    ensures Consistent(Next(h, Admit(key)))
  {
    var t := Next(h, Admit(key));
    assert forall d :: CountsEpoch(h, d) ==> CountsEpoch(t, d);
    assert forall k :: EntryFits(h, k) && AcceptedFits(h, k) ==> EntryFits(t, k) && AcceptedFits(t, k);
    forall i | i in t.issued ensures TicketFits(t, i) {
      if i in h.issued {
        assert TicketFits(h, i);
      } else {
        assert CountsEpoch(h, i.admission.directory);
      }
    }
  }

  lemma InsertKeeps<T>(sizes: Sizes<T>, h: History<T>, e: Event<T>)
    requires e.Insert? && Possible(sizes, h, e) && Consistent(h)
    ensures Consistent(Next(h, e))
  {
    var t := Next(h, e);
    assert TicketFits(h, e.ticket) && CountsEpoch(h, e.ticket.admission.directory);
    forall d ensures CountsEpoch(t, d) {
      assert CountsEpoch(h, d);
    }
    forall i | i in t.issued ensures TicketFits(t, i) {
      assert TicketFits(h, i);
    }
    forall k ensures EntryFits(t, k) && AcceptedFits(t, k) {
      assert EntryFits(h, k) && AcceptedFits(h, k);
      InsertKeepsEntry(sizes, h, e, k);
      InsertKeepsAccepted(sizes, h, e, k);
    }
  }

  lemma {:induction false} RunKeeps<T>(sizes: Sizes<T>, h: History<T>, events: seq<Event<T>>, end: History<T>)
    requires Consistent(h) && Reaches(sizes, h, events, end)
    ensures Consistent(end)
    decreases |events|
  {
    if events != [] {
      match events[0] {
        case Admit(key) => AdmitKeeps(h, key);
        case Insert(_, _, _, _, _) => InsertKeeps(sizes, h, events[0]);
        case Invalidate(directory) => InvalidateKeeps(h, directory);
        case Window(root, depth) => WindowKeeps(h, root, depth);
      }
      RunKeeps(sizes, Next(h, events[0]), events[1..], end);
    }
  }

  lemma ReachedIsConsistent<T>(sizes: Sizes<T>, events: seq<Event<T>>, end: History<T>)
    requires Reaches(sizes, Start(), events, end)
    ensures Consistent(end)
  {
    RunKeeps(sizes, Start<T>(), events, end);
  }

  /** In every run, a lookup returns the last value accepted for that key since its directory's last invalidation. */
  lemma LookupIsLastAccepted<T>(sizes: Sizes<T>, events: seq<Event<T>>, end: History<T>, a: Admission)
    requires Reaches(sizes, Start(), events, end) && Lookup(end.cache, a).Some?
    ensures a.key in end.accepted && Lookup(end.cache, a) == Some(end.accepted[a.key].value)
  {
    ReachedIsConsistent(sizes, events, end);
    hide Reaches, CountsEpoch, TicketFits, AcceptedFits;
    assert EntryFits(end, a.key);
  }

  /**
   * In every run, a ticket finds a cached value exactly when the value's own ticket was issued after
   * equally many invalidations since the epoch was dropped (modulo 2^64).
   */
  lemma LookupFindsIffSameEpoch<T>(sizes: Sizes<T>, events: seq<Event<T>>, end: History<T>, i: Issued)
    requires Reaches(sizes, Start(), events, end) && i in end.issued && i.admission.key in end.cache.values
    ensures i.admission.key in end.accepted
    ensures Lookup(end.cache, i.admission).Some?
       <==> (end.accepted[i.admission.key].since - i.since) % EPOCHS == 0
  {
    ReachedIsConsistent(sizes, events, end);
    assert TicketFits(end, i) && EntryFits(end, i.admission.key);
    SameResidue(end.accepted[i.admission.key].since, i.since);
  }

  /**
   * While the directory's epoch was never dropped, what a lookup returns also comes from work
   * admitted after the directory's last invalidation, and only a ticket issued since then finds it.
   */
  lemma LookupIsFresh<T>(sizes: Sizes<T>, events: seq<Event<T>>, end: History<T>, i: Issued)
    requires Reaches(sizes, Start(), events, end) && i in end.issued && Lookup(end.cache, i.admission).Some?
    requires i.admission.directory !in end.forgotten && Invalidations(end, i.admission.directory) < EPOCHS
    ensures var key := i.admission.key;
            && key in end.accepted
            && Lookup(end.cache, i.admission) == Some(end.accepted[key].value)
            && end.accepted[key].issuedAt == Invalidations(end, i.admission.directory) == i.issuedAt
  {
    ReachedIsConsistent(sizes, events, end);
    ConsistentAt(end, i);
    FoundIsFresh(end, i);
  }

  lemma ConsistentAt<T>(end: History<T>, i: Issued)
    requires Consistent(end) && i in end.issued
    ensures TicketFits(end, i) && EntryFits(end, i.admission.key) && AcceptedFits(end, i.admission.key)
    ensures CountsEpoch(end, i.admission.directory)
  {
  }

  lemma FoundIsFresh<T>(end: History<T>, i: Issued)
    requires TicketFits(end, i) && EntryFits(end, i.admission.key) && AcceptedFits(end, i.admission.key)
    requires CountsEpoch(end, i.admission.directory) && Lookup(end.cache, i.admission).Some?
    requires i.admission.directory !in end.forgotten && Invalidations(end, i.admission.directory) < EPOCHS
    ensures var key := i.admission.key;
            && key in end.accepted
            && Lookup(end.cache, i.admission) == Some(end.accepted[key].value)
            && end.accepted[key].issuedAt == Invalidations(end, i.admission.directory) == i.issuedAt
  {
  }

  /**
   * In every run, a ticket is accepted exactly when its directory was invalidated equally often
   * (modulo 2^64) since a window change last dropped its epoch, now and when the ticket was issued.
   */
  lemma TicketAcceptedIffCurrent<T>(sizes: Sizes<T>, events: seq<Event<T>>, end: History<T>, i: Issued)
    requires Reaches(sizes, Start(), events, end) && i in end.issued
    ensures Accepts(end.cache, i.admission) <==> (Since(end, i.admission.directory) - i.since) % EPOCHS == 0
  {
    ReachedIsConsistent(sizes, events, end);
    ConsistentAt(end, i);
    SameResidue(Since(end, i.admission.directory), i.since);
  }

  /** While its directory's epoch was never dropped, that is: no invalidation came since it was issued. */
  lemma UndroppedTicketAcceptedIffFresh<T>(sizes: Sizes<T>, events: seq<Event<T>>, end: History<T>, i: Issued)
    requires Reaches(sizes, Start(), events, end) && i in end.issued
    requires i.admission.directory !in end.forgotten
    ensures Accepts(end.cache, i.admission)
       <==> (Invalidations(end, i.admission.directory) - i.issuedAt) % EPOCHS == 0
  {
    TicketAcceptedIffCurrent(sizes, events, end, i);
    ReachedIsConsistent(sizes, events, end);
    ConsistentAt(end, i);
  }

  // ------------------------------------------------------------- what stays to be found

  /** The path lies in the window, at most `depth` levels below its root. */
  predicate Inside(path: Path, root: Path, depth: nat) {
    |root| <= |path| <= |root| + depth && forall k :: 0 <= k < |root| ==> path[k] == root[k]
  }

  lemma InsideIsWithin(path: Path, root: Path, depth: nat)
    ensures Inside(path, root, depth) <==> Within(path, root, depth)
  {
  }

  /** A ticket is handed out for every file in the window, a root apart, and is good at once. */
  lemma AdmittedIffInside<T>(c: Cache<T>, key: Key)
    ensures var ticket := AdmissionFor(c, key);
            && (ticket.Some? <==> key.path != [] && (c.root.Some? ==> Inside(key.path, c.root.value, c.depth)))
            && (ticket.Some? ==> ticket.value.key == key && Accepts(c, ticket.value)
                                 && |ticket.value.directory| == |key.path| - 1 && ticket.value.directory <= key.path)
  {
    if c.root.Some? {
      InsideIsWithin(key.path, c.root.value, c.depth);
    }
  }

  /** An invalidation takes away its own directory's values; a window change what lies outside. */
  predicate TakesAway<T>(c: Cache<T>, e: Event<T>, a: Admission) {
    match e
    case Invalidate(directory) => directory == a.directory
    case Window(root, depth) => !(c.root == Some(root) && c.depth == depth) && !Inside(a.key.path, root, depth)
    case _ => false
  }

  /** Apart from inserts, a value is found as before unless it was taken away. */
  lemma LookupAfter<T>(h: History<T>, e: Event<T>, a: Admission)
    requires !e.Insert?
    ensures Lookup(Next(h, e).cache, a) == if TakesAway(h.cache, e, a) then None else Lookup(h.cache, a)
  {
    if e.Window? {
      InsideIsWithin(a.key.path, e.root, e.depth);
    }
  }

  /** A window change keeps the epochs inside the window and no other. */
  lemma EpochsAfterWindow<T>(c: Cache<T>, root: Path, depth: nat, d: Path)
    ensures var t := Windowed(c, root, depth);
            && t.root == Some(root) && t.depth == depth
            && Epoch(t, d) == if Inside(d, root, depth) || (c.root == Some(root) && c.depth == depth)
                              then Epoch(c, d) else 0
  {
    InsideIsWithin(d, root, depth);
  }

  /**
   * After an accepted insert the ticket finds the value if the entry was not trimmed at once, and when
   * the entry fits it was not: beside the others, or alone after a clear at capacity.
   */
  lemma InsertedIsFound<T>(sizes: Sizes<T>, h: History<T>, e: Event<T>)
    requires e.Insert? && Possible(sizes, h, e) && Accepts(h.cache, e.ticket.admission)
    ensures var a, before := e.ticket.admission, h.cache.values;
            var entry := Entry(a.directory, a.epoch, e.now, e.value);
            var found := Lookup(Next(h, e).cache, a);
            && found == (if a.key in e.after.values then Some(e.value) else None)
            && ((if |before| < 16384 || a.key in before then Saturate(Total(sizes, before[a.key := entry])) <= e.limit
                 else Saturate(Weight(sizes, a.key, entry)) <= e.limit)
                ==> found == Some(e.value))
  {
    FittingInsert(sizes, h.cache, e.ticket.admission, e.value, e.now, e.limit, e.after);
  }

  /** The event takes the value away, replaces it, or trims it. */
  predicate Disturbs<T>(h: History<T>, e: Event<T>, a: Admission) {
    TakesAway(h.cache, e, a)
    || (e.Insert? && Accepts(h.cache, e.ticket.admission)
        && (e.ticket.admission.key == a.key || a.key !in e.after.values))
  }

  predicate Quiet<T>(h: History<T>, events: seq<Event<T>>, a: Admission)
    decreases |events|
  {
    events != [] ==> !Disturbs(h, events[0], a) && Quiet(Next(h, events[0]), events[1..], a)
  }

  /** A value once found is found until it is taken away, replaced or trimmed. */
  lemma {:induction false} FoundStaysFound<T>(sizes: Sizes<T>, h: History<T>, events: seq<Event<T>>, end: History<T>,
                                              a: Admission)
    requires Reaches(sizes, h, events, end) && Quiet(h, events, a) && Lookup(h.cache, a).Some?
    ensures Lookup(end.cache, a) == Lookup(h.cache, a)
    decreases |events|
  {
    if events != [] {
      if events[0].Insert? {
        InsertElsewhere(sizes, h, events[0], a);
      } else {
        LookupAfter(h, events[0], a);
      }
      FoundStaysFound(sizes, Next(h, events[0]), events[1..], end, a);
    }
  }

  lemma InsertElsewhere<T>(sizes: Sizes<T>, h: History<T>, e: Event<T>, a: Admission)
    requires e.Insert? && Possible(sizes, h, e) && !Disturbs(h, e, a) && Lookup(h.cache, a).Some?
    ensures Lookup(Next(h, e).cache, a) == Lookup(h.cache, a)
  {
    if Accepts(h.cache, e.ticket.admission) {
      FittingInsert(sizes, h.cache, e.ticket.admission, e.value, e.now, e.limit, e.after);
    }
  }

  /** The exception is real: a window change away from an invalidated directory revives a stale ticket. */
  lemma WindowChangeRevivesStaleTicket<T>(sizes: Sizes<T>, key: Key, elsewhere: Path)
    requires key.path != [] && !Within(DirectoryOf(key), elsewhere, 3)
    ensures var ticket := Issued(Admission(key, DirectoryOf(key), 0), 0, 0);
            exists end :: Reaches(sizes, Start(), [Admit(key), Invalidate(DirectoryOf(key)), Window(elsewhere, 3)], end)
                          && ticket in end.issued && Invalidations(end, DirectoryOf(key)) == 1
                          && Accepts(end.cache, ticket.admission)
  {
    var d := DirectoryOf(key);
    var events: seq<Event<T>> := [Admit(key), Invalidate(d), Window(elsewhere, 3)];
    var h1 := Next(Start<T>(), events[0]);
    var h2 := Next(h1, events[1]);
    var h3 := Next(h2, events[2]);
    assert events[1..] == [Invalidate(d), Window(elsewhere, 3)] && events[1..][1..] == [Window(elsewhere, 3)];
    assert events[1..][1..][1..] == [];
    assert Reaches(sizes, h3, [], h3);
    assert Reaches(sizes, h2, events[1..][1..], h3);
    assert Reaches(sizes, h1, events[1..], h3);
    assert Reaches(sizes, Start(), events, h3);
  }
}

/** The in-memory extension column cache: directory epochs, freshness, and its byte budget. */
module ColumnCache {
  import opened Common

  const CAPACITY: nat := 16384

  type U64 = n: nat | n <= U64_MAX

  /** A canonical path, as its components. */
  type Path = seq<string>

  datatype Key = Key(path: Path, modifiedSeconds: U64, modifiedNanos: nat)

  datatype Entry<T> = Entry(directory: Path, epoch: U64, cachedAt: U64, value: T)

  datatype Admission = Admission(key: Key, directory: Path, epoch: U64)

  /** The length of a path's text and of a value's serialized form. */
  datatype Sizes<!T> = Sizes(text: Path -> U64, value: T -> U64)

  datatype Cache<T> = Cache(values: map<Key, Entry<T>>, epochs: map<Path, U64>, root: Option<Path>, depth: nat)

  function Saturate(n: nat): U64 {
    if n <= U64_MAX then n else U64_MAX
  }

  function Within(path: Path, root: Path, depth: nat): bool {
    root <= path && |path| - |root| <= depth
  }

  function Epoch<T>(c: Cache<T>, directory: Path): U64 {
    if directory in c.epochs then c.epochs[directory] else 0
  }

  // ------------------------------------------------------------------- operations

  /** The ticket a producer takes before it starts measuring; none outside the window or for a root. */
  function AdmissionFor<T>(c: Cache<T>, key: Key): Option<Admission> {
    if c.root.Some? && !Within(key.path, c.root.value, c.depth) then None
    else if key.path == [] then None
    else
      var directory := key.path[..|key.path| - 1];
      Some(Admission(key, directory, Epoch(c, directory)))
  }

  function Lookup<T>(c: Cache<T>, a: Admission): Option<T> {
    if a.key in c.values && c.values[a.key].directory == a.directory && c.values[a.key].epoch == a.epoch
    then Some(c.values[a.key].value) else None
  }

  predicate Accepts<T>(c: Cache<T>, a: Admission) {
    Epoch(c, a.directory) == a.epoch
  }

  /** Storing clears a full cache first, unless the key is already there. */
  function Stored<T>(c: Cache<T>, a: Admission, value: T, now: U64): Cache<T> {
    var values := if |c.values| >= CAPACITY && a.key !in c.values then map[] else c.values;
    c.(values := values[a.key := Entry(a.directory, a.epoch, now, value)])
  }

  function Invalidated<T>(c: Cache<T>, directory: Path): Cache<T> {
    var next: U64 := if Epoch(c, directory) == U64_MAX then 0 else Epoch(c, directory) + 1;
    c.(epochs := c.epochs[directory := next],
       values := map k | k in c.values && c.values[k].directory != directory :: c.values[k])
  }

  function Windowed<T>(c: Cache<T>, root: Path, depth: nat): Cache<T> {
    if c.root == Some(root) && c.depth == depth then c
    else Cache(map k | k in c.values && Within(k.path, root, depth) :: c.values[k],
               map d | d in c.epochs && Within(d, root, depth) :: c.epochs[d], Some(root), depth)
  }

  // ---------------------------------------------------------------------- byte totals

  /** What one entry weighs, without saturation. */
  function Weight<T>(sizes: Sizes<T>, key: Key, entry: Entry<T>): nat {
    sizes.text(key.path) + sizes.text(entry.directory) + sizes.value(entry.value) + 64
  }

  ghost function Total<T>(sizes: Sizes<T>, values: map<Key, Entry<T>>): nat
    decreases |values|
  {
    if values == map[] then 0
    else
      var k :| k in values;
      ShrinksBy(values, k);
      Weight(sizes, k, values[k]) + Total(sizes, values - {k})
  }

  lemma ShrinksBy<T>(values: map<Key, Entry<T>>, k: Key)
    requires k in values
    ensures |values - {k}| == |values| - 1
  {
    assert (values - {k}).Keys == values.Keys - {k};
    assert |(values - {k}).Keys| == |values - {k}| && |values.Keys| == |values|;
  }

  /** The total does not depend on the order the entries are visited in. */
  lemma {:induction false} TotalSplits<T>(sizes: Sizes<T>, values: map<Key, Entry<T>>, k: Key)
    requires k in values
    ensures Total(sizes, values) == Weight(sizes, k, values[k]) + Total(sizes, values - {k})
    decreases |values|
  {
    var p :| p in values && Total(sizes, values) == Weight(sizes, p, values[p]) + Total(sizes, values - {p});
    ShrinksBy(values, p);
    ShrinksBy(values, k);
    if p != k {
      TotalSplits(sizes, values - {p}, k);
      TotalSplits(sizes, values - {k}, p);
      assert values - {p} - {k} == values - {k} - {p};
    }
  }

  // ----------------------------------------------------------------------- trimming

  /** What the eviction loop may do: drop the oldest until the saturated total fits, and no more. */
  ghost predicate TrimmedTo<T>(sizes: Sizes<T>, before: map<Key, Entry<T>>, after: map<Key, Entry<T>>, limit: U64) {
    OldestEvicted(sizes, before, after, limit) && Saturate(Total(sizes, after)) <= limit
  }

  /** Only oldest entries are gone, and the last one had to go. */
  ghost predicate OldestEvicted<T>(
    sizes: Sizes<T>, before: map<Key, Entry<T>>, after: map<Key, Entry<T>>, limit: U64)
  {
    && |after| <= |before|
    && (forall k :: k in after ==> k in before && after[k] == before[k])
    && (forall e, s :: e in before && e !in after && s in after ==> before[e].cachedAt <= before[s].cachedAt)
    && (after != before ==> exists last :: last in before && last !in after
                              && Saturate(Total(sizes, after[last := before[last]])) > limit)
  }

  lemma EvictOldest<T>(
    sizes: Sizes<T>, before: map<Key, Entry<T>>, values: map<Key, Entry<T>>, oldest: Key, limit: U64)
    requires OldestEvicted(sizes, before, values, limit) && Saturate(Total(sizes, values)) > limit
    requires oldest in values && forall k :: k in values ==> values[oldest].cachedAt <= values[k].cachedAt
    ensures OldestEvicted(sizes, before, values - {oldest}, limit) && |values - {oldest}| < |values|
  {
    hide Total, Saturate;
    ShrinksBy(values, oldest);
    LeftByEviction(before, values, oldest);
    assert (values - {oldest})[oldest := before[oldest]] == values;
  }

  lemma LeftByEviction<T>(before: map<Key, Entry<T>>, values: map<Key, Entry<T>>, oldest: Key)
    requires forall k :: k in values ==> k in before && values[k] == before[k]
    requires forall e, s :: e in before && e !in values && s in values ==> before[e].cachedAt <= before[s].cachedAt
    requires oldest in values && forall k :: k in values ==> values[oldest].cachedAt <= values[k].cachedAt
    ensures var after := values - {oldest};
            && (forall k :: k in after ==> k in before && after[k] == before[k])
            && forall e, s :: e in before && e !in after && s in after ==> before[e].cachedAt <= before[s].cachedAt
  {
  }

  /** What an insert may leave: nothing changed when stale, else the stored entry, trimmed. */
  ghost predicate InsertedTo<T>(
    sizes: Sizes<T>, c: Cache<T>, a: Admission, value: T, now: U64, limit: U64, after: Cache<T>)
  {
    if Accepts(c, a)
    then after == Stored(c, a, value, now).(values := after.values)
         && TrimmedTo(sizes, Stored(c, a, value, now).values, after.values, limit)
    else after == c
  }

  /** Fewer entries weigh no more. */
  lemma {:induction false} FewerWeighLess<T>(sizes: Sizes<T>, some: map<Key, Entry<T>>, all: map<Key, Entry<T>>)
    requires forall k :: k in some ==> k in all && some[k] == all[k]
    ensures Total(sizes, some) <= Total(sizes, all)
    decreases |all|
  {
    if some != map[] {
      var k :| k in some;
      TotalSplits(sizes, some, k);
      TotalSplits(sizes, all, k);
      ShrinksBy(all, k);
      FewerWeighLess(sizes, some - {k}, all - {k});
    }
  }

  lemma OneMoreWeighsLess<T>(sizes: Sizes<T>, before: map<Key, Entry<T>>, after: map<Key, Entry<T>>, last: Key)
    requires last in before && forall k :: k in after ==> k in before && after[k] == before[k]
    ensures Saturate(Total(sizes, after[last := before[last]])) <= Saturate(Total(sizes, before))
  {
    FewerWeighLess(sizes, after[last := before[last]], before);
  }

  /** What fits is not trimmed. */
  lemma FittingStays<T>(sizes: Sizes<T>, before: map<Key, Entry<T>>, after: map<Key, Entry<T>>, limit: U64)
    requires OldestEvicted(sizes, before, after, limit) && Saturate(Total(sizes, before)) <= limit
    ensures after == before
  {
    if after != before {
      hide Total, Saturate;
      var last :| last in before && last !in after && Saturate(Total(sizes, after[last := before[last]])) > limit;
      OneMoreWeighsLess(sizes, before, after, last);
    }
  }

  /** What an accepted insert leaves when its entry fits: everything and the entry, or the entry alone. */
  ghost predicate InsertedWhole<T>(sizes: Sizes<T>, before: map<Key, Entry<T>>, key: Key, entry: Entry<T>, limit: U64,
                                   after: map<Key, Entry<T>>)
  {
    && (|before| < 16384 || key in before ==>
          Saturate(Total(sizes, before[key := entry])) <= limit ==> after == before[key := entry])
    && (|before| >= 16384 && key !in before ==>
          Saturate(sizes.text(key.path) + sizes.text(entry.directory) + sizes.value(entry.value) + 64) <= limit
          ==> after == map[key := entry])
  }

  lemma FittingInsert<T>(sizes: Sizes<T>, c: Cache<T>, a: Admission, value: T, now: U64, limit: U64, after: Cache<T>)
    requires InsertedTo(sizes, c, a, value, now, limit, after) && Accepts(c, a)
    ensures InsertedWhole(sizes, c.values, a.key, Entry(a.directory, a.epoch, now, value), limit, after.values)
    ensures forall k :: k in after.values && k != a.key ==> k in c.values && after.values[k] == c.values[k]
    ensures a.key in after.values ==> after.values[a.key] == Entry(a.directory, a.epoch, now, value)
  {
    var entry := Entry(a.directory, a.epoch, now, value);
    var stored := Stored(c, a, value, now).values;
    if Saturate(Total(sizes, stored)) <= limit {
      FittingStays(sizes, stored, after.values, limit);
    }
    TotalSplits(sizes, map[a.key := entry], a.key);
    assert map[a.key := entry] - {a.key} == map[];
  }

  /** Weights saturate term by term to the same bound as their sum. */
  lemma SaturatesOnce(a: nat, b: nat, c: nat)
    ensures Saturate(Saturate(a + b) + c) == Saturate(a + b + c)
  {
  }

  /** What is folded so far and what is left make up the whole. */
  ghost predicate Folding<T>(sizes: Sizes<T>, values: map<Key, Entry<T>>, left: map<Key, Entry<T>>, total: U64) {
    Saturate(total + Total(sizes, left)) == Saturate(Total(sizes, values))
  }

  lemma FoldStep<T>(sizes: Sizes<T>, values: map<Key, Entry<T>>, left: map<Key, Entry<T>>, key: Key, total: U64)
    requires key in left && Folding(sizes, values, left, total)
    ensures Folding(sizes, values, left - {key}, Saturate(total + Weight(sizes, key, left[key])))
    ensures |left - {key}| < |left|
  {
    TotalSplits(sizes, left, key);
    ShrinksBy(left, key);
    SaturatesOnce(total, Weight(sizes, key, left[key]), Total(sizes, left - {key}));
  }

  lemma FoldEnds<T>(sizes: Sizes<T>, values: map<Key, Entry<T>>, total: U64)
    requires Folding(sizes, values, map[], total)
    ensures total == Saturate(Total(sizes, values))
  {
  }

  /** The parts of an entry, added one at a time or all at once. */
  lemma PartsAddUp(total: U64, a: U64, b: U64, c: U64)
    ensures Saturate(Saturate(Saturate(Saturate(total + a) + b) + c) + 64) == Saturate(total + (a + b + c + 64))
    ensures Saturate(total + Saturate(a + b + c + 64)) == Saturate(total + (a + b + c + 64))
  {
    SaturatesOnce(total, a, b);
    SaturatesOnce(total + a, b, c);
    SaturatesOnce(total + a + b, c, 64);
  }

  /** The store as the program keeps it. Unordered iteration is a free choice of the next key. */
  class ColumnCacheStore<T> {
    const sizes: Sizes<T>
    var values: map<Key, Entry<T>>
    var epochs: map<Path, U64>
    var activeRoot: Option<Path>
    var activeDepth: nat
    var telemetryBytes: U64
    var telemetryEntries: U64

    function View(): Cache<T>
      reads this
    {
      Cache(values, epochs, activeRoot, activeDepth)
    }

    constructor (sizes: Sizes<T>)
      ensures this.sizes == sizes && View() == Cache(map[], map[], None, 3)
    {
      this.sizes := sizes;
      values, epochs, activeRoot, activeDepth := map[], map[], None, 3;
      telemetryBytes, telemetryEntries := 0, 0;
    }

    function EntryBytes(key: Key, entry: Entry<T>): (bytes: U64)
      ensures bytes == Saturate(Weight(sizes, key, entry))
    {
      Saturate(Saturate(Saturate(sizes.text(key.path) + sizes.text(entry.directory)) + sizes.value(entry.value)) + 64)
    }

    /** The fold the eviction loop compares with the limit. */
    method TrimTotal() returns (total: U64)
      ensures total == Saturate(Total(sizes, values))
    {
      total := 0;
      var left := values;
      while left != map[]
        invariant Folding(sizes, values, left, total)
        decreases |left|
      {
        var key :| key in left;
        FoldStep(sizes, values, left, key, total);
        PartsAddUp(total, sizes.text(key.path), sizes.text(left[key].directory), sizes.value(left[key].value));
        total := Saturate(total + EntryBytes(key, left[key]));
        left := left - {key};
      }
      FoldEnds(sizes, values, total);
    }

    /** The telemetry fold adds the same parts one at a time. */
    method TelemetryTotal() returns (total: U64)
      ensures total == Saturate(Total(sizes, values))
    {
      total := 0;
      var left := values;
      while left != map[]
        invariant Folding(sizes, values, left, total)
        decreases |left|
      {
        var key :| key in left;
        var entry := left[key];
        FoldStep(sizes, values, left, key, total);
        PartsAddUp(total, sizes.text(key.path), sizes.text(entry.directory), sizes.value(entry.value));
        total := Saturate(Saturate(Saturate(Saturate(total + sizes.text(key.path)) + sizes.text(entry.directory))
                                   + sizes.value(entry.value)) + 64);
        left := left - {key};
      }
      FoldEnds(sizes, values, total);
    }

    method RefreshTelemetry()
      modifies this`telemetryBytes, this`telemetryEntries
      ensures telemetryBytes == Saturate(Total(sizes, values)) && telemetryEntries == Saturate(|values|)
    {
      telemetryBytes := TelemetryTotal();
      telemetryEntries := Saturate(|values|);
    }

    method OldestKey() returns (oldest: Key)
      requires values != map[]
      ensures oldest in values && forall k :: k in values ==> values[oldest].cachedAt <= values[k].cachedAt
    {
      oldest :| oldest in values;
      var left := values.Keys - {oldest};
      while left != {}
        invariant left <= values.Keys && oldest in values
        invariant forall k :: k in values.Keys - left ==> values[oldest].cachedAt <= values[k].cachedAt
      {
        var key :| key in left;
        if values[key].cachedAt < values[oldest].cachedAt {
          oldest := key;
        }
        left := left - {key};
      }
    }

    method TrimMemoryBudget(limit: U64)
      modifies this`values
      ensures TrimmedTo(sizes, old(values), values, limit)
    {
      var total := TrimTotal();
      while total > limit
        invariant total == Saturate(Total(sizes, values)) && OldestEvicted(sizes, old(values), values, limit)
        decreases |values|
      {
        assert values != map[];
        var oldest := OldestKey();
        EvictOldest(sizes, old(values), values, oldest, limit);
        values := values - {oldest};
        total := TrimTotal();
      }
    }

    /** Rejects a stale ticket; otherwise stores, trims and republishes the telemetry. */
    method Insert(a: Admission, value: T, now: U64, limit: U64) returns (accepted: bool)
      modifies this`values, this`telemetryBytes, this`telemetryEntries
      ensures accepted == Accepts(old(View()), a)
      ensures InsertedTo(sizes, old(View()), a, value, now, limit, View())
      ensures accepted ==>
                InsertedWhole(sizes, old(values), a.key, Entry(a.directory, a.epoch, now, value), limit, values)
      ensures !accepted ==> values == old(values)
      ensures accepted ==> telemetryBytes == Saturate(Total(sizes, values)) <= limit
                           && telemetryEntries == Saturate(|values|)
      ensures |old(values)| <= CAPACITY ==> |values| <= CAPACITY
    {
      if (if a.directory in epochs then epochs[a.directory] else 0) != a.epoch {
        return false;
      }
      if |values| >= CAPACITY && a.key !in values {
        values := map[];
      }
      InsertedSize(values, a.key, Entry(a.directory, a.epoch, now, value));
      values := values[a.key := Entry(a.directory, a.epoch, now, value)];
      TrimMemoryBudget(limit);
      FittingInsert(sizes, old(View()), a, value, now, limit, View());
      RefreshTelemetry();
      accepted := true;
    }

    /** A memory hit, else whatever the persistent layer has for the ticket. */
    method Get(a: Admission, persistent: Admission -> Option<T>) returns (found: Option<T>)
      ensures found == if Lookup(View(), a).Some? then Lookup(View(), a) else persistent(a)
    {
      if a.key in values {
        var entry := values[a.key];
        if entry.directory == a.directory && entry.epoch == a.epoch {
          return Some(entry.value);
        }
      }
      found := persistent(a);
    }

    method InvalidateDirectory(directory: Path)
      modifies this
      ensures View() == Invalidated(old(View()), directory)
      ensures telemetryBytes == Saturate(Total(sizes, values)) && telemetryEntries == Saturate(|values|)
    {
      var epoch: U64 := if directory in epochs then epochs[directory] else 0;
      epochs := epochs[directory := if epoch == U64_MAX then 0 else epoch + 1];
      values := map k | k in values && values[k].directory != directory :: values[k];
      RefreshTelemetry();
    }

    method RetainWindow(root: Path, depth: nat)
      modifies this
      ensures View() == Windowed(old(View()), root, depth)
      ensures if old(activeRoot) == Some(root) && old(activeDepth) == depth
              then telemetryBytes == old(telemetryBytes) && telemetryEntries == old(telemetryEntries)
              else telemetryBytes == Saturate(Total(sizes, values)) && telemetryEntries == Saturate(|values|)
    {
      if activeRoot == Some(root) && activeDepth == depth {
        return;
      }
      activeRoot, activeDepth := Some(root), depth;
      values := map k | k in values && Within(k.path, root, depth) :: values[k];
      epochs := map d | d in epochs && Within(d, root, depth) :: epochs[d];
      RefreshTelemetry();
    }
  }

  lemma InsertedSize<T>(values: map<Key, Entry<T>>, key: Key, entry: Entry<T>)
    ensures |values[key := entry]| == |values| + if key in values then 0 else 1
  {
    assert values[key := entry].Keys == values.Keys + {key};
    assert |values[key := entry].Keys| == |values[key := entry]| && |values.Keys| == |values|;
  }
}

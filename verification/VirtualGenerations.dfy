/** Container generations of the virtual archive provider, and the remaps that bridge a refresh. */
module VirtualGenerations {
  import opened Common

  type Identity = nat
  type Generation = nat

  /** The three shared tables, each behind its own lock. */
  datatype Tables = Tables(
    containers: map<Identity, Generation>, remaps: map<(Identity, Generation), Generation>,
    undo: map<Identity, (nat, Generation)>)

  const EMPTY_TABLES := Tables(map[], map[], map[])

  // ------------------------------------------------------------- the remap walk

  /** At most `steps` looks along the remaps of one container, for the current generation. */
  function Walk(remaps: map<(Identity, Generation), Generation>, id: Identity, from: Generation,
                current: Generation, steps: nat): Option<Generation>
    decreases steps
  {
    if steps == 0 then None
    else if from == current then Some(from)
    else if (id, from) !in remaps then None
    else Walk(remaps, id, remaps[(id, from)], current, steps - 1)
  }

  /**
   * The generation a virtual location is rebuilt at, or `None` when it is refused. The container is
   * looked up in the tables as `seen`; the remaps are walked later, under their own lock.
   */
  function Served(seen: Tables, later: Tables, id: Identity, g: Generation): Option<Generation> {
    if id !in seen.containers then None
    else if seen.containers[id] == g then Some(g)
    else Walk(later.remaps, id, g, seen.containers[id], |later.remaps| + 1)
  }

  ghost predicate OneRemapEach(remaps: map<(Identity, Generation), Generation>) {
    forall a, b :: a in remaps && b in remaps && a.0 == b.0 ==> a == b
  }

  /** With one remap per container the walk is a single bridge. */
  lemma WalkIsOneBridge(remaps: map<(Identity, Generation), Generation>, id: Identity, from: Generation,
                        current: Generation, steps: nat)
    requires OneRemapEach(remaps) && 2 <= steps
    ensures Walk(remaps, id, from, current, steps).Some?
       <==> from == current || ((id, from) in remaps && remaps[(id, from)] == current)
    ensures Walk(remaps, id, from, current, steps).Some? ==> Walk(remaps, id, from, current, steps).value == current
  {
    if from != current && (id, from) in remaps {
      var next := remaps[(id, from)];
      if next != current {
        WalkStays(remaps, id, next, current, steps - 1);
      }
    }
  }

  /** After a bridge that missed, the walk either stops or turns on the spot. */
  lemma {:induction false} WalkStays(remaps: map<(Identity, Generation), Generation>, id: Identity,
                                     at: Generation, current: Generation, steps: nat)
    requires OneRemapEach(remaps) && at != current
    requires exists g :: (id, g) in remaps && remaps[(id, g)] == at
    ensures Walk(remaps, id, at, current, steps) == None
    decreases steps
  {
    if steps != 0 && (id, at) in remaps {
      var g :| (id, g) in remaps && remaps[(id, g)] == at;
      assert (id, g) == (id, at);
      WalkStays(remaps, id, at, current, steps - 1);
    }
  }

  // -------------------------------------------------------------- the shared record

  class VirtualContainers {
    var containers: map<Identity, Generation>
    var remaps: map<(Identity, Generation), Generation>
    var undo: map<Identity, (nat, Generation)>

    function View(): Tables
      reads this
    {
      Tables(containers, remaps, undo)
    }

    constructor ()
      ensures View() == EMPTY_TABLES
    {
      containers, remaps, undo := map[], map[], map[];
    }

    method Open(id: Identity, generation: Generation)
      modifies this`containers
      ensures View() == Opened(old(View()), id, generation)
    {
      containers := containers[id := generation];
    }

    method WriteRemap(id: Identity, from: Generation, to: Generation)
      modifies this`remaps
      ensures View() == Remapped(old(View()), id, from, to)
    {
      remaps := map k | k in remaps && k.0 != id :: remaps[k];
      remaps := remaps[(id, from) := to];
    }

    method RecordUndo(id: Identity, backup: nat, to: Generation)
      modifies this`undo
      ensures View() == old(View()).(undo := old(undo)[id := (backup, to)])
    {
      undo := undo[id := (backup, to)];
    }

    method ForgetUndo(id: Identity)
      modifies this`undo
      ensures View() == old(View()).(undo := old(undo) - {id})
    {
      undo := undo - {id};
    }

    method WriteGeneration(id: Identity, to: Generation)
      modifies this`containers
      ensures View() == Advanced(old(View()), id, to)
    {
      if id in containers {
        containers := containers[id := to];
      }
    }

    /** Other threads commit, undo and open while no lock is held. */
    method OthersRun()
      modifies this
    {
      containers, remaps, undo := *, *, *;
    }

    method WalkRemaps(id: Identity, generation: Generation, current: Generation) returns (served: Option<Generation>)
      ensures served == Walk(remaps, id, generation, current, |remaps| + 1)
    {
      var at := generation;
      var i := 0;
      while i <= |remaps|
        invariant 0 <= i <= |remaps| + 1
        invariant Walk(remaps, id, generation, current, |remaps| + 1) == Walk(remaps, id, at, current, |remaps| + 1 - i)
      {
        if at == current {
          return Some(at);
        }
        if (id, at) !in remaps {
          return None;
        }
        at := remaps[(id, at)];
        i := i + 1;
      }
      served := None;
    }

    /** Reads the container under one lock, and if it moved on, the remaps under another. */
    method Navigate(id: Identity, generation: Generation) returns (served: Option<Generation>)
      modifies this
      ensures served == Served(old(View()), View(), id, generation)
    {
      if id !in containers {
        return None;
      }
      var current := containers[id];
      if current == generation {
        return Some(current);
      }
      OthersRun();
      served := WalkRemaps(id, generation, current);
    }
  }

  // -------------------------------------------------------------------- critical sections

  function Opened(t: Tables, id: Identity, generation: Generation): Tables {
    t.(containers := t.containers[id := generation])
  }

  function Remapped(t: Tables, id: Identity, from: Generation, to: Generation): Tables {
    t.(remaps := (map k | k in t.remaps && k.0 != id :: t.remaps[k])[(id, from) := to])
  }

  function Advanced(t: Tables, id: Identity, to: Generation): Tables {
    if id in t.containers then t.(containers := t.containers[id := to]) else t
  }

  // ------------------------------------------------------------------------- all runs

  /** A background commit or undo: the generation it started from, the one it produced, and how far it got. */
  datatype Job = Job(id: Identity, from: Generation, to: Generation, backup: Option<nat>, stage: nat)

  /** `latest` remembers, per container, the bridge of the last commit or undo that reached the remap table. */
  datatype System = System(tables: Tables, jobs: seq<Job>, latest: map<Identity, (Generation, Generation)>)

  datatype Step =
    | Open(id: Identity, generation: Generation)
    | Commit(id: Identity, to: Generation, backup: nat)
    | Undo(id: Identity, to: Generation)
    | Proceed(job: nat)

  const INITIAL := System(EMPTY_TABLES, [], map[])

  predicate Enabled(s: System, step: Step) {
    match step
    case Open(_, _) => true
    case Commit(id, _, _) => id in s.tables.containers
    case Undo(id, _) => id in s.tables.containers && id in s.tables.undo
    case Proceed(k) => k < |s.jobs|
  }

  /** The next critical section of a job: the remap, then the undo entry, then the record. */
  function Apply(s: System, step: Step): System
    requires Enabled(s, step)
  {
    match step
    case Open(id, generation) => s.(tables := Opened(s.tables, id, generation))
    case Commit(id, to, backup) => s.(jobs := s.jobs + [Job(id, s.tables.containers[id], to, Some(backup), 0)])
    case Undo(id, to) => s.(jobs := s.jobs + [Job(id, s.tables.containers[id], to, None, 0)])
    case Proceed(k) =>
      var job := s.jobs[k];
      var next := s.(jobs := s.jobs[k := job.(stage := job.stage + 1)]);
      if job.stage == 0 then
        next.(tables := Remapped(s.tables, job.id, job.from, job.to),
              latest := s.latest[job.id := (job.from, job.to)])
      else if job.stage == 1 then
        next.(tables := s.tables.(undo := if job.backup.Some? then s.tables.undo[job.id := (job.backup.value, job.to)]
                                          else s.tables.undo - {job.id}))
      else if job.stage == 2 then next.(tables := Advanced(s.tables, job.id, job.to))
      else s
  }

  function Run(s: System, steps: seq<Step>): Option<System>
    decreases |steps|
  {
    if steps == [] then Some(s)
    else if Enabled(s, steps[0]) then Run(Apply(s, steps[0]), steps[1..])
    else None
  }

  /** The remap table holds exactly the latest bridge of each container. */
  ghost predicate BridgesAreLatest(s: System) {
    && (forall k :: k in s.tables.remaps ==>
          k.0 in s.latest && s.latest[k.0] == (k.1, s.tables.remaps[k]))
    && (forall id :: id in s.latest ==>
          (id, s.latest[id].0) in s.tables.remaps && s.tables.remaps[(id, s.latest[id].0)] == s.latest[id].1)
  }

  lemma StepKeepsBridges(s: System, step: Step)
    requires Enabled(s, step) && BridgesAreLatest(s)
    ensures BridgesAreLatest(Apply(s, step))
  {
  }

  lemma {:induction false} RunKeepsBridges(s: System, steps: seq<Step>)
    requires BridgesAreLatest(s) && Run(s, steps).Some?
    ensures BridgesAreLatest(Run(s, steps).value)
    decreases |steps|
  {
    if steps != [] {
      StepKeepsBridges(s, steps[0]);
      RunKeepsBridges(Apply(s, steps[0]), steps[1..]);
    }
  }

  lemma {:induction false} RunAppend(s: System, p: seq<Step>, q: seq<Step>)
    requires Run(s, p).Some?
    ensures Run(s, p + q) == Run(Run(s, p).value, q)
    decreases |p|
  {
    if p == [] {
      assert p + q == q;
    } else {
      assert (p + q)[1..] == p[1..] + q;
      RunAppend(Apply(s, p[0]), p[1..], q);
    }
  }

  /**
   * Over every run, whatever happens between the two lookups: one remap per container at most, and a
   * location is served exactly when its generation was current at the first lookup, or when by the
   * second the latest commit or undo had replaced it by the generation that was current at the
   * first; it is rebuilt at that generation.
   */
  lemma ServedIffCurrentOrBridged(before: seq<Step>, between: seq<Step>, id: Identity, g: Generation)
    requires Run(INITIAL, before).Some? && Run(Run(INITIAL, before).value, between).Some?
    ensures var s := Run(INITIAL, before).value;
            var t := Run(s, between).value;
            && OneRemapEach(t.tables.remaps)
            && (Served(s.tables, t.tables, id, g).Some? <==>
                  id in s.tables.containers &&
                  (g == s.tables.containers[id]
                   || (id in t.latest && t.latest[id] == (g, s.tables.containers[id]))))
            && (Served(s.tables, t.tables, id, g).Some? ==>
                  id in s.tables.containers && Served(s.tables, t.tables, id, g).value == s.tables.containers[id])
  {
    var s := Run(INITIAL, before).value;
    RunAppend(INITIAL, before, between);
    RunKeepsBridges(INITIAL, before + between);
    var t := Run(s, between).value;
    if id in s.tables.containers && s.tables.containers[id] != g {
      if t.tables.remaps == map[] {
        assert Walk(t.tables.remaps, id, g, s.tables.containers[id], 1) == None;
      } else {
        assert |t.tables.remaps| != 0;
        WalkIsOneBridge(t.tables.remaps, id, g, s.tables.containers[id], |t.tables.remaps| + 1);
      }
    }
  }

  /** When nothing happens in between, the generation served is the current one. */
  lemma ServedAtOnceIsCurrent(steps: seq<Step>, id: Identity, g: Generation)
    requires Run(INITIAL, steps).Some?
    ensures var s := Run(INITIAL, steps).value;
            Served(s.tables, s.tables, id, g) ==
              if id in s.tables.containers
                 && (g == s.tables.containers[id]
                     || (id in s.latest && s.latest[id] == (g, s.tables.containers[id])))
              then Some(s.tables.containers[id]) else None
  {
    assert Run(Run(INITIAL, steps).value, []) == Run(INITIAL, steps);
    ServedIffCurrentOrBridged(steps, [], id, g);
  }

  /** A bridge is not used up: the same old location is served again in the same state. */
  lemma BridgeOutlivesCommit(id: Identity, before: Generation, after: Generation, backup: nat)
    requires before != after
    ensures var steps := [Open(id, before), Commit(id, after, backup), Proceed(0), Proceed(0), Proceed(0)];
            && Run(INITIAL, steps).Some?
            && var t := Run(INITIAL, steps).value.tables; Served(t, t, id, before) == Some(after)
  {
    var s1 := Apply(INITIAL, Open(id, before));
    var s2 := Apply(s1, Commit(id, after, backup));
    var s3 := Apply(s2, Proceed(0));
    var s4 := Apply(s3, Proceed(0));
    var s5 := Apply(s4, Proceed(0));
    var steps := [Open(id, before), Commit(id, after, backup), Proceed(0), Proceed(0), Proceed(0)];
    assert steps[1..] == [Commit(id, after, backup), Proceed(0), Proceed(0), Proceed(0)];
    assert steps[1..][1..] == [Proceed(0), Proceed(0), Proceed(0)];
    assert [Proceed(0), Proceed(0), Proceed(0)][1..] == [Proceed(0), Proceed(0)];
    assert [Proceed(0), Proceed(0)][1..] == [Proceed(0)] && [Proceed(0)][1..] == [];
    assert Run(s2, [Proceed(0), Proceed(0), Proceed(0)]) == Run(s3, [Proceed(0), Proceed(0)]);
    assert Run(INITIAL, steps) == Some(s5);
    ServedAtOnceIsCurrent(steps, id, before);
  }

  /** If the container is opened anew between the two lookups, a generation no longer current is served. */
  lemma TornLookupServesReplaced(id: Identity, first: Generation, second: Generation, third: Generation)
    requires first != second && second != third && first != third
    ensures var before := [Open(id, first), Commit(id, second, 0), Proceed(0), Proceed(0), Proceed(0)];
            var between := [Open(id, third)];
            && Run(INITIAL, before).Some? && Run(Run(INITIAL, before).value, between).Some?
            && var s := Run(INITIAL, before).value;
               var t := Run(s, between).value;
               Served(s.tables, t.tables, id, first) == Some(second)
               && id in t.tables.containers && t.tables.containers[id] == third
  {
    BridgeOutlivesCommit(id, first, second, 0);
    var before := [Open(id, first), Commit(id, second, 0), Proceed(0), Proceed(0), Proceed(0)];
    var s := Run(INITIAL, before).value;
    assert Run(s, [Open(id, third)]) == Run(Apply(s, Open(id, third)), []);
    assert s.tables.remaps == Run(s, [Open(id, third)]).value.tables.remaps;
  }

  // ------------------------------------------------------------------- commit, then undo

  function Sections(job: nat): seq<Step> {
    [Proceed(job), Proceed(job), Proceed(job)]
  }

  /** A commit or an undo that has gone through its three sections with nothing in between. */
  ghost predicate WentThrough(s: System, start: Step, t: System) {
    Run(s, [start] + Sections(|s.jobs|)) == Some(t)
  }

  /** No other container, and no bridge or backup of another container, is touched. */
  ghost predicate OthersUntouched(a: Tables, b: Tables, id: Identity) {
    && a.containers - {id} == b.containers - {id} && a.undo - {id} == b.undo - {id}
    && forall k: (Identity, Generation) :: k.0 != id ==>
         (k in a.remaps <==> k in b.remaps) && (k in a.remaps ==> a.remaps[k] == b.remaps[k])
  }

  lemma ThroughSections(s: System, start: Step) returns (t: System)
    requires start.Commit? || start.Undo?
    requires Enabled(s, start)
    ensures WentThrough(s, start, t) && s.jobs <= t.jobs
    ensures start.id in t.tables.containers && t.tables.containers[start.id] == start.to
    ensures OthersUntouched(s.tables, t.tables, start.id)
    ensures start.id in t.latest && t.latest[start.id] == (s.tables.containers[start.id], start.to)
    ensures if start.Commit? then start.id in t.tables.undo && t.tables.undo[start.id] == (start.backup, start.to)
            else start.id !in t.tables.undo
  {
    var n := |s.jobs|;
    var s1 := Apply(s, start);
    var s2 := Apply(s1, Proceed(n));
    var s3 := Apply(s2, Proceed(n));
    t := Apply(s3, Proceed(n));
    var steps := [start] + Sections(n);
    assert steps[1..] == Sections(n);
    assert Sections(n)[1..] == [Proceed(n), Proceed(n)] && Sections(n)[1..][1..] == [Proceed(n)];
    assert [Proceed(n)][1..] == [];
    assert Run(s3, [Proceed(n)]) == Run(t, []);
    assert Run(s2, [Proceed(n), Proceed(n)]) == Run(s3, [Proceed(n)]);
    assert Run(s1, Sections(n)) == Run(s2, [Proceed(n), Proceed(n)]);
  }

  /**
   * In any reachable state a commit leads to the new generation, bridges the old one and can be undone,
   * once; the undo leads on, bridges the committed generation and uses the backup up. Other containers
   * are not touched.
   */
  lemma CommitThenUndo(before: seq<Step>, id: Identity, to: Generation, backup: nat, back: Generation)
    returns (t: System, u: System)
    requires Run(INITIAL, before).Some? && id in Run(INITIAL, before).value.tables.containers
    ensures var s := Run(INITIAL, before).value;
            && WentThrough(s, Commit(id, to, backup), t) && WentThrough(t, Undo(id, back), u)
            && OthersUntouched(s.tables, t.tables, id) && OthersUntouched(t.tables, u.tables, id)
            && (forall g :: Served(t.tables, t.tables, id, g)
                              == if g == to || g == s.tables.containers[id] then Some(to) else None)
            && (forall g :: Served(u.tables, u.tables, id, g) == if g == back || g == to then Some(back) else None)
            && id in t.tables.undo && t.tables.undo[id] == (backup, to) && !Enabled(u, Undo(id, back))
  {
    var s := Run(INITIAL, before).value;
    t := ThroughSections(s, Commit(id, to, backup));
    u := ThroughSections(t, Undo(id, back));
    var commit, undo := [Commit(id, to, backup)] + Sections(|s.jobs|), [Undo(id, back)] + Sections(|t.jobs|);
    RunAppend(INITIAL, before, commit);
    RunAppend(INITIAL, before + commit, undo);
    hide Served, Run, Apply, OthersUntouched;
    var from := s.tables.containers[id];
    forall g ensures Served(t.tables, t.tables, id, g) == if g == to || g == from then Some(to) else None {
      ServedAtOnceIsCurrent(before + commit, id, g);
    }
    forall g ensures Served(u.tables, u.tables, id, g) == if g == back || g == to then Some(back) else None {
      ServedAtOnceIsCurrent(before + commit + undo, id, g);
    }
  }
}

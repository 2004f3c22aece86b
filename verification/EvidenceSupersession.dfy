/** What a superseded task demands of its successors and of everything that depends on it. */
module EvidenceSupersession {
  import opened Common
  import opened EvidenceLedger
  import opened EvidenceGraph
  import opened EvidenceReplacement
  import opened EvidenceRules

  function DependenciesOf(policy: Policy): Dependencies {
    map t | t in policy :: policy[t].dependsOn
  }

  datatype Demand = NothingAppended | Resolved | MarkedStale(dependent: Task) | Revalidation(dependent: Task)

  /** A demand that is not met, and the line it is reported on. */
  datatype Unmet = Unmet(line: nat, demand: Demand)

  /** Record `j` marks `dependent` stale because of the supersession recorded at `i`. */
  predicate StaleFor(l: Ledger, hash: Record -> Hash, i: nat, dependent: Task, j: nat)
    requires i < |l| && j < |l|
  {
    && l[j].record.taskId == dependent && l[i].line < l[j].line
    && l[j].record.status == Stale && l[j].record.staleFor == Some(hash(l[i].record))
  }

  ghost predicate Marked(l: Ledger, hash: Record -> Hash, i: nat, dependent: Task)
    requires i < |l|
  {
    exists j: nat :: j < |l| && StaleFor(l, hash, i, dependent, j)
  }

  /** The record answers such a mark and names one of the successors. */
  ghost predicate Revalidated(l: Ledger, hash: Record -> Hash, i: nat, dependent: Task, chain: seq<Task>,
      record: Record)
    requires i < |l| && chain != []
  {
    && (exists j: nat :: j < |l| && StaleFor(l, hash, i, dependent, j)
                         && record.revalidationOf == Some(hash(l[j].record)))
    && record.revalidatedAgainst.Some? && record.revalidatedAgainst.value in chain[1..]
  }

  predicate Finished(latest: Latest, task: Task) {
    task in latest && (latest[task].record.status == Passed || latest[task].record.status == NotApplicable)
  }

  /** What is unmet by one dependent of the task superseded at `i`. */
  ghost predicate DependentOwes(l: Ledger, hash: Record -> Hash, i: nat, chain: seq<Task>, dependent: Task, x: Unmet)
    requires i < |l| && chain != []
  {
    var latest := LatestOf(l);
    if !Marked(l, hash, i, dependent) then x == Unmet(l[i].line, MarkedStale(dependent))
    else
      && Finished(latest, dependent)
      && !Revalidated(l, hash, i, dependent, chain, latest[dependent].record)
      && x == Unmet(latest[dependent].line, Revalidation(dependent))
  }

  /** What is unmet after record `i`. */
  ghost predicate Owed(l: Ledger, hash: Record -> Hash, policy: Policy, i: nat, x: Unmet)
    requires i < |l|
  {
    var task := l[i].record.taskId;
    && l[i].record.status == Superseded
    && if LatestBefore(l, task, |l|) != Some(i) then x == Unmet(l[i].line, NothingAppended)
       else if !Resolves(LatestOf(l), policy, task) then x == Unmet(l[i].line, Resolved)
       else exists chain, dependent :: DependentOwesAfter(l, hash, policy, i, chain, dependent, x)
  }

  ghost predicate Resolves(latest: Latest, policy: Policy, task: Task) {
    exists chain :: ResolvesTo(latest, policy, task, chain)
  }

  ghost predicate DependentOwesAfter(l: Ledger, hash: Record -> Hash, policy: Policy, i: nat, chain: seq<Task>,
      dependent: Task, x: Unmet)
    requires i < |l|
  {
    && ResolvesTo(LatestOf(l), policy, l[i].record.taskId, chain)
    && Dependent(DependenciesOf(policy), dependent, l[i].record.taskId)
    && DependentOwes(l, hash, i, chain, dependent, x)
  }

  // --------------------------------------------------------------------- one dependent

  /** The hashes of the stale marks of one dependent. */
  method StaleHashes(l: Ledger, hash: Record -> Hash, i: nat, dependent: Task, events: seq<nat>)
    returns (hashes: set<Hash>)
    requires i < |l| && events == EventsOf(l, dependent, |l|)
    ensures forall h :: h in hashes <==>
              exists j: nat :: j < |l| && StaleFor(l, hash, i, dependent, j) && hash(l[j].record) == h
  {
    hashes := {};
    for k := 0 to |events|
      invariant forall h :: h in hashes <==>
                  exists j :: 0 <= j < k && StaleFor(l, hash, i, dependent, events[j]) && hash(l[events[j]].record) == h
    {
      var Entry(line, r) := l[events[k]];
      MemberEvent(l, dependent, events, k);
      if line > l[i].line && r.status == Stale && r.staleFor == Some(hash(l[i].record)) {
        hashes := hashes + {hash(r)};
      }
    }
    StaleEventsListed(l, hash, i, dependent, events);
  }

  lemma MemberEvent(l: Ledger, task: Task, events: seq<nat>, k: nat)
    requires events == EventsOf(l, task, |l|) && k < |events|
    ensures l[events[k]].record.taskId == task
  {
    EventsListed(l, task, |l|);
    assert events[k] in events;
  }

  lemma StaleEventsListed(l: Ledger, hash: Record -> Hash, i: nat, dependent: Task, events: seq<nat>)
    requires i < |l| && events == EventsOf(l, dependent, |l|)
    ensures forall j: nat :: j < |l| && StaleFor(l, hash, i, dependent, j) ==>
              exists k :: 0 <= k < |events| && events[k] == j
  {
    EventsListed(l, dependent, |l|);
    forall j: nat | j < |l| && StaleFor(l, hash, i, dependent, j)
      ensures exists k :: 0 <= k < |events| && events[k] == j
    {
      assert j in events;
    }
  }

  method DependentIssues(l: Ledger, hash: Record -> Hash, i: nat, chain: seq<Task>, dependent: Task,
      events: seq<nat>, latest: Latest)
    returns (issues: seq<Unmet>)
    requires i < |l| && chain != [] && events == EventsOf(l, dependent, |l|) && latest == LatestOf(l)
    ensures forall x :: x in issues <==> DependentOwes(l, hash, i, chain, dependent, x)
  {
    var hashes := StaleHashes(l, hash, i, dependent, events);
    MarkedByHash(l, hash, i, dependent, hashes);
    if hashes == {} {
      return [Unmet(l[i].line, MarkedStale(dependent))];
    }
    if dependent !in latest
       || (latest[dependent].record.status != Passed && latest[dependent].record.status != NotApplicable) {
      return [];
    }
    var Entry(line, r) := latest[dependent];
    if r.revalidationOf.None? || r.revalidationOf.value !in hashes
       || r.revalidatedAgainst.None? || r.revalidatedAgainst.value !in chain[1..] {
      return [Unmet(line, Revalidation(dependent))];
    }
    return [];
  }

  lemma MarkedByHash(l: Ledger, hash: Record -> Hash, i: nat, dependent: Task, hashes: set<Hash>)
    requires i < |l|
    requires forall h :: h in hashes <==>
               exists j: nat :: j < |l| && StaleFor(l, hash, i, dependent, j) && hash(l[j].record) == h
    ensures hashes == {} <==> !Marked(l, hash, i, dependent)
    ensures forall chain, r :: chain != [] ==>
              (Revalidated(l, hash, i, dependent, chain, r) <==>
               (r.revalidationOf.Some? && r.revalidationOf.value in hashes
                && r.revalidatedAgainst.Some? && r.revalidatedAgainst.value in chain[1..]))
  {
    if j: nat :| j < |l| && StaleFor(l, hash, i, dependent, j) {
      assert hash(l[j].record) in hashes;
    }
    if hashes != {} {
      var h :| h in hashes;
    }
  }

  // -------------------------------------------------------------------- one supersession

  method DependentsIssues(l: Ledger, hash: Record -> Hash, i: nat, chain: seq<Task>, dependents: set<Task>,
      groups: map<Task, seq<nat>>, latest: Latest)
    returns (issues: seq<Unmet>)
    requires i < |l| && chain != [] && Grouped(l, |l|, groups) && latest == LatestOf(l)
    ensures forall x :: x in issues <==> exists d :: d in dependents && DependentOwes(l, hash, i, chain, d, x)
  {
    issues := [];
    var left := dependents;
    while left != {}
      invariant left <= dependents
      invariant forall x :: x in issues <==>
                  exists d :: d in dependents - left && DependentOwes(l, hash, i, chain, d, x)
    {
      var dependent :| dependent in left;
      assert Group(groups, dependent) == EventsOf(l, dependent, |l|);
      var more := DependentIssues(l, hash, i, chain, dependent, Group(groups, dependent), latest);
      issues := issues + more;
      left := left - {dependent};
    }
  }

  /** What is unmet after record `i`, the last of its task or not. */
  method RecordIssues(l: Ledger, hash: Record -> Hash, policy: Policy, i: nat, isLast: bool,
      groups: map<Task, seq<nat>>, latest: Latest)
    returns (issues: seq<Unmet>)
    requires i < |l| && Grouped(l, |l|, groups) && latest == LatestOf(l)
    requires isLast <==> LatestBefore(l, l[i].record.taskId, |l|) == Some(i)
    ensures forall x :: x in issues <==> Owed(l, hash, policy, i, x)
  {
    var Entry(line, r) := l[i];
    if r.status != Superseded {
      return [];
    }
    if !isLast {
      return [Unmet(line, NothingAppended)];
    }
    var chain, error := ResolvedReplacementChain(r.taskId, latest, policy);
    if error.Some? {
      return [Unmet(line, Resolved)];
    }
    var dependents := TransitiveDependents(r.taskId, DependenciesOf(policy));
    issues := DependentsIssues(l, hash, i, chain, dependents, groups, latest);
    OwedByDependents(l, hash, policy, i, chain, dependents, issues);
  }

  lemma OwedByDependents(l: Ledger, hash: Record -> Hash, policy: Policy, i: nat, chain: seq<Task>,
      dependents: set<Task>, issues: seq<Unmet>)
    requires i < |l| && l[i].record.status == Superseded
    requires LatestBefore(l, l[i].record.taskId, |l|) == Some(i)
    requires ResolvesTo(LatestOf(l), policy, l[i].record.taskId, chain)
    requires forall t :: t in dependents <==> Dependent(DependenciesOf(policy), t, l[i].record.taskId)
    requires forall x :: x in issues <==> exists d :: d in dependents && DependentOwes(l, hash, i, chain, d, x)
    ensures forall x :: x in issues <==> Owed(l, hash, policy, i, x)
  {
    forall x ensures x in issues <==> Owed(l, hash, policy, i, x) {
      OwedAlongTheChain(l, hash, policy, i, chain, x);
    }
  }

  lemma OwedAlongTheChain(l: Ledger, hash: Record -> Hash, policy: Policy, i: nat, chain: seq<Task>, x: Unmet)
    requires i < |l| && l[i].record.status == Superseded
    requires LatestBefore(l, l[i].record.taskId, |l|) == Some(i)
    requires ResolvesTo(LatestOf(l), policy, l[i].record.taskId, chain)
    ensures Owed(l, hash, policy, i, x) <==>
              exists d :: Dependent(DependenciesOf(policy), d, l[i].record.taskId)
                          && DependentOwes(l, hash, i, chain, d, x)
  {
    hide DependentOwes, Follow, EndsWell, RegisteredEdges, Dependent, LatestOf;
    if d :| Dependent(DependenciesOf(policy), d, l[i].record.taskId) && DependentOwes(l, hash, i, chain, d, x) {
      assert DependentOwesAfter(l, hash, policy, i, chain, d, x);
    }
    if Owed(l, hash, policy, i, x) {
      var other, d :| DependentOwesAfter(l, hash, policy, i, other, d, x);
      ResolvedChainIsUnique(LatestOf(l), policy, l[i].record.taskId, chain, other);
    }
  }

  // -------------------------------------------------------------------- all supersessions

  ghost predicate OwedByTasks(l: Ledger, hash: Record -> Hash, policy: Policy, done: set<Task>, issues: seq<Unmet>) {
    forall x :: x in issues <==> exists i: nat :: i < |l| && l[i].record.taskId in done && Owed(l, hash, policy, i, x)
  }

  lemma {:induction false} EventsIncrease(l: Ledger, task: Task, n: nat)
    requires n <= |l|
    ensures forall a: nat, b: nat :: a < b < |EventsOf(l, task, n)| ==>
              EventsOf(l, task, n)[a] < EventsOf(l, task, n)[b]
  {
    if n != 0 {
      EventsIncrease(l, task, n - 1);
    }
  }

  /** Only the last position of a task's list is the task's latest record. */
  lemma LastIsLatest(l: Ledger, task: Task, events: seq<nat>, k: nat)
    requires events == EventsOf(l, task, |l|) && k < |events|
    ensures l[events[k]].record.taskId == task
    ensures k == |events| - 1 <==> LatestBefore(l, task, |l|) == Some(events[k])
  {
    MemberEvent(l, task, events, k);
    LastEvent(l, task, |l|);
    EventsIncrease(l, task, |l|);
  }

  method TaskSupersessions(l: Ledger, hash: Record -> Hash, policy: Policy, task: Task, groups: map<Task, seq<nat>>,
      latest: Latest)
    returns (issues: seq<Unmet>)
    requires Grouped(l, |l|, groups) && latest == LatestOf(l)
    ensures OwedByTasks(l, hash, policy, {task}, issues)
  {
    issues := [];
    var events := Group(groups, task);
    for k := 0 to |events|
      invariant OwedByEvents(l, hash, policy, events, k, issues)
    {
      LastIsLatest(l, task, events, k);
      var more := RecordIssues(l, hash, policy, events[k], k == |events| - 1, groups, latest);
      issues := issues + more;
    }
    EventsAreTheTask(l, hash, policy, task, events, issues);
  }

  ghost predicate OwedByEvents(l: Ledger, hash: Record -> Hash, policy: Policy, events: seq<nat>, k: nat,
      issues: seq<Unmet>)
  {
    forall x :: x in issues <==>
      exists j: nat :: j < k && j < |events| && events[j] < |l| && Owed(l, hash, policy, events[j], x)
  }

  lemma EventsAreTheTask(l: Ledger, hash: Record -> Hash, policy: Policy, task: Task, events: seq<nat>,
      issues: seq<Unmet>)
    requires events == EventsOf(l, task, |l|) && OwedByEvents(l, hash, policy, events, |events|, issues)
    ensures OwedByTasks(l, hash, policy, {task}, issues)
  {
    EventsListed(l, task, |l|);
    forall x ensures x in issues <==>
      exists i: nat :: i < |l| && l[i].record.taskId in {task} && Owed(l, hash, policy, i, x)
    {
      if x in issues {
        var j: nat :| j < |events| && events[j] < |l| && Owed(l, hash, policy, events[j], x);
        assert events[j] in events;
      }
      if i: nat :| i < |l| && l[i].record.taskId in {task} && Owed(l, hash, policy, i, x) {
        assert i in events;
        var j: nat :| j < |events| && events[j] == i;
      }
    }
  }

  /** Everything that supersessions leave unmet, on the line each is reported on, and nothing else. */
  method SupersessionIssues(l: Ledger, hash: Record -> Hash, policy: Policy) returns (issues: seq<Unmet>)
    ensures forall x :: x in issues <==> exists i: nat :: i < |l| && Owed(l, hash, policy, i, x)
    ensures issues == [] <==> SupersessionsSettled(l, hash, policy)
  {
    var latest := LatestByTask(l);
    SameLatest(l, latest);
    var groups := GroupByTask(l);
    issues := [];
    var left := groups.Keys;
    while left != {}
      invariant left <= groups.Keys
      invariant OwedByTasks(l, hash, policy, groups.Keys - left, issues)
    {
      var task :| task in left;
      var more := TaskSupersessions(l, hash, policy, task, groups, latest);
      OneMoreTask(l, hash, policy, groups.Keys - left, task, issues, more);
      issues := issues + more;
      assert groups.Keys - (left - {task}) == groups.Keys - left + {task};
      left := left - {task};
    }
    EveryTaskVisited(l, hash, policy, groups, issues);
    NothingOwedMeansSettled(l, hash, policy, issues);
  }

  lemma OneMoreTask(l: Ledger, hash: Record -> Hash, policy: Policy, done: set<Task>, task: Task, issues: seq<Unmet>,
      more: seq<Unmet>)
    requires OwedByTasks(l, hash, policy, done, issues) && OwedByTasks(l, hash, policy, {task}, more)
    ensures OwedByTasks(l, hash, policy, done + {task}, issues + more)
  {
    forall x ensures x in issues + more <==>
      exists i: nat :: i < |l| && l[i].record.taskId in done + {task} && Owed(l, hash, policy, i, x)
    {
      assert x in issues + more <==> x in issues || x in more;
    }
  }

  lemma EveryTaskVisited(l: Ledger, hash: Record -> Hash, policy: Policy, groups: map<Task, seq<nat>>,
      issues: seq<Unmet>)
    requires Grouped(l, |l|, groups) && OwedByTasks(l, hash, policy, groups.Keys, issues)
    ensures forall x :: x in issues <==> exists i: nat :: i < |l| && Owed(l, hash, policy, i, x)
  {
    forall i: nat | i < |l| ensures l[i].record.taskId in groups {
      EventsListed(l, l[i].record.taskId, |l|);
      assert i in EventsOf(l, l[i].record.taskId, |l|);
      assert Group(groups, l[i].record.taskId) != [];
    }
  }

  // --------------------------------------------------------------- what "settled" means

  /** The task superseded at `i` stays so, is replaced by something real, and its dependents have reacted. */
  ghost predicate Settled(l: Ledger, hash: Record -> Hash, policy: Policy, i: nat)
    requires i < |l|
  {
    && LatestBefore(l, l[i].record.taskId, |l|) == Some(i)
    && exists chain :: ResolvesTo(LatestOf(l), policy, l[i].record.taskId, chain)
         && DependentsReacted(l, hash, policy, i, chain)
  }

  /** Each dependent was marked stale; one that is finished again answers that mark and names a successor. */
  ghost predicate DependentsReacted(l: Ledger, hash: Record -> Hash, policy: Policy, i: nat, chain: seq<Task>)
    requires i < |l| && chain != []
  {
    forall d :: Dependent(DependenciesOf(policy), d, l[i].record.taskId) ==>
      && Marked(l, hash, i, d)
      && (Finished(LatestOf(l), d) ==> Revalidated(l, hash, i, d, chain, LatestOf(l)[d].record))
  }

  ghost predicate SupersessionsSettled(l: Ledger, hash: Record -> Hash, policy: Policy) {
    forall i: nat :: i < |l| && l[i].record.status == Superseded ==> Settled(l, hash, policy, i)
  }

  lemma NothingOwedMeansSettled(l: Ledger, hash: Record -> Hash, policy: Policy, issues: seq<Unmet>)
    requires forall x :: x in issues <==> exists i: nat :: i < |l| && Owed(l, hash, policy, i, x)
    ensures issues == [] <==> SupersessionsSettled(l, hash, policy)
  {
    if issues == [] {
      forall i: nat | i < |l| && l[i].record.status == Superseded ensures Settled(l, hash, policy, i) {
        forall x ensures !Owed(l, hash, policy, i, x) {
          assert x !in issues;
        }
        NothingOwedAt(l, hash, policy, i);
      }
    } else {
      var x := issues[0];
      assert x in issues;
      var i: nat :| i < |l| && Owed(l, hash, policy, i, x);
      OwedMeansUnsettled(l, hash, policy, i, x);
    }
  }

  lemma NothingOwedAt(l: Ledger, hash: Record -> Hash, policy: Policy, i: nat)
    requires i < |l| && l[i].record.status == Superseded
    requires forall x :: !Owed(l, hash, policy, i, x)
    ensures Settled(l, hash, policy, i)
  {
    var task := l[i].record.taskId;
    assert !Owed(l, hash, policy, i, Unmet(l[i].line, NothingAppended));
    assert !Owed(l, hash, policy, i, Unmet(l[i].line, Resolved));
    var chain :| ResolvesTo(LatestOf(l), policy, task, chain);
    forall d | Dependent(DependenciesOf(policy), d, task)
      ensures Marked(l, hash, i, d)
      ensures Finished(LatestOf(l), d) ==> Revalidated(l, hash, i, d, chain, LatestOf(l)[d].record)
    {
      assert !Owed(l, hash, policy, i, Unmet(l[i].line, MarkedStale(d)));
      assert !DependentOwesAfter(l, hash, policy, i, chain, d, Unmet(l[i].line, MarkedStale(d)));
      if Finished(LatestOf(l), d) {
        var x := Unmet(LatestOf(l)[d].line, Revalidation(d));
        assert !Owed(l, hash, policy, i, x);
        assert !DependentOwesAfter(l, hash, policy, i, chain, d, x);
      }
    }
  }

  lemma OwedMeansUnsettled(l: Ledger, hash: Record -> Hash, policy: Policy, i: nat, x: Unmet)
    requires i < |l| && Owed(l, hash, policy, i, x)
    ensures l[i].record.status == Superseded && !Settled(l, hash, policy, i)
  {
    var task := l[i].record.taskId;
    if Resolves(LatestOf(l), policy, task) && LatestBefore(l, task, |l|) == Some(i) {
      var chain, d :| DependentOwesAfter(l, hash, policy, i, chain, d, x);
      forall other | ResolvesTo(LatestOf(l), policy, task, other)
        ensures !DependentsReacted(l, hash, policy, i, other)
      {
        ResolvedChainIsUnique(LatestOf(l), policy, task, chain, other);
      }
    }
  }
}

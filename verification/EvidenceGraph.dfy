/** The worklists over the policy's dependency graph. */
module EvidenceGraph {
  import opened Common
  import opened EvidenceLedger

  /** Registered tasks and what they depend on; a dependency need not be registered, and cycles may occur. */
  type Dependencies = map<Task, seq<Task>>

  // ---------------------------------------------------------------------- reachability

  predicate DependsOn(deps: Dependencies, t: Task, d: Task) {
    t in deps && d in deps[t]
  }

  predicate EdgeAt(deps: Dependencies, p: seq<Task>, k: nat)
    requires k + 1 < |p|
  {
    DependsOn(deps, p[k], p[k + 1])
  }

  predicate IsPath(deps: Dependencies, p: seq<Task>) {
    p != [] && forall k: nat :: k + 1 < |p| ==> EdgeAt(deps, p, k)
  }

  predicate PathFromTo(deps: Dependencies, p: seq<Task>, t: Task, s: Task) {
    IsPath(deps, p) && p[0] == t && p[|p| - 1] == s
  }

  /** `t` depends on `s` through zero or more edges. */
  ghost predicate Reaches(deps: Dependencies, t: Task, s: Task) {
    exists p :: PathFromTo(deps, p, t, s)
  }

  /** `t` depends on `s` through one or more edges. */
  ghost predicate Dependent(deps: Dependencies, t: Task, s: Task) {
    exists p :: PathFromTo(deps, p, t, s) && 2 <= |p|
  }

  lemma PathTail(deps: Dependencies, p: seq<Task>)
    requires IsPath(deps, p) && 2 <= |p|
    ensures DependsOn(deps, p[0], p[1]) && PathFromTo(deps, p[1..], p[1], p[|p| - 1])
  {
    var q := p[1..];
    forall k: nat | k + 1 < |q| ensures EdgeAt(deps, q, k) {
      assert EdgeAt(deps, p, k + 1);
    }
    assert EdgeAt(deps, p, 0);
  }

  lemma ExtendDependent(deps: Dependencies, t: Task, u: Task, s: Task)
    requires DependsOn(deps, t, u) && Reaches(deps, u, s)
    ensures Dependent(deps, t, s)
  {
    var p :| PathFromTo(deps, p, u, s);
    var q := [t] + p;
    forall k: nat | k + 1 < |q| ensures EdgeAt(deps, q, k) {
      assert k > 0 ==> EdgeAt(deps, p, k - 1);
    }
    assert PathFromTo(deps, q, t, s);
  }

  lemma ExtendReach(deps: Dependencies, t: Task, u: Task, d: Task)
    requires Reaches(deps, t, u) && DependsOn(deps, u, d)
    ensures Reaches(deps, t, d)
  {
    var p :| PathFromTo(deps, p, t, u);
    var q := p + [d];
    forall k: nat | k + 1 < |q| ensures EdgeAt(deps, q, k) {
      assert k + 1 < |p| ==> EdgeAt(deps, p, k);
    }
    assert PathFromTo(deps, q, t, d);
  }

  lemma ReachesItself(deps: Dependencies, t: Task)
    ensures Reaches(deps, t, t)
  {
    assert PathFromTo(deps, [t], t, t);
  }

  /** A set closed against the edges' direction holds every task that reaches one of its members. */
  lemma {:induction false} BackwardClosed(deps: Dependencies, members: set<Task>, p: seq<Task>)
    requires IsPath(deps, p) && p[|p| - 1] in members
    requires forall t, d :: DependsOn(deps, t, d) && d in members ==> t in members
    ensures p[0] in members
    decreases |p|
  {
    if 1 < |p| {
      PathTail(deps, p);
      BackwardClosed(deps, members, p[1..]);
    }
  }

  ghost predicate ClosedUnderDependencies(deps: Dependencies, s: set<Task>) {
    forall t, d :: t in s && DependsOn(deps, t, d) ==> d in s
  }

  lemma {:induction false} ForwardClosed(deps: Dependencies, s: set<Task>, p: seq<Task>)
    requires IsPath(deps, p) && p[0] in s && ClosedUnderDependencies(deps, s)
    ensures p[|p| - 1] in s
    decreases |p|
  {
    if 1 < |p| {
      PathTail(deps, p);
      ForwardClosed(deps, s, p[1..]);
    }
  }

  // ------------------------------------------------------------------ the dependents

  function Dependers(deps: Dependencies, d: Task): set<Task> {
    set t | t in deps && d in deps[t]
  }

  function At(reverse: map<Task, set<Task>>, d: Task): set<Task> {
    if d in reverse then reverse[d] else {}
  }

  /** `task` is entered for each dependency listed. */
  method EnterTask(reverse: map<Task, set<Task>>, task: Task, list: seq<Task>) returns (more: map<Task, set<Task>>)
    ensures forall d :: At(more, d) == At(reverse, d) + if d in list then {task} else {}
  {
    more := reverse;
    for k := 0 to |list|
      invariant forall d :: At(more, d) == At(reverse, d) + if d in list[..k] then {task} else {}
    {
      assert list[..k + 1] == list[..k] + [list[k]];
      more := more[list[k] := At(more, list[k]) + {task}];
    }
    assert list[..|list|] == list;
  }

  ghost predicate Reversed(deps: Dependencies, left: set<Task>, reverse: map<Task, set<Task>>) {
    forall d :: At(reverse, d) == Dependers(deps, d) - left
  }

  lemma OneTaskReversed(deps: Dependencies, left: set<Task>, reverse: map<Task, set<Task>>, task: Task,
      more: map<Task, set<Task>>)
    requires Reversed(deps, left, reverse) && task in left && task in deps
    requires forall d :: At(more, d) == At(reverse, d) + if d in deps[task] then {task} else {}
    ensures Reversed(deps, left - {task}, more)
  {
  }

  method ReverseDependencies(deps: Dependencies) returns (reverse: map<Task, set<Task>>)
    ensures forall d :: At(reverse, d) == Dependers(deps, d)
  {
    reverse := map[];
    var left := deps.Keys;
    while left != {}
      invariant left <= deps.Keys && Reversed(deps, left, reverse)
    {
      var task :| task in left;
      var more := EnterTask(reverse, task, deps[task]);
      OneTaskReversed(deps, left, reverse, task, more);
      reverse := more;
      left := left - {task};
    }
  }

  /** Appends a set in whatever order it is iterated. */
  method Extend(pending: seq<Task>, more: set<Task>) returns (r: seq<Task>)
    ensures pending <= r && forall x :: x in r <==> x in pending || x in more
  {
    r := pending;
    var left := more;
    while left != {}
      invariant left <= more && pending <= r
      invariant forall x :: x in r <==> x in pending || x in more - left
    {
      var x :| x in left;
      r := r + [x];
      left := left - {x};
    }
  }

  /** Only dependents of `source` are collected or waiting. */
  ghost predicate OnlyDependents(deps: Dependencies, source: Task, collected: set<Task>, pending: seq<Task>) {
    forall t :: t in collected || t in pending ==> Dependent(deps, t, source)
  }

  /** Whatever depends on the source or on a collected task is collected or waiting. */
  ghost predicate DependersFollow(deps: Dependencies, source: Task, collected: set<Task>, pending: seq<Task>) {
    forall t, d :: DependsOn(deps, t, d) && (d == source || d in collected) ==> t in collected || t in pending
  }

  /** Exactly the tasks that depend on `source` through one or more edges, on any graph. */
  method TransitiveDependents(source: Task, deps: Dependencies) returns (dependents: set<Task>)
    ensures forall t :: t in dependents <==> Dependent(deps, t, source)
  {
    hide OnlyDependents, DependersFollow, Dependent, Dependers;
    var reverse := ReverseDependencies(deps);
    dependents := {};
    var pending := Extend([], At(reverse, source));
    DirectDependents(deps, source, pending);
    while pending != []
      invariant dependents <= deps.Keys
      invariant OnlyDependents(deps, source, dependents, pending)
      invariant DependersFollow(deps, source, dependents, pending)
      decreases |deps.Keys - dependents|, |pending|
    {
      ghost var before := pending;
      var task := pending[|pending| - 1];
      pending := pending[..|pending| - 1];
      assert before == pending + [task];
      if task in dependents {
        SkipDependent(deps, source, dependents, pending, task);
        continue;
      }
      ghost var collected, rest := dependents, pending;
      dependents := dependents + {task};
      pending := Extend(pending, At(reverse, task));
      CollectDependent(deps, source, collected, rest, task, pending);
      SmallerSet(deps.Keys - dependents, deps.Keys - collected);
    }
    AllDependentsCollected(deps, source, dependents);
  }

  lemma DependentIsRegistered(deps: Dependencies, t: Task, s: Task)
    requires Dependent(deps, t, s)
    ensures t in deps
  {
    var p :| PathFromTo(deps, p, t, s) && 2 <= |p|;
    PathTail(deps, p);
  }

  lemma DirectDependents(deps: Dependencies, source: Task, pending: seq<Task>)
    requires forall t :: t in pending <==> t in Dependers(deps, source)
    ensures OnlyDependents(deps, source, {}, pending) && DependersFollow(deps, source, {}, pending)
  {
    ReachesItself(deps, source);
    forall t | t in pending ensures Dependent(deps, t, source) {
      ExtendDependent(deps, t, source, source);
    }
  }

  lemma SkipDependent(deps: Dependencies, source: Task, collected: set<Task>, rest: seq<Task>, task: Task)
    requires OnlyDependents(deps, source, collected, rest + [task]) && task in collected
    requires DependersFollow(deps, source, collected, rest + [task])
    ensures OnlyDependents(deps, source, collected, rest) && DependersFollow(deps, source, collected, rest)
  {
    assert forall t :: t in rest ==> t in rest + [task];
    assert forall t :: t in rest + [task] ==> t in rest || t == task;
  }

  lemma CollectDependent(deps: Dependencies, source: Task, collected: set<Task>, rest: seq<Task>, task: Task,
      pending: seq<Task>)
    requires OnlyDependents(deps, source, collected, rest + [task])
    requires DependersFollow(deps, source, collected, rest + [task])
    requires forall t :: t in pending <==> t in rest || t in Dependers(deps, task)
    ensures OnlyDependents(deps, source, collected + {task}, pending)
    ensures DependersFollow(deps, source, collected + {task}, pending)
    ensures task in deps
  {
    assert task in rest + [task];
    DependentIsRegistered(deps, task, source);
    var p :| PathFromTo(deps, p, task, source) && 2 <= |p|;
    assert Reaches(deps, task, source);
    forall t | t in collected + {task} || t in pending ensures Dependent(deps, t, source) {
      if t in Dependers(deps, task) {
        ExtendDependent(deps, t, task, source);
      } else {
        assert t in collected || t in rest + [task];
      }
    }
    forall t, d | DependsOn(deps, t, d) && (d == source || d in collected + {task})
      ensures t in collected + {task} || t in pending
    {
      assert d == task || t in collected || t in rest + [task];
    }
  }

  lemma AllDependentsCollected(deps: Dependencies, source: Task, collected: set<Task>)
    requires OnlyDependents(deps, source, collected, []) && DependersFollow(deps, source, collected, [])
    ensures forall t :: t in collected <==> Dependent(deps, t, source)
  {
    forall t | Dependent(deps, t, source) ensures t in collected {
      var p :| PathFromTo(deps, p, t, source) && 2 <= |p|;
      PathTail(deps, p);
      BackwardClosed(deps, collected + {source}, p[1..]);
    }
  }

  lemma SmallerSet(a: set<Task>, b: set<Task>)
    requires a < b
    ensures |a| < |b|
  {
    var x :| x in b && x !in a;
    SubsetSize(a, b - {x});
  }

  lemma {:induction false} SubsetSize(a: set<Task>, b: set<Task>)
    requires a <= b
    ensures |a| <= |b|
  {
    if a != {} {
      var x :| x in a;
      SubsetSize(a - {x}, b - {x});
    }
  }

  // --------------------------------------------------------------------- the closure

  /** Adds the dependencies not yet in the closure, and queues exactly those. */
  method AddDependencies(list: seq<Task>, closure: set<Task>, pending: seq<Task>)
    returns (grown: set<Task>, queued: seq<Task>)
    ensures grown == closure + set d | d in list
    ensures forall x :: x in queued <==> x in pending || x in grown - closure
    ensures grown == closure ==> queued == pending
  {
    grown, queued := closure, pending;
    for k := 0 to |list|
      invariant grown == closure + set d | d in list[..k]
      invariant forall x :: x in queued <==> x in pending || x in grown - closure
      invariant grown == closure ==> queued == pending
    {
      assert list[..k + 1] == list[..k] + [list[k]];
      if list[k] !in grown {
        grown := grown + {list[k]};
        queued := queued + [list[k]];
      }
    }
    assert list[..|list|] == list;
  }

  /** Some selected task depends on `s`, or is `s`. */
  ghost predicate NeededBy(deps: Dependencies, selected: set<Task>, s: Task) {
    exists t :: t in selected && Reaches(deps, t, s)
  }

  ghost predicate OnlyNeeded(deps: Dependencies, selected: set<Task>, closure: set<Task>) {
    forall s {:trigger NeededBy(deps, selected, s)} :: s in closure ==> NeededBy(deps, selected, s)
  }

  /** The dependencies of a member that is no longer waiting are members. */
  ghost predicate DependenciesFollow(deps: Dependencies, closure: set<Task>, pending: seq<Task>) {
    forall t, d :: t in closure && t !in pending && DependsOn(deps, t, d) ==> d in closure
  }

  /** `closure` is the least set that holds the selection and is closed under dependencies. */
  ghost predicate LeastClosed(deps: Dependencies, selected: set<Task>, closure: set<Task>) {
    && selected <= closure && ClosedUnderDependencies(deps, closure)
    && forall other: set<Task> :: selected <= other && ClosedUnderDependencies(deps, other) ==> closure <= other
  }

  /** Every task the walk can meet. */
  ghost function Mentioned(deps: Dependencies, selected: set<Task>): set<Task> {
    selected + set t, d | t in deps && d in deps[t] :: d
  }

  lemma StillMentioned(deps: Dependencies, selected: set<Task>, known: set<Task>, task: Task, closure: set<Task>)
    requires known <= Mentioned(deps, selected) && task in deps
    requires closure == known + set d | d in deps[task]
    ensures closure <= Mentioned(deps, selected)
    ensures closure != known ==> |Mentioned(deps, selected) - closure| < |Mentioned(deps, selected) - known|
  {
    if closure != known {
      SmallerSet(Mentioned(deps, selected) - closure, Mentioned(deps, selected) - known);
    }
  }

  /** What the walk keeps: nothing needless, nothing forgotten, and only members wait. */
  ghost predicate ClosureUnderWay(deps: Dependencies, selected: set<Task>, closure: set<Task>, pending: seq<Task>) {
    && selected <= closure <= Mentioned(deps, selected)
    && OnlyNeeded(deps, selected, closure) && DependenciesFollow(deps, closure, pending)
    && forall x :: x in pending ==> x in closure
  }

  /** The selected tasks and everything they depend on: the least set closed under dependencies. */
  method DependencyClosure(selected: set<Task>, deps: Dependencies) returns (closure: set<Task>)
    ensures forall s :: s in closure <==> NeededBy(deps, selected, s)
    ensures LeastClosed(deps, selected, closure)
  {
    closure := selected;
    var pending := Extend([], selected);
    SelectedAreNeeded(deps, selected, pending);
    while pending != []
      invariant ClosureUnderWay(deps, selected, closure, pending)
      decreases |Mentioned(deps, selected) - closure|, |pending|
    {
      ghost var before, known := pending, closure;
      var task := pending[|pending| - 1];
      pending := pending[..|pending| - 1];
      ghost var rest := pending;
      assert before == rest + [task];
      if task in deps {
        closure, pending := AddDependencies(deps[task], closure, pending);
      }
      ClosureStep(deps, selected, known, rest, task, closure, pending);
    }
    ClosureIsLeast(deps, selected, closure);
  }

  lemma SelectedAreNeeded(deps: Dependencies, selected: set<Task>, pending: seq<Task>)
    requires forall x :: x in pending <==> x in selected
    ensures ClosureUnderWay(deps, selected, selected, pending)
  {
    forall t | t in selected ensures NeededBy(deps, selected, t) {
      ReachesItself(deps, t);
    }
  }

  /** One task taken off the waiting list, its new dependencies added to the closure and to the list. */
  lemma ClosureStep(deps: Dependencies, selected: set<Task>, known: set<Task>, rest: seq<Task>, task: Task,
      closure: set<Task>, pending: seq<Task>)
    requires ClosureUnderWay(deps, selected, known, rest + [task])
    requires closure == if task in deps then known + set d | d in deps[task] else known
    requires forall x :: x in pending <==> x in rest || x in closure - known
    ensures ClosureUnderWay(deps, selected, closure, pending)
    ensures closure != known ==> |Mentioned(deps, selected) - closure| < |Mentioned(deps, selected) - known|
  {
    assert task in rest + [task];
    assert NeededBy(deps, selected, task);
    if task in deps {
      StillMentioned(deps, selected, known, task, closure);
    }
    forall d | d in closure ensures NeededBy(deps, selected, d) {
      if d !in known {
        var t :| t in selected && Reaches(deps, t, task);
        ExtendReach(deps, t, task, d);
      }
    }
    forall u, d | u in closure && u !in pending && DependsOn(deps, u, d) ensures d in closure {
      assert u == task || u !in rest + [task];
    }
    forall x | x in pending ensures x in closure {
      assert x in rest ==> x in rest + [task];
    }
  }

  lemma ClosureIsLeast(deps: Dependencies, selected: set<Task>, closure: set<Task>)
    requires selected <= closure && ClosedUnderDependencies(deps, closure)
    requires OnlyNeeded(deps, selected, closure)
    ensures forall s :: NeededBy(deps, selected, s) ==> s in closure
    ensures LeastClosed(deps, selected, closure)
  {
    forall s | NeededBy(deps, selected, s) ensures s in closure {
      NeededIsInEveryClosed(deps, selected, closure, s);
    }
    forall other: set<Task>, s | selected <= other && ClosedUnderDependencies(deps, other) && s in closure
      ensures s in other
    {
      NeededIsInEveryClosed(deps, selected, other, s);
    }
  }

  lemma NeededIsInEveryClosed(deps: Dependencies, selected: set<Task>, other: set<Task>, s: Task)
    requires selected <= other && ClosedUnderDependencies(deps, other) && NeededBy(deps, selected, s)
    ensures s in other
  {
    var t :| t in selected && Reaches(deps, t, s);
    var p :| PathFromTo(deps, p, t, s);
    ForwardClosed(deps, other, p);
  }

  // --------------------------------------------------------------------- duality

  /** Both worklists, run on the same graph, agree: for distinct tasks one lists the other backwards. */
  method DependentsAndClosureAreDual(t: Task, s: Task, deps: Dependencies)
    returns (dependents: set<Task>, closure: set<Task>)
    requires t != s
    ensures t in dependents <==> s in closure
    ensures forall x :: x in dependents <==> Dependent(deps, x, s)
    ensures forall x :: x in closure <==> Reaches(deps, t, x)
  {
    dependents := TransitiveDependents(s, deps);
    closure := DependencyClosure({t}, deps);
    forall x ensures NeededBy(deps, {t}, x) <==> Reaches(deps, t, x) {
      assert t in {t};
    }
    DualReachability(deps, t, s);
  }

  /** The task itself apart, depending through edges is reaching; a task depends on itself only around a cycle. */
  lemma DualReachability(deps: Dependencies, t: Task, s: Task)
    ensures t != s ==> (Dependent(deps, t, s) <==> Reaches(deps, t, s))
    ensures Dependent(deps, t, s) <==> exists u :: DependsOn(deps, t, u) && Reaches(deps, u, s)
  {
    if Dependent(deps, t, s) {
      var p :| PathFromTo(deps, p, t, s) && 2 <= |p|;
      PathTail(deps, p);
    }
    if u :| DependsOn(deps, t, u) && Reaches(deps, u, s) {
      ExtendDependent(deps, t, u, s);
    }
    if Reaches(deps, t, s) && t != s {
      var p :| PathFromTo(deps, p, t, s);
      assert 2 <= |p|;
    }
  }
}

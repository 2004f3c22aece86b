/** The two walks along replacement edges: the resolved chain and the cycle rule. */
module EvidenceReplacement {
  import opened Common
  import opened EvidenceLedger
  import EvidenceGraph

  /** The authoritative entry of one task; `approval` is the id of an approved not-applicable decision. */
  datatype Authority = Authority(priority: Priority, releaseBlocking: bool, mandatory: bool,
    dependsOn: seq<Task>, gateIds: set<string>, approval: Option<string>)

  type Policy = map<Task, Authority>
  type Latest = map<Task, Entry>
  type Edges = map<Task, Task>

  // -------------------------------------------------------------------- latest events

  /** `latest` maps every task of the first `n` records to its last record. */
  ghost predicate IsLatest(l: Ledger, n: nat, latest: Latest)
    requires n <= |l|
  {
    forall t {:trigger t in latest} {:trigger LatestBefore(l, t, n)} ::
      var r := LatestBefore(l, t, n);
      (t in latest <==> r.Some?) && (r.Some? ==> latest[t] == l[r.value])
  }

  method LatestByTask(l: Ledger) returns (latest: Latest)
    ensures IsLatest(l, |l|, latest)
  {
    latest := map[];
    for i := 0 to |l|
      invariant IsLatest(l, i, latest)
    {
      latest := latest[l[i].record.taskId := l[i]];
    }
  }

  // --------------------------------------------------------------------- final records

  datatype TerminalIssue = MockOnly | NotClosing(status: Status) | MandatoryLeaf | NotApproved

  /** Why a record cannot end a replacement chain. */
  function AuthorizedTerminalIssue(record: Record, policy: Policy): (r: Option<TerminalIssue>)
    ensures r.None? <==> AuthorizedTerminal(record, policy)
  {
    if record.evidenceScope == TraitMockOnly then Some(MockOnly)
    else if record.status == Passed then None
    else if record.status != NotApplicable then Some(NotClosing(record.status))
    else if record.taskId in policy && policy[record.taskId].mandatory then Some(MandatoryLeaf)
    else if record.taskId !in policy || policy[record.taskId].approval != Some(record.adjustmentId)
    then Some(NotApproved)
    else None
  }

  /** The policy lets this very adjustment close the task as not applicable. */
  predicate Approves(policy: Policy, record: Record) {
    && record.taskId in policy && !policy[record.taskId].mandatory
    && policy[record.taskId].approval == Some(record.adjustmentId)
  }

  /** Real evidence: passed, or not applicable with the policy's approval. */
  predicate AuthorizedTerminal(record: Record, policy: Policy) {
    && record.evidenceScope != TraitMockOnly
    && (record.status == Passed || (record.status == NotApplicable && Approves(policy, record)))
  }

  // ---------------------------------------------------------------- following the edges

  /** The task `n` replacements after `t`. */
  function Follow(edges: Edges, t: Task, n: nat): Option<Task>
    decreases n
  {
    if n == 0 then Some(t) else if t in edges then Follow(edges, edges[t], n - 1) else None
  }

  /** The replacements never come to an end. */
  ghost predicate Endless(edges: Edges, t: Task) {
    forall n: nat :: Follow(edges, t, n).Some?
  }

  /** The tasks on the first |chain| - 1 steps from `source`. */
  predicate Walked(edges: Edges, source: Task, chain: seq<Task>) {
    chain != [] && forall k: nat :: k < |chain| ==> Follow(edges, source, k) == Some(chain[k])
  }

  lemma {:induction false} FollowOneMore(edges: Edges, t: Task, n: nat)
    requires Follow(edges, t, n).Some?
    ensures var last := Follow(edges, t, n).value;
            Follow(edges, t, n + 1) == if last in edges then Some(edges[last]) else None
    decreases n
  {
    if n != 0 {
      FollowOneMore(edges, edges[t], n - 1);
    }
  }

  /** Inside a set that the edges never leave, replacements go on for ever. */
  lemma {:induction false} ClosedIsEndless(edges: Edges, s: set<Task>, t: Task)
    requires t in s && forall x :: x in s ==> x in edges && edges[x] in s
    ensures Endless(edges, t)
  {
    forall n: nat ensures Follow(edges, t, n).Some? {
      ClosedFollow(edges, s, t, n);
    }
  }

  lemma {:induction false} ClosedFollow(edges: Edges, s: set<Task>, t: Task, n: nat)
    requires t in s && forall x :: x in s ==> x in edges && edges[x] in s
    ensures Follow(edges, t, n).Some?
    decreases n
  {
    if n != 0 {
      ClosedFollow(edges, s, edges[t], n - 1);
    }
  }

  // -------------------------------------------------------------------- the cycle rule

  /** Every superseded latest record with a replacement. */
  function ReplacementEdges(latest: Latest): Edges {
    map t | t in latest && latest[t].record.status == Superseded && latest[t].record.replacement.Some?
      :: latest[t].record.replacement.value
  }

  /** Follows the edges until they end or a task comes up again. */
  method ReplacementCycle(edges: Edges, source: Task) returns (cycle: bool)
    ensures cycle <==> Endless(edges, source)
  {
    var seen: set<Task> := {};
    var task := source;
    ghost var n: nat := 0;
    while task in edges
      invariant Follow(edges, source, n) == Some(task)
      invariant seen <= edges.Keys && (source in seen || source == task)
      invariant forall x :: x in seen ==> edges[x] in seen || edges[x] == task
      decreases edges.Keys - seen
    {
      if task in seen {
        ClosedIsEndless(edges, seen, source);
        return true;
      }
      seen := seen + {task};
      FollowOneMore(edges, source, n);
      task := edges[task];
      n := n + 1;
    }
    FollowOneMore(edges, source, n);
    return false;
  }

  // ----------------------------------------------------------------- the resolved chain

  /** Only replacements that the policy registers. */
  ghost function RegisteredEdges(latest: Latest, policy: Policy): Edges {
    map t | t in ReplacementEdges(latest) && ReplacementEdges(latest)[t] in policy :: ReplacementEdges(latest)[t]
  }

  /** A task whose latest record closes it by itself. */
  predicate EndsWell(latest: Latest, policy: Policy, t: Task) {
    t in latest && latest[t].record.status != Superseded && AuthorizedTerminal(latest[t].record, policy)
  }

  /** `chain` follows registered replacements from `source` to a task that is really closed. */
  ghost predicate ResolvesTo(latest: Latest, policy: Policy, source: Task, chain: seq<Task>) {
    Walked(RegisteredEdges(latest, policy), source, chain) && EndsWell(latest, policy, chain[|chain| - 1])
  }

  datatype ChainIssue = NoEvidence | BadEnd(issue: TerminalIssue) | NoReplacement | Cycle

  /** What each outcome says about the last task reached. */
  ghost predicate Explains(latest: Latest, policy: Policy, last: Task, error: Option<ChainIssue>) {
    if error.None? then EndsWell(latest, policy, last)
    else match error.value
      case NoEvidence => last !in latest
      case BadEnd(issue) => last in latest && latest[last].record.status != Superseded
                            && AuthorizedTerminalIssue(latest[last].record, policy) == Some(issue)
      case NoReplacement => last in latest && latest[last].record.status == Superseded
                            && last !in RegisteredEdges(latest, policy)
      case Cycle => last in RegisteredEdges(latest, policy)
  }

  predicate Distinct(chain: seq<Task>) {
    forall i, j :: 0 <= i < j < |chain| ==> chain[i] != chain[j]
  }

  /** What the walk keeps: a duplicate-free chain whose tasks, the last one apart, are replaced by `seen` ones. */
  ghost predicate ChainUnderWay(edges: Edges, policy: Policy, source: Task, chain: seq<Task>, seen: set<Task>) {
    && Walked(edges, source, chain) && Distinct(chain)
    && |seen| == |chain| && seen <= policy.Keys + {source}
    && (forall x :: x in chain ==> x in seen) && chain[|chain| - 1] in seen && source in seen
    && forall x :: x in seen && x != chain[|chain| - 1] ==> x in edges && edges[x] in seen
  }

  datatype Step = Stop(error: Option<ChainIssue>) | Go(next: Task)

  /** Where the walk goes from `task`, or how it ends there. */
  function ChainStep(latest: Latest, policy: Policy, seen: set<Task>, task: Task): (step: Step)
    ensures step.Stop? ==> Explains(latest, policy, task, step.error)
    ensures step == Stop(Some(Cycle)) ==> RegisteredEdges(latest, policy)[task] in seen
    ensures step.Go? ==> task in RegisteredEdges(latest, policy) && RegisteredEdges(latest, policy)[task] == step.next
                         && step.next in policy && step.next !in seen
  {
    if task !in latest then Stop(Some(NoEvidence))
    else
      var record := latest[task].record;
      if record.status != Superseded then
        var issue := AuthorizedTerminalIssue(record, policy);
        Stop(if issue.Some? then Some(BadEnd(issue.value)) else None)
      else if record.replacement.None? || record.replacement.value !in policy then Stop(Some(NoReplacement))
      else if record.replacement.value in seen then Stop(Some(Cycle))
      else Go(record.replacement.value)
  }

  /** The replacements from `source`, each once, up to the task that ends the chain, or why there is none. */
  method ResolvedReplacementChain(source: Task, latest: Latest, policy: Policy)
    returns (chain: seq<Task>, error: Option<ChainIssue>)
    ensures Walked(RegisteredEdges(latest, policy), source, chain) && Distinct(chain)
    ensures |chain| <= |policy| + 1
    ensures Explains(latest, policy, chain[|chain| - 1], error)
    ensures error == Some(Cycle) <==> Endless(RegisteredEdges(latest, policy), source)
    ensures error.None? <==> exists c :: ResolvesTo(latest, policy, source, c)
  {
    chain := [source];
    var seen := {source};
    while true
      invariant ChainUnderWay(RegisteredEdges(latest, policy), policy, source, chain, seen)
      decreases policy.Keys - seen
    {
      Within(seen, policy.Keys, source);
      var step := ChainStep(latest, policy, seen, chain[|chain| - 1]);
      if step.Stop? {
        ChainOutcome(latest, policy, source, chain, seen, step.error);
        return chain, step.error;
      }
      NextLink(RegisteredEdges(latest, policy), policy, source, chain, seen, step.next);
      seen := seen + {step.next};
      chain := chain + [step.next];
    }
  }

  lemma NextLink(edges: Edges, policy: Policy, source: Task, chain: seq<Task>, seen: set<Task>, next: Task)
    requires ChainUnderWay(edges, policy, source, chain, seen)
    requires chain[|chain| - 1] in edges && edges[chain[|chain| - 1]] == next && next in policy && next !in seen
    ensures ChainUnderWay(edges, policy, source, chain + [next], seen + {next})
  {
    FollowOneMore(edges, source, |chain| - 1);
    var longer := chain + [next];
    forall k: nat | k < |longer| ensures Follow(edges, source, k) == Some(longer[k]) {
      assert k < |chain| ==> Follow(edges, source, k) == Some(chain[k]);
    }
  }

  lemma ChainOutcome(latest: Latest, policy: Policy, source: Task, chain: seq<Task>, seen: set<Task>,
      error: Option<ChainIssue>)
    requires ChainUnderWay(RegisteredEdges(latest, policy), policy, source, chain, seen)
    requires Explains(latest, policy, chain[|chain| - 1], error)
    requires error == Some(Cycle) ==> RegisteredEdges(latest, policy)[chain[|chain| - 1]] in seen
    ensures error == Some(Cycle) <==> Endless(RegisteredEdges(latest, policy), source)
    ensures error.None? <==> exists c :: ResolvesTo(latest, policy, source, c)
  {
    if error == Some(Cycle) {
      ClosedIsEndless(RegisteredEdges(latest, policy), seen, source);
      EndlessNeverResolves(latest, policy, source);
    } else {
      EndedChain(latest, policy, source, chain);
      assert error.None? ==> ResolvesTo(latest, policy, source, chain);
    }
  }

  lemma Within(seen: set<Task>, tasks: set<Task>, source: Task)
    requires seen <= tasks + {source}
    ensures |seen| <= |tasks| + 1
  {
    EvidenceGraph.SubsetSize(seen, tasks + {source});
  }

  /** A walk that has ended is neither endless nor a prefix of a longer one. */
  lemma EndedChain(latest: Latest, policy: Policy, source: Task, chain: seq<Task>)
    requires Walked(RegisteredEdges(latest, policy), source, chain)
    requires chain[|chain| - 1] !in RegisteredEdges(latest, policy)
    ensures !Endless(RegisteredEdges(latest, policy), source)
    ensures forall c :: ResolvesTo(latest, policy, source, c) ==> c == chain
  {
    var edges := RegisteredEdges(latest, policy);
    FollowOneMore(edges, source, |chain| - 1);
    assert Follow(edges, source, |chain|).None?;
    forall c | ResolvesTo(latest, policy, source, c) ensures c == chain {
      ResolvedIsEnded(latest, policy, source, c);
      forall k: nat | k < |c| ensures c[k] == chain[k] {
        assert Follow(edges, source, k) == Some(c[k]);
      }
    }
  }

  lemma ResolvedIsEnded(latest: Latest, policy: Policy, source: Task, chain: seq<Task>)
    requires ResolvesTo(latest, policy, source, chain)
    ensures Follow(RegisteredEdges(latest, policy), source, |chain|).None?
  {
    var edges := RegisteredEdges(latest, policy);
    assert Follow(edges, source, |chain| - 1) == Some(chain[|chain| - 1]);
    FollowOneMore(edges, source, |chain| - 1);
  }

  lemma EndlessNeverResolves(latest: Latest, policy: Policy, source: Task)
    requires Endless(RegisteredEdges(latest, policy), source)
    ensures forall c :: !ResolvesTo(latest, policy, source, c)
  {
    forall c | ResolvesTo(latest, policy, source, c) ensures false {
      ResolvedIsEnded(latest, policy, source, c);
    }
  }

  /** A chain that resolves is the only one. */
  lemma ResolvedChainIsUnique(latest: Latest, policy: Policy, source: Task, a: seq<Task>, b: seq<Task>)
    requires ResolvesTo(latest, policy, source, a) && ResolvesTo(latest, policy, source, b)
    ensures a == b
  {
    EndedChain(latest, policy, source, a);
  }

  // ---------------------------------------------------------------------- the two agree

  /** If there is an `n`-th replacement after `source`, the policy registers it. */
  predicate RegisteredAt(latest: Latest, policy: Policy, source: Task, n: nat) {
    var t := Follow(ReplacementEdges(latest), source, n);
    0 < n && t.Some? ==> t.value in policy
  }

  /** The chain meets a cycle exactly when the rule does and every replacement on the way is registered. */
  lemma CycleAgreement(latest: Latest, policy: Policy, source: Task)
    ensures Endless(RegisteredEdges(latest, policy), source) <==>
              && Endless(ReplacementEdges(latest), source)
              && forall n: nat :: RegisteredAt(latest, policy, source, n)
  {
    var all, some := ReplacementEdges(latest), RegisteredEdges(latest, policy);
    if Endless(some, source) {
      forall n: nat ensures Follow(all, source, n).Some? && RegisteredAt(latest, policy, source, n) {
        assert Follow(some, source, n).Some?;
        SmallerEdges(some, all, source, n);
        if n != 0 {
          assert Follow(some, source, n - 1).Some?;
          FollowOneMore(some, source, n - 1);
        }
      }
    }
    if Endless(all, source) && forall n: nat :: RegisteredAt(latest, policy, source, n) {
      forall n: nat ensures Follow(some, source, n).Some? {
        RegisteredFollow(latest, policy, source, n);
      }
    }
  }

  lemma {:induction false} SmallerEdges(some: Edges, all: Edges, t: Task, n: nat)
    requires forall x :: x in some ==> x in all && all[x] == some[x]
    requires Follow(some, t, n).Some?
    ensures Follow(all, t, n) == Follow(some, t, n)
    decreases n
  {
    if n != 0 {
      SmallerEdges(some, all, some[t], n - 1);
    }
  }

  lemma {:induction false} RegisteredFollow(latest: Latest, policy: Policy, source: Task, n: nat)
    requires Endless(ReplacementEdges(latest), source)
    requires forall k: nat :: RegisteredAt(latest, policy, source, k)
    ensures Follow(RegisteredEdges(latest, policy), source, n) == Follow(ReplacementEdges(latest), source, n)
    ensures Follow(RegisteredEdges(latest, policy), source, n).Some?
  {
    var all, some := ReplacementEdges(latest), RegisteredEdges(latest, policy);
    assert Follow(all, source, n).Some?;
    if n != 0 {
      RegisteredFollow(latest, policy, source, n - 1);
      assert Follow(all, source, n - 1).Some?;
      FollowOneMore(all, source, n - 1);
      FollowOneMore(some, source, n - 1);
      assert RegisteredAt(latest, policy, source, n);
    }
  }

  /** With every replacement registered, the chain's cycle error is the rule's cycle, source by source. */
  method CycleChecksAgree(source: Task, latest: Latest, policy: Policy)
    returns (cycle: bool, chain: seq<Task>, error: Option<ChainIssue>)
    requires forall t :: t in ReplacementEdges(latest) ==> ReplacementEdges(latest)[t] in policy
    ensures cycle <==> error == Some(Cycle)
    ensures cycle <==> Endless(ReplacementEdges(latest), source)
  {
    cycle := ReplacementCycle(ReplacementEdges(latest), source);
    chain, error := ResolvedReplacementChain(source, latest, policy);
    assert RegisteredEdges(latest, policy) == ReplacementEdges(latest);
  }
}

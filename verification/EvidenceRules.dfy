/** The rules that relate a record to the rest of its ledger, and the passes that report their violations. */
module EvidenceRules {
  import opened Common
  import opened EvidenceLedger
  import opened EvidenceReplacement

  datatype Rule = DuplicateEvent | IndexLink | TaskLink | SharedSubcheck | NonzeroExit | UnfoundedNotApplicable
                | NoReplacementNamed | ReplacementUnevidenced | ReplacementCycles

  datatype Issue = Issue(line: nat, rule: Rule)

  // --------------------------------------------------------------------------- the rules

  predicate Terminal(status: Status) {
    status == Passed || status == NotApplicable || status == Superseded
  }

  /** The first of the first `n` records that closes something under `key`. */
  function FirstTerminal(l: Ledger, key: string, n: nat): (r: Option<nat>)
    requires n <= |l|
    ensures r.Some? ==> r.value < n && Terminal(l[r.value].record.status) && l[r.value].record.subcheckKey == key
    ensures r.None? ==> forall j :: 0 <= j < n && Terminal(l[j].record.status) ==> l[j].record.subcheckKey != key
  {
    if n == 0 then None
    else
      var earlier := FirstTerminal(l, key, n - 1);
      if earlier.Some? then earlier
      else if Terminal(l[n - 1].record.status) && l[n - 1].record.subcheckKey == key then Some(n - 1)
      else None
  }

  predicate BadReplacement(record: Record) {
    record.replacement.None? || !IsTaskId(record.replacement.value) || record.replacement.value == record.taskId
  }

  /** The edges among the latest events of a ledger. */
  ghost function EdgesOf(l: Ledger): Edges {
    ReplacementEdges(LatestOf(l))
  }

  ghost function LatestOf(l: Ledger): (latest: Latest)
    ensures IsLatest(l, |l|, latest)
  {
    var tasks := set i | 0 <= i < |l| :: l[i].record.taskId;
    map t | t in tasks && LatestBefore(l, t, |l|).Some? :: l[LatestBefore(l, t, |l|).value]
  }

  /** Record `i` breaks `rule`. */
  ghost predicate Violates(l: Ledger, hash: Record -> Hash, rule: Rule, i: nat)
    requires i < |l|
  {
    var r := l[i].record;
    match rule
    case DuplicateEvent => exists j :: 0 <= j < i && l[j].record.eventId == r.eventId
    case IndexLink => !IndexLinked(l, hash, i)
    case TaskLink => !TaskLinked(l, hash, i)
    case SharedSubcheck =>
      var first := FirstTerminal(l, r.subcheckKey, i);
      Terminal(r.status) && first.Some? && l[first.value].record.taskId != r.taskId
    case NonzeroExit => r.status == Passed && r.signer.ExitCode? && r.signer.code != 0
    case UnfoundedNotApplicable =>
      r.status == NotApplicable && (r.condition.None? || r.condition == Some("") || r.signer.ExitCode?)
    case NoReplacementNamed => r.status == Superseded && BadReplacement(r)
    case ReplacementUnevidenced =>
      r.status == Superseded && !BadReplacement(r) && LatestBefore(l, r.replacement.value, |l|).None?
    case ReplacementCycles =>
      LatestBefore(l, r.taskId, |l|) == Some(i) && r.taskId in EdgesOf(l) && Endless(EdgesOf(l), r.taskId)
  }

  /** Some record on this line, among the first `n`, breaks this rule. */
  ghost predicate Justified(l: Ledger, hash: Record -> Hash, n: nat, issue: Issue)
    requires n <= |l|
  {
    exists i: nat :: i < n && Violates(l, hash, issue.rule, i) && l[i].line == issue.line
  }

  /** `issues` holds exactly the violations of `rules` by the first `n` records. */
  ghost predicate Exact(l: Ledger, hash: Record -> Hash, rules: set<Rule>, n: nat, issues: seq<Issue>)
    requires n <= |l|
  {
    forall x :: x in issues <==> x.rule in rules && Justified(l, hash, n, x)
  }

  /** One more record: its violations, and nothing else, are added. */
  lemma OneMoreRecord(l: Ledger, hash: Record -> Hash, rules: set<Rule>, n: nat, issues: seq<Issue>, more: seq<Issue>)
    requires n < |l| && Exact(l, hash, rules, n, issues)
    requires forall x :: x in more <==> x.rule in rules && x.line == l[n].line && Violates(l, hash, x.rule, n)
    ensures Exact(l, hash, rules, n + 1, issues + more)
  {
    forall x ensures x in issues + more <==> x.rule in rules && Justified(l, hash, n + 1, x) {
      if x in issues {
        var i: nat :| i < n && Violates(l, hash, x.rule, i) && l[i].line == x.line;
      }
      if x in more {
        assert Violates(l, hash, x.rule, n);
      }
      if x.rule in rules && Justified(l, hash, n + 1, x) {
        var i: nat :| i < n + 1 && Violates(l, hash, x.rule, i) && l[i].line == x.line;
        assert i < n ==> Justified(l, hash, n, x);
      }
    }
  }

  lemma Together(l: Ledger, hash: Record -> Hash, a: set<Rule>, b: set<Rule>, p: seq<Issue>, q: seq<Issue>)
    requires Exact(l, hash, a, |l|, p) && Exact(l, hash, b, |l|, q)
    ensures Exact(l, hash, a + b, |l|, p + q)
  {
  }

  // -------------------------------------------------------------------------- the passes

  /** An event id that came up before is reported where it comes up again. */
  method DuplicateEvents(l: Ledger, hash: Record -> Hash) returns (issues: seq<Issue>)
    ensures Exact(l, hash, {DuplicateEvent}, |l|, issues)
  {
    issues := [];
    var eventIds: set<string> := {};
    for i := 0 to |l|
      invariant forall id :: id in eventIds <==> exists j :: 0 <= j < i && l[j].record.eventId == id
      invariant Exact(l, hash, {DuplicateEvent}, i, issues)
    {
      var id := l[i].record.eventId;
      var more := if id in eventIds then [Issue(l[i].line, DuplicateEvent)] else [];
      OneMoreRecord(l, hash, {DuplicateEvent}, i, issues, more);
      issues := issues + more;
      eventIds := eventIds + {id};
    }
  }

  /** Each record must name the hash of the record before it. */
  method IndexLinks(l: Ledger, hash: Record -> Hash) returns (issues: seq<Issue>)
    ensures Exact(l, hash, {IndexLink}, |l|, issues)
  {
    issues := [];
    for i := 0 to |l|
      invariant Exact(l, hash, {IndexLink}, i, issues)
    {
      var expected := if i == 0 then None else Some(hash(l[i - 1].record));
      var more := if l[i].record.previousIndex != expected then [Issue(l[i].line, IndexLink)] else [];
      OneMoreRecord(l, hash, {IndexLink}, i, issues, more);
      issues := issues + more;
    }
  }

  /** Each key used so far belongs to the task of its first terminal record. */
  ghost predicate Owned(l: Ledger, n: nat, owners: map<string, Task>)
    requires n <= |l|
  {
    forall key {:trigger key in owners} {:trigger FirstTerminal(l, key, n)} ::
      var first := FirstTerminal(l, key, n);
      (key in owners <==> first.Some?) && (first.Some? ==> owners[key] == l[first.value].record.taskId)
  }

  /** A terminal record takes its key, or clashes with the task that has it. */
  method ClaimSubcheck(l: Ledger, hash: Record -> Hash, i: nat, owners: map<string, Task>)
    returns (more: seq<Issue>, claimed: map<string, Task>)
    requires i < |l| && Owned(l, i, owners)
    ensures Owned(l, i + 1, claimed)
    ensures more == if Violates(l, hash, SharedSubcheck, i) then [Issue(l[i].line, SharedSubcheck)] else []
  {
    var r := l[i].record;
    more, claimed := [], owners;
    if Terminal(r.status) {
      if r.subcheckKey in owners && owners[r.subcheckKey] != r.taskId {
        more := [Issue(l[i].line, SharedSubcheck)];
      }
      if r.subcheckKey !in owners {
        claimed := owners[r.subcheckKey := r.taskId];
      }
    }
  }

  /** A sub-check key belongs to the task of the first terminal record that uses it. */
  method SharedSubchecks(l: Ledger, hash: Record -> Hash) returns (issues: seq<Issue>)
    ensures Exact(l, hash, {SharedSubcheck}, |l|, issues)
  {
    issues := [];
    var owners: map<string, Task> := map[];
    for i := 0 to |l|
      invariant Owned(l, i, owners)
      invariant Exact(l, hash, {SharedSubcheck}, i, issues)
    {
      var more;
      more, owners := ClaimSubcheck(l, hash, i, owners);
      OneMoreRecord(l, hash, {SharedSubcheck}, i, issues, more);
      issues := issues + more;
    }
  }

  const OWN_RULES: set<Rule> := {NonzeroExit, UnfoundedNotApplicable, NoReplacementNamed, ReplacementUnevidenced}

  /** What one record's own status demands. */
  method OwnIssues(l: Ledger, hash: Record -> Hash, i: nat, latest: Latest) returns (issues: seq<Issue>)
    requires i < |l| && IsLatest(l, |l|, latest)
    ensures forall x :: x in issues <==> x.rule in OWN_RULES && x.line == l[i].line && Violates(l, hash, x.rule, i)
  {
    issues := [];
    var Entry(line, r) := l[i];
    if r.status == Passed && r.signer.ExitCode? && r.signer.code != 0 {
      issues := issues + [Issue(line, NonzeroExit)];
    }
    if r.status == NotApplicable && (r.condition.None? || r.condition == Some("") || r.signer.ExitCode?) {
      issues := issues + [Issue(line, UnfoundedNotApplicable)];
    }
    if r.status == Superseded {
      if BadReplacement(r) {
        issues := issues + [Issue(line, NoReplacementNamed)];
      } else if r.replacement.value !in latest {
        issues := issues + [Issue(line, ReplacementUnevidenced)];
      }
    }
  }

  method RecordRules(l: Ledger, hash: Record -> Hash, latest: Latest) returns (issues: seq<Issue>)
    requires IsLatest(l, |l|, latest)
    ensures Exact(l, hash, OWN_RULES, |l|, issues)
  {
    issues := [];
    for i := 0 to |l|
      invariant Exact(l, hash, OWN_RULES, i, issues)
    {
      var more := OwnIssues(l, hash, i, latest);
      OneMoreRecord(l, hash, OWN_RULES, i, issues, more);
      issues := issues + more;
    }
  }

  // -------------------------------------------------------------------- the chain by task

  /** Positions of the records about `task` among the first `n`. */
  function EventsOf(l: Ledger, task: Task, n: nat): (r: seq<nat>)
    requires n <= |l|
    ensures forall k: nat :: k < |r| ==> r[k] < n
  {
    if n == 0 then []
    else EventsOf(l, task, n - 1) + if l[n - 1].record.taskId == task then [n - 1] else []
  }

  lemma {:induction false} EventsListed(l: Ledger, task: Task, n: nat)
    requires n <= |l|
    ensures forall i: nat :: i in EventsOf(l, task, n) <==> i < n && l[i].record.taskId == task
  {
    if n != 0 {
      EventsListed(l, task, n - 1);
    }
  }

  /** The record before an event of a task is the one before it in the task's own list. */
  lemma {:induction false} EventBefore(l: Ledger, task: Task, n: nat, k: nat)
    requires n <= |l| && k < |EventsOf(l, task, n)|
    ensures var events := EventsOf(l, task, n);
            LatestBefore(l, task, events[k]) == if k == 0 then None else Some(events[k - 1])
  {
    var events, shorter := EventsOf(l, task, n), EventsOf(l, task, n - 1);
    EventsListed(l, task, n);
    assert events[k] in events;
    if k < |shorter| {
      EventBefore(l, task, n - 1, k);
    } else {
      LastEvent(l, task, n - 1);
    }
  }

  lemma {:induction false} LastEvent(l: Ledger, task: Task, n: nat)
    requires n <= |l|
    ensures var events := EventsOf(l, task, n);
            LatestBefore(l, task, n) == if events == [] then None else Some(events[|events| - 1])
  {
    if n != 0 {
      LastEvent(l, task, n - 1);
    }
  }

  function Group(groups: map<Task, seq<nat>>, task: Task): seq<nat> {
    if task in groups then groups[task] else []
  }

  /** `groups` lists, for every task of the first `n` records, the positions of its records in order. */
  ghost predicate Grouped(l: Ledger, n: nat, groups: map<Task, seq<nat>>)
    requires n <= |l|
  {
    forall t {:trigger Group(groups, t)} :: Group(groups, t) == EventsOf(l, t, n)
  }

  method GroupByTask(l: Ledger) returns (groups: map<Task, seq<nat>>)
    ensures Grouped(l, |l|, groups)
  {
    groups := map[];
    for i := 0 to |l|
      invariant Grouped(l, i, groups)
    {
      groups := AddEvent(l, i, groups);
    }
  }

  method AddEvent(l: Ledger, i: nat, groups: map<Task, seq<nat>>) returns (more: map<Task, seq<nat>>)
    requires i < |l| && Grouped(l, i, groups)
    ensures Grouped(l, i + 1, more)
  {
    var task := l[i].record.taskId;
    more := groups[task := Group(groups, task) + [i]];
    forall t ensures Group(more, t) == EventsOf(l, t, i + 1) {
      assert EventsOf(l, t, i + 1) == EventsOf(l, t, i) + if t == task then [i] else [];
      assert Group(groups, t) == EventsOf(l, t, i);
    }
  }

  /** The issues of the tasks visited so far. */
  ghost predicate TaskIssues(l: Ledger, hash: Record -> Hash, done: set<Task>, rule: Rule, issues: seq<Issue>) {
    forall x :: x in issues <==> x.rule == rule && exists i: nat ::
      i < |l| && l[i].record.taskId in done && Violates(l, hash, rule, i) && l[i].line == x.line
  }

  /** The violations among the first `k` events of one task. */
  ghost predicate EventIssues(l: Ledger, hash: Record -> Hash, events: seq<nat>, k: nat, issues: seq<Issue>)
    requires k <= |events| && forall j: nat :: j < |events| ==> events[j] < |l|
  {
    forall x :: x in issues <==> x.rule == TaskLink && exists j: nat ::
      j < k && Violates(l, hash, TaskLink, events[j]) && l[events[j]].line == x.line
  }

  /** Each event of a task must name the hash of the task's event before it. */
  method OneTaskLinks(l: Ledger, hash: Record -> Hash, task: Task, events: seq<nat>) returns (issues: seq<Issue>)
    requires events == EventsOf(l, task, |l|)
    ensures EventIssues(l, hash, events, |events|, issues)
  {
    issues := [];
    for k := 0 to |events|
      invariant EventIssues(l, hash, events, k, issues)
    {
      var Entry(line, r) := l[events[k]];
      EventViolation(l, hash, task, events, k);
      if k == 0 {
        if r.previousEvent.Some? {
          issues := issues + [Issue(line, TaskLink)];
        }
        continue;
      }
      if r.previousEvent != Some(hash(l[events[k - 1]].record)) {
        issues := issues + [Issue(line, TaskLink)];
      }
    }
  }

  lemma EventViolation(l: Ledger, hash: Record -> Hash, task: Task, events: seq<nat>, k: nat)
    requires events == EventsOf(l, task, |l|) && k < |events|
    ensures Violates(l, hash, TaskLink, events[k])
            <==> l[events[k]].record.previousEvent != if k == 0 then None else Some(hash(l[events[k - 1]].record))
  {
    EventsListed(l, task, |l|);
    assert events[k] in events;
    EventBefore(l, task, |l|, k);
  }

  method TaskLinks(l: Ledger, hash: Record -> Hash, groups: map<Task, seq<nat>>) returns (issues: seq<Issue>)
    requires Grouped(l, |l|, groups)
    ensures Exact(l, hash, {TaskLink}, |l|, issues)
  {
    issues := [];
    var left := groups.Keys;
    while left != {}
      invariant left <= groups.Keys
      invariant TaskIssues(l, hash, groups.Keys - left, TaskLink, issues)
    {
      var task :| task in left;
      assert Group(groups, task) == EventsOf(l, task, |l|);
      var more := OneTaskLinks(l, hash, task, groups[task]);
      OneTaskMore(l, hash, groups.Keys - left, task, issues, more);
      issues := issues + more;
      assert groups.Keys - (left - {task}) == groups.Keys - left + {task};
      left := left - {task};
    }
    AllTasksVisited(l, hash, groups, TaskLink, issues);
  }

  lemma OneTaskMore(l: Ledger, hash: Record -> Hash, done: set<Task>, task: Task, issues: seq<Issue>, more: seq<Issue>)
    requires TaskIssues(l, hash, done, TaskLink, issues)
    requires EventIssues(l, hash, EventsOf(l, task, |l|), |EventsOf(l, task, |l|)|, more)
    ensures TaskIssues(l, hash, done + {task}, TaskLink, issues + more)
  {
    var events := EventsOf(l, task, |l|);
    EventsListed(l, task, |l|);
    forall x ensures x in issues + more <==> x.rule == TaskLink && exists i: nat ::
      i < |l| && l[i].record.taskId in done + {task} && Violates(l, hash, TaskLink, i) && l[i].line == x.line
    {
      if x in more {
        var j: nat :| j < |events| && Violates(l, hash, TaskLink, events[j]) && l[events[j]].line == x.line;
        assert events[j] in events;
      }
      if i: nat :| x.rule == TaskLink && i < |l| && l[i].record.taskId in done + {task}
                   && Violates(l, hash, TaskLink, i) && l[i].line == x.line {
        if l[i].record.taskId == task {
          assert i in events;
          var j: nat :| j < |events| && events[j] == i;
        }
      }
    }
  }

  lemma AllTasksVisited(l: Ledger, hash: Record -> Hash, groups: map<Task, seq<nat>>, rule: Rule, issues: seq<Issue>)
    requires Grouped(l, |l|, groups) && TaskIssues(l, hash, groups.Keys, rule, issues)
    ensures Exact(l, hash, {rule}, |l|, issues)
  {
    forall i: nat | i < |l| ensures l[i].record.taskId in groups {
      EventsListed(l, l[i].record.taskId, |l|);
      assert i in EventsOf(l, l[i].record.taskId, |l|);
      assert Group(groups, l[i].record.taskId) != [];
    }
  }

  // ----------------------------------------------------------------- replacement cycles

  /** Every latest superseded record from which the replacements go round. */
  method ReplacementCycleIssues(l: Ledger, hash: Record -> Hash, latest: Latest) returns (issues: seq<Issue>)
    requires IsLatest(l, |l|, latest)
    ensures Exact(l, hash, {ReplacementCycles}, |l|, issues)
  {
    SameLatest(l, latest);
    var edges := ReplacementEdges(latest);
    issues := [];
    var left := edges.Keys;
    while left != {}
      invariant left <= edges.Keys
      invariant forall x :: x in issues <==>
                  x.rule == ReplacementCycles
                  && exists t :: t in edges.Keys - left && Endless(edges, t) && latest[t].line == x.line
    {
      var source :| source in left;
      var cycle := ReplacementCycle(edges, source);
      if cycle {
        issues := issues + [Issue(latest[source].line, ReplacementCycles)];
      }
      left := left - {source};
    }
    CycleIssuesExact(l, hash, latest, issues);
  }

  lemma SameLatest(l: Ledger, latest: Latest)
    requires IsLatest(l, |l|, latest)
    ensures latest == LatestOf(l)
  {
    var other := LatestOf(l);
    forall t ensures (t in latest <==> t in other) && (t in latest ==> latest[t] == other[t]) {
      var r := LatestBefore(l, t, |l|);
    }
  }

  lemma CycleIssuesExact(l: Ledger, hash: Record -> Hash, latest: Latest, issues: seq<Issue>)
    requires latest == LatestOf(l)
    requires forall x :: x in issues <==>
               x.rule == ReplacementCycles
               && exists t :: t in EdgesOf(l) && Endless(EdgesOf(l), t) && t in latest && latest[t].line == x.line
    ensures Exact(l, hash, {ReplacementCycles}, |l|, issues)
  {
    hide Violates, EdgesOf, LatestOf, Endless;
    forall x ensures x in issues <==> x.rule == ReplacementCycles && Justified(l, hash, |l|, x) {
      if x in issues {
        var t :| t in EdgesOf(l) && Endless(EdgesOf(l), t) && t in latest && latest[t].line == x.line;
        CycleViolates(l, hash, t);
      }
      if x.rule == ReplacementCycles && Justified(l, hash, |l|, x) {
        var i: nat :| i < |l| && Violates(l, hash, ReplacementCycles, i) && l[i].line == x.line;
        ViolatesCycle(l, hash, i);
      }
    }
  }

  lemma ViolatesCycle(l: Ledger, hash: Record -> Hash, i: nat)
    requires i < |l| && Violates(l, hash, ReplacementCycles, i)
    ensures var t := l[i].record.taskId;
            t in EdgesOf(l) && Endless(EdgesOf(l), t) && t in LatestOf(l) && LatestOf(l)[t] == l[i]
  {
  }

  lemma CycleViolates(l: Ledger, hash: Record -> Hash, t: Task)
    requires t in EdgesOf(l) && Endless(EdgesOf(l), t)
    ensures t in LatestOf(l)
    ensures exists i: nat :: i < |l| && Violates(l, hash, ReplacementCycles, i) && l[i].line == LatestOf(l)[t].line
  {
    var i := LatestBefore(l, t, |l|).value;
    assert Violates(l, hash, ReplacementCycles, i);
  }

  // -------------------------------------------------------------------- all rules at once

  const ALL_RULES: set<Rule> := {DuplicateEvent, IndexLink, TaskLink, SharedSubcheck} + OWN_RULES + {ReplacementCycles}

  /** Every violation of every rule is reported on its line, and nothing else is. */
  method CrossRecordIssues(l: Ledger, hash: Record -> Hash) returns (issues: seq<Issue>)
    ensures Exact(l, hash, ALL_RULES, |l|, issues)
    ensures issues == [] <==> Sound(l, hash)
  {
    var groups := GroupByTask(l);
    var latest := LatestByTask(l);
    issues := DuplicateEvents(l, hash);
    var indexLinks := IndexLinks(l, hash);
    Together(l, hash, {DuplicateEvent}, {IndexLink}, issues, indexLinks);
    issues := issues + indexLinks;
    var taskLinks := TaskLinks(l, hash, groups);
    Together(l, hash, {DuplicateEvent} + {IndexLink}, {TaskLink}, issues, taskLinks);
    issues := issues + taskLinks;
    var subchecks := SharedSubchecks(l, hash);
    Together(l, hash, {DuplicateEvent} + {IndexLink} + {TaskLink}, {SharedSubcheck}, issues, subchecks);
    issues := issues + subchecks;
    var own := RecordRules(l, hash, latest);
    Together(l, hash, {DuplicateEvent} + {IndexLink} + {TaskLink} + {SharedSubcheck}, OWN_RULES, issues, own);
    issues := issues + own;
    var cycles := ReplacementCycleIssues(l, hash, latest);
    Together(l, hash, {DuplicateEvent} + {IndexLink} + {TaskLink} + {SharedSubcheck} + OWN_RULES, {ReplacementCycles},
             issues, cycles);
    issues := issues + cycles;
    assert {DuplicateEvent} + {IndexLink} + {TaskLink} + {SharedSubcheck} + OWN_RULES + {ReplacementCycles}
        == ALL_RULES;
    NoIssueMeansSound(l, hash, issues);
  }

  /** The ledger as the rules want it, without reference to any pass. */
  ghost predicate Sound(l: Ledger, hash: Record -> Hash) {
    && EventIdsDistinct(l) && IndexChain(l, hash) && TaskChain(l, hash) && SubchecksOwned(l)
    && (forall i: nat :: i < |l| ==> WellFounded(l, l[i].record))
    && forall t :: t in EdgesOf(l) ==> !Endless(EdgesOf(l), t)
  }

  predicate EventIdsDistinct(l: Ledger) {
    forall i, j :: 0 <= j < i < |l| ==> l[j].record.eventId != l[i].record.eventId
  }

  /** Two records close something under the same key. */
  predicate SameSubcheck(l: Ledger, i: nat, j: nat)
    requires i < |l| && j < |l|
  {
    Terminal(l[i].record.status) && Terminal(l[j].record.status) && l[i].record.subcheckKey == l[j].record.subcheckKey
  }

  /** Terminal records under one key are about one task. */
  ghost predicate SubchecksOwned(l: Ledger) {
    forall i: nat, j: nat :: j < i < |l| && SameSubcheck(l, i, j) ==> l[j].record.taskId == l[i].record.taskId
  }

  /** A pass is a success, a waiver is reviewed, and a replacement exists. */
  predicate WellFounded(l: Ledger, r: Record) {
    && (r.status == Passed && r.signer.ExitCode? ==> r.signer.code == 0)
    && (r.status == NotApplicable ==> r.condition.Some? && r.condition != Some("") && r.signer.Reviewer?)
    && (r.status == Superseded ==> !BadReplacement(r) && LatestBefore(l, r.replacement.value, |l|).Some?)
  }

  ghost predicate Kept(l: Ledger, hash: Record -> Hash, rule: Rule) {
    forall i: nat :: i < |l| ==> !Violates(l, hash, rule, i)
  }

  lemma NoIssueMeansSound(l: Ledger, hash: Record -> Hash, issues: seq<Issue>)
    requires Exact(l, hash, ALL_RULES, |l|, issues)
    ensures issues == [] <==> Sound(l, hash)
  {
    hide Violates, Sound;
    forall rule, i: nat | i < |l| && Violates(l, hash, rule, i) ensures Issue(l[i].line, rule) in issues {
      EveryRule(rule);
      assert Justified(l, hash, |l|, Issue(l[i].line, rule));
    }
    if issues == [] {
      SoundWhenKept(l, hash);
    }
    if Sound(l, hash) && issues != [] {
      var x := issues[0];
      assert x in issues;
      var i: nat :| i < |l| && Violates(l, hash, x.rule, i) && l[i].line == x.line;
      SoundMeansNoViolation(l, hash, x.rule, i);
    }
  }

  lemma EveryRule(rule: Rule)
    ensures rule in ALL_RULES
  {
    match rule
    case DuplicateEvent => case IndexLink => case TaskLink => case SharedSubcheck => case NonzeroExit =>
    case UnfoundedNotApplicable => case NoReplacementNamed => case ReplacementUnevidenced => case ReplacementCycles =>
  }

  lemma SoundWhenKept(l: Ledger, hash: Record -> Hash)
    requires forall rule :: Kept(l, hash, rule)
    ensures Sound(l, hash)
  {
    hide Kept, EventIdsDistinct, IndexChain, TaskChain, SubchecksOwned, WellFounded;
    KeptLinks(l, hash);
    KeptSubchecks(l, hash);
    KeptRecordRules(l, hash);
    KeptReplacements(l, hash);
  }

  lemma KeptLinks(l: Ledger, hash: Record -> Hash)
    requires Kept(l, hash, DuplicateEvent) && Kept(l, hash, IndexLink) && Kept(l, hash, TaskLink)
    ensures EventIdsDistinct(l) && IndexChain(l, hash) && TaskChain(l, hash)
  {
    forall i: nat, j: nat | j < i < |l| ensures l[j].record.eventId != l[i].record.eventId {
      assert !Violates(l, hash, DuplicateEvent, i);
    }
    forall i: nat | i < |l| ensures IndexLinked(l, hash, i) && TaskLinked(l, hash, i) {
      assert !Violates(l, hash, IndexLink, i) && !Violates(l, hash, TaskLink, i);
    }
  }

  lemma KeptSubchecks(l: Ledger, hash: Record -> Hash)
    requires Kept(l, hash, SharedSubcheck)
    ensures SubchecksOwned(l)
  {
    forall i: nat, j: nat | j < i < |l| && SameSubcheck(l, i, j) ensures l[j].record.taskId == l[i].record.taskId {
      OneOwner(l, hash, i, j);
    }
  }

  lemma KeptRecordRules(l: Ledger, hash: Record -> Hash)
    requires Kept(l, hash, NonzeroExit) && Kept(l, hash, UnfoundedNotApplicable)
    requires Kept(l, hash, NoReplacementNamed) && Kept(l, hash, ReplacementUnevidenced)
    ensures forall i: nat :: i < |l| ==> WellFounded(l, l[i].record)
  {
    forall i: nat | i < |l| ensures WellFounded(l, l[i].record) {
      KeptWellFounded(l, hash, i);
    }
  }

  lemma KeptWellFounded(l: Ledger, hash: Record -> Hash, i: nat)
    requires i < |l|
    requires !Violates(l, hash, NonzeroExit, i) && !Violates(l, hash, UnfoundedNotApplicable, i)
    requires !Violates(l, hash, NoReplacementNamed, i) && !Violates(l, hash, ReplacementUnevidenced, i)
    ensures WellFounded(l, l[i].record)
  {
  }

  lemma KeptReplacements(l: Ledger, hash: Record -> Hash)
    requires Kept(l, hash, ReplacementCycles)
    ensures forall t :: t in EdgesOf(l) ==> !Endless(EdgesOf(l), t)
  {
    forall t | t in EdgesOf(l) ensures !Endless(EdgesOf(l), t) {
      var i := LatestBefore(l, t, |l|).value;
      assert !Violates(l, hash, ReplacementCycles, i);
    }
  }

  lemma OneOwner(l: Ledger, hash: Record -> Hash, i: nat, j: nat)
    requires j < i < |l| && SameSubcheck(l, i, j)
    requires !Violates(l, hash, SharedSubcheck, i) && !Violates(l, hash, SharedSubcheck, j)
    ensures l[j].record.taskId == l[i].record.taskId
  {
    FirstTerminalStays(l, l[i].record.subcheckKey, j + 1, i);
  }

  lemma {:induction false} FirstTerminalStays(l: Ledger, key: string, n: nat, m: nat)
    requires n <= m <= |l| && FirstTerminal(l, key, n).Some?
    ensures FirstTerminal(l, key, m) == FirstTerminal(l, key, n)
  {
    if n < m {
      FirstTerminalStays(l, key, n, m - 1);
    }
  }

  lemma SoundMeansNoViolation(l: Ledger, hash: Record -> Hash, rule: Rule, i: nat)
    requires Sound(l, hash) && i < |l|
    ensures !Violates(l, hash, rule, i)
  {
    assert IndexLinked(l, hash, i) && TaskLinked(l, hash, i) && WellFounded(l, l[i].record);
    var first := FirstTerminal(l, l[i].record.subcheckKey, i);
    assert first.Some? && Terminal(l[i].record.status) ==> SameSubcheck(l, i, first.value);
  }

  // ------------------------------------------------------- appending to a sound ledger

  /** The latest record of each task after one more record. */
  lemma LatestAfterAppend(l: Ledger, last: Entry)
    ensures LatestOf(l + [last]) == LatestOf(l)[last.record.taskId := last]
  {
    var e := l + [last];
    forall t ensures LatestBefore(e, t, |e|) == if t == last.record.taskId then Some(|l|) else LatestBefore(l, t, |l|) {
      LatestOfPrefix(l, last, t, |l|);
    }
    var expected := LatestOf(l)[last.record.taskId := last];
    SameLatest(e, expected);
  }

  predicate FreshEvent(l: Ledger, record: Record) {
    forall i :: 0 <= i < |l| ==> l[i].record.eventId != record.eventId
  }

  /** No other task has closed anything under the record's sub-check key. */
  predicate FreeSubcheck(l: Ledger, record: Record) {
    forall i :: 0 <= i < |l| && Terminal(l[i].record.status) && l[i].record.subcheckKey == record.subcheckKey
      ==> l[i].record.taskId == record.taskId
  }

  /** The append script keeps a sound ledger sound exactly when the event id is new and the sub-check key free. */
  lemma AppendKeepsSound(l: Ledger, hash: Record -> Hash, last: Entry)
    requires Sound(l, hash) && LinksTo(l, hash, last.record)
    requires last.record == Built(last.record, last.record.previousEvent, last.record.previousIndex)
    ensures Sound(l + [last], hash) <==> FreshEvent(l, last.record) && FreeSubcheck(l, last.record)
  {
    var e := l + [last];
    AppendKeepsChains(l, hash, last);
    AppendKeepsRecordRules(l, hash, last);
    AppendedSubchecks(l, last);
    assert EventIdsDistinct(e) ==> FreshEvent(l, last.record) by {
      assert EventIdsDistinct(e) ==> forall i :: 0 <= i < |l| ==> e[i].record.eventId != e[|l|].record.eventId;
      assert forall i :: 0 <= i < |l| ==> e[i] == l[i];
    }
    if FreshEvent(l, last.record) {
      forall i, j | 0 <= j < i < |e| ensures e[j].record.eventId != e[i].record.eventId {
        assert e[j] == l[j];
      }
    }
  }

  lemma AppendedSubchecks(l: Ledger, last: Entry)
    requires SubchecksOwned(l) && last.record.status == Passed
    ensures SubchecksOwned(l + [last]) <==> FreeSubcheck(l, last.record)
  {
    var e := l + [last];
    if SubchecksOwned(e) {
      forall i | 0 <= i < |l| && Terminal(l[i].record.status) && l[i].record.subcheckKey == last.record.subcheckKey
        ensures l[i].record.taskId == last.record.taskId
      {
        assert SameSubcheck(e, |l|, i);
      }
    }
    if FreeSubcheck(l, last.record) {
      forall i: nat, j: nat | j < i < |e| && SameSubcheck(e, i, j) ensures e[j].record.taskId == e[i].record.taskId {
        assert i < |l| ==> SameSubcheck(l, i, j);
      }
    }
  }

  /** One more passed record leaves the others well founded, and can only end replacement cycles. */
  lemma AppendKeepsRecordRules(l: Ledger, hash: Record -> Hash, last: Entry)
    requires Sound(l, hash) && last.record == Built(last.record, last.record.previousEvent, last.record.previousIndex)
    ensures forall i: nat :: i < |l| + 1 ==> WellFounded(l + [last], (l + [last])[i].record)
    ensures forall t :: t in EdgesOf(l + [last]) ==> !Endless(EdgesOf(l + [last]), t)
  {
    forall i: nat | i < |l| + 1 ensures WellFounded(l + [last], (l + [last])[i].record) {
      if i < |l| {
        assert (l + [last])[i] == l[i] && WellFounded(l, l[i].record);
        WellFoundedLonger(l, last, l[i].record);
      }
    }
    forall t | t in EdgesOf(l + [last]) ensures !Endless(EdgesOf(l + [last]), t) {
      LatestAfterAppend(l, last);
      FewerEdges(EdgesOf(l + [last]), EdgesOf(l), t);
    }
  }

  lemma WellFoundedLonger(l: Ledger, last: Entry, r: Record)
    requires WellFounded(l, r)
    ensures WellFounded(l + [last], r)
  {
    if r.status == Superseded {
      LatestOfPrefix(l, last, r.replacement.value, |l|);
    }
  }

  lemma FewerEdges(some: Edges, all: Edges, t: Task)
    requires forall x :: x in some ==> x in all && all[x] == some[x]
    requires !Endless(all, t)
    ensures !Endless(some, t)
  {
    var n: nat :| Follow(all, t, n).None?;
    if Follow(some, t, n).Some? {
      SmallerEdges(some, all, t, n);
    }
  }
}

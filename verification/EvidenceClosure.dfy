/** The closure gate, composed of every other check, and what a silent gate guarantees. */
module EvidenceClosure {
  import opened Common
  import opened EvidenceLedger
  import opened EvidenceGraph
  import opened EvidenceReplacement
  import opened EvidenceRules
  import opened EvidenceSupersession

  // ---------------------------------------------------------------------- completion

  datatype Completion = NonClosing | MockEvidence | MandatoryWaived | WaiverUnapproved
  datatype Incomplete = Incomplete(line: nat, reason: Completion)

  /** Why a latest record cannot be offered as completion. */
  predicate CompletionFails(policy: Policy, record: Record, reason: Completion) {
    match reason
    case NonClosing =>
      record.status == Failed || record.status == Blocked || record.status == Stale || record.status == Unexecuted
    case MockEvidence => record.evidenceScope == TraitMockOnly
    case MandatoryWaived => record.status == NotApplicable && record.taskId in policy && policy[record.taskId].mandatory
    case WaiverUnapproved =>
      && record.status == NotApplicable && !Approves(policy, record)
      && (record.taskId in policy ==> !policy[record.taskId].mandatory)
  }

  /** The latest record either stands on its own or hands the task over to another one. */
  predicate Completes(policy: Policy, record: Record) {
    && record.evidenceScope != TraitMockOnly
    && (record.status == Passed || record.status == Superseded
        || (record.status == NotApplicable && Approves(policy, record)))
  }

  /** The task is among the selected ones; without a selection all are. */
  predicate InScope(selected: Option<set<Task>>, task: Task) {
    selected.Some? ==> task in selected.value
  }

  ghost predicate ReportedFor(policy: Policy, latest: Latest, selected: Option<set<Task>>, done: set<Task>,
      x: Incomplete)
  {
    exists t :: t in done && t in latest && InScope(selected, t) && latest[t].line == x.line
                && CompletionFails(policy, latest[t].record, x.reason)
  }

  method LatestIssues(policy: Policy, entry: Entry) returns (issues: seq<Incomplete>)
    ensures forall x :: x in issues <==> x.line == entry.line && CompletionFails(policy, entry.record, x.reason)
  {
    issues := [];
    var Entry(line, r) := entry;
    if r.status == Failed || r.status == Blocked || r.status == Stale || r.status == Unexecuted {
      issues := issues + [Incomplete(line, NonClosing)];
    }
    if r.evidenceScope == TraitMockOnly {
      issues := issues + [Incomplete(line, MockEvidence)];
    }
    if r.status == NotApplicable {
      if r.taskId in policy && policy[r.taskId].mandatory {
        issues := issues + [Incomplete(line, MandatoryWaived)];
      } else if r.taskId !in policy || policy[r.taskId].approval != Some(r.adjustmentId) {
        issues := issues + [Incomplete(line, WaiverUnapproved)];
      }
    }
  }

  /** Exactly why latest records in scope do not complete their tasks; without a policy nothing is approved. */
  method CompletionIssues(l: Ledger, policy: Policy, selected: Option<set<Task>>) returns (issues: seq<Incomplete>)
    ensures forall x :: x in issues <==> ReportedFor(policy, LatestOf(l), selected, LatestOf(l).Keys, x)
    ensures issues == [] <==> AllComplete(policy, LatestOf(l), selected)
  {
    var latest := LatestByTask(l);
    SameLatest(l, latest);
    issues := [];
    var left := latest.Keys;
    while left != {}
      invariant left <= latest.Keys
      invariant forall x :: x in issues <==> ReportedFor(policy, latest, selected, latest.Keys - left, x)
    {
      var task :| task in left;
      var more := [];
      if InScope(selected, task) {
        more := LatestIssues(policy, latest[task]);
      }
      OneMoreLatest(policy, latest, selected, latest.Keys - left, task, more);
      assert latest.Keys - (left - {task}) == latest.Keys - left + {task};
      issues := issues + more;
      left := left - {task};
    }
    NothingIncomplete(policy, latest, selected, issues);
  }

  lemma OneMoreLatest(policy: Policy, latest: Latest, selected: Option<set<Task>>, done: set<Task>, task: Task,
      more: seq<Incomplete>)
    requires task in latest
    requires forall x :: x in more <==>
               InScope(selected, task) && x.line == latest[task].line
               && CompletionFails(policy, latest[task].record, x.reason)
    ensures forall x :: ReportedFor(policy, latest, selected, done + {task}, x)
                        <==> ReportedFor(policy, latest, selected, done, x) || x in more
  {
    forall x ensures ReportedFor(policy, latest, selected, done + {task}, x)
                     <==> ReportedFor(policy, latest, selected, done, x) || x in more
    {
      if x in more {
        assert task in done + {task};
      }
      if t :| t in done && t in latest && InScope(selected, t) && latest[t].line == x.line
              && CompletionFails(policy, latest[t].record, x.reason) {
        assert t in done + {task};
      }
    }
  }

  predicate AllComplete(policy: Policy, latest: Latest, selected: Option<set<Task>>) {
    forall t :: t in latest && InScope(selected, t) ==> Completes(policy, latest[t].record)
  }

  lemma CompletesIffNothingFails(policy: Policy, record: Record)
    ensures Completes(policy, record) <==> forall reason :: !CompletionFails(policy, record, reason)
  {
    if forall reason :: !CompletionFails(policy, record, reason) {
      assert !CompletionFails(policy, record, NonClosing) && !CompletionFails(policy, record, MockEvidence);
      assert !CompletionFails(policy, record, MandatoryWaived) && !CompletionFails(policy, record, WaiverUnapproved);
    }
  }

  lemma NothingIncomplete(policy: Policy, latest: Latest, selected: Option<set<Task>>, issues: seq<Incomplete>)
    requires forall x :: x in issues <==> ReportedFor(policy, latest, selected, latest.Keys, x)
    ensures issues == [] <==> AllComplete(policy, latest, selected)
  {
    if issues == [] {
      forall t | t in latest && InScope(selected, t) ensures Completes(policy, latest[t].record) {
        forall reason ensures !CompletionFails(policy, latest[t].record, reason) {
          assert Incomplete(latest[t].line, reason) !in issues;
        }
        CompletesIffNothingFails(policy, latest[t].record);
      }
    } else {
      var x := issues[0];
      assert x in issues;
      var t :| t in latest.Keys && t in latest && InScope(selected, t) && latest[t].line == x.line
               && CompletionFails(policy, latest[t].record, x.reason);
      CompletesIffNothingFails(policy, latest[t].record);
    }
  }

  // ------------------------------------------------------------------------- the gate

  datatype Checkpoints = Checkpoints(requiredPrefix: Hash, expectedLedger: Hash)

  datatype Kind = Leaf | Release(trustRoot: bool)

  datatype Field = PriorityField | ReleaseBlockingField | MandatoryField | DependsOnField | GateField

  datatype Objection =
    | EmptyLedger
    | PrefixMissing
    | FinalEventDiffers
    | RegistryDiffers
    | NotInPolicy(task: Task)
    | NotInTasks(task: Task)
    | NoEvidenceEvent(task: Task)
    | GateIncomplete
    | UnknownClaimant(line: nat)
    | FieldDiffers(line: nat, field: Field)
    | NotComplete(incomplete: Incomplete)
    | NotSettled(unmet: Unmet)
    | NoTrustRoot
    | NoRetainedBundle
    | BadSignature(line: nat)

  const FINAL_GATE: Task := "6.4.7"

  /** The leaves that must precede the final gate. */
  function GatedTasks(known: set<Task>): set<Task> {
    set t | t in known && "6." <= t && t != FINAL_GATE
  }

  predicate GateCoversTaskSix(policy: Policy, known: set<Task>, scope: set<Task>) {
    FINAL_GATE in scope ==>
      FINAL_GATE in policy && forall t :: t in GatedTasks(known) ==> t in policy[FINAL_GATE].dependsOn
  }

  /** A claimant's record repeats the policy's own fields. */
  predicate AgreesWith(record: Record, authority: Authority) {
    && record.priority == authority.priority && record.releaseBlocking == authority.releaseBlocking
    && record.mandatory == authority.mandatory && record.gateId in authority.gateIds
    && (set d | d in record.dependsOn) == (set d | d in authority.dependsOn)
  }

  predicate ClaimantsAgree(latest: Latest, policy: Policy, tasks: set<Task>) {
    forall t :: t in tasks && t in latest ==> t in policy && AgreesWith(latest[t].record, policy[t])
  }

  ghost predicate CheckpointsMet(l: Ledger, hash: Record -> Hash, checkpoints: Checkpoints) {
    && l != [] && hash(l[|l| - 1].record) == checkpoints.expectedLedger
    && exists i :: 0 <= i < |l| && hash(l[i].record) == checkpoints.requiredPrefix
  }

  predicate ReleaseMet(l: Ledger, kind: Kind, verified: Record -> bool) {
    kind.Release? ==>
      && kind.trustRoot && (exists i :: 0 <= i < |l| && l[i].record.retained)
      && forall i :: 0 <= i < |l| && l[i].record.retained ==> verified(l[i].record)
  }

  /** What was asked to be closed: the selection, or every registered task. */
  function Requested(policy: Policy, selected: Option<set<Task>>): set<Task> {
    if selected.Some? then selected.value else policy.Keys
  }

  /** The scope is registered, known and evidenced. */
  predicate ScopeCovered(scope: set<Task>, policy: Policy, known: set<Task>, latest: Latest) {
    forall t :: t in scope ==> t in policy && t in known && t in latest
  }

  /** Everything the gate demands, without reference to how it is checked. */
  ghost predicate GateHolds(l: Ledger, hash: Record -> Hash, policy: Policy, checkpoints: Checkpoints, known: set<Task>,
      scope: set<Task>, kind: Kind, verified: Record -> bool)
  {
    && CheckpointsMet(l, hash, checkpoints) && policy.Keys == known
    && ScopeCovered(scope, policy, known, LatestOf(l)) && GateCoversTaskSix(policy, known, scope)
    && ClaimantsAgree(LatestOf(l), policy, LatestOf(l).Keys)
    && AllComplete(policy, LatestOf(l), Some(scope))
    && SupersessionsSettled(l, hash, policy)
    && ReleaseMet(l, kind, verified)
  }

  // ------------------------------------------------------------ what is objected to

  /** A checkpoint that the ledger does not meet. */
  ghost predicate CheckpointMissed(l: Ledger, hash: Record -> Hash, checkpoints: Checkpoints, x: Objection)
    requires l != []
  {
    match x
    case PrefixMissing => forall i :: 0 <= i < |l| ==> hash(l[i].record) != checkpoints.requiredPrefix
    case FinalEventDiffers => hash(l[|l| - 1].record) != checkpoints.expectedLedger
    case _ => false
  }

  /** A leaf that must precede the final gate and that the gate's authority does not list. */
  predicate Unlisted(policy: Policy, t: Task)
    requires "6.4.7" in policy
  {
    && |t| >= 2 && t[0] == '6' && t[1] == '.' && t != "6.4.7"
    && t !in policy["6.4.7"].dependsOn
  }

  /** What is wrong between the registry, the plan, the ledger and the scope. */
  predicate RegistryOff(policy: Policy, known: set<Task>, scope: set<Task>, latest: Latest, x: Objection) {
    match x
    case RegistryDiffers => policy.Keys != known
    case NotInPolicy(t) => t in scope && t !in policy
    case NotInTasks(t) => t in scope && t !in known
    case NoEvidenceEvent(t) => t in scope && t in policy && t !in latest
    case GateIncomplete => "6.4.7" in scope && ("6.4.7" !in policy || exists t :: t in known && Unlisted(policy, t))
    case _ => false
  }

  ghost predicate FieldOff(record: Record, authority: Authority, field: Field) {
    match field
    case PriorityField => record.priority != authority.priority
    case ReleaseBlockingField => record.releaseBlocking != authority.releaseBlocking
    case MandatoryField => record.mandatory != authority.mandatory
    case DependsOnField => exists d :: (d in record.dependsOn) != (d in authority.dependsOn)
    case GateField => record.gateId !in authority.gateIds
  }

  /** A latest record that claims a task the policy does not know, or repeats the policy's fields wrongly. */
  ghost predicate ClaimOff(entry: Entry, policy: Policy, task: Task, x: Objection) {
    match x
    case UnknownClaimant(line) => line == entry.line && task !in policy
    case FieldDiffers(line, field) =>
      line == entry.line && task in policy && FieldOff(entry.record, policy[task], field)
    case _ => false
  }

  ghost predicate ClaimsOff(latest: Latest, policy: Policy, tasks: set<Task>, x: Objection) {
    exists t :: t in tasks && t in latest && ClaimOff(latest[t], policy, t, x)
  }

  ghost predicate EvidenceOff(l: Ledger, hash: Record -> Hash, policy: Policy, scope: set<Task>, x: Objection) {
    match x
    case NotComplete(incomplete) => ReportedFor(policy, LatestOf(l), Some(scope), LatestOf(l).Keys, incomplete)
    case NotSettled(unmet) => exists i: nat :: i < |l| && Owed(l, hash, policy, i, unmet)
    case _ => false
  }

  predicate ReleaseOff(l: Ledger, kind: Kind, verified: Record -> bool, x: Objection) {
    match x
    case NoTrustRoot => kind == Release(false)
    case NoRetainedBundle => kind == Release(true) && forall i :: 0 <= i < |l| ==> !l[i].record.retained
    case BadSignature(line) =>
      kind == Release(true)
      && exists i :: 0 <= i < |l| && l[i].record.retained && l[i].line == line && !verified(l[i].record)
    case _ => false
  }

  /** The gate has a reason to object with `x`. */
  ghost predicate Warranted(l: Ledger, hash: Record -> Hash, policy: Policy, checkpoints: Checkpoints, known: set<Task>,
      scope: set<Task>, kind: Kind, verified: Record -> bool, x: Objection)
  {
    if l == [] then x == EmptyLedger
    else
      || CheckpointMissed(l, hash, checkpoints, x) || RegistryOff(policy, known, scope, LatestOf(l), x)
      || ClaimsOff(LatestOf(l), policy, LatestOf(l).Keys, x) || EvidenceOff(l, hash, policy, scope, x)
      || ReleaseOff(l, kind, verified, x)
  }

  ghost predicate IsScope(policy: Policy, selected: Option<set<Task>>, scope: set<Task>) {
    forall s :: s in scope <==> NeededBy(DependenciesOf(policy), Requested(policy, selected), s)
  }

  method CheckpointIssues(l: Ledger, hash: Record -> Hash, checkpoints: Checkpoints) returns (issues: seq<Objection>)
    requires l != []
    ensures forall x :: x in issues <==> CheckpointMissed(l, hash, checkpoints, x)
    ensures issues == [] <==> CheckpointsMet(l, hash, checkpoints)
  {
    issues := [];
    var hashes := set i | 0 <= i < |l| :: hash(l[i].record);
    if checkpoints.requiredPrefix !in hashes {
      issues := issues + [PrefixMissing];
    }
    if hash(l[|l| - 1].record) != checkpoints.expectedLedger {
      issues := issues + [FinalEventDiffers];
    }
  }

  /** One task of the scope that the registry, the plan or the ledger does not know. */
  function Uncovered(task: Task, policy: Policy, known: set<Task>, latest: Latest): (issues: seq<Objection>)
    ensures forall t :: NotInPolicy(t) in issues <==> t == task && t !in policy
    ensures forall t :: NotInTasks(t) in issues <==> t == task && t !in known
    ensures forall t :: NoEvidenceEvent(t) in issues <==> t == task && t in policy && t !in latest
    ensures forall x :: x in issues ==> x.NotInPolicy? || x.NotInTasks? || x.NoEvidenceEvent?
    ensures issues == [] <==> task in policy && task in known && task in latest
  {
    (if task !in policy then [NotInPolicy(task)] else [])
    + (if task !in known then [NotInTasks(task)] else [])
    + (if task in policy && task !in latest then [NoEvidenceEvent(task)] else [])
  }

  /** The issues name exactly the visited tasks that are not covered. */
  ghost predicate NamesUncovered(issues: seq<Objection>, visited: set<Task>, policy: Policy, known: set<Task>,
      latest: Latest)
  {
    && (forall t :: NotInPolicy(t) in issues <==> t in visited && t !in policy)
    && (forall t :: NotInTasks(t) in issues <==> t in visited && t !in known)
    && (forall t :: NoEvidenceEvent(t) in issues <==> t in visited && t in policy && t !in latest)
    && (forall x :: x in issues ==> x.NotInPolicy? || x.NotInTasks? || x.NoEvidenceEvent?)
    && (issues == [] <==> ScopeCovered(visited, policy, known, latest))
  }

  lemma OneMoreVisited(issues: seq<Objection>, visited: set<Task>, task: Task, policy: Policy, known: set<Task>,
      latest: Latest)
    requires NamesUncovered(issues, visited, policy, known, latest)
    ensures NamesUncovered(issues + Uncovered(task, policy, known, latest), visited + {task}, policy, known, latest)
  {
    var more := Uncovered(task, policy, known, latest);
    assert ScopeCovered(visited + {task}, policy, known, latest)
        <==> ScopeCovered(visited, policy, known, latest) && more == [];
    assert issues + more == [] <==> issues == [] && more == [];
    forall t ensures NotInPolicy(t) in issues + more <==> t in visited + {task} && t !in policy {
      assert NotInPolicy(t) in issues + more <==> NotInPolicy(t) in issues || NotInPolicy(t) in more;
    }
    forall t ensures NotInTasks(t) in issues + more <==> t in visited + {task} && t !in known {
      assert NotInTasks(t) in issues + more <==> NotInTasks(t) in issues || NotInTasks(t) in more;
    }
    forall t ensures NoEvidenceEvent(t) in issues + more <==> t in visited + {task} && t in policy && t !in latest {
      assert NoEvidenceEvent(t) in issues + more <==> NoEvidenceEvent(t) in issues || NoEvidenceEvent(t) in more;
    }
  }

  /** The three passes over the scope, whatever order it is visited in. */
  method ScopeIssues(scope: set<Task>, policy: Policy, known: set<Task>, latest: Latest)
    returns (issues: seq<Objection>)
    ensures NamesUncovered(issues, scope, policy, known, latest)
  {
    issues := [];
    var left := scope;
    while left != {}
      invariant left <= scope && NamesUncovered(issues, scope - left, policy, known, latest)
    {
      var task :| task in left;
      OneMoreVisited(issues, scope - left, task, policy, known, latest);
      issues := issues + Uncovered(task, policy, known, latest);
      assert scope - (left - {task}) == scope - left + {task};
      left := left - {task};
    }
    assert scope - left == scope;
  }

  method ClaimantIssues(latest: Latest, policy: Policy) returns (issues: seq<Objection>)
    ensures forall x :: x in issues <==> ClaimsOff(latest, policy, latest.Keys, x)
    ensures issues == [] <==> ClaimantsAgree(latest, policy, latest.Keys)
  {
    issues := [];
    var left := latest.Keys;
    while left != {}
      invariant left <= latest.Keys
      invariant forall x :: x in issues <==> ClaimsOff(latest, policy, latest.Keys - left, x)
      invariant issues == [] <==> ClaimantsAgree(latest, policy, latest.Keys - left)
    {
      var task :| task in left;
      var more := OneClaimant(latest[task], policy, task);
      OneMoreClaim(latest, policy, latest.Keys - left, task, more);
      assert latest.Keys - (left - {task}) == latest.Keys - left + {task};
      assert ClaimantsAgree(latest, policy, latest.Keys - (left - {task}))
          <==> ClaimantsAgree(latest, policy, latest.Keys - left) && more == [];
      issues := issues + more;
      left := left - {task};
    }
    assert latest.Keys - left == latest.Keys;
  }

  lemma OneMoreClaim(latest: Latest, policy: Policy, done: set<Task>, task: Task, more: seq<Objection>)
    requires task in latest && forall x :: x in more <==> ClaimOff(latest[task], policy, task, x)
    ensures forall x :: ClaimsOff(latest, policy, done + {task}, x) <==> ClaimsOff(latest, policy, done, x) || x in more
  {
    hide ClaimOff;
    forall x ensures ClaimsOff(latest, policy, done + {task}, x) <==> ClaimsOff(latest, policy, done, x) || x in more {
      if x in more {
        assert task in done + {task};
      }
      if t :| t in done && t in latest && ClaimOff(latest[t], policy, t, x) {
        assert t in done + {task};
      }
    }
  }

  method OneClaimant(entry: Entry, policy: Policy, task: Task) returns (issues: seq<Objection>)
    ensures forall x :: x in issues <==> ClaimOff(entry, policy, task, x)
    ensures issues == [] <==> task in policy && AgreesWith(entry.record, policy[task])
  {
    if task !in policy {
      return [UnknownClaimant(entry.line)];
    }
    issues := DifferingFields(entry.line, entry.record, policy[task]);
    AgreesIffNothingOff(entry.record, policy[task]);
    hide FieldOff;
    if !AgreesWith(entry.record, policy[task]) {
      ghost var field :| FieldOff(entry.record, policy[task], field);
      assert FieldDiffers(entry.line, field) in issues;
    }
    assert issues != [] ==> issues[0] in issues;
  }

  method DifferingFields(line: nat, r: Record, authority: Authority) returns (issues: seq<Objection>)
    ensures forall x :: x in issues <==> x.FieldDiffers? && x.line == line && FieldOff(r, authority, x.field)
  {
    issues := [];
    if r.priority != authority.priority { issues := issues + [FieldDiffers(line, PriorityField)]; }
    if r.releaseBlocking != authority.releaseBlocking { issues := issues + [FieldDiffers(line, ReleaseBlockingField)]; }
    if r.mandatory != authority.mandatory { issues := issues + [FieldDiffers(line, MandatoryField)]; }
    if (set d | d in r.dependsOn) != (set d | d in authority.dependsOn) {
      issues := issues + [FieldDiffers(line, DependsOnField)];
    }
    if r.gateId !in authority.gateIds { issues := issues + [FieldDiffers(line, GateField)]; }
    SetsDiffer(r.dependsOn, authority.dependsOn);
  }

  lemma AgreesIffNothingOff(record: Record, authority: Authority)
    ensures AgreesWith(record, authority) <==> forall field :: !FieldOff(record, authority, field)
  {
    SetsDiffer(record.dependsOn, authority.dependsOn);
    if forall field :: !FieldOff(record, authority, field) {
      assert !FieldOff(record, authority, PriorityField) && !FieldOff(record, authority, ReleaseBlockingField);
      assert !FieldOff(record, authority, MandatoryField) && !FieldOff(record, authority, DependsOnField);
      assert !FieldOff(record, authority, GateField);
    }
  }

  lemma SetsDiffer(p: seq<Task>, q: seq<Task>)
    ensures (set d | d in p) != (set d | d in q) <==> exists d :: (d in p) != (d in q)
  {
    var a, b := set d | d in p, set d | d in q;
    assert forall d :: (d in p <==> d in a) && (d in q <==> d in b);
  }

  method ReleaseIssues(l: Ledger, kind: Kind, verified: Record -> bool) returns (issues: seq<Objection>)
    ensures forall x :: x in issues <==> ReleaseOff(l, kind, verified, x)
    ensures issues == [] <==> ReleaseMet(l, kind, verified)
  {
    if kind.Leaf? {
      return [];
    }
    if !kind.trustRoot {
      return [NoTrustRoot];
    }
    issues := [];
    var retained := false;
    for i := 0 to |l|
      invariant retained <==> exists k :: 0 <= k < i && l[k].record.retained
      invariant issues == [] <==> forall k :: 0 <= k < i && l[k].record.retained ==> verified(l[k].record)
      invariant forall x :: x in issues <==>
                  x.BadSignature? && exists k :: 0 <= k < i && l[k].record.retained && l[k].line == x.line
                                                 && !verified(l[k].record)
    {
      if l[i].record.retained {
        retained := true;
        if !verified(l[i].record) {
          issues := issues + [BadSignature(l[i].line)];
        }
      }
    }
    if !retained {
      issues := [NoRetainedBundle];
    }
  }

  /**
   * The gate objects to exactly what there is reason to object to, over the dependency closure of the
   * selection; it is silent exactly when everything it demands holds.
   */
  method ClosureIssues(l: Ledger, hash: Record -> Hash, policy: Policy, checkpoints: Checkpoints, known: set<Task>,
      selected: Option<set<Task>>, kind: Kind, verified: Record -> bool)
    returns (issues: seq<Objection>, scope: set<Task>)
    ensures IsScope(policy, selected, scope)
    ensures forall x :: x in issues <==> Warranted(l, hash, policy, checkpoints, known, scope, kind, verified, x)
    ensures issues == [] <==> GateHolds(l, hash, policy, checkpoints, known, scope, kind, verified)
  {
    hide CheckpointMissed, RegistryOff, ClaimsOff, EvidenceOff, ReleaseOff, LatestOf, SupersessionsSettled, AllComplete;
    hide CheckpointsMet, ScopeCovered, GateCoversTaskSix, ClaimantsAgree, ReleaseMet, NeededBy;
    var closure := DependencyClosure(Requested(policy, selected), DependenciesOf(policy));
    scope := closure;
    if l == [] {
      NoCheckpoint(hash, checkpoints);
      return [EmptyLedger], scope;
    }
    var first := CheckpointIssues(l, hash, checkpoints);
    var latest := LatestByTask(l);
    SameLatest(l, latest);
    var registry := RegistryIssues(policy, known, closure, latest);
    var claims := ClaimantIssues(latest, policy);
    var evidence := EvidenceIssues(l, hash, policy, closure);
    var release := ReleaseIssues(l, kind, verified);
    issues := first + registry + claims + evidence + release;
    InOneOf(first, registry, claims, evidence, release);
  }

  lemma NoCheckpoint(hash: Record -> Hash, checkpoints: Checkpoints)
    ensures !CheckpointsMet([], hash, checkpoints)
  {
  }

  lemma InOneOf(a: seq<Objection>, b: seq<Objection>, c: seq<Objection>, d: seq<Objection>, e: seq<Objection>)
    ensures forall x :: x in a + b + c + d + e <==> x in a || x in b || x in c || x in d || x in e
    ensures a + b + c + d + e == [] <==> a == [] && b == [] && c == [] && d == [] && e == []
  {
    assert |a + b + c + d + e| == |a| + |b| + |c| + |d| + |e|;
  }

  /** The registry against the plan, then the scope, then the final gate. */
  method RegistryIssues(policy: Policy, known: set<Task>, scope: set<Task>, latest: Latest)
    returns (issues: seq<Objection>)
    ensures forall x :: x in issues <==> RegistryOff(policy, known, scope, latest, x)
    ensures issues == [] <==> policy.Keys == known && ScopeCovered(scope, policy, known, latest)
                              && GateCoversTaskSix(policy, known, scope)
  {
    issues := [];
    if policy.Keys != known {
      issues := issues + [RegistryDiffers];
    }
    var uncovered := ScopeIssues(scope, policy, known, latest);
    issues := issues + uncovered;
    if !GateCoversTaskSix(policy, known, scope) {
      issues := issues + [GateIncomplete];
    }
    GateObjection(policy, known, scope, latest);
    assert forall x :: x in uncovered ==> x in issues;
  }

  lemma Wrapped(incomplete: seq<Incomplete>, p: seq<Objection>, unmet: seq<Unmet>, q: seq<Objection>, x: Objection)
    requires |p| == |incomplete| && forall k :: 0 <= k < |p| ==> p[k] == NotComplete(incomplete[k])
    requires |q| == |unmet| && forall k :: 0 <= k < |q| ==> q[k] == NotSettled(unmet[k])
    ensures x in p + q <==>
              (x.NotComplete? && x.incomplete in incomplete) || (x.NotSettled? && x.unmet in unmet)
  {
    if x.NotComplete? && x.incomplete in incomplete {
      var k :| 0 <= k < |incomplete| && incomplete[k] == x.incomplete;
      assert p[k] == x;
    }
    if x.NotSettled? && x.unmet in unmet {
      var k :| 0 <= k < |unmet| && unmet[k] == x.unmet;
      assert q[k] == x;
    }
  }

  lemma GateObjection(policy: Policy, known: set<Task>, scope: set<Task>, latest: Latest)
    ensures RegistryOff(policy, known, scope, latest, GateIncomplete) <==> !GateCoversTaskSix(policy, known, scope)
  {
    if "6.4.7" in policy {
      forall t ensures t in GatedTasks(known) && t !in policy["6.4.7"].dependsOn
                       <==> t in known && Unlisted(policy, t)
      {
      }
    }
  }

  /** Completion over the scope, then every supersession of the ledger. */
  method EvidenceIssues(l: Ledger, hash: Record -> Hash, policy: Policy, scope: set<Task>)
    returns (issues: seq<Objection>)
    ensures forall x :: x in issues <==> EvidenceOff(l, hash, policy, scope, x)
    ensures issues == [] <==> AllComplete(policy, LatestOf(l), Some(scope)) && SupersessionsSettled(l, hash, policy)
  {
    var incomplete := CompletionIssues(l, policy, Some(scope));
    var unmet := SupersessionIssues(l, hash, policy);
    var notComplete := seq(|incomplete|, k requires 0 <= k < |incomplete| => NotComplete(incomplete[k]));
    var notSettled := seq(|unmet|, k requires 0 <= k < |unmet| => NotSettled(unmet[k]));
    issues := notComplete + notSettled;
    forall x ensures x in issues <==> EvidenceOff(l, hash, policy, scope, x) {
      Wrapped(incomplete, notComplete, unmet, notSettled, x);
    }
  }

  // ------------------------------------------------------------- what a silent gate means

  /** The task is closed by its own latest record, or by the record at the end of its replacement chain. */
  ghost predicate ReallyClosed(latest: Latest, policy: Policy, task: Task) {
    EndsWell(latest, policy, task)
    || (task in latest && latest[task].record.status == Superseded && Resolves(latest, policy, task))
  }

  /** Everything the selection depends on rests on real evidence. */
  lemma ClosureIsSound(l: Ledger, hash: Record -> Hash, policy: Policy, checkpoints: Checkpoints, known: set<Task>,
      selected: Option<set<Task>>, scope: set<Task>, kind: Kind, verified: Record -> bool, task: Task)
    requires IsScope(policy, selected, scope)
    requires GateHolds(l, hash, policy, checkpoints, known, scope, kind, verified)
    requires NeededBy(DependenciesOf(policy), Requested(policy, selected), task)
    ensures task in policy && ReallyClosed(LatestOf(l), policy, task)
  {
    assert task in scope;
    var latest := LatestOf(l);
    assert Completes(policy, latest[task].record);
    if latest[task].record.status == Superseded {
      var i := LatestBefore(l, task, |l|).value;
      assert Settled(l, hash, policy, i);
    }
  }

  /** A finished dependent of a superseded task answers a mark later than the supersession, and was recorded later. */
  lemma DependentsWereRevalidated(l: Ledger, hash: Record -> Hash, policy: Policy, i: nat, d: Task)
    requires Numbered(l) && SupersessionsSettled(l, hash, policy)
    requires i < |l| && l[i].record.status == Superseded
    requires Dependent(DependenciesOf(policy), d, l[i].record.taskId)
    ensures exists j: nat :: j < |l| && l[j].record.taskId == d && l[i].line < l[j].line
                             && l[j].record.status == Stale && l[j].record.staleFor == Some(hash(l[i].record))
    ensures d in LatestOf(l) && LatestOf(l)[d].record.status in {Passed, NotApplicable} ==>
              exists j: nat, chain :: j < |l| && AnsweredBy(l, hash, policy, i, d, j, chain)
  {
    assert Settled(l, hash, policy, i);
    var chain :| ResolvesTo(LatestOf(l), policy, l[i].record.taskId, chain)
                 && DependentsReacted(l, hash, policy, i, chain);
    assert Marked(l, hash, i, d);
    var mark: nat :| mark < |l| && StaleFor(l, hash, i, d, mark);
    if Finished(LatestOf(l), d) {
      RevalidationAnswers(l, hash, policy, i, d, chain);
    }
  }

  lemma RevalidationAnswers(l: Ledger, hash: Record -> Hash, policy: Policy, i: nat, d: Task, chain: seq<Task>)
    requires Numbered(l) && i < |l| && ResolvesTo(LatestOf(l), policy, l[i].record.taskId, chain)
    requires Finished(LatestOf(l), d) && Revalidated(l, hash, i, d, chain, LatestOf(l)[d].record)
    ensures exists j: nat, chain :: j < |l| && AnsweredBy(l, hash, policy, i, d, j, chain)
  {
    var last := LatestOf(l)[d];
    var j: nat :| j < |l| && StaleFor(l, hash, i, d, j) && last.record.revalidationOf == Some(hash(l[j].record));
    LatestIsLater(l, d, j);
    assert AnsweredBy(l, hash, policy, i, d, j, chain);
  }

  /** A task's latest record comes after every record of the task that differs from it. */
  lemma LatestIsLater(l: Ledger, d: Task, j: nat)
    requires Numbered(l) && j < |l| && l[j].record.taskId == d
    ensures d in LatestOf(l) && (l[j] != LatestOf(l)[d] ==> l[j].line < LatestOf(l)[d].line)
  {
    var n := LatestBefore(l, d, |l|).value;
    assert LatestOf(l)[d] == l[n];
  }

  /** A superseded task lies on no dependency cycle: its mark would have to follow its own last record. */
  lemma SupersededTaskIsOnNoCycle(l: Ledger, hash: Record -> Hash, policy: Policy, i: nat)
    requires Numbered(l) && SupersessionsSettled(l, hash, policy)
    requires i < |l| && l[i].record.status == Superseded
    ensures !Dependent(DependenciesOf(policy), l[i].record.taskId, l[i].record.taskId)
  {
    var task := l[i].record.taskId;
    assert Settled(l, hash, policy, i);
    forall j: nat | j < |l| ensures !StaleFor(l, hash, i, task, j) {
      assert j <= i || l[j].record.taskId != task;
    }
    assert !Marked(l, hash, i, task);
  }

  /** The latest record of `d` comes after its stale mark `j`, names that mark, and names a successor in the chain. */
  ghost predicate AnsweredBy(l: Ledger, hash: Record -> Hash, policy: Policy, i: nat, d: Task, j: nat, chain: seq<Task>)
    requires i < |l| && j < |l|
  {
    && d in LatestOf(l) && StaleFor(l, hash, i, d, j)
    && ResolvesTo(LatestOf(l), policy, l[i].record.taskId, chain)
    && var last := LatestOf(l)[d];
       && l[j].line < last.line && last.record.revalidationOf == Some(hash(l[j].record))
       && last.record.revalidatedAgainst.Some? && last.record.revalidatedAgainst.value in chain[1..]
  }

  /** One record can answer one supersession only: a finished task depends on at most one superseded task. */
  lemma AtMostOneSupersededDependency(l: Ledger, hash: Record -> Hash, policy: Policy, i: nat, k: nat, d: Task)
    requires CollisionFree(hash, l, l) && SupersessionsSettled(l, hash, policy)
    requires i < |l| && l[i].record.status == Superseded && Dependent(DependenciesOf(policy), d, l[i].record.taskId)
    requires k < |l| && l[k].record.status == Superseded && Dependent(DependenciesOf(policy), d, l[k].record.taskId)
    requires Finished(LatestOf(l), d)
    ensures l[i].record == l[k].record && i == k
  {
    assert Settled(l, hash, policy, i) && Settled(l, hash, policy, k);
    var a :| ResolvesTo(LatestOf(l), policy, l[i].record.taskId, a) && DependentsReacted(l, hash, policy, i, a);
    var b :| ResolvesTo(LatestOf(l), policy, l[k].record.taskId, b) && DependentsReacted(l, hash, policy, k, b);
    var last := LatestOf(l)[d].record;
    assert Revalidated(l, hash, i, d, a, last) && Revalidated(l, hash, k, d, b, last);
    var m: nat :| m < |l| && StaleFor(l, hash, i, d, m) && last.revalidationOf == Some(hash(l[m].record));
    var n: nat :| n < |l| && StaleFor(l, hash, k, d, n) && last.revalidationOf == Some(hash(l[n].record));
    assert hash(l[m].record) == hash(l[n].record);
    assert hash(l[i].record) == hash(l[k].record);
  }

  // ----------------------------------------------------------------- a settled ledger

  /** A replacement that passed, the superseded source, and a dependent marked stale and revalidated. */
  function SettledLedger(hash: Record -> Hash, base: Record, source: Task, replacement: Task, dependent: Task): Ledger {
    var passed := base.(status := Passed, evidenceScope := Production);
    var superseded := base.(taskId := source, status := Superseded, replacement := Some(replacement));
    var stale := base.(taskId := dependent, status := Stale, staleFor := Some(hash(superseded)));
    var again := passed.(taskId := dependent, revalidationOf := Some(hash(stale)),
                         revalidatedAgainst := Some(replacement));
    [Entry(1, passed.(taskId := replacement)), Entry(2, superseded), Entry(3, stale), Entry(4, again)]
  }

  function SettledPolicy(authority: Authority, source: Task, replacement: Task, dependent: Task): Policy {
    var free := authority.(dependsOn := []);
    map[source := free, replacement := free, dependent := authority.(dependsOn := [source])]
  }

  /** A replacement passed, its source was superseded, a dependent was marked stale and then revalidated. */
  predicate SettledShape(l: Ledger, hash: Record -> Hash, source: Task, replacement: Task, dependent: Task) {
    && |l| == 4 && Numbered(l)
    && l[0].record.taskId == replacement && l[0].record.status == Passed && l[0].record.evidenceScope == Production
    && l[1].record.taskId == source && l[1].record.status == Superseded && l[1].record.replacement == Some(replacement)
    && StaleFor(l, hash, 1, dependent, 2)
    && l[3].record.taskId == dependent && l[3].record.status == Passed
    && l[3].record.revalidationOf == Some(hash(l[2].record)) && l[3].record.revalidatedAgainst == Some(replacement)
  }

  lemma SettledLatest(l: Ledger, hash: Record -> Hash, source: Task, replacement: Task, dependent: Task)
    requires source != replacement && source != dependent && replacement != dependent
    requires SettledShape(l, hash, source, replacement, dependent)
    ensures LatestBefore(l, source, 4) == Some(1) && LatestBefore(l, replacement, 4) == Some(0)
    ensures LatestBefore(l, dependent, 4) == Some(3)
  {
    forall t ensures LatestBefore(l, t, 4) == if t == dependent then Some(3) else LatestBefore(l, t, 2) {
      assert LatestBefore(l, t, 4) == if t == dependent then Some(3) else LatestBefore(l, t, 3);
      assert LatestBefore(l, t, 3) == if t == dependent then Some(2) else LatestBefore(l, t, 2);
    }
    forall t
      ensures LatestBefore(l, t, 2) == if t == source then Some(1) else if t == replacement then Some(0) else None
    {
      assert LatestBefore(l, t, 1) == if t == replacement then Some(0) else None;
    }
  }

  lemma SettledChain(latest: Latest, policy: Policy, source: Task, replacement: Task)
    requires source in latest && replacement in latest && replacement in policy
    requires latest[source].record.status == Superseded && latest[source].record.replacement == Some(replacement)
    requires latest[replacement].record.status == Passed && latest[replacement].record.evidenceScope == Production
    ensures ResolvesTo(latest, policy, source, [source, replacement])
  {
    var edges := RegisteredEdges(latest, policy);
    assert edges[source] == replacement;
    assert Follow(edges, source, 1) == Follow(edges, replacement, 0);
  }

  lemma SettledDependents(authority: Authority, source: Task, replacement: Task, dependent: Task, d: Task)
    requires source != replacement && source != dependent && replacement != dependent
    ensures var deps := DependenciesOf(SettledPolicy(authority, source, replacement, dependent));
            Dependent(deps, d, source) <==> d == dependent
  {
    var deps := DependenciesOf(SettledPolicy(authority, source, replacement, dependent));
    ReachesItself(deps, source);
    assert DependsOn(deps, dependent, source);
    ExtendDependent(deps, dependent, source, source);
    if Dependent(deps, d, source) {
      var p :| PathFromTo(deps, p, d, source) && 2 <= |p|;
      PathTail(deps, p);
    }
  }

  lemma OneDependentReacts(l: Ledger, hash: Record -> Hash, policy: Policy, i: nat, chain: seq<Task>, dependent: Task,
      j: nat)
    requires i < |l| && j < |l| && chain != [] && StaleFor(l, hash, i, dependent, j) && dependent in LatestOf(l)
    requires forall d :: Dependent(DependenciesOf(policy), d, l[i].record.taskId) ==> d == dependent
    requires var r := LatestOf(l)[dependent].record;
             r.revalidationOf == Some(hash(l[j].record))
             && r.revalidatedAgainst.Some? && r.revalidatedAgainst.value in chain[1..]
    ensures DependentsReacted(l, hash, policy, i, chain)
  {
  }

  lemma SettledOnce(l: Ledger, hash: Record -> Hash, policy: Policy, i: nat, chain: seq<Task>)
    requires i < |l| && forall k: nat :: k < |l| && l[k].record.status == Superseded ==> k == i
    requires LatestBefore(l, l[i].record.taskId, |l|) == Some(i)
    requires ResolvesTo(LatestOf(l), policy, l[i].record.taskId, chain) && DependentsReacted(l, hash, policy, i, chain)
    ensures SupersessionsSettled(l, hash, policy)
  {
  }

  lemma SettledByRevalidation(l: Ledger, hash: Record -> Hash, authority: Authority, source: Task, replacement: Task,
      dependent: Task)
    requires source != replacement && source != dependent && replacement != dependent
    requires SettledShape(l, hash, source, replacement, dependent)
    ensures SupersessionsSettled(l, hash, SettledPolicy(authority, source, replacement, dependent))
    ensures Finished(LatestOf(l), dependent)
  {
    hide LatestBefore, LatestOf, Numbered, ResolvesTo, Dependent, DependenciesOf, DependentsReacted;
    var policy := SettledPolicy(authority, source, replacement, dependent);
    SettledLinks(l, hash, policy, source, replacement, dependent);
    assert [source, replacement][1..] == [replacement];
    forall d ensures Dependent(DependenciesOf(policy), d, source) <==> d == dependent {
      SettledDependents(authority, source, replacement, dependent, d);
    }
    OneDependentReacts(l, hash, policy, 1, [source, replacement], dependent, 2);
    SettledOnce(l, hash, policy, 1, [source, replacement]);
  }

  lemma SettledLinks(l: Ledger, hash: Record -> Hash, policy: Policy, source: Task, replacement: Task, dependent: Task)
    requires source != replacement && source != dependent && replacement != dependent && replacement in policy
    requires SettledShape(l, hash, source, replacement, dependent)
    ensures LatestBefore(l, source, 4) == Some(1) && dependent in LatestOf(l) && LatestOf(l)[dependent] == l[3]
    ensures ResolvesTo(LatestOf(l), policy, source, [source, replacement])
  {
    SettledLatest(l, hash, source, replacement, dependent);
    hide Numbered, LatestBefore;
    assert LatestOf(l)[source] == l[1] && LatestOf(l)[replacement] == l[0];
    SettledChain(LatestOf(l), policy, source, replacement);
  }

  /** The demands can be met: a dependent of a superseded task is finished again and nothing is owed. */
  lemma SupersessionCanBeSettled(hash: Record -> Hash, base: Record, authority: Authority, source: Task,
      replacement: Task, dependent: Task)
    requires source != replacement && source != dependent && replacement != dependent
    ensures var l, policy := SettledLedger(hash, base, source, replacement, dependent),
                             SettledPolicy(authority, source, replacement, dependent);
            && SupersessionsSettled(l, hash, policy) && Numbered(l)
            && Finished(LatestOf(l), dependent) && Dependent(DependenciesOf(policy), dependent, l[1].record.taskId)
  {
    var l := SettledLedger(hash, base, source, replacement, dependent);
    assert SettledShape(l, hash, source, replacement, dependent);
    SettledByRevalidation(l, hash, authority, source, replacement, dependent);
    SettledDependents(authority, source, replacement, dependent, dependent);
  }

  // ---------------------------------------------------------- appending to a closed ledger

  /** The record is what the append script builds. */
  predicate IsLocalResult(record: Record) {
    record == Built(record, record.previousEvent, record.previousIndex)
  }

  /** The task at hand is superseded, or depends on the task superseded at `i`. */
  ghost predicate Touches(l: Ledger, policy: Policy, task: Task, i: nat)
    requires i < |l|
  {
    && l[i].record.status == Superseded
    && (task == l[i].record.taskId || Dependent(DependenciesOf(policy), task, l[i].record.taskId))
  }

  /** The script's record answers no stale mark, so it unsettles every supersession that touches its task. */
  lemma LocalResultNeverRevalidates(l: Ledger, hash: Record -> Hash, policy: Policy, last: Entry, i: nat)
    requires IsLocalResult(last.record) && i < |l| && Touches(l, policy, last.record.taskId, i)
    ensures !SupersessionsSettled(l + [last], hash, policy)
  {
    var e := l + [last];
    LatestAfterAppend(l, last);
    assert e[i] == l[i];
    if last.record.taskId != l[i].record.taskId {
      forall chain | ResolvesTo(LatestOf(e), policy, e[i].record.taskId, chain)
        ensures !DependentsReacted(e, hash, policy, i, chain)
      {
        assert Finished(LatestOf(e), last.record.taskId);
      }
    }
    assert !Settled(e, hash, policy, i);
  }

  /** No replacement leads out of the task before or after, so all replacement edges stay. */
  lemma SameRegisteredEdges(l: Ledger, policy: Policy, last: Entry)
    requires last.record.status == Passed
    requires last.record.taskId in LatestOf(l) ==> LatestOf(l)[last.record.taskId].record.status != Superseded
    ensures RegisteredEdges(LatestOf(l + [last]), policy) == RegisteredEdges(LatestOf(l), policy)
  {
    LatestAfterAppend(l, last);
    SameEdgesButFor(LatestOf(l), last, policy);
  }

  lemma SameEdgesButFor(latest: Latest, last: Entry, policy: Policy)
    requires last.record.status == Passed
    requires last.record.taskId in latest ==> latest[last.record.taskId].record.status != Superseded
    ensures RegisteredEdges(latest[last.record.taskId := last], policy) == RegisteredEdges(latest, policy)
  {
    assert ReplacementEdges(latest[last.record.taskId := last]) == ReplacementEdges(latest);
  }

  lemma StillResolves(l: Ledger, policy: Policy, last: Entry, source: Task, chain: seq<Task>)
    requires last.record.status == Passed && last.record.evidenceScope == Production
    requires last.record.taskId in LatestOf(l) ==> LatestOf(l)[last.record.taskId].record.status != Superseded
    requires ResolvesTo(LatestOf(l), policy, source, chain)
    ensures ResolvesTo(LatestOf(l + [last]), policy, source, chain)
  {
    SameRegisteredEdges(l, policy, last);
    LatestAfterAppend(l, last);
  }

  lemma StillMarked(l: Ledger, hash: Record -> Hash, last: Entry, i: nat, d: Task, chain: seq<Task>, record: Record)
    requires i < |l| && chain != []
    ensures Marked(l, hash, i, d) ==> Marked(l + [last], hash, i, d)
    ensures Revalidated(l, hash, i, d, chain, record) ==> Revalidated(l + [last], hash, i, d, chain, record)
  {
    var e := l + [last];
    assert e[i] == l[i];
    forall j: nat | j < |l| && StaleFor(l, hash, i, d, j) ensures e[j] == l[j] && StaleFor(e, hash, i, d, j) {
    }
  }

  lemma StillReacted(l: Ledger, hash: Record -> Hash, policy: Policy, last: Entry, i: nat, chain: seq<Task>)
    requires i < |l| && chain != [] && DependentsReacted(l, hash, policy, i, chain)
    requires !Dependent(DependenciesOf(policy), last.record.taskId, l[i].record.taskId)
    ensures DependentsReacted(l + [last], hash, policy, i, chain)
  {
    hide Dependent, Marked, Revalidated, LatestOf;
    var e := l + [last];
    assert e[i] == l[i];
    LatestAfterAppend(l, last);
    forall d | Dependent(DependenciesOf(policy), d, e[i].record.taskId)
      ensures Marked(e, hash, i, d)
      ensures Finished(LatestOf(e), d) ==> Revalidated(e, hash, i, d, chain, LatestOf(e)[d].record)
    {
      StillMarked(l, hash, last, i, d, chain, if d in LatestOf(l) then LatestOf(l)[d].record else last.record);
    }
  }

  lemma StillSettled(l: Ledger, hash: Record -> Hash, policy: Policy, last: Entry, i: nat)
    requires IsLocalResult(last.record) && i < |l| && Settled(l, hash, policy, i)
    requires l[i].record.status == Superseded && !Touches(l, policy, last.record.taskId, i)
    requires last.record.taskId in LatestOf(l) ==> LatestOf(l)[last.record.taskId].record.status != Superseded
    ensures Settled(l + [last], hash, policy, i)
  {
    hide RegisteredEdges, Follow, EndsWell, DependentsReacted, LatestOf, Dependent;
    var e, task := l + [last], l[i].record.taskId;
    assert e[i] == l[i];
    LatestOfPrefix(l, last, task, |l|);
    assert LatestBefore(e, task, |e|) == Some(i);
    var chain :| ResolvesTo(LatestOf(l), policy, task, chain) && DependentsReacted(l, hash, policy, i, chain);
    StillResolves(l, policy, last, task, chain);
    StillReacted(l, hash, policy, last, i, chain);
  }

  /**
   * The append script keeps every supersession settled exactly when its task is neither superseded
   * nor dependent on a superseded task: what it could look up before it appends.
   */
  lemma LocalResultKeepsSettledIff(l: Ledger, hash: Record -> Hash, policy: Policy, last: Entry)
    requires SupersessionsSettled(l, hash, policy) && IsLocalResult(last.record)
    ensures SupersessionsSettled(l + [last], hash, policy)
       <==> forall i: nat :: i < |l| ==> !Touches(l, policy, last.record.taskId, i)
  {
    if i: nat :| i < |l| && Touches(l, policy, last.record.taskId, i) {
      LocalResultNeverRevalidates(l, hash, policy, last, i);
    } else {
      var e := l + [last];
      var latest := LatestBefore(l, last.record.taskId, |l|);
      assert latest.Some? ==> !Touches(l, policy, last.record.taskId, latest.value);
      forall i: nat | i < |e| && e[i].record.status == Superseded ensures Settled(e, hash, policy, i) {
        assert i < |l| && e[i] == l[i];
        StillSettled(l, hash, policy, last, i);
      }
    }
  }
}

/** What the evidence gate comes to, told in the ledger's and the policy's own fields. */
module EvidenceGuarantees {
  import opened Common
  import opened EvidenceLedger
  import opened EvidenceGraph
  import opened EvidenceReplacement
  import opened EvidenceRules
  import opened EvidenceSupersession
  import opened EvidenceClosure

  // -------------------------------------------------------------------- the final gate

  /** The task numbers that begin with 6 and a dot, the final gate's own apart. */
  predicate PrecedesGate(t: Task) {
    t != "6.4.7" && |t| >= 2 && t[..2] == "6."
  }

  lemma ListedIsNeeded(policy: Policy, selected: set<Task>, t: Task, d: Task)
    requires t in policy && d in policy[t].dependsOn && NeededBy(DependenciesOf(policy), selected, t)
    ensures NeededBy(DependenciesOf(policy), selected, d)
  {
    var deps := DependenciesOf(policy);
    var s :| s in selected && Reaches(deps, s, t);
    assert DependsOn(deps, t, d);
    ExtendReach(deps, s, t, d);
  }

  /** The final gate waits for every task before it: each is a dependency, in scope, and really closed. */
  lemma FinalGateWaits(l: Ledger, hash: Record -> Hash, policy: Policy, checkpoints: Checkpoints, known: set<Task>,
      selected: Option<set<Task>>, scope: set<Task>, kind: Kind, verified: Record -> bool, t: Task)
    requires IsScope(policy, selected, scope)
    requires GateHolds(l, hash, policy, checkpoints, known, scope, kind, verified)
    requires "6.4.7" in scope && t in known && PrecedesGate(t)
    ensures "6.4.7" in policy && t in policy["6.4.7"].dependsOn && t in scope
    ensures t in policy && ReallyClosed(LatestOf(l), policy, t)
  {
    assert t in GatedTasks(known);
    ListedIsNeeded(policy, Requested(policy, selected), "6.4.7", t);
    ClosureIsSound(l, hash, policy, checkpoints, known, selected, scope, kind, verified, t);
  }

  /** One such task that the gate's authority does not list is objected to, whatever else is in order. */
  lemma UnlistedTaskIsObjectedTo(l: Ledger, hash: Record -> Hash, policy: Policy, checkpoints: Checkpoints,
      known: set<Task>, scope: set<Task>, kind: Kind, verified: Record -> bool, t: Task)
    requires l != [] && "6.4.7" in scope && t in known && PrecedesGate(t)
    requires "6.4.7" in policy ==> t !in policy["6.4.7"].dependsOn
    ensures Warranted(l, hash, policy, checkpoints, known, scope, kind, verified, GateIncomplete)
    ensures !GateHolds(l, hash, policy, checkpoints, known, scope, kind, verified)
  {
    assert "6.4.7" in policy ==> Unlisted(policy, t);
    assert RegistryOff(policy, known, scope, LatestOf(l), GateIncomplete);
    GateObjection(policy, known, scope, LatestOf(l));
  }

  // ------------------------------------------------------------------- real evidence

  /** Record `i` is the last one about its task. */
  ghost predicate LastAbout(l: Ledger, task: Task, i: nat) {
    i < |l| && l[i].record.taskId == task && forall j :: i < j < |l| ==> l[j].record.taskId != task
  }

  /** Not a mock; passed, or waived for a task that is not mandatory by the very decision the policy approved. */
  predicate RealEvidence(record: Record, policy: Policy) {
    && record.evidenceScope != TraitMockOnly
    && (record.status == Passed
        || (&& record.status == NotApplicable
            && record.taskId in policy && !policy[record.taskId].mandatory
            && policy[record.taskId].approval == Some(record.adjustmentId)))
  }

  /** The last record about `task` hands it over to `next`. */
  ghost predicate HandedOver(l: Ledger, policy: Policy, task: Task, next: Task) {
    next in policy && exists i: nat :: LastAbout(l, task, i) && l[i].record.status == Superseded
                                  && l[i].record.replacement == Some(next)
  }

  lemma LatestIsLastAbout(l: Ledger, task: Task) returns (i: nat)
    requires task in LatestOf(l)
    ensures LastAbout(l, task, i) && LatestOf(l)[task] == l[i]
  {
    i := LatestBefore(l, task, |l|).value;
  }

  /** After a silent gate, every needed task is handed over, task by task, to one whose last record is real evidence. */
  lemma ClosedByEvidence(l: Ledger, hash: Record -> Hash, policy: Policy, checkpoints: Checkpoints, known: set<Task>,
      selected: Option<set<Task>>, scope: set<Task>, kind: Kind, verified: Record -> bool, task: Task)
    returns (chain: seq<Task>, end: nat)
    requires IsScope(policy, selected, scope)
    requires GateHolds(l, hash, policy, checkpoints, known, scope, kind, verified)
    requires NeededBy(DependenciesOf(policy), Requested(policy, selected), task)
    ensures chain != [] && chain[0] == task
    ensures forall k :: 0 <= k < |chain| - 1 ==> HandedOver(l, policy, chain[k], chain[k + 1])
    ensures LastAbout(l, chain[|chain| - 1], end) && RealEvidence(l[end].record, policy)
  {
    hide LatestOf, LastAbout, RealEvidence, HandedOver, GateHolds, IsScope, EndsWell, ResolvesTo;
    ClosureIsSound(l, hash, policy, checkpoints, known, selected, scope, kind, verified, task);
    if EndsWell(LatestOf(l), policy, task) {
      chain := [task];
      end := EndIsReal(l, policy, task);
    } else {
      chain :| ResolvesTo(LatestOf(l), policy, task, chain);
      end := ChainOfHandovers(l, policy, task, chain);
    }
  }

  lemma EndIsReal(l: Ledger, policy: Policy, task: Task) returns (end: nat)
    requires EndsWell(LatestOf(l), policy, task)
    ensures LastAbout(l, task, end) && RealEvidence(l[end].record, policy)
  {
    end := LatestIsLastAbout(l, task);
    hide LatestOf, LastAbout;
  }

  /** A chain that resolves hands the task over, link by link, to real evidence. */
  lemma ChainOfHandovers(l: Ledger, policy: Policy, task: Task, chain: seq<Task>) returns (end: nat)
    requires ResolvesTo(LatestOf(l), policy, task, chain)
    ensures chain != [] && chain[0] == task
    ensures forall k :: 0 <= k < |chain| - 1 ==> HandedOver(l, policy, chain[k], chain[k + 1])
    ensures LastAbout(l, chain[|chain| - 1], end) && RealEvidence(l[end].record, policy)
  {
    hide LatestOf, LastAbout, RealEvidence, HandedOver, EndsWell, RegisteredEdges;
    assert Follow(RegisteredEdges(LatestOf(l), policy), task, 0) == Some(chain[0]);
    forall k | 0 <= k < |chain| - 1 ensures HandedOver(l, policy, chain[k], chain[k + 1]) {
      LinkIsHandover(l, policy, task, chain, k);
    }
    end := EndIsReal(l, policy, chain[|chain| - 1]);
  }

  lemma LinkIsHandover(l: Ledger, policy: Policy, task: Task, chain: seq<Task>, k: nat)
    requires Walked(RegisteredEdges(LatestOf(l), policy), task, chain) && k < |chain| - 1
    ensures HandedOver(l, policy, chain[k], chain[k + 1])
  {
    var edges := RegisteredEdges(LatestOf(l), policy);
    assert Follow(edges, task, k) == Some(chain[k]) && Follow(edges, task, k + 1) == Some(chain[k + 1]);
    FollowOneMore(edges, task, k);
    var i := LatestIsLastAbout(l, chain[k]);
  }

  /** A settled superseded task got no later record, and its replacements lead to real evidence. */
  lemma SupersessionIsFinal(l: Ledger, hash: Record -> Hash, policy: Policy, i: nat)
    returns (chain: seq<Task>, end: nat)
    requires SupersessionsSettled(l, hash, policy) && i < |l| && l[i].record.status == Superseded
    ensures LastAbout(l, l[i].record.taskId, i)
    ensures |chain| >= 2 && chain[0] == l[i].record.taskId
    ensures forall k :: 0 <= k < |chain| - 1 ==> HandedOver(l, policy, chain[k], chain[k + 1])
    ensures LastAbout(l, chain[|chain| - 1], end) && RealEvidence(l[end].record, policy)
  {
    var task := l[i].record.taskId;
    assert Settled(l, hash, policy, i);
    chain :| ResolvesTo(LatestOf(l), policy, task, chain);
    LongerThanItself(l, policy, task, chain);
    hide LatestOf, RealEvidence, HandedOver, ResolvesTo;
    end := ChainOfHandovers(l, policy, task, chain);
  }

  /** A superseded task does not end its own chain. */
  lemma LongerThanItself(l: Ledger, policy: Policy, task: Task, chain: seq<Task>)
    requires ResolvesTo(LatestOf(l), policy, task, chain)
    requires task in LatestOf(l) && LatestOf(l)[task].record.status == Superseded
    ensures |chain| >= 2
  {
    assert Follow(RegisteredEdges(LatestOf(l), policy), task, 0) == Some(chain[0]);
  }

  // ------------------------------------------------------------------- a local result

  /**
   * A result appended by the script is real evidence for its task whatever the policy says, and its
   * claim is the policy's exactly when the task is a mandatory, release-blocking P0 with this gate
   * and these dependencies.
   */
  lemma LocalResultCloses(l: Ledger, last: Entry, policy: Policy)
    requires last.record == Built(last.record, last.record.previousEvent, last.record.previousIndex)
    ensures var r, latest := last.record, LatestOf(l + [last]);
            && RealEvidence(r, policy) && ReallyClosed(latest, policy, r.taskId) && Completes(policy, r)
            && ((forall x :: !ClaimOff(last, policy, r.taskId, x)) <==>
                  && r.taskId in policy
                  && policy[r.taskId].priority == P0 && policy[r.taskId].releaseBlocking && policy[r.taskId].mandatory
                  && r.gateId in policy[r.taskId].gateIds
                  && forall d :: d in r.dependsOn <==> d in policy[r.taskId].dependsOn)
  {
    var r := last.record;
    LatestAfterAppend(l, last);
    if r.taskId in policy {
      var authority := policy[r.taskId];
      assert forall f :: FieldOff(r, authority, f) <==> ClaimOff(last, policy, r.taskId, FieldDiffers(last.line, f));
      assert FieldOff(r, authority, DependsOnField) <==> !(forall d :: d in r.dependsOn <==> d in authority.dependsOn);
      if forall x :: !ClaimOff(last, policy, r.taskId, x) {
        assert forall f :: !FieldOff(r, authority, f);
        assert !FieldOff(r, authority, PriorityField) && !FieldOff(r, authority, ReleaseBlockingField);
        assert !FieldOff(r, authority, MandatoryField) && !FieldOff(r, authority, GateField);
        assert !FieldOff(r, authority, DependsOnField);
      }
    } else {
      assert ClaimOff(last, policy, r.taskId, UnknownClaimant(last.line));
    }
  }

  // ------------------------------------------------------------------- the record rules

  /** The record closes something: it passed, was waived, or was superseded. */
  predicate Closes(record: Record) {
    record.status in {Passed, NotApplicable, Superseded}
  }

  /** A sub-check key is objected to exactly when another task was the first to close something under it. */
  lemma SubcheckObjection(l: Ledger, hash: Record -> Hash, i: nat)
    requires i < |l|
    ensures Violates(l, hash, SharedSubcheck, i) <==>
              && Closes(l[i].record)
              && exists j :: 0 <= j < i && Closes(l[j].record) && l[j].record.subcheckKey == l[i].record.subcheckKey
                             && l[j].record.taskId != l[i].record.taskId
                             && forall k :: 0 <= k < j && Closes(l[k].record)
                                            ==> l[k].record.subcheckKey != l[i].record.subcheckKey
  {
    var key := l[i].record.subcheckKey;
    if Closes(l[i].record) {
      var first := FirstTerminal(l, key, i);
      if first.Some? {
        FirstTerminalIsFirst(l, key, i);
      }
    }
  }

  lemma {:induction false} FirstTerminalIsFirst(l: Ledger, key: string, n: nat)
    requires n <= |l| && FirstTerminal(l, key, n).Some?
    ensures forall k :: 0 <= k < FirstTerminal(l, key, n).value && Closes(l[k].record)
                        ==> l[k].record.subcheckKey != key
  {
    if FirstTerminal(l, key, n - 1).Some? {
      FirstTerminalIsFirst(l, key, n - 1);
    }
  }

  predicate Digits(s: string) {
    |s| > 0 && forall k :: 0 <= k < |s| ==> '0' <= s[k] <= '9'
  }

  ghost predicate ThreeNumbers(t: Task, a: string, b: string, c: string) {
    Digits(a) && Digits(b) && Digits(c) && t == a + "." + b + "." + c
  }

  lemma Joined(a: string, b: string, c: string)
    ensures var t := a + "." + b + "." + c;
            var i, j := |a|, |a| + 1 + |b|;
            j < |t| && t[i] == '.' && t[j] == '.' && t[..i] == a && t[i + 1..j] == b && t[j + 1..] == c
  {
  }

  lemma Parted(t: Task, i: nat, j: nat)
    requires i < j < |t| && t[i] == '.' && t[j] == '.'
    ensures t == t[..i] + "." + t[i + 1..j] + "." + t[j + 1..]
  {
  }

  /** A task number is three numbers joined by dots, and nothing else. */
  lemma TaskNumbers(t: Task)
    ensures IsTaskId(t) <==> exists a, b, c :: ThreeNumbers(t, a, b, c)
  {
    hide IsTaskId;
    if IsTaskId(t) {
      PartsOf(t);
    }
    if a, b, c :| ThreeNumbers(t, a, b, c) {
      JoinedIsTaskId(a, b, c);
    }
  }

  lemma PartsOf(t: Task)
    requires IsTaskId(t)
    ensures exists a, b, c :: ThreeNumbers(t, a, b, c)
  {
    hide IsNumber, ThreeNumbers;
    var i, j :| 0 <= i < j < |t| && t[i] == '.' && t[j] == '.'
                && IsNumber(t[..i]) && IsNumber(t[i + 1..j]) && IsNumber(t[j + 1..]);
    PartsAt(t, i, j, t[..i], t[i + 1..j], t[j + 1..]);
  }

  lemma PartsAt(t: Task, i: nat, j: nat, a: string, b: string, c: string)
    requires i < j < |t| && t[i] == '.' && t[j] == '.' && a == t[..i] && b == t[i + 1..j] && c == t[j + 1..]
    requires IsNumber(a) && IsNumber(b) && IsNumber(c)
    ensures ThreeNumbers(t, a, b, c)
  {
    Parted(t, i, j);
    NumberIsDigits(a);
    NumberIsDigits(b);
    NumberIsDigits(c);
    hide Digits;
  }

  lemma NumberIsDigits(s: string)
    ensures IsNumber(s) <==> Digits(s)
  {
  }

  lemma JoinedIsTaskId(a: string, b: string, c: string)
    requires Digits(a) && Digits(b) && Digits(c)
    ensures IsTaskId(a + "." + b + "." + c)
  {
    hide Digits;
    Joined(a, b, c);
    NumberIsDigits(a);
    NumberIsDigits(b);
    NumberIsDigits(c);
  }

  /** What each status demands of its own record, told in its fields. */
  lemma StatusDemands(l: Ledger, hash: Record -> Hash, i: nat)
    requires i < |l|
    ensures var r := l[i].record;
            && (Violates(l, hash, NonzeroExit, i) <==>
                  r.status == Passed && r.signer.ExitCode? && r.signer != ExitCode(0))
            && (Violates(l, hash, UnfoundedNotApplicable, i) <==>
                  r.status == NotApplicable && !(r.signer.Reviewer? && r.condition.Some? && r.condition.value != ""))
            && (Violates(l, hash, NoReplacementNamed, i) || Violates(l, hash, ReplacementUnevidenced, i) <==>
                  r.status == Superseded && forall j :: 0 <= j < |l| ==>
                    !(r.replacement == Some(l[j].record.taskId) && IsTaskId(l[j].record.taskId)
                      && l[j].record.taskId != r.taskId))
            && !(Violates(l, hash, NoReplacementNamed, i) && Violates(l, hash, ReplacementUnevidenced, i))
  {
    var r := l[i].record;
    if r.replacement.Some? {
      var found := LatestBefore(l, r.replacement.value, |l|);
    }
  }
}

/** The hash-linked evidence ledger: its record rules, and the append that keeps them. */
module EvidenceLedger {
  import opened Common

  type Task = string
  type Hash = nat

  datatype Status = Passed | NotApplicable | Superseded | Failed | Blocked | Stale | Unexecuted
  datatype Scope = Production | AuditBackfill | TraitMockOnly
  datatype Priority = P0 | P1
  /** The exit code of a command, or the reviewer of a manual procedure. */
  datatype Signer = ExitCode(code: int) | Reviewer(name: string)

  /** Three numbers separated by dots. */
  predicate IsTaskId(t: Task) {
    exists i, j :: 0 <= i < j < |t| && t[i] == '.' && t[j] == '.'
      && IsNumber(t[..i]) && IsNumber(t[i + 1..j]) && IsNumber(t[j + 1..])
  }

  predicate IsNumber(s: string) {
    s != "" && forall k :: 0 <= k < |s| ==> '0' <= s[k] <= '9'
  }

  /** `condition` is stripped of surrounding blanks; `rest` holds the fields that are hashed and that no rule reads. */
  datatype Record = Record(
    eventId: string, previousEvent: Option<Hash>, previousIndex: Option<Hash>, taskId: Task,
    status: Status, evidenceScope: Scope, subcheckKey: string, signer: Signer, adjustmentId: string,
    condition: Option<string>, replacement: Option<Task>, staleFor: Option<Hash>,
    revalidationOf: Option<Hash>, revalidatedAgainst: Option<Task>,
    priority: Priority, releaseBlocking: bool, mandatory: bool, dependsOn: seq<Task>, gateId: string,
    retained: bool, sha256: string, rest: seq<(string, string)>)

  /** A record with its line number in the ledger file. */
  datatype Entry = Entry(line: nat, record: Record)

  type Ledger = seq<Entry>

  /** Line numbers grow with position. */
  predicate Numbered(l: Ledger) {
    forall i, j :: 0 <= i < j < |l| ==> l[i].line < l[j].line
  }

  /** No two different records of these ledgers have the same canonical hash. */
  predicate CollisionFree(hash: Record -> Hash, a: Ledger, b: Ledger) {
    forall i, j :: 0 <= i < |a| && 0 <= j < |b| && hash(a[i].record) == hash(b[j].record) ==> a[i].record == b[j].record
  }

  // ------------------------------------------------------------------ the two chains

  predicate IndexLinked(l: Ledger, hash: Record -> Hash, i: nat)
    requires i < |l|
  {
    l[i].record.previousIndex == if i == 0 then None else Some(hash(l[i - 1].record))
  }

  predicate IndexChain(l: Ledger, hash: Record -> Hash) {
    forall i :: 0 <= i < |l| ==> IndexLinked(l, hash, i)
  }

  /** The last of the first `n` records about `task`. */
  function LatestBefore(l: Ledger, task: Task, n: nat): (r: Option<nat>)
    requires n <= |l|
    ensures r.Some? ==> r.value < n && l[r.value].record.taskId == task
    ensures r.Some? ==> forall j :: r.value < j < n ==> l[j].record.taskId != task
    ensures r.None? ==> forall j :: 0 <= j < n ==> l[j].record.taskId != task
  {
    if n == 0 then None
    else if l[n - 1].record.taskId == task then Some(n - 1)
    else LatestBefore(l, task, n - 1)
  }

  predicate TaskLinked(l: Ledger, hash: Record -> Hash, i: nat)
    requires i < |l|
  {
    var prior := LatestBefore(l, l[i].record.taskId, i);
    l[i].record.previousEvent == if prior.None? then None else Some(hash(l[prior.value].record))
  }

  predicate TaskChain(l: Ledger, hash: Record -> Hash) {
    forall i :: 0 <= i < |l| ==> TaskLinked(l, hash, i)
  }

  /** Two index-chained ledgers that share an event are the same ledger up to it. */
  lemma {:induction false} SharedEventSharesPrefix(a: Ledger, b: Ledger, hash: Record -> Hash, i: nat, j: nat)
    requires CollisionFree(hash, a, b) && IndexChain(a, hash) && IndexChain(b, hash)
    requires i < |a| && j < |b| && a[i].record == b[j].record
    ensures i == j && forall k :: 0 <= k <= i ==> a[k].record == b[k].record
    decreases i
  {
    assert IndexLinked(a, hash, i) && IndexLinked(b, hash, j);
    if i != 0 {
      assert hash(a[i - 1].record) == hash(b[j - 1].record);
      SharedEventSharesPrefix(a, b, hash, i - 1, j - 1);
    }
  }

  /** The final hash determines the whole ledger. */
  lemma FinalHashDeterminesLedger(a: Ledger, b: Ledger, hash: Record -> Hash)
    requires CollisionFree(hash, a, b) && IndexChain(a, hash) && IndexChain(b, hash) && a != [] && b != []
    requires hash(a[|a| - 1].record) == hash(b[|b| - 1].record)
    ensures |a| == |b| && forall k :: 0 <= k < |a| ==> a[k].record == b[k].record
  {
    SharedEventSharesPrefix(a, b, hash, |a| - 1, |b| - 1);
  }

  /** No record occurs twice. */
  lemma RecordsAreDistinct(l: Ledger, hash: Record -> Hash, i: nat, j: nat)
    requires CollisionFree(hash, l, l) && IndexChain(l, hash)
    requires i < |l| && j < |l| && l[i].record == l[j].record
    ensures i == j
  {
    SharedEventSharesPrefix(l, l, hash, i, j);
  }

  // ------------------------------------------------------------------------- append

  /** What the append script fills in itself: the two back-links. */
  predicate LinksTo(l: Ledger, hash: Record -> Hash, record: Record) {
    var prior := LatestBefore(l, record.taskId, |l|);
    && record.previousEvent == (if prior.None? then None else Some(hash(l[prior.value].record)))
    && record.previousIndex == if l == [] then None else Some(hash(l[|l| - 1].record))
  }

  /** The local result file the script reads first. */
  datatype Report = Report(taskId: Task, exitCode: int, passed: bool)

  /** The record the script builds from its arguments and the two back-links. */
  function Built(template: Record, previousEvent: Option<Hash>, previousIndex: Option<Hash>): Record {
    template.(previousEvent := previousEvent, previousIndex := previousIndex, status := Passed,
              priority := P0, releaseBlocking := true, mandatory := true,
              signer := ExitCode(0), evidenceScope := Production, retained := false,
              adjustmentId := "A-local-validation-20260804", condition := None, replacement := None,
              staleFor := None, revalidationOf := None, revalidatedAgainst := None)
  }

  /** Refuses a result that does not pass for this task; otherwise appends one record with both back-links. */
  method AppendLocalResult(l: Ledger, hash: Record -> Hash, report: Report, template: Record, line: nat)
    returns (extended: Option<Ledger>)
    requires l != [] ==> l[|l| - 1].line < line
    ensures extended.Some? <==> report.taskId == template.taskId && report.exitCode == 0 && report.passed
    ensures extended.Some? ==>
              && |extended.value| == |l| + 1 && extended.value[..|l|] == l
              && var r := extended.value[|l|].record;
                 LinksTo(l, hash, r) && r == Built(template, r.previousEvent, r.previousIndex)
    ensures extended.Some? && Numbered(l) ==> Numbered(extended.value)
    ensures extended.Some? && IndexChain(l, hash) ==> IndexChain(extended.value, hash)
    ensures extended.Some? && TaskChain(l, hash) ==> TaskChain(extended.value, hash)
  {
    if report.taskId != template.taskId || report.exitCode != 0 || !report.passed {
      return None;
    }
    var previousForTask: Option<Hash> := None;
    var i := |l|;
    while i > 0
      invariant 0 <= i <= |l| && previousForTask == None
      invariant LatestBefore(l, template.taskId, |l|) == LatestBefore(l, template.taskId, i)
    {
      i := i - 1;
      if l[i].record.taskId == template.taskId {
        previousForTask := Some(hash(l[i].record));
        break;
      }
    }
    var previousIndex := if l == [] then None else Some(hash(l[|l| - 1].record));
    var last := Entry(line, Built(template, previousForTask, previousIndex));
    AppendKeepsChains(l, hash, last);
    extended := Some(l + [last]);
  }

  lemma {:induction false} LatestOfPrefix(l: Ledger, last: Entry, task: Task, n: nat)
    requires n <= |l|
    ensures LatestBefore(l + [last], task, n) == LatestBefore(l, task, n)
  {
    if n != 0 {
      LatestOfPrefix(l, last, task, n - 1);
    }
  }

  /** Appending a record with the two back-links keeps both chains. */
  lemma AppendKeepsChains(l: Ledger, hash: Record -> Hash, last: Entry)
    requires LinksTo(l, hash, last.record)
    ensures IndexChain(l, hash) ==> IndexChain(l + [last], hash)
    ensures TaskChain(l, hash) ==> TaskChain(l + [last], hash)
  {
    var e := l + [last];
    if IndexChain(l, hash) {
      forall i | 0 <= i < |e| ensures IndexLinked(e, hash, i) {
        assert i < |l| ==> IndexLinked(l, hash, i);
      }
    }
    if TaskChain(l, hash) {
      forall i | 0 <= i < |e| ensures TaskLinked(e, hash, i) {
        LatestOfPrefix(l, last, e[i].record.taskId, i);
        assert i < |l| ==> TaskLinked(l, hash, i);
      }
    }
  }
}

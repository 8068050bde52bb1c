/** Compliance runs: what the worker commits, the human approval gate, and what the API commits after it. */
module Workflow {
  import opened Common

  // ---------- rows ----------

  datatype Id = Id(n: nat)
  datatype Findings = Findings(email: nat, phone: nat, creditCard: nat, ssn: nat) {
    function Total(): nat { email + phone + creditCard + ssn }
  }

  datatype Verdict = PassedCheck | ReviewRequired | HumanApproved
  datatype Decision = Decision(approved: bool, decidedBy: Id, reason: Option<string>)

  /** The data field of a step. */
  datatype Data =
    | Ingested(documents: nat, characters: nat)
    | Detected(found: Findings)
    | Gate(verdict: Verdict, findings: Option<Findings>, decision: Option<Decision>)
    | Recorded(auditId: Id)
    | Amended(base: Data, decided: Decision)
    | OtherData(text: string)

  datatype StepStatus = StepCompleted | StepPendingApproval | StepRejected | StepFailed

  /** The output text of a step, by the values it is printed from. */
  datatype Output =
    | IngestedText(documents: nat, characters: nat)
    | IdentifiedText(total: nat)
    | CleanText
    | AwaitingText(total: nat)
    | DecidedText(approved: bool, decider: Id, reason: Option<string>)
    | RecordedText(auditId: Id)
    | OtherText(text: string)

  datatype Spec = Spec(id: string, name: string, kind: string)
  datatype Step = Step(spec: Spec, status: StepStatus, durationMs: nat, output: Output, data: Data)

  datatype AuditRow =
    | ComplianceAudit(id: Id, userId: Id, workflowId: Id, runId: Id, workspaceId: Id,
                      verdict: Verdict, findings: Option<Findings>, documentsScanned: nat)
    | OtherAudit(id: Id)

  datatype Status = Pending | Running | AwaitingApproval | Completed | Failed | Rejected
  datatype Approval = ApprovalPending | ApprovalApproved | ApprovalRejected
  datatype Template = ComplianceTemplate | OtherTemplate | UnknownTemplate

  datatype WorkflowRow = WorkflowRow(id: Id, template: Template, workspaceId: Id, createdBy: Id)
  datatype Run = Run(id: Id, status: Status, steps: seq<Step>, error: Option<string>,
                     startedAt: Option<int>, completedAt: Option<int>,
                     approval: Option<Approval>, approvalStepId: Option<string>,
                     approvedBy: Option<Id>, approvedAt: Option<int>, approvalReason: Option<string>)

  /** What one commit makes visible. */
  datatype Db = Db(workflow: WorkflowRow, workflowStatus: Status, run: Run, audits: seq<AuditRow>)

  function TemplateStep(id: string): Spec {
    if id == "s1" then Spec("s1", "Policy Ingestion", "trigger")
    else if id == "s2" then Spec("s2", "PII & GDPR Detector", "agent")
    else if id == "s3" then Spec("s3", "Human Approval", "human_approval")
    else Spec("s4", "Audit Log Dispatch", "action")
  }

  // ---------- scanning ----------

  /** What the parser and the four patterns report for one document of the workspace. */
  datatype Doc = Readable(characters: nat, found: Findings) | Unreadable

  /** The documents that could be parsed. */
  function Parsed(docs: seq<Doc>): seq<Doc> {
    if docs == [] then []
    else Parsed(docs[..|docs| - 1]) + if docs[|docs| - 1].Readable? then [docs[|docs| - 1]] else []
  }

  function Characters(docs: seq<Doc>): nat {
    if docs == [] then 0
    else Characters(docs[..|docs| - 1]) + if docs[|docs| - 1].Readable? then docs[|docs| - 1].characters else 0
  }

  function Sum(f: Findings, g: Findings): Findings {
    Findings(f.email + g.email, f.phone + g.phone, f.creditCard + g.creditCard, f.ssn + g.ssn)
  }

  function Detect(docs: seq<Doc>): Findings {
    if docs == [] then Findings(0, 0, 0, 0)
    else
      var f := Detect(docs[..|docs| - 1]);
      if docs[|docs| - 1].Readable? then Sum(f, docs[|docs| - 1].found) else f
  }

  /** What a run learns from the documents, and how long its steps took. */
  datatype Scan = Scan(documents: nat, characters: nat, findings: Findings, durations: seq<nat>)

  function ScanOf(docs: seq<Doc>, durations: seq<nat>): Scan {
    Scan(|Parsed(docs)|, Characters(docs), Detect(docs), durations)
  }

  function Duration(scan: Scan, i: nat): nat {
    if i < |scan.durations| then scan.durations[i] else 0
  }

  function ScanSteps(scan: Scan): seq<Step> {
    [Step(TemplateStep("s1"), StepCompleted, Duration(scan, 0), IngestedText(scan.documents, scan.characters),
          Ingested(scan.documents, scan.characters)),
     Step(TemplateStep("s2"), StepCompleted, Duration(scan, 1), IdentifiedText(scan.findings.Total()),
          Detected(scan.findings))]
  }

  function GateStep(scan: Scan): Step {
    if scan.findings.Total() == 0 then
      Step(TemplateStep("s3"), StepCompleted, Duration(scan, 2), CleanText, Gate(PassedCheck, None, None))
    else
      Step(TemplateStep("s3"), StepPendingApproval, Duration(scan, 2), AwaitingText(scan.findings.Total()),
           Gate(ReviewRequired, Some(scan.findings), None))
  }

  function GateVerdict(scan: Scan): Verdict {
    if scan.findings.Total() == 0 then PassedCheck else ReviewRequired
  }

  /** The audit row the worker writes at step 4 for these documents and this verdict. */
  function WorkerAudit(db: Db, scan: Scan, verdict: Verdict, auditId: Id): AuditRow {
    ComplianceAudit(auditId, db.workflow.createdBy, db.workflow.id, db.run.id, db.workflow.workspaceId,
                    verdict, Some(scan.findings), scan.documents)
  }

  function AuditStep(auditId: Id, durationMs: nat): Step {
    Step(TemplateStep("s4"), StepCompleted, durationMs, RecordedText(auditId), Recorded(auditId))
  }

  // ---------- what each commit changes ----------

  /** How an executor ends: it returns its steps, with an error or a request for approval, or it raises. */
  datatype Outcome = Returned(steps: seq<Step>, error: Option<string>, pauses: bool) | Raised(message: string)

  function WorkerStarted(db: Db, now: int): Db {
    db.(workflowStatus := Running, run := db.run.(status := Running, startedAt := Some(now)))
  }

  function WorkerAudited(db: Db, scan: Scan, auditId: Id): Db {
    db.(audits := db.audits + [WorkerAudit(db, scan, GateVerdict(scan), auditId)])
  }

  function WorkerFailed(db: Db, steps: seq<Step>, error: string, now: int): Db {
    db.(workflowStatus := Failed,
        run := db.run.(status := Failed, error := Some(error), completedAt := Some(now), steps := steps))
  }

  function WorkerPaused(db: Db, steps: seq<Step>): Db {
    db.(workflowStatus := AwaitingApproval,
        run := db.run.(status := AwaitingApproval, steps := steps, approval := Some(ApprovalPending),
                       approvalStepId := Some("s3"), approvedBy := None, approvedAt := None, approvalReason := None))
  }

  function WorkerCompleted(db: Db, steps: seq<Step>, now: int): Db {
    db.(workflowStatus := Completed, run := db.run.(status := Completed, completedAt := Some(now), steps := steps))
  }

  /** The worker's last commit; the steps of an executor that raised are lost. */
  function WorkerConcluded(db: Db, outcome: Outcome, now: int): Db {
    if outcome.Raised? then WorkerFailed(db, [], outcome.message, now)
    else if outcome.error.Some? then WorkerFailed(db, outcome.steps, outcome.error.value, now)
    else if outcome.pauses then WorkerPaused(db, outcome.steps)
    else WorkerCompleted(db, outcome.steps, now)
  }

  /** Where the compliance executor raises, if it does. */
  datatype Trouble = Smooth | BeforeAudit(error: string) | AfterAudit(error: string)

  predicate WritesAudit(scan: Scan, trouble: Trouble) {
    scan.findings.Total() == 0 && !trouble.BeforeAudit?
  }

  function ComplianceOutcome(scan: Scan, trouble: Trouble, auditId: Id): Outcome {
    if trouble.BeforeAudit? then Raised(trouble.error)
    else if scan.findings.Total() > 0 then Returned(ScanSteps(scan) + [GateStep(scan)], None, true)
    else if trouble.AfterAudit? then Raised(trouble.error)
    else Returned(ScanSteps(scan) + [GateStep(scan)] + [AuditStep(auditId, Duration(scan, 3))], None, false)
  }

  predicate Pauses(outcome: Outcome) {
    outcome.Returned? && outcome.error.None? && outcome.pauses
  }

  /** The commits that end an execution. A notification that the run paused commits the pause once more, before the
      worker itself does; it may also fail and commit nothing. */
  function ConcludingCommits(db: Db, outcome: Outcome, notified: bool, now: int): seq<Db> {
    var concluded := WorkerConcluded(db, outcome, now);
    if Pauses(outcome) && notified then [concluded, concluded] else [concluded]
  }

  /** What one execution of a compliance run commits, in order. */
  function ComplianceCommits(
      db: Db, scan: Scan, trouble: Trouble, notified: bool, auditId: Id, now: int, later: int): seq<Db>
  {
    var started := WorkerStarted(db, now);
    var executed := ComplianceExecuted(started, scan, trouble, auditId);
    [started] + (if WritesAudit(scan, trouble) then [executed] else [])
    + ConcludingCommits(executed, ComplianceOutcome(scan, trouble, auditId), notified, later)
  }

  /** The database after the executor, which commits on its own only to write the audit row. */
  function ComplianceExecuted(db: Db, scan: Scan, trouble: Trouble, auditId: Id): Db {
    if WritesAudit(scan, trouble) then WorkerAudited(db, scan, auditId) else db
  }

  function NotEnqueued(db: Db, now: int): Db {
    db.(workflowStatus := Failed,
        run := db.run.(status := Failed, completedAt := Some(now),
                       error := Some("Could not enqueue run — worker unavailable")))
  }

  function MergedData(data: Data, decision: Decision): Data {
    if data.Gate? then data.(decision := Some(decision)) else Amended(data, decision)
  }

  function DecideOne(step: Step, stepId: Option<string>, decision: Decision): Step {
    if Some(step.spec.id) == stepId then
      step.(status := if decision.approved then StepCompleted else StepRejected,
            output := DecidedText(decision.approved, decision.decidedBy, decision.reason),
            data := MergedData(step.data, decision))
    else step
  }

  function Decided(steps: seq<Step>, stepId: Option<string>, decision: Decision): seq<Step> {
    seq(|steps|, i requires 0 <= i < |steps| => DecideOne(steps[i], stepId, decision))
  }

  /** by_id: the last step with the given id. */
  function StepById(steps: seq<Step>, id: string): Option<Step> {
    if steps == [] then None
    else if steps[|steps| - 1].spec.id == id then Some(steps[|steps| - 1])
    else StepById(steps[..|steps| - 1], id)
  }

  /** The findings kept by the gate, else those of the detector, else none. */
  function DispatchFindings(steps: seq<Step>): Option<Findings> {
    var s2, s3 := StepById(steps, "s2"), StepById(steps, "s3");
    if s3.Some? && s3.value.data.Gate? && s3.value.data.findings.Some? then s3.value.data.findings
    else if s2.Some? && s2.value.data.Detected? then Some(s2.value.data.found)
    else None
  }

  function DispatchDocuments(steps: seq<Step>): nat {
    var s1 := StepById(steps, "s1");
    if s1.Some? && s1.value.data.Ingested? then s1.value.data.documents else 0
  }

  function DispatchAudit(db: Db, auditId: Id): AuditRow {
    ComplianceAudit(auditId, db.workflow.createdBy, db.workflow.id, db.run.id, db.workflow.workspaceId,
                    HumanApproved, DispatchFindings(db.run.steps), DispatchDocuments(db.run.steps))
  }

  function DecisionRecorded(db: Db, decision: Decision, now: int): Db {
    db.(run := db.run.(
          approval := Some(if decision.approved then ApprovalApproved else ApprovalRejected),
          approvedBy := Some(decision.decidedBy), approvedAt := Some(now), approvalReason := decision.reason,
          steps := Decided(db.run.steps, db.run.approvalStepId, decision)))
  }

  /** First commit of an approval: writing the audit row commits the decision with it. */
  function ApprovalAudited(db: Db, decision: Decision, now: int, auditId: Id): Db {
    var decided := DecisionRecorded(db, decision, now);
    decided.(audits := decided.audits + [DispatchAudit(decided, auditId)])
  }

  /** Second commit of an approval. */
  function ApprovalResumed(db: Db, auditId: Id, now: int): Db {
    db.(workflowStatus := Completed,
        run := db.run.(status := Completed, completedAt := Some(now), steps := db.run.steps + [AuditStep(auditId, 0)]))
  }

  function RejectionRecorded(db: Db, decision: Decision, now: int): Db {
    var decided := DecisionRecorded(db, decision, now);
    decided.(workflowStatus := Rejected, run := decided.run.(status := Rejected, completedAt := Some(now)))
  }

  /** The audit row that notes the decision itself. */
  function Noted(db: Db, noteId: Id): Db {
    db.(audits := db.audits + [OtherAudit(noteId)])
  }

  predicate AwaitsDecision(db: Db) {
    db.run.status == AwaitingApproval && db.run.approval == Some(ApprovalPending)
  }

  // ---------- the code that commits ----------

  /** A database session on one workflow, its run and the audit log, with the history of its commits. */
  class RunSession {
    const workflow: WorkflowRow
    var workflowStatus: Status
    const runId: Id
    var status: Status
    var steps: seq<Step>
    var error: Option<string>
    var startedAt: Option<int>
    var completedAt: Option<int>
    var approvalStatus: Option<Approval>
    var approvalStepId: Option<string>
    var approvedBy: Option<Id>
    var approvedAt: Option<int>
    var approvalReason: Option<string>
    var audits: seq<AuditRow>
    ghost var commits: seq<Db>

    constructor (db: Db)
      ensures View() == db && commits == []
    {
      workflow, workflowStatus, runId := db.workflow, db.workflowStatus, db.run.id;
      status, steps, error := db.run.status, db.run.steps, db.run.error;
      startedAt, completedAt := db.run.startedAt, db.run.completedAt;
      approvalStatus, approvalStepId := db.run.approval, db.run.approvalStepId;
      approvedBy, approvedAt, approvalReason := db.run.approvedBy, db.run.approvedAt, db.run.approvalReason;
      audits := db.audits;
      commits := [];
    }

    function View(): Db
      reads this
    {
      Db(workflow, workflowStatus,
         Run(runId, status, steps, error, startedAt, completedAt, approvalStatus, approvalStepId,
             approvedBy, approvedAt, approvalReason),
         audits)
    }

    method Commit()
      modifies this`commits
      ensures commits == old(commits) + [View()]
    {
      commits := commits + [View()];
    }

    /** audit_service.log_action: adds the row and commits everything pending with it. */
    method LogAction(row: AuditRow)
      modifies this`audits, this`commits
      ensures View() == old(View()).(audits := old(audits) + [row])
      ensures commits == old(commits) + [View()]
    {
      audits := audits + [row];
      Commit();
    }

    /** Steps 1 and 2 of the compliance executor. */
    method ScanDocuments(docs: seq<Doc>, durations: seq<nat>)
      returns (scan: Scan)
      ensures scan == ScanOf(docs, durations)
    {
      var texts: seq<Doc> := [];
      var characters := 0;
      for i := 0 to |docs|
        invariant texts == Parsed(docs[..i]) && characters == Characters(docs[..i])
        invariant Detect(texts) == Detect(docs[..i])
        invariant forall j :: 0 <= j < |texts| ==> texts[j].Readable?
      {
        assert docs[..i + 1][..i] == docs[..i];
        if docs[i].Readable? {
          ghost var before := texts;
          texts := texts + [docs[i]];
          assert texts[..|before|] == before;
          characters := characters + docs[i].characters;
        }
      }
      assert docs[..|docs|] == docs;
      var findings := Findings(0, 0, 0, 0);
      for i := 0 to |texts|
        invariant findings == Detect(texts[..i])
      {
        assert texts[..i + 1][..i] == texts[..i];
        findings := Sum(findings, texts[i].found);
      }
      assert texts[..|texts|] == texts;
      scan := Scan(|texts|, characters, findings, durations);
    }

    /** Steps 3 and 4 of the compliance executor; step 4 commits its audit row itself. */
    method GateAndDispatch(scan: Scan, trouble: Trouble, auditId: Id) returns (outcome: Outcome)
      modifies this`audits, this`commits
      ensures outcome == ComplianceOutcome(scan, trouble, auditId)
      ensures View() == ComplianceExecuted(old(View()), scan, trouble, auditId)
      ensures commits == old(commits) + if WritesAudit(scan, trouble) then [View()] else []
    {
      if trouble.BeforeAudit? {
        return Raised(trouble.error);
      }
      var done := ScanSteps(scan) + [GateStep(scan)];
      if scan.findings.Total() > 0 {
        return Returned(done, None, true);
      }
      LogAction(WorkerAudit(View(), scan, PassedCheck, auditId));
      if trouble.AfterAudit? {
        return Raised(trouble.error);
      }
      outcome := Returned(done + [AuditStep(auditId, Duration(scan, 3))], None, false);
    }

    method Begin(now: int)
      modifies this
      ensures View() == WorkerStarted(old(View()), now) && commits == old(commits) + [View()]
    {
      status, startedAt, workflowStatus := Running, Some(now), Running;
      Commit();
    }

    method Fail(done: seq<Step>, message: string, now: int)
      modifies this`steps, this`status, this`error, this`completedAt, this`workflowStatus
      ensures View() == WorkerFailed(old(View()), done, message, now)
    {
      steps, status, error, completedAt, workflowStatus := done, Failed, Some(message), Some(now), Failed;
    }

    method Pause(done: seq<Step>)
      modifies this`steps, this`status, this`approvalStatus, this`approvalStepId
      modifies this`approvedBy, this`approvedAt, this`approvalReason, this`workflowStatus
      ensures View() == WorkerPaused(old(View()), done)
    {
      steps, status, workflowStatus := done, AwaitingApproval, AwaitingApproval;
      approvalStatus, approvalStepId := Some(ApprovalPending), Some("s3");
      approvedBy, approvedAt, approvalReason := None, None, None;
    }

    method Complete(done: seq<Step>, now: int)
      modifies this`steps, this`status, this`completedAt, this`workflowStatus
      ensures View() == WorkerCompleted(old(View()), done, now)
    {
      steps, status, completedAt, workflowStatus := done, Completed, Some(now), Completed;
    }

    /** The assignments after the executor, and the commits that end the execution. */
    method Conclude(outcome: Outcome, notified: bool, now: int)
      modifies this
      ensures View() == WorkerConcluded(old(View()), outcome, now)
      ensures commits == old(commits) + ConcludingCommits(old(View()), outcome, notified, now)
    {
      if outcome.Raised? {
        Fail([], outcome.message, now);
      } else if outcome.error.Some? {
        Fail(outcome.steps, outcome.error.value, now);
      } else if outcome.pauses {
        Pause(outcome.steps);
        if notified {
          Commit();
        }
      } else {
        Complete(outcome.steps, now);
      }
      Commit();
    }

    /** One execution of a compliance run in which ScanDocuments finds what `scan` says. */
    method RunCompliance(scan: Scan, trouble: Trouble, notified: bool, auditId: Id, now: int, later: int)
      modifies this
      ensures commits == old(commits) + ComplianceCommits(old(View()), scan, trouble, notified, auditId, now, later)
      ensures commits[|commits| - 1] == View()
    {
      Begin(now);
      var outcome := GateAndDispatch(scan, trouble, auditId);
      Conclude(outcome, notified, later);
    }

    /** _decide_step: rewrites the step under decision in a copy of the list. */
    method DecideStep(decision: Decision)
      modifies this`steps
      ensures steps == Decided(old(steps), approvalStepId, decision)
    {
      var copy := steps;
      for i := 0 to |copy|
        invariant |copy| == |steps|
        invariant forall j :: 0 <= j < |copy| ==>
          copy[j] == if j < i then DecideOne(steps[j], approvalStepId, decision) else steps[j]
      {
        if Some(copy[i].spec.id) == approvalStepId {
          copy := copy[i := copy[i].(
            status := if decision.approved then StepCompleted else StepRejected,
            output := DecidedText(decision.approved, decision.decidedBy, decision.reason),
            data := MergedData(copy[i].data, decision))];
        }
      }
      steps := copy;
    }

    /** The columns of a decision, and the step it decides. */
    method RecordDecision(decision: Decision, now: int)
      modifies this`approvalStatus, this`approvedBy, this`approvedAt, this`approvalReason, this`steps
      ensures View() == DecisionRecorded(old(View()), decision, now)
    {
      approvalStatus := Some(if decision.approved then ApprovalApproved else ApprovalRejected);
      approvedBy, approvedAt, approvalReason := Some(decision.decidedBy), Some(now), decision.reason;
      DecideStep(decision);
    }

    /** The step that names the audit row, and the end of the run. */
    method Resume(auditId: Id, now: int)
      modifies this`steps, this`status, this`completedAt, this`workflowStatus
      ensures View() == ApprovalResumed(old(View()), auditId, now)
    {
      steps := steps + [AuditStep(auditId, 0)];
      status, completedAt, workflowStatus := Completed, Some(now), Completed;
    }

    method Reject(decision: Decision, now: int)
      requires !decision.approved
      modifies this`approvalStatus, this`approvedBy, this`approvedAt, this`approvalReason, this`steps
      modifies this`status, this`completedAt, this`workflowStatus
      ensures View() == RejectionRecorded(old(View()), decision, now)
    {
      RecordDecision(decision, now);
      status, completedAt, workflowStatus := Rejected, Some(now), Rejected;
    }

    /** A decision on a run that is not awaiting one is a conflict and changes nothing. */
    method ApproveRun(
        user: Id, reason: Option<string>, auditId: Id, noteId: Id, now: int, later: int)
      returns (ok: bool)
      modifies this
      ensures ok == AwaitsDecision(old(View()))
      ensures !ok ==> View() == old(View()) && commits == old(commits)
      ensures ok ==>
                var first := ApprovalAudited(old(View()), Decision(true, user, reason), now, auditId);
                var second := ApprovalResumed(first, auditId, later);
                commits == old(commits) + [first, second, Noted(second, noteId)] && View() == Noted(second, noteId)
    {
      if status != AwaitingApproval || approvalStatus != Some(ApprovalPending) {
        return false;
      }
      RecordDecision(Decision(true, user, reason), now);
      LogAction(DispatchAudit(View(), auditId));
      Resume(auditId, later);
      Commit();
      LogAction(OtherAudit(noteId));
      ok := true;
    }

    method RejectRun(user: Id, reason: Option<string>, noteId: Id, now: int) returns (ok: bool)
      modifies this
      ensures ok == AwaitsDecision(old(View()))
      ensures !ok ==> View() == old(View()) && commits == old(commits)
      ensures ok ==>
                var first := RejectionRecorded(old(View()), Decision(false, user, reason), now);
                commits == old(commits) + [first, Noted(first, noteId)] && View() == Noted(first, noteId)
    {
      if status != AwaitingApproval || approvalStatus != Some(ApprovalPending) {
        return false;
      }
      Reject(Decision(false, user, reason), now);
      Commit();
      LogAction(OtherAudit(noteId));
      ok := true;
    }
  }
}

/** Every committed state of a run that is executed once, through worker, pause, decision and crashes. */
module WorkflowRuns {
  import opened Common
  import opened Workflow

  /** Which code, if any, is in the middle of committing. */
  datatype Phase = Created | Queued | Working(audited: Option<Id>) | Deciding(auditId: Id) | Idle

  /** `scan` is what the documents will turn out to hold when the worker reads them. */
  datatype World = World(db: Db, scan: Scan, phase: Phase)

  datatype Event =
    | Elsewhere(workflowStatus: Status, row: Option<AuditRow>)
    | Enqueue
    | EnqueueFails(now: int)
    | Begin(now: int)
    | Dispatch(auditId: Id)
    | Conclude(trouble: Trouble, now: int)
    | ConcludeOther(outcome: Outcome, now: int)
    | WorkerDies
    | Approve(user: Id, reason: Option<string>, now: int, auditId: Id)
    | Resume(now: int)
    | ApproverDies
    | Reject(user: Id, reason: Option<string>, now: int)

  predicate Compliance(db: Db) {
    db.workflow.template == ComplianceTemplate
  }

  /** The worker runs once, after it was enqueued; a decision is atomic up to its first commit. Other runs may write
      their own audit rows and the status of the workflow they share. */
  predicate Enabled(w: World, e: Event) {
    match e
    case Elsewhere(_, row) => row.Some? && row.value.ComplianceAudit? ==> row.value.runId != w.db.run.id
    case Enqueue => w.phase == Created
    case EnqueueFails(_) => w.phase == Created
    case Begin(_) => w.phase == Queued
    case Dispatch(_) => Compliance(w.db) && w.phase == Working(None) && w.scan.findings.Total() == 0
    case Conclude(trouble, _) =>
      Compliance(w.db) && w.phase.Working? && w.phase.audited.Some? == WritesAudit(w.scan, trouble)
    case ConcludeOther(outcome, _) =>
      && !Compliance(w.db) && w.phase.Working?
      && if w.db.workflow.template.OtherTemplate? then outcome.Returned? ==> !outcome.pauses else outcome.Raised?
    case WorkerDies => w.phase.Working?
    case Approve(_, _, _, _) => AwaitsDecision(w.db)
    case Resume(_) => w.phase.Deciding?
    case ApproverDies => w.phase.Deciding?
    case Reject(_, _, _) => AwaitsDecision(w.db)
  }

  function Apply(w: World, e: Event): World
    requires Enabled(w, e)
  {
    match e
    case Elsewhere(status, row) =>
      w.(db := w.db.(workflowStatus := status, audits := w.db.audits + if row.Some? then [row.value] else []))
    case Enqueue => w.(phase := Queued)
    case EnqueueFails(now) => World(NotEnqueued(w.db, now), w.scan, Idle)
    case Begin(now) => World(WorkerStarted(w.db, now), w.scan, Working(None))
    case Dispatch(auditId) => World(WorkerAudited(w.db, w.scan, auditId), w.scan, Working(Some(auditId)))
    case Conclude(trouble, now) =>
      World(WorkerConcluded(w.db, ComplianceOutcome(w.scan, trouble, AuditIdOf(w.phase)), now), w.scan, Idle)
    case ConcludeOther(outcome, now) => World(WorkerConcluded(w.db, outcome, now), w.scan, Idle)
    case WorkerDies => w.(phase := Idle)
    case Approve(user, reason, now, auditId) =>
      World(ApprovalAudited(w.db, Decision(true, user, reason), now, auditId), w.scan, Deciding(auditId))
    case Resume(now) => World(ApprovalResumed(w.db, w.phase.auditId, now), w.scan, Idle)
    case ApproverDies => w.(phase := Idle)
    case Reject(user, reason, now) =>
      World(RejectionRecorded(w.db, Decision(false, user, reason), now), w.scan, Idle)
  }

  /** The id the worker puts in step 4, which is looked at only when the audit row was written. */
  function AuditIdOf(phase: Phase): Id
    requires phase.Working?
  {
    if phase.audited.Some? then phase.audited.value else Id(0)
  }

  // ---------- what a run of the compliance template may look like ----------

  predicate OfRun(row: AuditRow, runId: Id) {
    row.ComplianceAudit? && row.runId == runId
  }

  /** The compliance rows of one run, in order. */
  function RowsOf(audits: seq<AuditRow>, runId: Id): seq<AuditRow> {
    if audits == [] then []
    else RowsOf(audits[..|audits| - 1], runId)
         + if OfRun(audits[|audits| - 1], runId) then [audits[|audits| - 1]] else []
  }

  function Rows(db: Db): seq<AuditRow> {
    RowsOf(db.audits, db.run.id)
  }

  lemma {:induction false} RowsOfAppend(audits: seq<AuditRow>, row: AuditRow, runId: Id)
    ensures RowsOf(audits + [row], runId) == RowsOf(audits, runId) + if OfRun(row, runId) then [row] else []
  {
    assert (audits + [row])[..|audits|] == audits;
  }

  /** Adding one row to the log adds it to the rows of its run. */
  lemma {:induction false} RowAdded(db: Db, after: Db, row: AuditRow)
    requires after.audits == db.audits + [row] && after.run.id == db.run.id
    ensures Rows(after) == Rows(db) + if OfRun(row, db.run.id) then [row] else []
  {
    RowsOfAppend(db.audits, row, db.run.id);
  }

  predicate Terminal(status: Status) {
    status == Completed || status == Failed || status == Rejected
  }

  function Paused(scan: Scan): seq<Step> {
    ScanSteps(scan) + [GateStep(scan)]
  }

  /** The decision a run records in its own columns. */
  function DecisionOf(run: Run, approved: bool): Decision
    requires run.approvedBy.Some?
  {
    Decision(approved, run.approvedBy.value, run.approvalReason)
  }

  /** The paused steps after the decision. */
  function PausedAndDecided(db: Db, scan: Scan, approved: bool): seq<Step>
    requires db.run.approvedBy.Some?
  {
    ScanSteps(scan) + [DecideOne(GateStep(scan), Some("s3"), DecisionOf(db.run, approved))]
  }

  /** The one compliance row of the run is the worker's row for these findings. */
  predicate OneRow(db: Db, scan: Scan, verdict: Verdict) {
    |Rows(db)| == 1 && Rows(db)[0].ComplianceAudit? && Rows(db)[0] == WorkerAudit(db, scan, verdict, Rows(db)[0].id)
  }

  predicate Untouched(db: Db) {
    db.run.steps == [] && db.run.approval == None && Rows(db) == []
  }

  predicate AwaitsHuman(db: Db, scan: Scan) {
    && scan.findings.Total() > 0 && db.run.approval == Some(ApprovalPending) && db.run.approvalStepId == Some("s3")
    && db.run.steps == Paused(scan) && Rows(db) == []
  }

  /** Between the two commits of an approval, or after a crash between them. */
  predicate ApprovedMeanwhile(db: Db, scan: Scan) {
    && scan.findings.Total() > 0 && db.run.approval == Some(ApprovalApproved) && db.run.approvedBy.Some?
    && db.run.steps == PausedAndDecided(db, scan, true) && OneRow(db, scan, HumanApproved)
  }

  predicate RejectedByHuman(db: Db, scan: Scan) {
    && scan.findings.Total() > 0 && db.run.approval == Some(ApprovalRejected) && db.run.approvedBy.Some?
    && db.run.steps == PausedAndDecided(db, scan, false) && Rows(db) == []
  }

  predicate CompletedStraight(db: Db, scan: Scan) {
    && scan.findings.Total() == 0 && db.run.approval == None && OneRow(db, scan, PassedCheck)
    && db.run.steps == Paused(scan) + [AuditStep(Rows(db)[0].id, Duration(scan, 3))]
  }

  predicate CompletedByHuman(db: Db, scan: Scan) {
    && scan.findings.Total() > 0 && db.run.approval == Some(ApprovalApproved) && db.run.approvedBy.Some?
    && OneRow(db, scan, HumanApproved)
    && db.run.steps == PausedAndDecided(db, scan, true) + [AuditStep(Rows(db)[0].id, 0)]
  }

  /** Some worker was cut short: at most the automatic row, and no steps. */
  predicate CutShort(db: Db, scan: Scan) {
    && db.run.steps == [] && db.run.approval == None
    && (Rows(db) == [] || (scan.findings.Total() == 0 && OneRow(db, scan, PassedCheck)))
  }

  predicate ComplianceFits(w: World) {
    match w.db.run.status
    case Pending => Untouched(w.db) && (w.phase == Created || w.phase == Queued)
    case Running =>
      && CutShort(w.db, w.scan) && (w.phase.Working? || w.phase == Idle)
      && (w.phase.Working? ==> w.phase.audited.Some? == (Rows(w.db) != []))
      && (w.phase.Working? && w.phase.audited.Some? ==> Rows(w.db)[0].id == w.phase.audited.value)
    case AwaitingApproval =>
      || (AwaitsHuman(w.db, w.scan) && w.phase == Idle)
      || (ApprovedMeanwhile(w.db, w.scan) && (w.phase == Idle || w.phase == Deciding(Rows(w.db)[0].id)))
    case Completed => (CompletedStraight(w.db, w.scan) || CompletedByHuman(w.db, w.scan)) && w.phase == Idle
    case Failed => CutShort(w.db, w.scan) && w.phase == Idle
    case Rejected => RejectedByHuman(w.db, w.scan) && w.phase == Idle
  }

  /** Runs of other templates never wait for a human. */
  predicate OtherFits(w: World) {
    && w.db.run.approval == None
    && match w.db.run.status
       case Pending => w.phase == Created || w.phase == Queued
       case Running => w.phase.Working? || w.phase == Idle
       case AwaitingApproval => false
       case Rejected => false
       case _ => w.phase == Idle
  }

  predicate Fits(w: World) {
    && (w.db.run.completedAt.Some? <==> Terminal(w.db.run.status))
    && if Compliance(w.db) then ComplianceFits(w) else OtherFits(w)
  }

  // ---------- every step keeps the invariant ----------

  lemma {:induction false} WorkerKeepsFits(w: World, e: Event)
    requires Fits(w) && Enabled(w, e) &&
             (e.Begin? || e.ConcludeOther? || e.WorkerDies? || e.EnqueueFails? || e.Enqueue?)
    ensures Fits(Apply(w, e))
  {
  }

  lemma {:induction false} ConcludeKeepsFits(w: World, trouble: Trouble, now: int)
    requires Fits(w) && Enabled(w, Conclude(trouble, now))
    ensures Fits(Apply(w, Conclude(trouble, now)))
  {
  }

  lemma {:induction false} SameRunFits(w: World, after: World)
    requires Fits(w) && after.db.run == w.db.run && after.db.workflow == w.db.workflow && Rows(after.db) == Rows(w.db)
    requires after.scan == w.scan && after.phase == w.phase
    ensures Fits(after)
  {
  }

  lemma {:induction false} ElsewhereKeepsFits(w: World, status: Status, row: Option<AuditRow>)
    requires Fits(w) && Enabled(w, Elsewhere(status, row))
    ensures Fits(Apply(w, Elsewhere(status, row)))
  {
    var after := Apply(w, Elsewhere(status, row));
    if row.Some? {
      RowAdded(w.db, after.db, row.value);
    } else {
      assert w.db.audits + [] == w.db.audits;
    }
    SameRunFits(w, after);
  }

  lemma {:induction false} DispatchKeepsFits(w: World, auditId: Id)
    requires Fits(w) && Enabled(w, Dispatch(auditId))
    ensures Fits(Apply(w, Dispatch(auditId)))
  {
    var row := WorkerAudit(w.db, w.scan, GateVerdict(w.scan), auditId);
    var after := Apply(w, Dispatch(auditId));
    RowAdded(w.db, after.db, row);
    DispatchedFits(w, after, row);
  }

  lemma {:induction false} DispatchedFits(w: World, after: World, row: AuditRow)
    requires Fits(w) && Enabled(w, Dispatch(row.id)) && row == WorkerAudit(w.db, w.scan, PassedCheck, row.id)
    requires after.db.run == w.db.run && after.db.workflow == w.db.workflow && Rows(after.db) == Rows(w.db) + [row]
    requires after.scan == w.scan && after.phase == Working(Some(row.id))
    ensures Fits(after)
  {
    assert Rows(w.db) == [];
  }

  /** Deciding the paused steps rewrites the gate and nothing else. */
  lemma {:induction false} DecidedPaused(scan: Scan, decision: Decision)
    ensures Decided(Paused(scan), Some("s3"), decision)
         == ScanSteps(scan) + [DecideOne(GateStep(scan), Some("s3"), decision)]
  {
    var steps := Paused(scan);
    assert DecideOne(steps[0], Some("s3"), decision) == steps[0];
    assert DecideOne(steps[1], Some("s3"), decision) == steps[1];
  }

  /** The row written after an approval is, but for its verdict, the row the worker would have written. */
  lemma {:induction false} DispatchIsWorkers(db: Db, scan: Scan, decision: Decision, now: int, auditId: Id)
    requires AwaitsHuman(db, scan)
    ensures DispatchAudit(DecisionRecorded(db, decision, now), auditId) == WorkerAudit(db, scan, HumanApproved, auditId)
  {
    DecidedPaused(scan, decision);
    var steps := DecisionRecorded(db, decision, now).run.steps;
    assert steps[..2] == ScanSteps(scan) && steps[..2][..1] == [ScanSteps(scan)[0]];
    assert StepById(steps, "s3") == Some(steps[2]);
    assert StepById(steps[..2], "s1") == StepById(steps[..2][..1], "s1") == Some(steps[0]);
    assert StepById(steps, "s1") == StepById(steps[..2], "s1");
  }

  lemma {:induction false} ApproveKeepsFits(w: World, user: Id, reason: Option<string>, now: int, auditId: Id)
    requires Fits(w) && Enabled(w, Approve(user, reason, now, auditId))
    ensures Fits(Apply(w, Approve(user, reason, now, auditId)))
  {
    assert Compliance(w.db) && AwaitsHuman(w.db, w.scan) && w.db.run.completedAt == None;
    ApprovedFits(w, Decision(true, user, reason), now, auditId);
  }

  lemma {:induction false} ApprovedFits(w: World, decision: Decision, now: int, auditId: Id)
    requires AwaitsHuman(w.db, w.scan) && decision.approved
    ensures var db := ApprovalAudited(w.db, decision, now, auditId);
            ApprovedMeanwhile(db, w.scan) && Rows(db)[0].id == auditId
  {
    DecidedPaused(w.scan, decision);
    DispatchIsWorkers(w.db, w.scan, decision, now, auditId);
    var row := WorkerAudit(w.db, w.scan, HumanApproved, auditId);
    var db := ApprovalAudited(w.db, decision, now, auditId);
    RowAdded(w.db, db, row);
    assert Rows(db) == [row];
  }

  lemma {:induction false} RejectKeepsFits(w: World, user: Id, reason: Option<string>, now: int)
    requires Fits(w) && Enabled(w, Reject(user, reason, now))
    ensures Fits(Apply(w, Reject(user, reason, now)))
  {
    DecidedPaused(w.scan, Decision(false, user, reason));
  }

  lemma {:induction false} ResumeKeepsFits(w: World, e: Event)
    requires Fits(w) && Enabled(w, e) && (e.Resume? || e.ApproverDies?)
    ensures Fits(Apply(w, e))
  {
  }

  lemma {:induction false} StepKeepsFits(w: World, e: Event)
    requires Fits(w) && Enabled(w, e)
    ensures Fits(Apply(w, e))
  {
    match e {
      case Elsewhere(status, row) => ElsewhereKeepsFits(w, status, row);
      case Dispatch(auditId) => DispatchKeepsFits(w, auditId);
      case Conclude(trouble, now) => ConcludeKeepsFits(w, trouble, now);
      case Approve(user, reason, now, auditId) => ApproveKeepsFits(w, user, reason, now, auditId);
      case Reject(user, reason, now) => RejectKeepsFits(w, user, reason, now);
      case Resume(_) => ResumeKeepsFits(w, e);
      case ApproverDies => ResumeKeepsFits(w, e);
      case _ => WorkerKeepsFits(w, e);
    }
  }

  /** What one execution commits is what the worker's events pass through. */
  lemma {:induction false} ExecutionIsRun(
      w: World, trouble: Trouble, notified: bool, auditId: Id, now: int, later: int)
    requires Compliance(w.db) && Enabled(w, Begin(now))
    ensures var commits := ComplianceCommits(w.db, w.scan, trouble, notified, auditId, now, later);
            var begun := Apply(w, Begin(now));
            var again := Pauses(ComplianceOutcome(w.scan, trouble, auditId)) && notified;
            if WritesAudit(w.scan, trouble) then
              Enabled(begun, Dispatch(auditId)) &&
              var dispatched := Apply(begun, Dispatch(auditId));
              Enabled(dispatched, Conclude(trouble, later)) &&
              commits == [begun.db, dispatched.db, Apply(dispatched, Conclude(trouble, later)).db]
            else
              Enabled(begun, Conclude(trouble, later)) &&
              var concluded := Apply(begun, Conclude(trouble, later)).db;
              commits == [begun.db, concluded] + if again then [concluded] else []
  {
    var begun := Apply(w, Begin(now));
    if WritesAudit(w.scan, trouble) {
      var dispatched := Apply(begun, Dispatch(auditId));
      assert dispatched.phase == Working(Some(auditId));
    }
  }

  // ---------- every reachable state ----------

  /** The run row has just been added. */
  predicate Initial(w: World) {
    && w.phase == Created && w.db.run.status == Pending && w.db.run.steps == [] && w.db.run.approval == None
    && w.db.run.completedAt == None && w.db.run.startedAt == None && w.db.run.error == None
    && w.db.run.approvedBy == None && w.db.run.approvedAt == None && w.db.run.approvalReason == None
    && Rows(w.db) == []
  }

  ghost predicate Reaches(worlds: seq<World>, events: seq<Event>) {
    && |worlds| == |events| + 1 && Initial(worlds[0])
    && forall i :: 0 <= i < |events| ==> Enabled(worlds[i], events[i]) && worlds[i + 1] == Apply(worlds[i], events[i])
  }

  lemma {:induction false} ReachableFits(worlds: seq<World>, events: seq<Event>, i: nat)
    requires Reaches(worlds, events) && i < |worlds|
    ensures Fits(worlds[i])
  {
    if i == 0 {
    } else {
      ReachableFits(worlds, events, i - 1);
      StepKeepsFits(worlds[i - 1], events[i - 1]);
    }
  }

  function StepIds(steps: seq<Step>): seq<string> {
    seq(|steps|, i requires 0 <= i < |steps| => steps[i].spec.id)
  }

  /** Nothing after the gate has happened. */
  predicate HeldBack(db: Db) {
    "s4" !in StepIds(db.run.steps) && Rows(db) == []
  }

  /** All four steps, and exactly one compliance row, the one step 4 names. */
  predicate FullyRecorded(db: Db) {
    && StepIds(db.run.steps) == ["s1", "s2", "s3", "s4"]
    && db.run.steps[0].spec == Spec("s1", "Policy Ingestion", "trigger")
    && db.run.steps[1].spec == Spec("s2", "PII & GDPR Detector", "agent")
    && db.run.steps[2].spec == Spec("s3", "Human Approval", "human_approval")
    && db.run.steps[3].spec == Spec("s4", "Audit Log Dispatch", "action")
    && (forall i :: 0 <= i < 4 ==> db.run.steps[i].status == StepCompleted)
    && |Rows(db)| == 1 && db.run.steps[3].data == Recorded(Rows(db)[0].id)
    && db.run.steps[3].output == RecordedText(Rows(db)[0].id)
  }

  /** A human verdict has a named human behind it, and an automatic one was given only to clean documents. */
  predicate Earned(row: AuditRow, run: Run) {
    row.ComplianceAudit? &&
    match row.verdict
    case HumanApproved => run.approval == Some(ApprovalApproved) && run.approvedBy.Some?
    case PassedCheck => run.approval == None && row.findings == Some(Findings(0, 0, 0, 0))
    case ReviewRequired => false
  }

  predicate VerdictsEarned(db: Db) {
    Rows(db) == [] || (|Rows(db)| == 1 && Earned(Rows(db)[0], db.run))
  }

  /** The gate step shows where the run's decision stands, and who took it and why. */
  predicate DecisionShown(db: Db) {
    && |db.run.steps| >= 3 && db.run.steps[2].spec.id == "s3" && db.run.steps[2].data.Gate?
    && var gate := db.run.steps[2];
       match db.run.approval
       case None =>
         && gate.status == StepCompleted && gate.output == CleanText
         && gate.data.verdict == PassedCheck && gate.data.decision == None
       case Some(ApprovalPending) =>
         && gate.status == StepPendingApproval && gate.output.AwaitingText?
         && gate.data.verdict == ReviewRequired && gate.data.decision == None
       case Some(ApprovalApproved) =>
         && db.run.approvedBy.Some? && gate.status == StepCompleted
         && gate.output == DecidedText(true, db.run.approvedBy.value, db.run.approvalReason)
         && gate.data.decision == Some(Decision(true, db.run.approvedBy.value, db.run.approvalReason))
       case Some(ApprovalRejected) =>
         && db.run.approvedBy.Some? && gate.status == StepRejected
         && gate.output == DecidedText(false, db.run.approvedBy.value, db.run.approvalReason)
         && gate.data.decision == Some(Decision(false, db.run.approvedBy.value, db.run.approvalReason))
  }

  predicate ComplianceSafe(db: Db) {
    && (db.run.steps != [] ==> DecisionShown(db))
    && (AwaitsDecision(db) || db.run.status == Rejected ==> HeldBack(db))
    && (db.run.status == Completed ==> FullyRecorded(db))
    && VerdictsEarned(db)
  }

  lemma {:induction false} FitsHeldBack(w: World)
    requires ComplianceFits(w) && (AwaitsDecision(w.db) || w.db.run.status == Rejected)
    ensures HeldBack(w.db)
  {
    var steps := w.db.run.steps;
    assert |steps| == 3 && steps[0].spec == TemplateStep("s1") && steps[1].spec == TemplateStep("s2");
    assert steps[2].spec == TemplateStep("s3");
  }

  lemma {:induction false} FitsDecisionShown(w: World)
    requires ComplianceFits(w) && w.db.run.steps != []
    ensures DecisionShown(w.db)
  {
    assert |w.db.run.steps| >= 3;
  }

  lemma {:induction false} FitsFullyRecorded(w: World)
    requires ComplianceFits(w) && w.db.run.status == Completed
    ensures FullyRecorded(w.db)
  {
    var steps := w.db.run.steps;
    assert |steps| == 4 && steps[0].spec == TemplateStep("s1") && steps[1].spec == TemplateStep("s2");
    assert steps[2].spec == TemplateStep("s3") && steps[3].spec == TemplateStep("s4");
  }

  lemma {:induction false} FitsVerdictsEarned(w: World)
    requires ComplianceFits(w)
    ensures VerdictsEarned(w.db)
  {
    if Rows(w.db) != [] {
      if w.scan.findings.Total() == 0 {
        assert OneRow(w.db, w.scan, PassedCheck) && w.db.run.approval == None;
        PassedEarned(w.db, w.scan);
      } else {
        assert OneRow(w.db, w.scan, HumanApproved);
      }
    }
  }

  lemma {:induction false} PassedEarned(db: Db, scan: Scan)
    requires OneRow(db, scan, PassedCheck) && scan.findings.Total() == 0 && db.run.approval == None
    ensures VerdictsEarned(db)
  {
    NothingFound(scan.findings);
  }

  lemma {:induction false} NothingFound(f: Findings)
    ensures f.Total() == 0 <==> f == Findings(0, 0, 0, 0)
  {
    assert f.Total() == f.email + f.phone + f.creditCard + f.ssn;
  }

  lemma {:induction false} CommittedStatesSafe(worlds: seq<World>, events: seq<Event>, i: nat)
    requires Reaches(worlds, events) && i < |worlds|
    ensures worlds[i].db.run.completedAt.Some? <==> Terminal(worlds[i].db.run.status)
    ensures Compliance(worlds[i].db) ==> ComplianceSafe(worlds[i].db)
  {
    ReachableFits(worlds, events, i);
    var w := worlds[i];
    if Compliance(w.db) {
      FitsVerdictsEarned(w);
      if w.db.run.steps != [] {
        FitsDecisionShown(w);
      }
      if AwaitsDecision(w.db) || w.db.run.status == Rejected {
        FitsHeldBack(w);
      }
      if w.db.run.status == Completed {
        FitsFullyRecorded(w);
      }
    }
  }

  // ---------- pausing does not change what is recorded ----------

  /** The commits of a smooth execution that pauses, then is approved: its final state next to that of the execution
      that would not have paused. */
  lemma {:induction false} PauseThenApprove(
      db: Db, scan: Scan, notified: bool, user: Id, reason: Option<string>, auditId: Id, otherId: Id,
      now: int, decidedAt: int, later: int)
    requires scan.findings.Total() > 0 && Rows(db) == []
    ensures var paused := ComplianceCommits(db, scan, Smooth, notified, otherId, now, later)[1];
            var resumed := ApprovalResumed(ApprovalAudited(paused, Decision(true, user, reason), decidedAt, auditId),
                auditId, later);
            var straight := WorkerCompleted(WorkerAudited(WorkerStarted(db, now), scan, otherId),
                                            Paused(scan) + [AuditStep(otherId, Duration(scan, 3))], later);
            && AwaitsDecision(paused)
            && StepIds(resumed.run.steps) == StepIds(straight.run.steps) == ["s1", "s2", "s3", "s4"]
            && resumed.run.steps[..2] == straight.run.steps[..2]
            && resumed.run.status == straight.run.status && resumed.workflowStatus == straight.workflowStatus
            && |resumed.audits| == |straight.audits| == |db.audits| + 1
            && resumed.audits[|db.audits|] == straight.audits[|db.audits|].(id := auditId, verdict := HumanApproved)
            && resumed.run.steps[3] == AuditStep(auditId, 0)
  {
    var paused := ComplianceCommits(db, scan, Smooth, notified, otherId, now, later)[1];
    var decision := Decision(true, user, reason);
    PausedState(db, scan, notified, otherId, now, later);
    DecidedPaused(scan, decision);
    DispatchIsWorkers(paused, scan, decision, decidedAt, auditId);
  }

  lemma {:induction false} PausedState(db: Db, scan: Scan, notified: bool, otherId: Id, now: int, later: int)
    requires scan.findings.Total() > 0 && Rows(db) == []
    ensures ComplianceCommits(db, scan, Smooth, notified, otherId, now, later)[1]
         == WorkerPaused(WorkerStarted(db, now), Paused(scan))
    ensures AwaitsHuman(WorkerPaused(WorkerStarted(db, now), Paused(scan)), scan)
  {
  }
}

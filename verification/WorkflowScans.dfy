/** What compliance runs have to do with the documents they are about, and what their columns say. */
module WorkflowScans {
  import opened Common
  import opened Workflow
  import opened WorkflowRuns

  // ---------- what scanning finds ----------

  function Tally(docs: seq<Doc>, count: Doc -> nat): nat {
    if docs == [] then 0 else Tally(docs[..|docs| - 1], count) + count(docs[|docs| - 1])
  }

  function One(d: Doc): nat {
    if d.Readable? then 1 else 0
  }

  function Length(d: Doc): nat {
    if d.Readable? then d.characters else 0
  }

  function Emails(d: Doc): nat {
    if d.Readable? then d.found.email else 0
  }

  function Phones(d: Doc): nat {
    if d.Readable? then d.found.phone else 0
  }

  function CreditCards(d: Doc): nat {
    if d.Readable? then d.found.creditCard else 0
  }

  function Ssns(d: Doc): nat {
    if d.Readable? then d.found.ssn else 0
  }

  /** The number of readable documents, their characters, and for each of the four kinds the sum of what was found. */
  lemma {:induction false} ScanIs(docs: seq<Doc>, durations: seq<nat>)
    ensures var scan := ScanOf(docs, durations);
            && scan.documents == Tally(docs, One) && scan.characters == Tally(docs, Length)
            && scan.findings.email == Tally(docs, Emails) && scan.findings.phone == Tally(docs, Phones)
            && scan.findings.creditCard == Tally(docs, CreditCards) && scan.findings.ssn == Tally(docs, Ssns)
  {
    if docs == [] {
    } else {
      ScanIs(docs[..|docs| - 1], durations);
    }
  }

  /** A readable document in which something of some kind was found. */
  predicate Sensitive(d: Doc) {
    d.Readable? && (d.found.email > 0 || d.found.phone > 0 || d.found.creditCard > 0 || d.found.ssn > 0)
  }

  predicate AnySensitive(docs: seq<Doc>) {
    exists i :: 0 <= i < |docs| && Sensitive(docs[i])
  }

  lemma {:induction false} AnyInLast(docs: seq<Doc>)
    requires docs != []
    ensures AnySensitive(docs) <==> AnySensitive(docs[..|docs| - 1]) || Sensitive(docs[|docs| - 1])
  {
    var earlier := docs[..|docs| - 1];
    assert forall i :: 0 <= i < |earlier| ==> docs[i] == earlier[i];
    if AnySensitive(docs) && !Sensitive(docs[|docs| - 1]) {
      var i :| 0 <= i < |docs| && Sensitive(docs[i]);
      assert Sensitive(earlier[i]);
    }
  }

  lemma {:induction false} FoundExactly(docs: seq<Doc>, durations: seq<nat>)
    ensures ScanOf(docs, durations).findings.Total() > 0 <==> AnySensitive(docs)
  {
    if docs == [] {
    } else {
      FoundExactly(docs[..|docs| - 1], durations);
      LastFound(docs, durations);
      AnyInLast(docs);
    }
  }

  lemma {:induction false} LastFound(docs: seq<Doc>, durations: seq<nat>)
    requires docs != []
    ensures ScanOf(docs, durations).findings.Total() > 0 <==>
            ScanOf(docs[..|docs| - 1], durations).findings.Total() > 0 || Sensitive(docs[|docs| - 1])
  {
    ScanIs(docs, durations);
    ScanIs(docs[..|docs| - 1], durations);
  }

  /** An execution that does not raise before its gate pauses if and only if something was found in some readable
      document. */
  lemma {:induction false} PausesExactly(docs: seq<Doc>, durations: seq<nat>, trouble: Trouble, auditId: Id)
    requires !trouble.BeforeAudit?
    ensures Pauses(ComplianceOutcome(ScanOf(docs, durations), trouble, auditId)) <==> AnySensitive(docs)
  {
    FoundExactly(docs, durations);
  }

  // ---------- what runs record about documents ----------

  lemma {:induction false} ScanStays(worlds: seq<World>, events: seq<Event>, i: nat)
    requires Reaches(worlds, events) && i < |worlds|
    ensures worlds[i].scan == worlds[0].scan
  {
    if i == 0 {
    } else {
      ScanStays(worlds, events, i - 1);
    }
  }

  /** The row speaks of these documents, for this run. */
  ghost predicate RowOfDocuments(row: AuditRow, db: Db, docs: seq<Doc>) {
    && row.ComplianceAudit?
    && row.userId == db.workflow.createdBy && row.workflowId == db.workflow.id
    && row.runId == db.run.id && row.workspaceId == db.workflow.workspaceId
    && row.documentsScanned == Tally(docs, One)
    && row.findings == Some(Findings(Tally(docs, Emails), Tally(docs, Phones),
                                     Tally(docs, CreditCards), Tally(docs, Ssns)))
    && match row.verdict
       case PassedCheck => !AnySensitive(docs)
       case HumanApproved => AnySensitive(docs)
       case ReviewRequired => false
  }

  /** The first two steps speak of these documents. */
  ghost predicate StepsOfDocuments(steps: seq<Step>, docs: seq<Doc>) {
    && |steps| >= 2 && steps[0].data == Ingested(Tally(docs, One), Tally(docs, Length))
    && steps[0].output == IngestedText(Tally(docs, One), Tally(docs, Length))
    && steps[1].output == IdentifiedText(Tally(docs, Emails) + Tally(docs, Phones)
                                         + Tally(docs, CreditCards) + Tally(docs, Ssns))
    && steps[1].data == Detected(Findings(Tally(docs, Emails), Tally(docs, Phones),
                                          Tally(docs, CreditCards), Tally(docs, Ssns)))
  }

  lemma {:induction false} RowFits(db: Db, docs: seq<Doc>, durations: seq<nat>, verdict: Verdict)
    requires var scan := ScanOf(docs, durations);
             OneRow(db, scan, verdict) &&
             match verdict
             case PassedCheck => scan.findings.Total() == 0
             case HumanApproved => scan.findings.Total() > 0
             case ReviewRequired => false
    ensures |Rows(db)| == 1 && RowOfDocuments(Rows(db)[0], db, docs)
  {
    ScanIs(docs, durations);
    FoundExactly(docs, durations);
  }

  lemma {:induction false} StepsFit(steps: seq<Step>, docs: seq<Doc>, durations: seq<nat>)
    requires |steps| >= 2 && steps[..2] == ScanSteps(ScanOf(docs, durations))
    ensures StepsOfDocuments(steps, docs)
  {
    ScanIs(docs, durations);
    assert steps[0] == steps[..2][0] && steps[1] == steps[..2][1];
  }

  lemma {:induction false} FirstStepsAreScan(w: World)
    requires ComplianceFits(w) && w.db.run.steps != []
    ensures |w.db.run.steps| >= 2 && w.db.run.steps[..2] == ScanSteps(w.scan)
  {
  }

  ghost predicate RecordsFit(db: Db, docs: seq<Doc>) {
    && (Rows(db) == [] || (|Rows(db)| == 1 && RowOfDocuments(Rows(db)[0], db, docs)))
    && (db.run.steps != [] ==> StepsOfDocuments(db.run.steps, docs))
  }

  lemma {:induction false} RowsNeedVerdicts(w: World)
    requires ComplianceFits(w) && Rows(w.db) != []
    ensures OneRow(w.db, w.scan, if w.scan.findings.Total() == 0 then PassedCheck else HumanApproved)
  {
  }

  lemma {:induction false} FitsRecords(w: World, docs: seq<Doc>, durations: seq<nat>)
    requires ComplianceFits(w) && w.scan == ScanOf(docs, durations)
    ensures RecordsFit(w.db, docs)
  {
    if Rows(w.db) != [] {
      RowsNeedVerdicts(w);
      RowFits(w.db, docs, durations, if w.scan.findings.Total() == 0 then PassedCheck else HumanApproved);
    }
    if w.db.run.steps != [] {
      FirstStepsAreScan(w);
      StepsFit(w.db.run.steps, docs, durations);
    }
  }

  /** In every reachable state of a compliance run on these documents, its audit row and its steps speak of exactly
      them, a row that was written automatically means that they are all clean, and one that a human approved that
      they are not. */
  lemma {:induction false} RecordsAreOfDocuments(
      worlds: seq<World>, events: seq<Event>, i: nat, docs: seq<Doc>, durations: seq<nat>)
    requires Reaches(worlds, events) && i < |worlds| && Compliance(worlds[i].db)
    requires worlds[0].scan == ScanOf(docs, durations)
    ensures RecordsFit(worlds[i].db, docs)
  {
    ReachableFits(worlds, events, i);
    ScanStays(worlds, events, i);
    FitsRecords(worlds[i], docs, durations);
  }

  // ---------- columns ----------

  /** `sole`: no other run of the workflow has been at work. */
  predicate Columns(w: World, sole: bool) {
    var run := w.db.run;
    && (run.status == Pending ==> run.startedAt == None)
    && (run.startedAt == None ==> run.status == Pending || run.status == Failed)
    && (run.error.Some? <==> run.status == Failed)
    && (sole ==> w.db.workflowStatus == run.status)
    && match run.approval
       case None => run.approvedBy == None && run.approvedAt == None && run.approvalReason == None
       case Some(ApprovalPending) => run.approvedBy == None && run.approvedAt == None && run.approvalReason == None
       case Some(_) => run.approvedBy.Some? && run.approvedAt.Some?
  }

  lemma {:induction false} WorkerKeepsColumns(w: World, e: Event, sole: bool)
    requires Fits(w) && Columns(w, sole) && Enabled(w, e)
    requires e.Begin? || e.Dispatch? || e.Conclude? || e.ConcludeOther? || e.WorkerDies? ||
             e.EnqueueFails? || e.Enqueue?
    ensures Columns(Apply(w, e), sole)
  {
  }

  lemma {:induction false} DecisionKeepsColumns(w: World, e: Event, sole: bool)
    requires Fits(w) && Columns(w, sole) && Enabled(w, e)
    requires e.Approve? || e.Resume? || e.ApproverDies? || e.Reject?
    ensures Columns(Apply(w, e), sole)
  {
  }

  lemma {:induction false} StepKeepsColumns(w: World, e: Event, sole: bool)
    requires Fits(w) && Columns(w, sole) && Enabled(w, e) && (e.Elsewhere? ==> !sole)
    ensures Columns(Apply(w, e), sole)
  {
    if e.Approve? || e.Resume? || e.ApproverDies? || e.Reject? {
      DecisionKeepsColumns(w, e, sole);
    } else if !e.Elsewhere? {
      WorkerKeepsColumns(w, e, sole);
    }
  }

  /** The workflow started out pending with this run, and no other run of it was at work. */
  predicate Alone(start: World, events: seq<Event>, i: nat)
    requires i <= |events|
  {
    start.db.workflowStatus == Pending && forall k :: 0 <= k < i ==> !events[k].Elsewhere?
  }

  /** In every reachable state the run has a start unless it never ran, an error exactly if it failed, and a decider
      and a time exactly if it was decided; and its workflow shows its status unless another run was at work. */
  lemma {:induction false} ColumnsFit(worlds: seq<World>, events: seq<Event>, i: nat)
    requires Reaches(worlds, events) && i < |worlds|
    ensures Columns(worlds[i], Alone(worlds[0], events, i))
  {
    if i == 0 {
    } else {
      ColumnsFit(worlds, events, i - 1);
      ReachableFits(worlds, events, i - 1);
      StepKeepsColumns(worlds[i - 1], events[i - 1], Alone(worlds[0], events, i));
    }
  }

  /** An approval or rejection records who, when and why, in the columns and in the gate step. */
  lemma {:induction false} DecisionAsTaken(w: World, e: Event)
    requires Fits(w) && Enabled(w, e) && (e.Approve? || e.Reject?)
    ensures var run := Apply(w, e).db.run;
            && run.approval == Some(if e.Approve? then ApprovalApproved else ApprovalRejected)
            && run.approvedBy == Some(e.user) && run.approvedAt == Some(e.now) && run.approvalReason == e.reason
            && |run.steps| == |w.db.run.steps| == 3 && run.steps[..2] == w.db.run.steps[..2]
            && run.steps[2].status == (if e.Approve? then StepCompleted else StepRejected)
            && run.steps[2].data == w.db.run.steps[2].data.(decision := Some(Decision(e.Approve?, e.user, e.reason)))
            && (e.Reject? ==> run.status == Rejected && run.completedAt == Some(e.now))
  {
    DecidedPaused(w.scan, Decision(e.Approve?, e.user, e.reason));
    assert w.db.run.steps[..2] == ScanSteps(w.scan);
  }

  /** Worker and approver record when they start and finish. */
  lemma {:induction false} TimesAsTaken(w: World, e: Event)
    requires Fits(w) && Enabled(w, e)
    ensures e.Begin? ==> Apply(w, e).db.run.startedAt == Some(e.now)
    ensures e.Resume? ==> Apply(w, e).db.run.completedAt == Some(e.now)
    ensures (e.Conclude? || e.ConcludeOther?) && Terminal(Apply(w, e).db.run.status) ==>
              Apply(w, e).db.run.completedAt == Some(e.now)
    ensures !e.Begin? ==> Apply(w, e).db.run.startedAt == w.db.run.startedAt
    ensures e.Conclude? && e.trouble.BeforeAudit? ==> Apply(w, e).db.run.error == Some(e.trouble.error)
    ensures e.Conclude? && e.trouble.AfterAudit? && w.scan.findings.Total() == 0 ==>
              Apply(w, e).db.run.error == Some(e.trouble.error)
    ensures e.ConcludeOther? && e.outcome.Raised? ==> Apply(w, e).db.run.error == Some(e.outcome.message)
    ensures e.ConcludeOther? && e.outcome.Returned? && e.outcome.error.Some? ==>
              Apply(w, e).db.run.error == e.outcome.error && Apply(w, e).db.run.steps == e.outcome.steps
  {
  }
}

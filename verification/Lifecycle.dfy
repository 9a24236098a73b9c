/** Every interleaving of worker transactions, human edits, operations and reviews on the calls
    of one tenant. A step is one transaction, or the start or loss of a worker; several worker
    runs can be in flight, even on the same call. A refused step changes nothing. */
module Lifecycle {
  import opened Wrappers
  import opened Transcript
  import opened Pipeline
  import opened Processing
  import opened Records
  import E = Evidence
  import T = Transcripts
  import R = Reviews
  import F = Followups

  /** The committed rows and the memory of the runs in flight. */
  datatype System = System(db: Store, runs: map<nat, Run>)

  datatype Step =
    | CreateCall(call: nat, seller: Option<string>)
    | BeginRun(id: nat, call: nat, mode: Mode)
    | FailBegin(call: nat, e: Exception, draw: real)
    | EnterTranscribing(id: nat)
    | EnterAnalyzing(id: nat, items: seq<Item>)
    | FinishRun(id: nat, refined: RoleAssignment, raw: E.Analysis)
    | FailRun(id: nat, stage: Stage, e: Exception, draw: real)
    | LoseRun(id: nat)
    | EditSegment(call: nat, position: nat, content: string, role: SpeakerRole, reanalyze: bool)
    | AssignSpeakers(call: nat, assignments: map<string, SpeakerRole>, reanalyze: bool)
    | TakeSnapshot(call: nat)
    | OperateOn(call: nat, operation: Operation)
    | QueueAnalysis(call: nat)
    | Review(call: nat, review: nat, action: R.Action, actor: string, assignee: Option<string>, eligible: bool,
             note: Option<string>)

  function Commit(db: Store, call: nat, rec: Record, added: seq<R.Publication>): Store {
    Store(db.records[call := rec], db.log + added)
  }

  /** The stages an exception can carry while the run's own status is `status`. */
  predicate StagePossible(status: CallStatus, stage: Stage) {
    match status
    case Preprocessing => stage == QueuedStage
    case Transcribing => stage == TranscribingStage
    case _ => true
  }

  /** The committed result of a transaction on one call, if it commits. */
  ghost function Outcome(env: Env, s: System, step: Step): Option<(nat, Record, seq<R.Publication>)> {
    match step
    case CreateCall(c, seller) => if c in s.db.records then None else Some((c, NewRecord(seller), []))
    case BeginRun(id, c, mode) =>
      if id in s.runs || c !in s.db.records || (s.db.records[c].progress.status == Completed && mode == Resume)
          then None
      else Simple(c, BeginRecord(s.db.records[c], mode))
    case FailBegin(c, e, draw) =>
      if c !in s.db.records then None else Simple(c, FailedRecord(env, s.db.records[c], QueuedStage, e, draw))
    case EnterTranscribing(id) =>
      if id !in s.runs || s.runs[id].call !in s.db.records || s.runs[id].status != Preprocessing then None
      else Some((s.runs[id].call, TranscribingRecord(s.db.records[s.runs[id].call], s.runs[id]), []))
    case EnterAnalyzing(id, items) =>
      if id !in s.runs || s.runs[id].call !in s.db.records || s.runs[id].status != Transcribing || items == [] then None
      else Some((s.runs[id].call, AnalyzingRecord(s.db.records[s.runs[id].call], s.runs[id]), []))
    case FinishRun(id, refined, raw) => FinishOutcome(env, s, id, refined, raw)
    case FailRun(id, stage, e, draw) =>
      if id !in s.runs || s.runs[id].call !in s.db.records || !StagePossible(s.runs[id].status, stage) then None
      else Simple(s.runs[id].call, FailedRecord(env, s.db.records[s.runs[id].call], stage, e, draw))
    case LoseRun(_) => None
    case EditSegment(c, p, content, role, reanalyze) =>
      if c !in s.db.records then None else Simple(c, EditRecord(env, s.db.records[c], p, content, role, reanalyze))
    case AssignSpeakers(c, assignments, reanalyze) =>
      if c !in s.db.records then None else Simple(c, RolesRecord(s.db.records[c], assignments, reanalyze))
    case TakeSnapshot(c) =>
      if c !in s.db.records then None
      else Some((c, s.db.records[c].(text := T.Snapshot(s.db.records[c].text, T.HumanSnapshot)), []))
    case OperateOn(c, operation) =>
      if c !in s.db.records then None
      else Some((c, s.db.records[c].(progress := Operate(s.db.records[c].progress, operation)), []))
    case QueueAnalysis(c) =>
      if c !in s.db.records then None
      else Some((c, s.db.records[c].(progress := s.db.records[c].progress.(status := Queued)), []))
    case Review(c, k, action, actor, assignee, eligible, note) =>
      if c !in s.db.records then None
      else
        (match R.PerformReviewAction(s.db.records[c].reviews, c, s.db.records[c].seller, k, action, actor, assignee,
                                     eligible, note)
         case Failure(_) => None
         case Success(t) => Some((c, ReviewedRecord(s.db.records[c], t), t.added)))
  }

  ghost function FinishOutcome(env: Env, s: System, id: nat, refined: RoleAssignment, raw: E.Analysis)
    : Option<(nat, Record, seq<R.Publication>)>
  {
    if id !in s.runs || s.runs[id].call !in s.db.records || !E.WellShaped(raw) then None
    else
      match FinishRecord(env, s.db.records[s.runs[id].call], s.db.log, s.runs[id], refined, raw)
      case Failure(_) => None
      case Success(done) => Some((s.runs[id].call, done.0, done.1))
  }

  lemma {:induction false} OutcomeOfFinish(env: Env, s: System, step: Step)
    requires step.FinishRun?
    ensures Outcome(env, s, step) == FinishOutcome(env, s, step.id, step.refined, step.raw)
  {
  }

  lemma {:induction false} FinishNext(env: Env, s: System, id: nat, refined: RoleAssignment, raw: E.Analysis)
    requires CanFinish(s, id, refined, raw)
    ensures var run := s.runs[id];
            var done := FinishRecord(env, s.db.records[run.call], s.db.log, run, refined, raw);
            done.Success? && Next(env, s, FinishRun(id, refined, raw)).db
                == Commit(s.db, run.call, done.value.0, done.value.1)
  {
    OutcomeOfFinish(env, s, FinishRun(id, refined, raw));
  }

  function Simple(call: nat, rec: Option<Record>): Option<(nat, Record, seq<R.Publication>)> {
    match rec
    case None => None
    case Some(r) => Some((call, r, []))
  }

  /** The runs in flight after a step that committed, or did not. */
  function RunsAfter(s: System, step: Step, committed: bool): map<nat, Run> {
    match step
    case BeginRun(id, c, mode) =>
      if committed && c in s.db.records then s.runs[id := StartedRun(s.db.records[c], c, mode)] else s.runs
    case EnterTranscribing(id) =>
      if committed && id in s.runs then s.runs[id := s.runs[id].(status := Transcribing)] else s.runs
    case EnterAnalyzing(id, items) =>
      if committed && id in s.runs then s.runs[id := s.runs[id].(status := Analyzing, items := items)] else s.runs
    case FinishRun(id, _, _) => if committed then s.runs - {id} else s.runs
    case FailRun(id, _, _, _) => s.runs - {id}
    case LoseRun(id) => s.runs - {id}
    case _ => s.runs
  }

  ghost function Next(env: Env, s: System, step: Step): System {
    match Outcome(env, s, step)
    case None => s.(runs := RunsAfter(s, step, false))
    case Some(done) => System(Commit(s.db, done.0, done.1, done.2), RunsAfter(s, step, true))
  }

  const EMPTY := System(Store(map[], []), map[])

  /** The state after a run of steps. */
  ghost function Exec(env: Env, s: System, steps: seq<Step>): System {
    if steps == [] then s else Next(env, Exec(env, s, steps[..|steps| - 1]), steps[|steps| - 1])
  }

  // ---------- the invariant of the tenant ----------

  ghost predicate RecordOk(db: Store, c: nat) {
    c in db.records ==> RecordInv(db.records[c], R.Of(db.log, c))
  }

  ghost predicate DbInv(db: Store) {
    && (forall c :: RecordOk(db, c))
    && (forall i :: 0 <= i < |db.log| ==> db.log[i].call in db.records)
    && R.PilotRespected(db.log)
  }

  ghost predicate RunInv(run: Run) {
    run.status in {Preprocessing, Transcribing, Analyzing} && (run.mode == Reanalyze ==> run.status == Analyzing)
  }

  ghost predicate Inv(s: System) {
    DbInv(s.db) && RunsInv(s.runs, s.db)
  }

  lemma {:induction false} NoPublications(log: seq<R.Publication>, call: nat)
    requires forall i :: 0 <= i < |log| ==> log[i].call != call
    ensures R.Of(log, call) == []
  {
    if log == [] {
    } else {
      var init := log[..|log| - 1];
      assert forall i :: 0 <= i < |init| ==> init[i] == log[i];
      NoPublications(init, call);
    }
  }

  /** What a transaction must satisfy for the tenant's invariant to survive it. */
  ghost predicate GoodOutcome(db: Store, done: (nat, Record, seq<R.Publication>)) {
    && RecordInv(done.1, R.Of(db.log, done.0) + done.2)
    && (done.0 in db.records ==> RecordGrows(db.records[done.0], done.1))
    && |done.2| <= 1
    && (done.2 != [] ==>
          && done.2[0].call == done.0
          && (done.2[0].kind == R.ByPolicy ==> 50 <= |R.HumanPublished(db.log)|))
  }

  lemma {:induction false} CommittedHistory(db: Store, done: (nat, Record, seq<R.Publication>), c: nat)
    requires GoodOutcome(db, done)
    ensures R.Of(db.log + done.2, c) == if c == done.0 then R.Of(db.log, c) + done.2 else R.Of(db.log, c)
  {
    R.OfAppend(db.log, done.2, c);
    assert R.Of(db.log, c) + [] == R.Of(db.log, c);
  }

  lemma {:induction false} GoodCommit(db: Store, done: (nat, Record, seq<R.Publication>))
    requires DbInv(db) && GoodOutcome(db, done)
    ensures DbInv(Commit(db, done.0, done.1, done.2))
  {
    R.PilotExtends(db.log, done.2);
    forall c ensures RecordOk(Commit(db, done.0, done.1, done.2), c) {
      CommittedRecord(db, done, c);
    }
  }

  lemma {:induction false} CommittedRecord(db: Store, done: (nat, Record, seq<R.Publication>), c: nat)
    requires RecordOk(db, c) && GoodOutcome(db, done)
    ensures RecordOk(Commit(db, done.0, done.1, done.2), c)
  {
    CommittedHistory(db, done, c);
  }

  lemma {:induction false} SimpleGood(db: Store, call: nat, rec: Record)
    requires DbInv(db) && call in db.records
    requires RecordInv(rec, R.Of(db.log, call)) && RecordGrows(db.records[call], rec)
    ensures GoodOutcome(db, (call, rec, []))
  {
    assert R.Of(db.log, call) + [] == R.Of(db.log, call);
  }

  lemma {:induction false} WorkerOutcomeGood(env: Env, s: System, step: Step)
    requires Inv(s) && Outcome(env, s, step).Some?
    requires step.BeginRun? || step.EnterTranscribing? || step.EnterAnalyzing?
    ensures GoodOutcome(s.db, Outcome(env, s, step).value)
  {
    var (c, rec, added) := Outcome(env, s, step).value;
    var history := R.Of(s.db.log, c);
    assert RecordOk(s.db, c);
    match step
    case BeginRun(_, _, mode) => BeginRecordKeeps(s.db.records[c], mode, history); SimpleGood(s.db, c, rec);
    case EnterTranscribing(id) => TranscribingKeeps(s.db.records[c], s.runs[id], history); SimpleGood(s.db, c, rec);
    case EnterAnalyzing(id, _) => AnalyzingKeeps(s.db.records[c], s.runs[id], history); SimpleGood(s.db, c, rec);
  }

  lemma {:induction false} FailureOutcomeGood(env: Env, s: System, step: Step)
    requires Inv(s) && Outcome(env, s, step).Some?
    requires step.FailBegin? || step.FailRun?
    ensures GoodOutcome(s.db, Outcome(env, s, step).value)
  {
    var (c, rec, added) := Outcome(env, s, step).value;
    assert RecordOk(s.db, c);
    FailedRecordKeeps(env, s.db.records[c], if step.FailRun? then step.stage else QueuedStage, step.e, step.draw,
                      R.Of(s.db.log, c));
    SimpleGood(s.db, c, rec);
  }

  /** Whether the last transaction of a run in flight commits. */
  ghost predicate CanFinish(s: System, id: nat, refined: RoleAssignment, raw: E.Analysis) {
    id in s.runs && s.runs[id].call in s.db.records && E.WellShaped(raw)
    && Obstacle(s.db.records[s.runs[id].call], s.runs[id], refined).None?
  }

  lemma {:induction false} FinishCommitsExactly(env: Env, s: System, step: Step)
    requires step.FinishRun?
    ensures Outcome(env, s, step).Some? <==> CanFinish(s, step.id, step.refined, step.raw)
  {
  }

  lemma {:induction false} PublishingGood(db: Store, c: nat, rec: Record, added: seq<R.Publication>)
    requires c in db.records && RecordInv(rec, R.Of(db.log, c) + added) && RecordGrows(db.records[c], rec)
    requires |added| <= 1
    requires added != [] ==> added[0].call == c && (added[0].kind == R.ByPolicy ==> 50 <= |R.HumanPublished(db.log)|)
    ensures GoodOutcome(db, (c, rec, added))
  {
  }

  lemma {:induction false} FinishGood(env: Env, s: System, id: nat, refined: RoleAssignment, raw: E.Analysis)
    requires Inv(s) && FinishOutcome(env, s, id, refined, raw).Some?
    ensures GoodOutcome(s.db, FinishOutcome(env, s, id, refined, raw).value)
  {
    var run := s.runs[id];
    assert RecordOk(s.db, run.call);
    FinishRecordKeeps(env, s.db.records[run.call], s.db.log, run, refined, raw, R.Of(s.db.log, run.call));
    var (rec, added) := FinishRecord(env, s.db.records[run.call], s.db.log, run, refined, raw).value;
    PublishingGood(s.db, run.call, rec, added);
  }

  lemma {:induction false} FinishOutcomeGood(env: Env, s: System, step: Step)
    requires Inv(s) && step.FinishRun? && Outcome(env, s, step).Some?
    ensures GoodOutcome(s.db, Outcome(env, s, step).value)
  {
    OutcomeOfFinish(env, s, step);
    FinishGood(env, s, step.id, step.refined, step.raw);
  }

  lemma {:induction false} HumanOutcomeGood(env: Env, s: System, step: Step)
    requires Inv(s) && Outcome(env, s, step).Some?
    requires step.CreateCall? || step.EditSegment? || step.AssignSpeakers?
    ensures GoodOutcome(s.db, Outcome(env, s, step).value)
  {
    var (c, rec, added) := Outcome(env, s, step).value;
    var history := R.Of(s.db.log, c);
    assert RecordOk(s.db, c);
    match step
    case CreateCall(_, seller) => NewRecordInv(seller); NoPublications(s.db.log, c);
    case EditSegment(_, p, content, role, reanalyze) =>
      EditRecordKeeps(env, s.db.records[c], p, content, role, reanalyze, history);
      SimpleGood(s.db, c, rec);
    case AssignSpeakers(_, assignments, reanalyze) =>
      RolesRecordKeeps(s.db.records[c], assignments, reanalyze, history);
      SimpleGood(s.db, c, rec);
  }

  lemma {:induction false} EndpointOutcomeGood(env: Env, s: System, step: Step)
    requires Inv(s) && Outcome(env, s, step).Some?
    requires step.TakeSnapshot? || step.OperateOn? || step.QueueAnalysis?
    ensures GoodOutcome(s.db, Outcome(env, s, step).value)
  {
    var (c, rec, added) := Outcome(env, s, step).value;
    var history := R.Of(s.db.log, c);
    assert RecordOk(s.db, c);
    match step
    case TakeSnapshot(_) => SnapshotRecordKeeps(s.db.records[c], history); SimpleGood(s.db, c, rec);
    case OperateOn(_, operation) =>
      OperateKeeps(s.db.records[c].progress, operation);
      ProgressOnly(s.db.records[c], rec.progress, history);
      SimpleGood(s.db, c, rec);
    case QueueAnalysis(_) => ProgressOnly(s.db.records[c], rec.progress, history); SimpleGood(s.db, c, rec);
  }

  lemma {:induction false} ReviewOutcomeGood(env: Env, s: System, step: Step)
    requires Inv(s) && Outcome(env, s, step).Some? && step.Review?
    ensures GoodOutcome(s.db, Outcome(env, s, step).value)
  {
    var c := step.call;
    assert RecordOk(s.db, c);
    ReviewedRecordKeeps(s.db.records[c], c, step.review, step.action, step.actor, step.assignee, step.eligible,
                        step.note, R.Of(s.db.log, c));
  }

  lemma {:induction false} OutcomeGood(env: Env, s: System, step: Step)
    requires Inv(s) && Outcome(env, s, step).Some?
    ensures GoodOutcome(s.db, Outcome(env, s, step).value)
  {
    match step
    case FinishRun(_, _, _) => FinishOutcomeGood(env, s, step);
    case Review(_, _, _, _, _, _, _) => ReviewOutcomeGood(env, s, step);
    case BeginRun(_, _, _) => WorkerOutcomeGood(env, s, step);
    case FailBegin(_, _, _) => FailureOutcomeGood(env, s, step);
    case EnterTranscribing(_) => WorkerOutcomeGood(env, s, step);
    case EnterAnalyzing(_, _) => WorkerOutcomeGood(env, s, step);
    case FailRun(_, _, _, _) => FailureOutcomeGood(env, s, step);
    case TakeSnapshot(_) => EndpointOutcomeGood(env, s, step);
    case OperateOn(_, _) => EndpointOutcomeGood(env, s, step);
    case QueueAnalysis(_) => EndpointOutcomeGood(env, s, step);
    case _ => HumanOutcomeGood(env, s, step);
  }

  ghost predicate RunsInv(runs: map<nat, Run>, db: Store) {
    forall id :: id in runs ==> runs[id].call in db.records && RunInv(runs[id])
  }

  /** A step that leaves every run as it is, or drops one. */
  predicate KeepsRuns(step: Step) {
    !step.BeginRun? && !step.EnterTranscribing? && !step.EnterAnalyzing?
  }

  lemma {:induction false} RunsShrink(s: System, step: Step, committed: bool)
    requires RunsInv(s.runs, s.db) && (!committed || KeepsRuns(step))
    ensures RunsInv(RunsAfter(s, step, committed), s.db)
  {
  }

  lemma {:induction false} RunsAdvance(env: Env, s: System, step: Step)
    requires RunsInv(s.runs, s.db) && Outcome(env, s, step).Some? && !KeepsRuns(step)
    ensures RunsInv(RunsAfter(s, step, true), s.db)
  {
    match step
    case BeginRun(id, c, mode) => RunAdded(s.runs, s.db, id, StartedRun(s.db.records[c], c, mode));
    case EnterTranscribing(id) => RunAdded(s.runs, s.db, id, s.runs[id].(status := Transcribing));
    case EnterAnalyzing(id, items) => RunAdded(s.runs, s.db, id, s.runs[id].(status := Analyzing, items := items));
  }

  lemma {:induction false} RunAdded(runs: map<nat, Run>, db: Store, id: nat, run: Run)
    requires RunsInv(runs, db) && run.call in db.records && RunInv(run)
    ensures RunsInv(runs[id := run], db)
  {
  }

  lemma {:induction false} RunsKept(env: Env, s: System, step: Step)
    requires RunsInv(s.runs, s.db)
    ensures RunsInv(Next(env, s, step).runs, Next(env, s, step).db)
  {
    var outcome := Outcome(env, s, step);
    if outcome.Some? && !KeepsRuns(step) {
      RunsAdvance(env, s, step);
    } else {
      RunsShrink(s, step, outcome.Some?);
    }
    if outcome.Some? {
      MoreRecords(RunsAfter(s, step, true), s.db, Next(env, s, step).db);
    }
  }

  lemma {:induction false} MoreRecords(runs: map<nat, Run>, db: Store, db': Store)
    requires RunsInv(runs, db) && forall c :: c in db.records ==> c in db'.records
    ensures RunsInv(runs, db')
  {
  }

  /** Every step keeps the invariant. */
  lemma {:induction false} StepKeeps(env: Env, s: System, step: Step)
    requires Inv(s)
    ensures Inv(Next(env, s, step))
  {
    RunsKept(env, s, step);
    if Outcome(env, s, step).Some? {
      OutcomeGood(env, s, step);
      GoodCommit(s.db, Outcome(env, s, step).value);
    }
  }

  /** It holds after every run of steps. */
  lemma {:induction false} ReachableInv(env: Env, s: System, steps: seq<Step>)
    requires Inv(s)
    ensures Inv(Exec(env, s, steps))
  {
    if steps == [] {
    } else {
      ReachableInv(env, s, steps[..|steps| - 1]);
      StepKeeps(env, Exec(env, s, steps[..|steps| - 1]), steps[|steps| - 1]);
    }
  }

  lemma {:induction false} EmptyInv()
    ensures Inv(EMPTY)
  {
  }

  // ---------- what no run undoes ----------

  ghost predicate DbGrows(db: Store, db': Store) {
    && db.log <= db'.log
    && forall c :: c in db.records ==> c in db'.records && RecordGrows(db.records[c], db'.records[c])
  }

  lemma {:induction false} StepGrows(env: Env, s: System, step: Step)
    requires Inv(s)
    ensures DbGrows(s.db, Next(env, s, step).db)
  {
    forall c | c in s.db.records ensures RecordGrows(s.db.records[c], s.db.records[c]) {
      GrowsReflexive(s.db.records[c]);
    }
    if Outcome(env, s, step).Some? {
      OutcomeGood(env, s, step);
    }
  }

  /** From any point of a run to any later one the log and every call only grow: no transcript
      version changes, no correction is lost, no superseded version comes back. */
  lemma {:induction false} RunGrows(env: Env, s: System, steps: seq<Step>)
    requires Inv(s)
    ensures DbGrows(s.db, Exec(env, s, steps).db)
  {
    if steps == [] {
      forall c | c in s.db.records ensures RecordGrows(s.db.records[c], s.db.records[c]) {
        GrowsReflexive(s.db.records[c]);
      }
    } else {
      var init := steps[..|steps| - 1];
      RunGrows(env, s, init);
      ReachableInv(env, s, init);
      var middle := Exec(env, s, init);
      StepGrows(env, middle, steps[|steps| - 1]);
      var after := Exec(env, s, steps);
      forall c | c in s.db.records ensures c in after.db.records && RecordGrows(s.db.records[c], after.db.records[c]) {
        GrowsTransitive(s.db.records[c], middle.db.records[c], after.db.records[c]);
      }
    }
  }

  /** A run can be cut anywhere. */
  lemma {:induction false} ExecConcat(env: Env, s: System, a: seq<Step>, b: seq<Step>)
    ensures Exec(env, s, a + b) == Exec(env, Exec(env, s, a), b)
    decreases |b|
  {
    if b == [] {
      assert a + b == a;
    } else {
      assert (a + b)[..|a + b| - 1] == a + b[..|b| - 1];
      ExecConcat(env, s, a, b[..|b| - 1]);
    }
  }

  // ---------- the main statements, over every run from an empty database ----------

  ghost function Reach(env: Env, steps: seq<Step>): Store {
    Exec(env, EMPTY, steps).db
  }

  lemma {:induction false} ReachInv(env: Env, steps: seq<Step>)
    ensures DbInv(Reach(env, steps))
  {
    EmptyInv();
    ReachableInv(env, EMPTY, steps);
  }

  /** Publication: the pointer is the version of the call's last publication, and that version
      is published or policy-approved. */
  lemma {:induction false} PublishedPointer(env: Env, steps: seq<Step>, c: nat)
    requires c in Reach(env, steps).records
    ensures var db := Reach(env, steps);
            var r, history := db.records[c].reviews, R.Of(db.log, c);
            && (r.published.Some? <==> history != [])
            && (r.published.Some? ==>
                  && r.published.value == history[|history| - 1].version < |r.versions|
                  && r.versions[r.published.value].status in {R.Published, R.PolicyApproved})
  {
    ReachInv(env, steps);
    var db := Reach(env, steps);
    assert RecordOk(db, c);
    R.PointerIsLastPublication(db.records[c].reviews, db.records[c].seller, R.Of(db.log, c));
  }

  /** At most one version of a call is published exactly when at most one of its human
      publications was not directly followed by another one. */
  lemma {:induction false} AtMostOnePublished(env: Env, steps: seq<Step>, c: nat)
    requires c in Reach(env, steps).records
    ensures R.AtMostOnePublished(Reach(env, steps).records[c].reviews)
            <==> R.AtMostOneStands(R.Of(Reach(env, steps).log, c))
  {
    ReachInv(env, steps);
    var db := Reach(env, steps);
    assert RecordOk(db, c);
    R.AtMostOneExactly(db.records[c].reviews, db.records[c].seller, R.Of(db.log, c));
  }

  /** Without policy approvals of the call, the published version is the one pointed to. */
  lemma {:induction false} PublishedWithoutPolicy(env: Env, steps: seq<Step>, c: nat, k: nat)
    requires c in Reach(env, steps).records && k < |Reach(env, steps).records[c].reviews.versions|
    requires forall i :: 0 <= i < |Reach(env, steps).log| && Reach(env, steps).log[i].call == c ==>
             Reach(env, steps).log[i].kind == R.ByHuman
    ensures var r := Reach(env, steps).records[c].reviews;
            r.versions[k].status == R.Published <==> r.published == Some(k)
  {
    ReachInv(env, steps);
    var db := Reach(env, steps);
    assert RecordOk(db, c);
    OnlyHumans(db.log, c);
    R.WithoutPolicyOnlyPointer(db.records[c].reviews, db.records[c].seller, R.Of(db.log, c), k);
  }

  lemma {:induction false} OnlyHumans(log: seq<R.Publication>, c: nat)
    requires forall i :: 0 <= i < |log| && log[i].call == c ==> log[i].kind == R.ByHuman
    ensures forall i :: 0 <= i < |R.Of(log, c)| ==> R.Of(log, c)[i].kind == R.ByHuman
  {
    if log == [] {
    } else {
      var init := log[..|log| - 1];
      assert forall i :: 0 <= i < |init| ==> init[i] == log[i];
      OnlyHumans(init, c);
    }
  }

  /** A superseded version stays superseded. */
  lemma {:induction false} SupersededForever(env: Env, before: seq<Step>, more: seq<Step>, c: nat, k: nat)
    requires c in Reach(env, before).records && k < |Reach(env, before).records[c].reviews.versions|
    requires Reach(env, before).records[c].reviews.versions[k].status == R.Superseded
    ensures c in Reach(env, before + more).records
    ensures k < |Reach(env, before + more).records[c].reviews.versions|
    ensures Reach(env, before + more).records[c].reviews.versions[k].status == R.Superseded
  {
    EmptyInv();
    ReachableInv(env, EMPTY, before);
    ExecConcat(env, EMPTY, before, more);
    RunGrows(env, Exec(env, EMPTY, before), more);
  }

  /** Once a review is rejected, its case and its version never change again, and no publication of
      the call ever names the version. */
  lemma {:induction false} RejectedForever(
      env: Env, before: seq<Step>, more: seq<Step>, c: nat, k: nat, i: nat)
    requires c in Reach(env, before).records && k < |Reach(env, before).records[c].reviews.cases|
    requires i < |Reach(env, before).records[c].reviews.cases[k].events|
    requires Reach(env, before).records[c].reviews.cases[k].events[i].action == R.Reject
    ensures var db := Reach(env, before + more);
            && c in db.records
            && k < |db.records[c].reviews.cases| == |db.records[c].reviews.versions|
            && db.records[c].reviews.cases[k].events == Reach(env, before).records[c].reviews.cases[k].events
            && db.records[c].reviews.cases[k].status == db.records[c].reviews.versions[k].status == R.Rejected
            && db.records[c].reviews.published != Some(k)
            && forall j :: 0 <= j < |db.log| && db.log[j].call == c ==> db.log[j].version != k
  {
    EmptyInv();
    ReachableInv(env, EMPTY, before);
    ReachInv(env, before);
    ReachInv(env, before + more);
    ExecConcat(env, EMPTY, before, more);
    RunGrows(env, Exec(env, EMPTY, before), more);
    var db := Reach(env, before + more);
    var r0, r := Reach(env, before).records[c].reviews, db.records[c].reviews;
    assert RecordOk(db, c) && RecordOk(Reach(env, before), c);
    R.RejectedNeverPublished(r0, db.records[c].seller, R.Of(Reach(env, before).log, c), k, i);
    assert r.cases[k].events[i] == r0.cases[k].events[i];
    R.RejectedNeverPublished(r, db.records[c].seller, R.Of(db.log, c), k, i);
    forall j | 0 <= j < |db.log| && db.log[j].call == c ensures db.log[j].version != k {
      R.InOf(db.log, c, j);
    }
  }

  /** Snapshots: after the first one the latest version holds the live rows, and no version that
      exists at some point of the run is different at a later one. */
  lemma {:induction false} SnapshotsFaithfulAndImmutable(env: Env, before: seq<Step>, more: seq<Step>, c: nat)
    requires c in Reach(env, before).records
    ensures var t := Reach(env, before).records[c].text;
            && (t.versions != [] ==>
                  && t.latest == Some(|t.versions| - 1)
                  && T.Mirrors(t.versions[|t.versions| - 1].rows, t.segments))
            && c in Reach(env, before + more).records
            && t.versions <= Reach(env, before + more).records[c].text.versions
  {
    ReachInv(env, before);
    assert RecordOk(Reach(env, before), c);
    EmptyInv();
    ReachableInv(env, EMPTY, before);
    ExecConcat(env, EMPTY, before, more);
    RunGrows(env, Exec(env, EMPTY, before), more);
  }

  /** Corrections: a corrected row is never deleted, and at every point it holds the content
      and the role its last human edit set. */
  lemma {:induction false} CorrectionsSurvive(env: Env, before: seq<Step>, more: seq<Step>, c: nat, p: nat)
    requires c in Reach(env, before).records
    requires p in Reach(env, before).records[c].text.segments
             && Reach(env, before).records[c].text.segments[p].corrected
    ensures c in Reach(env, before + more).records
    ensures var t := Reach(env, before + more).records[c].text;
            var last := T.LastCorrection(t.corrections, p);
            && p in t.segments && t.segments[p].corrected
            && last.Some? && t.segments[p].content == last.value.content && t.segments[p].role == last.value.role
  {
    EmptyInv();
    ReachableInv(env, EMPTY, before);
    ExecConcat(env, EMPTY, before, more);
    RunGrows(env, Exec(env, EMPTY, before), more);
    ReachInv(env, before + more);
    assert RecordOk(Reach(env, before + more), c);
    var t := Reach(env, before + more).records[c].text;
    assert T.Follows(t.segments[p], T.LastCorrection(t.corrections, p));
  }

  /** Reviews: the events of every case replay to its status; a publication directly follows an
      approval and ends the case, and neither was made by the call's seller. */
  lemma {:induction false} ReviewsReplay(env: Env, steps: seq<Step>, c: nat, k: nat, i: nat)
    requires c in Reach(env, steps).records && k < |Reach(env, steps).records[c].reviews.cases|
    requires i < |Reach(env, steps).records[c].reviews.cases[k].events|
    ensures var rec := Reach(env, steps).records[c];
            var review := rec.reviews.cases[k];
            && R.Replays(review.events, if review.required then R.QueuedForReview else R.PolicyApproved, review.status)
            && (review.events[i].action == R.Publish ==>
                  && i == |review.events| - 1 && i > 0 && review.events[i - 1].action == R.Approve
                  && rec.seller != Some(review.events[i].actor) && rec.seller != Some(review.events[i - 1].actor))
  {
    ReachInv(env, steps);
    var db := Reach(env, steps);
    assert RecordOk(db, c);
    var r := db.records[c].reviews;
    assert R.RowInv(r.versions[k], r.cases[k], k, db.records[c].seller, R.StatusAfter(R.Of(db.log, c), k));
    if r.cases[k].events[i].action == R.Publish {
      R.PublishFollowsApprove(r.cases[k].events, if r.cases[k].required then R.QueuedForReview else R.PolicyApproved,
                              r.cases[k].status, i);
    }
  }

  /** In every reachable state the reviewed pointer names a version that is not superseded, and that
      is approved or published exactly when its approval was not withdrawn. */
  lemma {:induction false} ReviewedPointer(env: Env, steps: seq<Step>, c: nat)
    requires c in Reach(env, steps).records && Reach(env, steps).records[c].reviews.reviewed.Some?
    ensures var r := Reach(env, steps).records[c].reviews;
            var v := r.reviewed.value;
            && v < |r.versions| == |r.cases| && r.versions[v].status != R.Superseded
            && (r.versions[v].status in {R.Approved, R.Published, R.PolicyApproved} <==>
                  !R.Withdrawn(r.cases[v].events))
  {
    ReachInv(env, steps);
    var db := Reach(env, steps);
    assert RecordOk(db, c);
    R.ReviewedExactly(db.records[c].reviews, db.records[c].seller, R.Of(db.log, c));
  }

  /** Every version is published at most once. */
  lemma {:induction false} PublishedOnce(env: Env, steps: seq<Step>, c: nat)
    requires c in Reach(env, steps).records
    ensures R.DistinctVersions(R.Of(Reach(env, steps).log, c))
  {
    ReachInv(env, steps);
    assert RecordOk(Reach(env, steps), c);
  }

  /** The pilot rule: every policy publication in the log comes after human publications of at
      least 50 distinct calls. */
  lemma {:induction false} PolicyWaitsForPilot(env: Env, steps: seq<Step>, i: nat)
    requires i < |Reach(env, steps).log| && Reach(env, steps).log[i].kind == R.ByPolicy
    ensures |R.HumanPublished(Reach(env, steps).log[..i])| >= 50
  {
    ReachInv(env, steps);
  }

  /** The statuses between two commits of a run are never committed; every recorded step is one
      of the state machine, or the exception handler's; of a call's events only the newest can be
      open, and not when it records an outcome. A call under way has an open event, the step into
      its status; a failed or rescheduled call has none. */
  lemma {:induction false} CommittedProgress(env: Env, steps: seq<Step>, c: nat)
    requires c in Reach(env, steps).records
    ensures var p := Reach(env, steps).records[c].progress;
            && p.status !in {AssigningRoles, Validating, CreatingFollowups}
            && Committable(p.status)
            && (forall i :: 0 <= i < |p.events| ==> Legal(p.events[i].before, p.events[i].target))
            && (forall i, j :: 0 <= i < |p.events| && 0 <= j < |p.events| && p.events[i].open && p.events[j].open ==>
                i == j)
            && (EndsRun(p.events) ==> forall i :: 0 <= i < |p.events| ==> !p.events[i].open)
            && (p.status in {Failed, RetryScheduled} ==> forall i :: 0 <= i < |p.events| ==> !p.events[i].open)
            && (p.status in {Preprocessing, Transcribing, Analyzing} ==>
                  HasOpen(p.events) && p.events[|p.events| - 1].target == p.status)
  {
    ReachInv(env, steps);
    assert RecordOk(Reach(env, steps), c);
    EventsRead(Reach(env, steps).records[c].progress);
  }

  // ---------- the retry budget over a run ----------

  /** The committed handler invocation for call `c` in a step, if there is one. */
  ghost function FaultOf(env: Env, s: System, step: Step, c: nat): Option<Fault> {
    if Outcome(env, s, step).None? then None
    else if step.FailBegin? && step.call == c then Some(Fault(Classify(step.e, QueuedStage), step.draw))
    else if step.FailRun? && s.runs[step.id].call == c then Some(Fault(Classify(step.e, step.stage), step.draw))
    else None
  }

  /** A step that resets the call's retry counter: a successful run or a full reprocessing. */
  ghost predicate Resets(env: Env, s: System, step: Step, c: nat) {
    Outcome(env, s, step).Some? &&
    ((step.FinishRun? && s.runs[step.id].call == c)
     || (step.OperateOn? && step.call == c && step.operation == FullReprocess))
  }

  ghost predicate NoReset(env: Env, s: System, steps: seq<Step>, c: nat) {
    steps == [] || (NoReset(env, s, steps[..|steps| - 1], c)
                    && !Resets(env, Exec(env, s, steps[..|steps| - 1]), steps[|steps| - 1], c))
  }

  ghost function Faults(env: Env, s: System, steps: seq<Step>, c: nat): seq<Fault> {
    if steps == [] then []
    else
      var fault := FaultOf(env, Exec(env, s, steps[..|steps| - 1]), steps[|steps| - 1], c);
      Faults(env, s, steps[..|steps| - 1], c) + if fault.Some? then [fault.value] else []
  }

  /** The delays the handler wrote into the call, in order. */
  ghost function Scheduled(env: Env, s: System, steps: seq<Step>, c: nat): seq<int> {
    if steps == [] then []
    else
      var before, last := Exec(env, s, steps[..|steps| - 1]), steps[|steps| - 1];
      var after := Next(env, before, last).db;
      Scheduled(env, s, steps[..|steps| - 1], c) +
      if FaultOf(env, before, last, c).Some? && c in after.records && after.records[c].progress.nextRetry.Some?
      then [after.records[c].progress.nextRetry.value] else []
  }

  lemma {:induction false} DelaysSnoc(policy: RetryPolicy, count: nat, faults: seq<Fault>, f: Fault)
    ensures Delays(policy, count, faults + [f]) ==
            Delays(policy, count, faults) +
            (var decision := Decide(policy, f.descriptor, count + |faults|, f.draw);
             if decision.Some? then [decision.value] else [])
    decreases |faults|
  {
    if faults == [] {
      assert [f][1..] == [];
    } else {
      assert (faults + [f])[1..] == faults[1..] + [f];
      DelaysSnoc(policy, count + 1, faults[1..], f);
    }
  }

  /** One step: the counter counts the handler invocations, and each writes its own decision. */
  lemma {:induction false} CounterStep(env: Env, s: System, step: Step, c: nat)
    requires Inv(s) && c in s.db.records && !Resets(env, s, step, c)
    ensures var s' := Next(env, s, step);
            var fault := FaultOf(env, s, step, c);
            && c in s'.db.records
            && s'.db.records[c].progress.retryCount == s.db.records[c].progress.retryCount
                + (if fault.Some? then 1 else 0)
            && (fault.Some? ==> s'.db.records[c].progress.nextRetry ==
                                Decide(env.policy, fault.value.descriptor, s.db.records[c].progress.retryCount,
                                       fault.value.draw))
  {
    if Outcome(env, s, step).Some? && Outcome(env, s, step).value.0 == c {
      CounterOfOutcome(env, s, step, c);
    }
  }

  lemma {:induction false} CounterOfOutcome(env: Env, s: System, step: Step, c: nat)
    requires c in s.db.records && !Resets(env, s, step, c)
    requires Outcome(env, s, step).Some? && Outcome(env, s, step).value.0 == c
    ensures var fault := FaultOf(env, s, step, c);
            var p, p' := s.db.records[c].progress, Outcome(env, s, step).value.1.progress;
            && p'.retryCount == p.retryCount + (if fault.Some? then 1 else 0)
            && (fault.Some? ==> p'.nextRetry == Decide(env.policy, fault.value.descriptor, p.retryCount,
                                                       fault.value.draw))
  {
  }

  lemma {:induction false} ScheduledAreDelays(env: Env, s: System, steps: seq<Step>, c: nat)
    requires Inv(s) && c in s.db.records && NoReset(env, s, steps, c)
    ensures c in Exec(env, s, steps).db.records
    ensures var p, p' := s.db.records[c].progress, Exec(env, s, steps).db.records[c].progress;
            && p'.retryCount == p.retryCount + |Faults(env, s, steps, c)|
            && Scheduled(env, s, steps, c) == Delays(env.policy, p.retryCount, Faults(env, s, steps, c))
  {
    if steps == [] {
    } else {
      var init, last := steps[..|steps| - 1], steps[|steps| - 1];
      ScheduledAreDelays(env, s, init, c);
      ReachableInv(env, s, init);
      var before := Exec(env, s, init);
      CounterStep(env, before, last, c);
      var fault := FaultOf(env, before, last, c);
      var faults, count := Faults(env, s, init, c), s.db.records[c].progress.retryCount;
      if fault.Some? {
        DelaysSnoc(env.policy, count, faults, fault.value);
      } else {
        assert faults + [] == faults;
      }
    }
  }

  ghost predicate DrawsInRange(steps: seq<Step>) {
    forall i :: 0 <= i < |steps| ==>
      && (steps[i].FailBegin? ==> 0.0 <= steps[i].draw <= 1.0)
      && (steps[i].FailRun? ==> 0.0 <= steps[i].draw <= 1.0)
  }

  lemma {:induction false} FaultDraws(env: Env, s: System, steps: seq<Step>, c: nat)
    requires DrawsInRange(steps)
    ensures forall k :: 0 <= k < |Faults(env, s, steps, c)| ==> 0.0 <= Faults(env, s, steps, c)[k].draw <= 1.0
  {
    if steps == [] {
    } else {
      var init := steps[..|steps| - 1];
      assert forall i :: 0 <= i < |init| ==> init[i] == steps[i];
      FaultDraws(env, s, init, c);
      assert steps[|steps| - 1] == steps[..][|steps| - 1];
    }
  }

  /** Between two resets of its counter a call is retried at most once per slot of the schedule, in
      their order, each time after at least a second and within the jitter band of the slot, and
      for no longer than the sum of the longest delays. */
  lemma {:induction false} RetriesBounded(env: Env, s: System, steps: seq<Step>, c: nat)
    requires Inv(s) && c in s.db.records && NoReset(env, s, steps, c)
    requires env.policy.Valid() && DrawsInRange(steps)
    ensures var delays, slots := Scheduled(env, s, steps, c), |env.policy.schedule|;
            var count := s.db.records[c].progress.retryCount;
            && (count <= slots ==> |delays| <= slots - count && Sum(delays) <= env.policy.CapSum(count, slots))
            && (count >= slots ==> delays == [])
            && (forall k :: 0 <= k < |delays| ==> delays[k] >= 1)
            && InBands(env.policy, delays, Slots(env.policy, count, Faults(env, s, steps, c)), count)
  {
    ScheduledAreDelays(env, s, steps, c);
    FaultDraws(env, s, steps, c);
    DelaysInBands(env.policy, s.db.records[c].progress.retryCount, Faults(env, s, steps, c));
    RetryBudget(env.policy, s.db.records[c].progress.retryCount, Faults(env, s, steps, c));
  }

  // ---------- a run that nobody else writes to ----------

  /** The call a step writes to when it commits. */
  ghost function Writes(env: Env, s: System, step: Step): Option<nat> {
    match Outcome(env, s, step)
    case None => None
    case Some(done) => Some(done.0)
  }

  predicate OwnStep(step: Step, id: nat) {
    match step
    case EnterTranscribing(i) => i == id
    case EnterAnalyzing(i, _) => i == id
    case FinishRun(i, _, _) => i == id
    case FailRun(i, _, _, _) => i == id
    case LoseRun(i) => i == id
    case _ => false
  }

  /** While the run is in flight, every other step writes to other calls. */
  ghost predicate Undisturbed(env: Env, s: System, steps: seq<Step>, id: nat) {
    if steps == [] then true
    else
      var before, last := Exec(env, s, steps[..|steps| - 1]), steps[|steps| - 1];
      && Undisturbed(env, s, steps[..|steps| - 1], id)
      && (id in before.runs && !OwnStep(last, id) ==> Writes(env, before, last) != Some(before.runs[id].call))
  }

  /** The run's own copy of the status is the committed one. */
  ghost predicate InStep(s: System, id: nat) {
    id in s.runs ==>
      && s.runs[id].call in s.db.records
      && s.db.records[s.runs[id].call].progress.status == s.runs[id].status
  }

  lemma {:induction false} StaysInStepOnce(env: Env, s: System, step: Step, id: nat)
    requires Inv(s) && id in s.runs && InStep(s, id)
    requires OwnStep(step, id) || Writes(env, s, step) != Some(s.runs[id].call)
    ensures InStep(Next(env, s, step), id)
  {
    if OwnStep(step, id) {
      OwnStepInStep(env, s, step, id);
    } else {
      OtherStepKeepsRun(env, s, step, id);
    }
  }

  lemma {:induction false} OtherStepKeepsRun(env: Env, s: System, step: Step, id: nat)
    requires id in s.runs && !OwnStep(step, id)
    ensures id in Next(env, s, step).runs && Next(env, s, step).runs[id] == s.runs[id]
  {
  }

  lemma {:induction false} OwnStepInStep(env: Env, s: System, step: Step, id: nat)
    requires Inv(s) && id in s.runs && InStep(s, id) && OwnStep(step, id)
    ensures InStep(Next(env, s, step), id)
  {
  }

  lemma {:induction false} StaysInStep(env: Env, s: System, steps: seq<Step>, id: nat)
    requires Inv(s) && id in s.runs && InStep(s, id) && Undisturbed(env, s, steps, id)
    requires id in Exec(env, s, steps).runs
    requires forall i :: 0 <= i < |steps| ==> !(steps[i].BeginRun? && steps[i].id == id)
    ensures InStep(Exec(env, s, steps), id)
  {
    if steps == [] {
    } else {
      var init, last := steps[..|steps| - 1], steps[|steps| - 1];
      assert forall i :: 0 <= i < |init| ==> init[i] == steps[i];
      var before := Exec(env, s, init);
      assert id in before.runs;
      StaysInStep(env, s, init, id);
      ReachableInv(env, s, init);
      StaysInStepOnce(env, before, last, id);
    }
  }

  // ---------- the steps a run records ----------

  /** The steps recorded in a call's events. */
  ghost function Recorded(db: Store, c: nat): seq<(CallStatus, CallStatus)>
    requires c in db.records
  {
    Pairs(db.records[c].progress.events)
  }

  /** The record of the run's call was `was` and its status `before` when the run started; it has
      grown by exactly the run's steps. */
  ghost predicate OnRoute(s: System, id: nat, was: seq<(CallStatus, CallStatus)>, before: CallStatus) {
    id in s.runs ==>
      var run := s.runs[id];
      run.call in s.db.records && Recorded(s.db, run.call) == was + Route(run.mode, before, run.status)
  }

  lemma {:induction false} BeginRecords(env: Env, s: System, begin: Step)
    requires begin.BeginRun? && begin.id !in s.runs && begin.id in Next(env, s, begin).runs
    ensures begin.call in s.db.records && Allowed(s.db.records[begin.call].progress.status, FirstStatus(begin.mode))
    ensures Next(env, s, begin).runs[begin.id] == StartedRun(s.db.records[begin.call], begin.call, begin.mode)
    ensures OnRoute(Next(env, s, begin), begin.id, Recorded(s.db, begin.call), s.db.records[begin.call].progress.status)
  {
    var p := s.db.records[begin.call].progress;
    EnterRecords(p.(errorCode := None, nextRetry := None), p.status, FirstStatus(begin.mode), p.retryCount + 1);
  }

  lemma {:induction false} TranscribingOnRoute(
      env: Env, s: System, id: nat, was: seq<(CallStatus, CallStatus)>, before: CallStatus)
    requires Inv(s) && id in s.runs && OnRoute(s, id, was, before)
    ensures OnRoute(Next(env, s, EnterTranscribing(id)), id, was, before)
  {
    var run := s.runs[id];
    assert RunInv(run);
    if run.status == Preprocessing {
      TranscribingRecords(s.db.records[run.call], run);
      assert was + Route(run.mode, before, Preprocessing) + [(Preprocessing, Transcribing)]
          == was + Route(run.mode, before, Transcribing);
    }
  }

  lemma {:induction false} AnalyzingOnRoute(
      env: Env, s: System, id: nat, items: seq<Item>, was: seq<(CallStatus, CallStatus)>, before: CallStatus)
    requires Inv(s) && id in s.runs && OnRoute(s, id, was, before)
    ensures OnRoute(Next(env, s, EnterAnalyzing(id, items)), id, was, before)
  {
    var run := s.runs[id];
    assert RunInv(run);
    if run.status == Transcribing {
      AnalyzingRecords(s.db.records[run.call], run);
      assert was + Route(run.mode, before, Transcribing) + [(Transcribing, AssigningRoles), (AssigningRoles, Analyzing)]
          == was + Route(run.mode, before, Analyzing);
    }
  }

  lemma {:induction false} StepOnRoute(
      env: Env, s: System, step: Step, id: nat, was: seq<(CallStatus, CallStatus)>, before: CallStatus)
    requires Inv(s) && id in s.runs && OnRoute(s, id, was, before)
    requires OwnStep(step, id) || Writes(env, s, step) != Some(s.runs[id].call)
    ensures OnRoute(Next(env, s, step), id, was, before)
  {
    if !OwnStep(step, id) {
      OtherStepKeepsRun(env, s, step, id);
    } else {
      match step
      case EnterTranscribing(_) => TranscribingOnRoute(env, s, id, was, before);
      case EnterAnalyzing(_, items) => AnalyzingOnRoute(env, s, id, items, was, before);
      case _ =>
    }
  }

  lemma {:induction false} StaysOnRoute(
      env: Env, s: System, steps: seq<Step>, id: nat, was: seq<(CallStatus, CallStatus)>, before: CallStatus)
    requires Inv(s) && id in s.runs && OnRoute(s, id, was, before) && Undisturbed(env, s, steps, id)
    requires id in Exec(env, s, steps).runs
    requires forall i :: 0 <= i < |steps| ==> !(steps[i].BeginRun? && steps[i].id == id)
    ensures OnRoute(Exec(env, s, steps), id, was, before)
  {
    if steps == [] {
    } else {
      var init, last := steps[..|steps| - 1], steps[|steps| - 1];
      assert forall i :: 0 <= i < |init| ==> init[i] == steps[i];
      assert id in Exec(env, s, init).runs;
      StaysOnRoute(env, s, init, id, was, before);
      ReachableInv(env, s, init);
      StepOnRoute(env, Exec(env, s, init), last, id, was, before);
    }
  }

  ghost predicate SameTask(s: System, s': System, id: nat) {
    id in s.runs && id in s'.runs ==> s'.runs[id].call == s.runs[id].call && s'.runs[id].mode == s.runs[id].mode
  }

  lemma {:induction false} StepSameTask(env: Env, s: System, step: Step, id: nat)
    requires !(step.BeginRun? && step.id == id)
    ensures SameTask(s, Next(env, s, step), id)
    ensures id in Next(env, s, step).runs ==> id in s.runs
  {
  }

  lemma {:induction false} StaysSameTask(env: Env, s: System, steps: seq<Step>, id: nat)
    requires forall i :: 0 <= i < |steps| ==> !(steps[i].BeginRun? && steps[i].id == id)
    ensures SameTask(s, Exec(env, s, steps), id)
    ensures id in Exec(env, s, steps).runs ==> id in s.runs
  {
    if steps == [] {
    } else {
      var init := steps[..|steps| - 1];
      assert forall i :: 0 <= i < |init| ==> init[i] == steps[i];
      StaysSameTask(env, s, init, id);
      StepSameTask(env, Exec(env, s, init), steps[|steps| - 1], id);
    }
  }

  /** From its start to any later point, with no other writer on its call, a run adds to the
      call's record exactly its own steps so far. */
  lemma {:induction false} RunRecordsItsSteps(env: Env, s: System, begin: Step, started: System, steps: seq<Step>)
    requires Inv(s) && begin.BeginRun? && begin.id !in s.runs && started == Next(env, s, begin)
    requires Undisturbed(env, started, steps, begin.id)
    requires forall i :: 0 <= i < |steps| ==> !(steps[i].BeginRun? && steps[i].id == begin.id)
    requires begin.id in Exec(env, started, steps).runs
    ensures begin.call in s.db.records && begin.call in Exec(env, started, steps).db.records
    ensures var before := s.db.records[begin.call].progress.status;
            var run := Exec(env, started, steps).runs[begin.id];
            && run.call == begin.call && run.mode == begin.mode
            && Allowed(before, FirstStatus(begin.mode))
            && Recorded(Exec(env, started, steps).db, begin.call)
               == Recorded(s.db, begin.call) + Route(begin.mode, before, run.status)
  {
    StepKeeps(env, s, begin);
    StaysSameTask(env, started, steps, begin.id);
    BeginRecords(env, s, begin);
    StaysOnRoute(env, started, steps, begin.id, Recorded(s.db, begin.call), s.db.records[begin.call].progress.status);
  }

  /** What the last commit of a run records, and the status it ends in. */
  lemma {:induction false} FinishOnRoute(env: Env, s: System, id: nat, refined: RoleAssignment, raw: E.Analysis)
    requires Inv(s) && CanFinish(s, id, refined, raw)
    ensures var c := s.runs[id].call;
            var after := Next(env, s, FinishRun(id, refined, raw)).db;
            && s.runs[id].status == Analyzing
            && c in after.records && after.records[c].progress.status in {ReviewNeeded, Completed}
            && Recorded(after, c) == Recorded(s.db, c) + LastSteps(after.records[c].progress.status)
  {
    var run := s.runs[id];
    assert RunInv(run);
    FinishRecordRecords(env, s.db.records[run.call], s.db.log, run, refined, raw);
    FinishNext(env, s, id, refined, raw);
  }

  lemma {:induction false} RouteClosed(
      env: Env, s: System, id: nat, refined: RoleAssignment, raw: E.Analysis, was: seq<(CallStatus, CallStatus)>,
      before: CallStatus)
    requires Inv(s) && CanFinish(s, id, refined, raw) && OnRoute(s, id, was, before)
    requires Allowed(before, FirstStatus(s.runs[id].mode))
    ensures var run, after := s.runs[id], Next(env, s, FinishRun(id, refined, raw)).db;
            && run.call in after.records
            && var final := after.records[run.call].progress.status;
            && final in {ReviewNeeded, Completed}
            && Recorded(after, run.call) == was + WholeRoute(run.mode, before, final)
            && Chain(WholeRoute(run.mode, before, final), before, final)
  {
    FinishOnRoute(env, s, id, refined, raw);
    var run, after := s.runs[id], Next(env, s, FinishRun(id, refined, raw)).db;
    var final := after.records[run.call].progress.status;
    WholeRouteChains(run.mode, before, final);
    StepsJoin(was, Route(run.mode, before, Analyzing), LastSteps(final), was + Route(run.mode, before, Analyzing));
  }

  /** A run that finishes, with no other writer on its call in between, has added its whole route
      to the call's record: from the status the call had to the one it is left with, each step
      where the one before ended, every step allowed by the state machine. */
  lemma {:induction false} FinishedRunRecordsItsRoute(
      env: Env, s: System, begin: Step, started: System, steps: seq<Step>, refined: RoleAssignment, raw: E.Analysis)
    requires Inv(s) && begin.BeginRun? && begin.id !in s.runs && started == Next(env, s, begin)
    requires Undisturbed(env, started, steps, begin.id)
    requires forall i :: 0 <= i < |steps| ==> !(steps[i].BeginRun? && steps[i].id == begin.id)
    requires CanFinish(Exec(env, started, steps), begin.id, refined, raw)
    ensures var after := Next(env, Exec(env, started, steps), FinishRun(begin.id, refined, raw)).db;
            && begin.call in s.db.records && begin.call in after.records
            && var before, final := s.db.records[begin.call].progress.status, after.records[begin.call].progress.status;
            && final in {ReviewNeeded, Completed}
            && Recorded(after, begin.call) == Recorded(s.db, begin.call) + WholeRoute(begin.mode, before, final)
            && Chain(WholeRoute(begin.mode, before, final), before, final)
  {
    RunRecordsItsSteps(env, s, begin, started, steps);
    StepKeeps(env, s, begin);
    ReachableInv(env, started, steps);
    RouteClosed(env, Exec(env, started, steps), begin.id, refined, raw,
                Recorded(s.db, begin.call), s.db.records[begin.call].progress.status);
  }

  // ---------- the steps a run records, whoever else writes ----------

  /** What a change of the database added to a call's record. */
  ghost function Added(db: Store, db': Store, c: nat): seq<(CallStatus, CallStatus)> {
    if c in db.records && c in db'.records && |Recorded(db, c)| <= |Recorded(db', c)|
    then Recorded(db', c)[|Recorded(db, c)|..] else []
  }

  /** What the run's own steps added, in order. */
  ghost function OwnPairs(env: Env, s: System, steps: seq<Step>, id: nat): seq<(CallStatus, CallStatus)> {
    if steps == [] then []
    else
      var before, last := Exec(env, s, steps[..|steps| - 1]), steps[|steps| - 1];
      OwnPairs(env, s, steps[..|steps| - 1], id)
      + if id in before.runs && OwnStep(last, id)
        then Added(before.db, Next(env, before, last).db, before.runs[id].call) else []
  }

  lemma {:induction false} AddedIs(db: Store, db': Store, c: nat, more: seq<(CallStatus, CallStatus)>)
    requires c in db.records && c in db'.records && Recorded(db', c) == Recorded(db, c) + more
    ensures Added(db, db', c) == more
  {
  }

  /** A step of the run that leaves it in flight continues its route. */
  lemma {:induction false} OwnStepContinues(env: Env, s: System, step: Step, id: nat, before: CallStatus)
    requires Inv(s) && id in s.runs && OwnStep(step, id) && id in Next(env, s, step).runs
    ensures var run, run' := s.runs[id], Next(env, s, step).runs[id];
            && run'.mode == run.mode
            && Route(run.mode, before, run.status) + Added(s.db, Next(env, s, step).db, run.call)
               == Route(run.mode, before, run'.status)
  {
    var c := s.runs[id].call;
    assert RunInv(s.runs[id]);
    if Outcome(env, s, step).None? {
      NothingAdded(env, s, step, c);
    } else {
      match step
      case EnterTranscribing(_) =>
        TranscribingAdds(env, s, id);
        RouteGoesOn(s.runs[id].mode, before);
      case EnterAnalyzing(_, items) =>
        AnalyzingAdds(env, s, id, items);
        RouteGoesOn(s.runs[id].mode, before);
      case _ =>
    }
  }

  lemma {:induction false} TranscribingAdds(env: Env, s: System, id: nat)
    requires Outcome(env, s, EnterTranscribing(id)).Some?
    ensures id in s.runs && s.runs[id].status == Preprocessing
    ensures Added(s.db, Next(env, s, EnterTranscribing(id)).db, s.runs[id].call) == [(Preprocessing, Transcribing)]
  {
    var c := s.runs[id].call;
    TranscribingRecords(s.db.records[c], s.runs[id]);
    AddedIs(s.db, Next(env, s, EnterTranscribing(id)).db, c, [(Preprocessing, Transcribing)]);
  }

  lemma {:induction false} AnalyzingAdds(env: Env, s: System, id: nat, items: seq<Item>)
    requires Outcome(env, s, EnterAnalyzing(id, items)).Some?
    ensures id in s.runs && s.runs[id].status == Transcribing
    ensures Added(s.db, Next(env, s, EnterAnalyzing(id, items)).db, s.runs[id].call)
            == [(Transcribing, AssigningRoles), (AssigningRoles, Analyzing)]
  {
    var c := s.runs[id].call;
    AnalyzingRecords(s.db.records[c], s.runs[id]);
    AddedIs(s.db, Next(env, s, EnterAnalyzing(id, items)).db, c,
            [(Transcribing, AssigningRoles), (AssigningRoles, Analyzing)]);
  }

  lemma {:induction false} NothingAdded(env: Env, s: System, step: Step, c: nat)
    requires Outcome(env, s, step).None?
    ensures Added(s.db, Next(env, s, step).db, c) == []
  {
  }

  lemma {:induction false} RouteContinues(env: Env, s: System, steps: seq<Step>, id: nat, before: CallStatus)
    requires Inv(s) && id in s.runs && id in Exec(env, s, steps).runs
    requires forall i :: 0 <= i < |steps| ==> !(steps[i].BeginRun? && steps[i].id == id)
    ensures var run, run' := s.runs[id], Exec(env, s, steps).runs[id];
            Route(run.mode, before, run.status) + OwnPairs(env, s, steps, id) == Route(run.mode, before, run'.status)
  {
    if steps == [] {
      var start := Route(s.runs[id].mode, before, s.runs[id].status);
      assert start + [] == start;
    } else {
      var init, last := steps[..|steps| - 1], steps[|steps| - 1];
      assert forall i :: 0 <= i < |init| ==> init[i] == steps[i];
      var middle := Exec(env, s, init);
      StepSameTask(env, middle, last, id);
      StaysSameTask(env, s, init, id);
      RouteContinues(env, s, init, id, before);
      ReachableInv(env, s, init);
      RouteOneMore(env, s, init, last, id, before);
    }
  }

  lemma {:induction false} RouteOneMore(env: Env, s: System, init: seq<Step>, last: Step, id: nat, before: CallStatus)
    requires Inv(Exec(env, s, init)) && id in s.runs && id in Exec(env, s, init).runs
    requires !(last.BeginRun? && last.id == id) && SameTask(s, Exec(env, s, init), id)
    requires id in Next(env, Exec(env, s, init), last).runs
    requires Route(s.runs[id].mode, before, s.runs[id].status) + OwnPairs(env, s, init, id)
             == Route(s.runs[id].mode, before, Exec(env, s, init).runs[id].status)
    ensures Route(s.runs[id].mode, before, s.runs[id].status) + OwnPairs(env, s, init + [last], id)
            == Route(s.runs[id].mode, before, Next(env, Exec(env, s, init), last).runs[id].status)
  {
    var middle := Exec(env, s, init);
    assert (init + [last])[..|init|] == init;
    var own := OwnPairs(env, s, init, id);
    if OwnStep(last, id) {
      OwnStepContinues(env, middle, last, id, before);
      StepsJoin(Route(s.runs[id].mode, before, s.runs[id].status), own,
                Added(middle.db, Next(env, middle, last).db, middle.runs[id].call),
                Route(s.runs[id].mode, before, middle.runs[id].status));
    } else {
      OtherStepKeepsRun(env, middle, last, id);
      assert own + [] == own;
    }
  }

  /** From its start to any later point, whoever else writes to its call, the steps a run has
      recorded lead from the status the call had to the run's own status: each where the one before
      ended, every step allowed by the state machine. */
  lemma {:induction false} RunChains(env: Env, s: System, begin: Step, started: System, steps: seq<Step>)
    requires Inv(s) && begin.BeginRun? && begin.id !in s.runs && started == Next(env, s, begin)
    requires forall i :: 0 <= i < |steps| ==> !(steps[i].BeginRun? && steps[i].id == begin.id)
    requires begin.id in Exec(env, started, steps).runs
    ensures begin.call in s.db.records
    ensures var before, run := s.db.records[begin.call].progress.status, Exec(env, started, steps).runs[begin.id];
            var taken := Added(s.db, started.db, begin.call) + OwnPairs(env, started, steps, begin.id);
            && taken == Route(begin.mode, before, run.status)
            && Chain(taken, before, run.status)
            && Allowed(before, FirstStatus(begin.mode)) && run.call == begin.call && run.mode == begin.mode
  {
    StepKeeps(env, s, begin);
    StaysSameTask(env, started, steps, begin.id);
    BeginRecords(env, s, begin);
    var before := s.db.records[begin.call].progress.status;
    AddedIs(s.db, started.db, begin.call, Route(begin.mode, before, FirstStatus(begin.mode)));
    RouteContinues(env, started, steps, begin.id, before);
    ReachableInv(env, started, steps);
    assert RunInv(Exec(env, started, steps).runs[begin.id]);
    RouteChainsTo(begin.mode, before, Exec(env, started, steps).runs[begin.id].status);
  }

  lemma {:induction false} FinishAdds(
      env: Env, started: System, steps: seq<Step>, id: nat, refined: RoleAssignment, raw: E.Analysis)
    requires Inv(Exec(env, started, steps)) && CanFinish(Exec(env, started, steps), id, refined, raw)
    ensures var at := Exec(env, started, steps);
            var after := Next(env, at, FinishRun(id, refined, raw)).db;
            && at.runs[id].status == Analyzing && at.runs[id].call in after.records
            && after.records[at.runs[id].call].progress.status in {ReviewNeeded, Completed}
            && OwnPairs(env, started, steps + [FinishRun(id, refined, raw)], id)
               == OwnPairs(env, started, steps, id) + LastSteps(after.records[at.runs[id].call].progress.status)
  {
    var at, finish := Exec(env, started, steps), FinishRun(id, refined, raw);
    var c, after := at.runs[id].call, Next(env, at, finish).db;
    FinishOnRoute(env, at, id, refined, raw);
    AddedIs(at.db, after, c, LastSteps(after.records[c].progress.status));
    assert (steps + [finish])[..|steps|] == steps;
  }

  /** A run that finishes has recorded the whole route, up to the status its last commit leaves. */
  lemma {:induction false} FinishedRunChains(
      env: Env, s: System, begin: Step, started: System, steps: seq<Step>, refined: RoleAssignment, raw: E.Analysis)
    requires Inv(s) && begin.BeginRun? && begin.id !in s.runs && started == Next(env, s, begin)
    requires forall i :: 0 <= i < |steps| ==> !(steps[i].BeginRun? && steps[i].id == begin.id)
    requires CanFinish(Exec(env, started, steps), begin.id, refined, raw)
    ensures var after := Next(env, Exec(env, started, steps), FinishRun(begin.id, refined, raw)).db;
            && begin.call in s.db.records && begin.call in after.records
            && var before, final := s.db.records[begin.call].progress.status, after.records[begin.call].progress.status;
            var taken := Added(s.db, started.db, begin.call)
                         + OwnPairs(env, started, steps + [FinishRun(begin.id, refined, raw)], begin.id);
            && final in {ReviewNeeded, Completed}
            && taken == WholeRoute(begin.mode, before, final) && Chain(taken, before, final)
  {
    RunChains(env, s, begin, started, steps);
    StepKeeps(env, s, begin);
    ReachableInv(env, started, steps);
    FinishAdds(env, started, steps, begin.id, refined, raw);
    var after := Next(env, Exec(env, started, steps), FinishRun(begin.id, refined, raw)).db;
    RouteEnds(begin.mode, s.db.records[begin.call].progress.status, after.records[begin.call].progress.status,
              Added(s.db, started.db, begin.call), OwnPairs(env, started, steps, begin.id));
  }

  lemma {:induction false} RouteEnds(
      mode: Mode, before: CallStatus, final: CallStatus,
      start: seq<(CallStatus, CallStatus)>, own: seq<(CallStatus, CallStatus)>)
    requires Allowed(before, FirstStatus(mode)) && final in {ReviewNeeded, Completed}
    requires start + own == Route(mode, before, Analyzing)
    ensures start + (own + LastSteps(final)) == WholeRoute(mode, before, final)
    ensures Chain(start + (own + LastSteps(final)), before, final)
  {
    StepsJoin(start, own, LastSteps(final), Route(mode, before, Analyzing));
    WholeRouteChains(mode, before, final);
  }

  // ---------- open events ----------

  /** The endpoints that set a call's status. */
  predicate EndpointStep(step: Step) {
    || step.EditSegment? || step.AssignSpeakers? || step.QueueAnalysis? || step.Review?
    || (step.OperateOn? && step.operation != ResolveErrors)
  }

  /** The review action completes the call. */
  ghost predicate CompletesCall(s: System, step: Step)
    requires step.Review?
  {
    step.call in s.db.records &&
    match R.PerformReviewAction(s.db.records[step.call].reviews, step.call, s.db.records[step.call].seller, step.review,
                                step.action, step.actor, step.assignee, step.eligible, step.note)
    case Failure(_) => false
    case Success(t) => t.completes
  }

  /** The step sets the status of the call. */
  ghost predicate SetsStatus(env: Env, s: System, step: Step, c: nat) {
    && Writes(env, s, step) == Some(c) && !step.TakeSnapshot?
    && (step.OperateOn? ==> step.operation != ResolveErrors)
    && (step.Review? ==> CompletesCall(s, step))
  }

  /** The newest event was open when an endpoint set the call's status. */
  ghost predicate OpenWhenSet(env: Env, s: System, steps: seq<Step>, c: nat) {
    steps != [] &&
    var before, last := Exec(env, s, steps[..|steps| - 1]), steps[|steps| - 1];
    if SetsStatus(env, before, last, c) then
      EndpointStep(last) && c in before.db.records && HasOpen(before.db.records[c].progress.events)
    else OpenWhenSet(env, s, steps[..|steps| - 1], c)
  }

  ghost predicate SameStatusAndEvents(db: Store, db': Store, c: nat) {
    c in db'.records ==>
      && c in db.records && db'.records[c].progress.status == db.records[c].progress.status
      && db'.records[c].progress.events == db.records[c].progress.events
  }

  lemma {:induction false} StatusLeftAlone(env: Env, s: System, step: Step, c: nat)
    requires !SetsStatus(env, s, step, c)
    ensures SameStatusAndEvents(s.db, Next(env, s, step).db, c)
  {
  }

  lemma {:induction false} EndpointLeavesEvents(env: Env, s: System, step: Step, c: nat)
    requires SetsStatus(env, s, step, c) && EndpointStep(step)
    ensures c in s.db.records && c in Next(env, s, step).db.records
    ensures Next(env, s, step).db.records[c].progress.events == s.db.records[c].progress.events
  {
  }

  lemma {:induction false} WorkerLeaves(env: Env, s: System, step: Step, c: nat)
    requires Inv(s) && SetsStatus(env, s, step, c) && !EndpointStep(step)
    ensures c in Next(env, s, step).db.records
    ensures var p := Next(env, s, step).db.records[c].progress;
            p.status in {Preprocessing, Transcribing, Analyzing, Failed, RetryScheduled} || !HasOpen(p.events)
  {
    if step.FinishRun? {
      FinishLeavesNoneOpen(env, s, step.id, step.refined, step.raw);
    }
  }

  lemma {:induction false} FinishLeavesNoneOpen(env: Env, s: System, id: nat, refined: RoleAssignment, raw: E.Analysis)
    requires Inv(s) && Outcome(env, s, FinishRun(id, refined, raw)).Some?
    ensures id in s.runs && s.runs[id].call in Next(env, s, FinishRun(id, refined, raw)).db.records
    ensures !HasOpen(Next(env, s, FinishRun(id, refined, raw)).db.records[s.runs[id].call].progress.events)
  {
    FinishCommitsExactly(env, s, FinishRun(id, refined, raw));
    var run := s.runs[id];
    assert RecordOk(s.db, run.call);
    FinishRecordCloses(env, s.db.records[run.call], s.db.log, run, refined, raw);
    FinishNext(env, s, id, refined, raw);
  }

  lemma {:induction false} WorkerStepRecords(env: Env, s: System, step: Step, c: nat)
    requires Inv(s) && Writes(env, s, step) == Some(c)
    requires step.BeginRun? || step.EnterTranscribing? || step.EnterAnalyzing?
    ensures c in s.db.records && c in Next(env, s, step).db.records
    ensures Recorded(s.db, c) <= Recorded(Next(env, s, step).db, c)
  {
    match step
    case BeginRun(_, _, _) => BeginRecords(env, s, step);
    case EnterTranscribing(id) => TranscribingRecords(s.db.records[c], s.runs[id]);
    case EnterAnalyzing(id, _) => AnalyzingRecords(s.db.records[c], s.runs[id]);
  }

  lemma {:induction false} LastStepRecords(env: Env, s: System, step: Step, c: nat)
    requires Inv(s) && Writes(env, s, step) == Some(c)
    requires step.FinishRun? || step.FailBegin? || step.FailRun?
    ensures c in s.db.records && c in Next(env, s, step).db.records
    ensures Recorded(s.db, c) <= Recorded(Next(env, s, step).db, c)
  {
    match step
    case FinishRun(id, refined, raw) =>
      FinishCommitsExactly(env, s, step);
      FinishOnRoute(env, s, id, refined, raw);
    case FailBegin(_, e, draw) =>
      FailureRecords(s.db.records[c].progress, QueuedStage, Classify(e, QueuedStage), env.policy, draw);
    case FailRun(_, stage, e, draw) =>
      FailureRecords(s.db.records[c].progress, stage, Classify(e, stage), env.policy, draw);
  }

  lemma {:induction false} StepRecords(env: Env, s: System, step: Step, c: nat)
    requires Inv(s) && c in s.db.records
    ensures c in Next(env, s, step).db.records
    ensures Recorded(s.db, c) <= Recorded(Next(env, s, step).db, c)
  {
    if !SetsStatus(env, s, step, c) {
      StatusLeftAlone(env, s, step, c);
    } else if EndpointStep(step) {
      EndpointLeavesEvents(env, s, step, c);
    } else if step.FinishRun? || step.FailBegin? || step.FailRun? {
      LastStepRecords(env, s, step, c);
    } else {
      WorkerStepRecords(env, s, step, c);
    }
  }

  /** Recorded steps stay: whatever happens, a call's record is only added to. */
  lemma {:induction false} RecordOnlyGrows(env: Env, s: System, steps: seq<Step>, c: nat)
    requires Inv(s) && c in s.db.records
    ensures c in Exec(env, s, steps).db.records && Recorded(s.db, c) <= Recorded(Exec(env, s, steps).db, c)
  {
    if steps == [] {
    } else {
      var init := steps[..|steps| - 1];
      RecordOnlyGrows(env, s, init, c);
      ReachableInv(env, s, init);
      StepRecords(env, Exec(env, s, init), steps[|steps| - 1], c);
    }
  }

  /** A call that is queued, in review, completed or quarantined has an open event exactly when its
      newest event was open at the moment an endpoint set that status. */
  lemma {:induction false} OpenExactly(env: Env, steps: seq<Step>, c: nat)
    requires c in Reach(env, steps).records
    requires Reach(env, steps).records[c].progress.status in {Queued, ReviewNeeded, Completed, Quarantined}
    ensures var events := Reach(env, steps).records[c].progress.events;
            (exists i :: 0 <= i < |events| && events[i].open) <==> OpenWhenSet(env, EMPTY, steps, c)
  {
    OpenSince(env, steps, c);
    ReachInv(env, steps);
    assert RecordOk(Reach(env, steps), c);
    EventsRead(Reach(env, steps).records[c].progress);
  }

  lemma {:induction false} OpenSince(env: Env, steps: seq<Step>, c: nat)
    requires c in Reach(env, steps).records
    requires Reach(env, steps).records[c].progress.status in {Queued, ReviewNeeded, Completed, Quarantined}
    ensures HasOpen(Reach(env, steps).records[c].progress.events) <==> OpenWhenSet(env, EMPTY, steps, c)
  {
    if steps == [] {
    } else {
      var init, last := steps[..|steps| - 1], steps[|steps| - 1];
      var before := Exec(env, EMPTY, init);
      if !SetsStatus(env, before, last, c) {
        StatusLeftAlone(env, before, last, c);
        OpenSince(env, init, c);
      } else if EndpointStep(last) {
        EndpointLeavesEvents(env, before, last, c);
      } else {
        EmptyInv();
        ReachableInv(env, EMPTY, init);
        WorkerLeaves(env, before, last, c);
      }
    }
  }

  /** A call quarantined in the middle of a run: its open event stays open, and when the run fails
      afterwards the exception handler raises, so that nothing is recorded of the failure. */
  lemma {:induction false} QuarantinedWhileOpen(env: Env, stage: Stage, e: Exception, draw: real)
    ensures var s := Exec(env, EMPTY, [CreateCall(0, None), BeginRun(0, 0, Resume), OperateOn(0, Quarantine)]);
            && 0 in s.db.records && 0 in s.runs
            && s.db.records[0].progress.status == Quarantined && HasOpen(s.db.records[0].progress.events)
            && Outcome(env, s, FailRun(0, stage, e, draw)) == None
  {
    var create, begin, stop := CreateCall(0, None), BeginRun(0, 0, Resume), OperateOn(0, Quarantine);
    var s1, s2 := Next(env, EMPTY, create), Next(env, Next(env, EMPTY, create), begin);
    assert [create, begin, stop][..2] == [create, begin] && [create, begin][..1] == [create] && [create][..0] == [];
    assert Exec(env, EMPTY, [create]) == s1;
    assert Exec(env, EMPTY, [create, begin]) == s2;
    assert s1.db.records[0] == NewRecord(None);
    assert BeginRecord(NewRecord(None), Resume).Some?;
    QuarantineLeavesOpen(env, s2, 0, stage, e, draw);
  }

  lemma {:induction false} QuarantineLeavesOpen(env: Env, s: System, id: nat, stage: Stage, e: Exception, draw: real)
    requires id in s.runs && s.runs[id].call in s.db.records && HasOpen(s.db.records[s.runs[id].call].progress.events)
    ensures var c := s.runs[id].call;
            var s' := Next(env, s, OperateOn(c, Quarantine));
            && c in s'.db.records && id in s'.runs && s'.runs[id].call == c
            && s'.db.records[c].progress.status == Quarantined && HasOpen(s'.db.records[c].progress.events)
            && Outcome(env, s', FailRun(id, stage, e, draw)) == None
  {
  }

  // ---------- a failing run ----------

  /** A failure at any point after a run's first commit, with no other writer on its call, is
      handled: the call is rescheduled or failed, and nothing of the open transaction remains. */
  lemma {:induction false} FailureIsHandled(
      env: Env, s: System, begin: Step, started: System, steps: seq<Step>, stage: Stage, e: Exception, draw: real)
    requires Inv(s) && begin.BeginRun? && begin.id !in s.runs && started == Next(env, s, begin)
    requires Undisturbed(env, started, steps, begin.id)
    requires forall i :: 0 <= i < |steps| ==> !(steps[i].BeginRun? && steps[i].id == begin.id)
    requires begin.id in Exec(env, started, steps).runs
             && StagePossible(Exec(env, started, steps).runs[begin.id].status, stage)
    ensures var before := Exec(env, started, steps);
            var call := before.runs[begin.id].call;
            var after := Next(env, before, FailRun(begin.id, stage, e, draw));
            && call in before.db.records && call in after.db.records
            && before.db.records[call].progress.status in {Preprocessing, Transcribing, Analyzing}
            && after.db.records[call].progress.status in {RetryScheduled, Failed}
            && after.db.records[call] == before.db.records[call].(progress := after.db.records[call].progress)
  {
    StepKeeps(env, s, begin);
    StaysSameTask(env, started, steps, begin.id);
    assert InStep(started, begin.id);
    StaysInStep(env, started, steps, begin.id);
    ReachableInv(env, started, steps);
    FailureHandledAt(env, Exec(env, started, steps), begin.id, stage, e, draw);
  }

  lemma {:induction false} FailureHandledAt(env: Env, s: System, id: nat, stage: Stage, e: Exception, draw: real)
    requires Inv(s) && id in s.runs && InStep(s, id) && StagePossible(s.runs[id].status, stage)
    ensures var call := s.runs[id].call;
            var after := Next(env, s, FailRun(id, stage, e, draw));
            && call in s.db.records && call in after.db.records
            && s.db.records[call].progress.status in {Preprocessing, Transcribing, Analyzing}
            && after.db.records[call].progress.status in {RetryScheduled, Failed}
            && after.db.records[call] == s.db.records[call].(progress := after.db.records[call].progress)
  {
    assert RunInv(s.runs[id]);
    HandlerLands(s.db.records[s.runs[id].call].progress, stage, Classify(e, stage), env.policy, draw);
  }

  // ---------- what a finished run did ----------

  /** A run publishes by policy only what validation left untouched, and only after the pilot. */
  lemma {:induction false} PolicyPublishesUntouched(
      env: Env, s: System, id: nat, refined: RoleAssignment, raw: E.Analysis)
    requires CanFinish(s, id, refined, raw)
    ensures Outcome(env, s, FinishRun(id, refined, raw)).Some?
    ensures Outcome(env, s, FinishRun(id, refined, raw)).value.2 != [] ==>
              var run := s.runs[id];
              var items := FinalItems(s.db.records[run.call], run, refined);
              && |R.HumanPublished(s.db.log)| >= 50
              && E.AllSupported(E.AllChecks(env.oracle, raw, items))
              && E.Sanitize(env.oracle, raw, items)
                 == raw.(overallScore := E.Round2(E.ScoreTotal(E.ClaimsOf(raw, E.ScoreItems))),
                         limitations := E.Dedupe(raw.limitations))
  {
    FinishCommitsExactly(env, s, FinishRun(id, refined, raw));
    var run := s.runs[id];
    var rec := s.db.records[run.call];
    if Outcome(env, s, FinishRun(id, refined, raw)).value.2 != [] {
      R.AutoPublishedUntouched(env.oracle, raw, FinalItems(rec, run, refined), rec.reviews, run.call,
                               |rec.text.versions|, |R.HumanPublished(s.db.log)|);
    }
  }

  /** The rows a run leaves are those of its last transaction. */
  lemma {:induction false} FinishedText(env: Env, s: System, id: nat, refined: RoleAssignment, raw: E.Analysis)
    requires CanFinish(s, id, refined, raw)
    ensures Outcome(env, s, FinishRun(id, refined, raw)).Some?
    ensures var run, rec := s.runs[id], s.db.records[s.runs[id].call];
            Outcome(env, s, FinishRun(id, refined, raw)).value.1.text ==
            T.WorkerWrite(rec.text, FinalItems(rec, run, refined),
                          if run.mode == Reanalyze then T.FromReanalysis else T.FromWorker, env.normalize)
  {
    FinishCommitsExactly(env, s, FinishRun(id, refined, raw));
  }

  // ---------- the endpoints that touch one part of a call ----------

  /** A snapshot of a call adds a version and changes nothing else. */
  lemma {:induction false} SnapshotWrites(env: Env, s: System, c: nat)
    requires Inv(s)
    ensures Outcome(env, s, TakeSnapshot(c)) == None <==> c !in s.db.records
    ensures c in s.db.records ==>
              var done, rec := Outcome(env, s, TakeSnapshot(c)).value, s.db.records[c];
              && done.0 == c && done.2 == [] && done.1 == rec.(text := done.1.text)
              && T.AddsVersion(rec.text, done.1.text, T.HumanSnapshot)
              && done.1.text.segments == rec.text.segments && done.1.text.corrections == rec.text.corrections
  {
    if c in s.db.records {
      assert RecordOk(s.db, c);
      T.SnapshotKeeps(s.db.records[c].text, T.HumanSnapshot);
    }
  }

  /** Queueing an analysis sets the status of the call and nothing else; a run of any mode can begin
      then. */
  lemma {:induction false} QueueWrites(env: Env, s: System, c: nat, mode: Mode)
    ensures Outcome(env, s, QueueAnalysis(c)) == None <==> c !in s.db.records
    ensures c in s.db.records ==>
              var done, rec := Outcome(env, s, QueueAnalysis(c)).value, s.db.records[c];
              && done.0 == c && done.2 == [] && BeginRecord(done.1, mode).Some?
              && done.1 == rec.(progress := rec.progress.(status := Queued))
  {
    if c in s.db.records {
      BeginExactly(s.db.records[c].progress.(status := Queued), mode);
    }
  }

  // ---------- the call's outcome and score ----------

  /** The outcome and the score of the call are those of its latest analysis. */
  ghost predicate ColumnsOfLatest(rec: Record) {
    rec.reviews.latest.Some? && rec.reviews.latest.value < |rec.reviews.versions| &&
    var a := rec.reviews.versions[rec.reviews.latest.value].analysis;
    rec.outcome == a.outcome && rec.score == Some(a.overallScore)
  }

  /** Whether writing the value leaves it in the column. */
  predicate Takes<T(==)>(copy: T, value: T, stored: T) {
    value != copy || value == stored
  }

  /** After a run the columns are those of its analysis exactly when each new value differs from
      what the session remembers of the column, or is there already. */
  lemma {:induction false} FinishColumns(env: Env, s: System, id: nat, refined: RoleAssignment, raw: E.Analysis)
    requires CanFinish(s, id, refined, raw)
    ensures var run, rec := s.runs[id], s.db.records[s.runs[id].call];
            var after := Next(env, s, FinishRun(id, refined, raw)).db;
            && run.call in after.records
            && var rec' := after.records[run.call];
            && rec'.reviews.latest == Some(|rec.reviews.versions|)
            && |rec'.reviews.versions| == |rec.reviews.versions| + 1
            && var a := rec'.reviews.versions[|rec.reviews.versions|].analysis;
            && (ColumnsOfLatest(rec') <==>
                  Takes(run.outcome, a.outcome, rec.outcome) && Takes(run.score, Some(a.overallScore), rec.score))
  {
    var run := s.runs[id];
    FinishNext(env, s, id, refined, raw);
    FinishRecordColumns(env, s.db.records[run.call], s.db.log, run, refined, raw);
  }

  /** What the last transaction of a run stores of the provider's analysis: the validated analysis
      with its checks and its review as a new version made of the transcript of the same
      transaction, and of the extraction the supported facts and the evidence behind them. */
  lemma {:induction false} FinishStores(env: Env, s: System, id: nat, refined: RoleAssignment, raw: E.Analysis)
    requires CanFinish(s, id, refined, raw)
    ensures var run, rec := s.runs[id], s.db.records[s.runs[id].call];
            var items := FinalItems(rec, run, refined);
            var analysis, checks := E.Sanitize(env.oracle, raw, items), E.AllChecks(env.oracle, raw, items);
            var after := Next(env, s, FinishRun(id, refined, raw)).db;
            && run.call in after.records
            && var rec' := after.records[run.call];
            && ExtractedFrom(env, raw, items, rec')
            && |rec'.reviews.versions| == |rec.reviews.versions| + 1 && |rec'.reviews.cases| == |rec.reviews.cases| + 1
            && |rec'.text.versions| == |rec.text.versions| + 1
            && R.StoredVersion(rec'.reviews.versions[|rec.reviews.versions|], |rec.text.versions|, analysis, checks)
            && R.NewCase(rec'.reviews.cases[|rec.reviews.cases|], |rec.reviews.versions|,
                         |R.HumanPublished(s.db.log)|, run.call, analysis, checks)
  {
    var run := s.runs[id];
    var rec := s.db.records[run.call];
    var items := FinalItems(rec, run, refined);
    FinishNext(env, s, id, refined, raw);
    FinishRecordStores(env, rec, s.db.log, run, refined, raw);
    FinishRecordText(env, rec, s.db.log, run, refined, raw);
    R.CreatedExactly(rec.reviews, run.call, |rec.text.versions|, |R.HumanPublished(s.db.log)|,
                     E.Sanitize(env.oracle, raw, items), E.AllChecks(env.oracle, raw, items));
  }

  /** The last transaction of a run adds the call's task, unless nothing is left to follow up, and
      the drafts of the validated analysis that are not there yet. */
  lemma {:induction false} FinishFollowsUp(env: Env, s: System, id: nat, refined: RoleAssignment, raw: E.Analysis)
    requires Inv(s) && CanFinish(s, id, refined, raw)
    ensures var run, rec := s.runs[id], s.db.records[s.runs[id].call];
            var after := Next(env, s, FinishRun(id, refined, raw)).db;
            && run.call in after.records
            && F.FollowsUp(rec.followups, after.records[run.call].followups, run.call,
                           E.Sanitize(env.oracle, raw, FinalItems(rec, run, refined)), env.closed)
  {
    var run := s.runs[id];
    var rec := s.db.records[run.call];
    FinishNext(env, s, id, refined, raw);
    assert RecordOk(s.db, run.call);
    F.FollowedExactly(rec.followups, run.call, E.Sanitize(env.oracle, raw, FinalItems(rec, run, refined)), env.closed);
  }

  /** The session's copies are the stored values. */
  ghost predicate FreshColumns(s: System, id: nat) {
    id in s.runs ==>
      var run := s.runs[id];
      && run.call in s.db.records
      && run.outcome == s.db.records[run.call].outcome && run.score == s.db.records[run.call].score
      && run.copied == s.db.records[run.call].progress.retryCount
      && run.lastSuccessful == s.db.records[run.call].progress.lastSuccessful
  }

  lemma {:induction false} BeginsFresh(env: Env, s: System, begin: Step)
    requires begin.BeginRun? && begin.id !in s.runs
    ensures FreshColumns(Next(env, s, begin), begin.id)
  {
  }

  lemma {:induction false} StepKeepsFresh(env: Env, s: System, step: Step, id: nat)
    requires Inv(s) && id in s.runs && FreshColumns(s, id)
    requires OwnStep(step, id) || Writes(env, s, step) != Some(s.runs[id].call)
    ensures FreshColumns(Next(env, s, step), id)
  {
    if !OwnStep(step, id) {
      OtherStepKeepsRun(env, s, step, id);
    }
  }

  lemma {:induction false} StaysFresh(env: Env, s: System, steps: seq<Step>, id: nat)
    requires Inv(s) && id in s.runs && FreshColumns(s, id) && Undisturbed(env, s, steps, id)
    requires forall i :: 0 <= i < |steps| ==> !(steps[i].BeginRun? && steps[i].id == id)
    requires id in Exec(env, s, steps).runs
    ensures FreshColumns(Exec(env, s, steps), id)
  {
    if steps == [] {
    } else {
      var init, last := steps[..|steps| - 1], steps[|steps| - 1];
      assert forall i :: 0 <= i < |init| ==> init[i] == steps[i];
      StepSameTask(env, Exec(env, s, init), last, id);
      StaysFresh(env, s, init, id);
      ReachableInv(env, s, init);
      StepKeepsFresh(env, Exec(env, s, init), last, id);
    }
  }

  /** A run that nobody disturbs leaves the columns of its analysis, its final status as the last
      successful stage and a retry counter of zero. */
  lemma {:induction false} UndisturbedColumns(
      env: Env, s: System, begin: Step, started: System, steps: seq<Step>, refined: RoleAssignment, raw: E.Analysis)
    requires Inv(s) && begin.BeginRun? && begin.id !in s.runs && started == Next(env, s, begin)
    requires Undisturbed(env, started, steps, begin.id)
    requires forall i :: 0 <= i < |steps| ==> !(steps[i].BeginRun? && steps[i].id == begin.id)
    requires CanFinish(Exec(env, started, steps), begin.id, refined, raw)
    ensures var at := Exec(env, started, steps);
            var after := Next(env, at, FinishRun(begin.id, refined, raw)).db;
            && at.runs[begin.id].call in after.records && ColumnsOfLatest(after.records[at.runs[begin.id].call])
            && var p := after.records[at.runs[begin.id].call].progress;
            p.retryCount == 0 && p.lastSuccessful == Some(p.status) && p.status in {ReviewNeeded, Completed}
  {
    StepKeeps(env, s, begin);
    BeginsFresh(env, s, begin);
    StaysSameTask(env, started, steps, begin.id);
    StaysFresh(env, started, steps, begin.id);
    FinishColumns(env, Exec(env, started, steps), begin.id, refined, raw);
    FreshCounter(env, Exec(env, started, steps), begin.id, refined, raw);
  }

  lemma {:induction false} FreshCounter(env: Env, s: System, id: nat, refined: RoleAssignment, raw: E.Analysis)
    requires CanFinish(s, id, refined, raw) && FreshColumns(s, id)
    ensures var after := Next(env, s, FinishRun(id, refined, raw)).db;
            && s.runs[id].call in after.records
            && var p := after.records[s.runs[id].call].progress;
            p.retryCount == 0 && p.lastSuccessful == Some(p.status) && p.status in {ReviewNeeded, Completed}
  {
    var run := s.runs[id];
    var rec := s.db.records[run.call];
    FinishNext(env, s, id, refined, raw);
    FinishRecordCounter(env, rec, s.db.log, run, refined, raw);
    FinishRecordStatus(env, rec, s.db.log, run, refined, raw);
  }

  /** What a publication by a person writes: both pointers and the confirmation, and if the version
      is the call's latest also its outcome, its score and its completion; nothing of the call
      otherwise. */
  lemma {:induction false} PublicationWrites(env: Env, s: System, step: Step)
    requires Inv(s) && step.Review? && step.action == R.Publish && Outcome(env, s, step).Some?
    ensures step.call in s.db.records && step.call in Next(env, s, step).db.records
    ensures var rec, rec' := s.db.records[step.call], Next(env, s, step).db.records[step.call];
            && rec'.reviews.published == rec'.reviews.reviewed == Some(step.review) && rec'.reviews.outcomeConfirmed
            && rec'.reviews.latest == rec.reviews.latest
            && (if rec.reviews.latest == Some(step.review)
                then ColumnsOfLatest(rec') && rec'.progress == rec.progress.(status := Completed)
                else rec'.outcome == rec.outcome && rec'.score == rec.score && rec'.progress == rec.progress)
  {
    var rec := s.db.records[step.call];
    assert RecordOk(s.db, step.call);
    PublishedRecord(rec, step.call, step.review, step.actor, step.assignee, step.eligible, step.note,
                    R.Of(s.db.log, step.call));
  }

  lemma {:induction false} PublishedRecord(
      rec: Record, call: nat, k: nat, actor: string, assignee: Option<string>, eligible: bool, note: Option<string>,
      history: seq<R.Publication>)
    requires RecordInv(rec, history)
    requires R.PerformReviewAction(
               rec.reviews, call, rec.seller, k, R.Publish, actor, assignee, eligible, note).Success?
    ensures var done := R.PerformReviewAction(
              rec.reviews, call, rec.seller, k, R.Publish, actor, assignee, eligible, note);
            var rec' := ReviewedRecord(rec, done.value);
            && rec'.reviews.published == rec'.reviews.reviewed == Some(k) && rec'.reviews.outcomeConfirmed
            && rec'.reviews.latest == rec.reviews.latest
            && (if rec.reviews.latest == Some(k)
                then ColumnsOfLatest(rec') && rec'.progress == rec.progress.(status := Completed)
                else rec'.outcome == rec.outcome && rec'.score == rec.score && rec'.progress == rec.progress)
  {
    assert R.RowInv(rec.reviews.versions[k], rec.reviews.cases[k], k, rec.seller, R.StatusAfter(history, k));
  }

  // ---------- the rows while a run waits ----------

  ghost predicate SameText(s: System, s': System, id: nat) {
    id in s.runs && id in s'.runs ==>
      var c := s.runs[id].call;
      s'.runs[id].call == c && c in s.db.records && c in s'.db.records && s'.db.records[c].text == s.db.records[c].text
  }

  lemma {:induction false} OwnStepKeepsText(env: Env, s: System, step: Step, id: nat)
    requires Inv(s) && id in s.runs && OwnStep(step, id)
    ensures SameText(s, Next(env, s, step), id)
  {
  }

  lemma {:induction false} OtherStepKeepsText(env: Env, s: System, step: Step, id: nat)
    requires Inv(s) && id in s.runs && !OwnStep(step, id) && Writes(env, s, step) != Some(s.runs[id].call)
    ensures SameText(s, Next(env, s, step), id)
  {
    OtherStepKeepsRun(env, s, step, id);
  }

  lemma {:induction false} TextWaits(env: Env, s: System, steps: seq<Step>, id: nat)
    requires Inv(s) && id in s.runs && Undisturbed(env, s, steps, id)
    requires id in Exec(env, s, steps).runs
    requires forall i :: 0 <= i < |steps| ==> !(steps[i].BeginRun? && steps[i].id == id)
    ensures SameText(s, Exec(env, s, steps), id)
  {
    if steps == [] {
    } else {
      var init, last := steps[..|steps| - 1], steps[|steps| - 1];
      assert forall i :: 0 <= i < |init| ==> init[i] == steps[i];
      StaysSameTask(env, s, init, id);
      StepSameTask(env, Exec(env, s, init), last, id);
      TextWaits(env, s, init, id);
      ReachableInv(env, s, init);
      if OwnStep(last, id) {
        OwnStepKeepsText(env, Exec(env, s, init), last, id);
      } else {
        OtherStepKeepsText(env, Exec(env, s, init), last, id);
      }
    }
  }

  /** With no other writer on its call, the rows a reanalysis writes back are those the call had at
      its start, whenever in between it reads them: each stays in place, with its content, role,
      label and times. */
  lemma {:induction false} UndisturbedReanalysis(
      env: Env, s: System, steps: seq<Step>, id: nat, refined: RoleAssignment, raw: E.Analysis)
    requires Inv(s) && id in s.runs && Undisturbed(env, s, steps, id) && s.runs[id].mode == Reanalyze
    requires forall i :: 0 <= i < |steps| ==> !(steps[i].BeginRun? && steps[i].id == id)
    requires CanFinish(Exec(env, s, steps), id, refined, raw)
    ensures var c, after := s.runs[id].call, Next(env, Exec(env, s, steps), FinishRun(id, refined, raw)).db;
            && c in s.db.records && c in after.records
            && FinalItems(Exec(env, s, steps).db.records[c], Exec(env, s, steps).runs[id], refined)
               == T.StoredItems(s.db.records[c].text.segments)
            && var rows, rows' := s.db.records[c].text.segments, after.records[c].text.segments;
            && (forall p :: p in rows' <==> p in rows)
            && (forall p :: p in rows' ==> T.KeepsRow(rows[p], rows'[p]))
  {
    StaysSameTask(env, s, steps, id);
    TextWaits(env, s, steps, id);
    ReachableInv(env, s, steps);
    ReanalysisLeavesRows(env, Exec(env, s, steps), id, refined, raw);
  }

  /** The last transaction of a reanalysis leaves every row in place, with its content, role and times. */
  lemma {:induction false} ReanalysisLeavesRows(env: Env, s: System, id: nat, refined: RoleAssignment, raw: E.Analysis)
    requires Inv(s) && CanFinish(s, id, refined, raw) && s.runs[id].mode == Reanalyze
    ensures var c, after := s.runs[id].call, Next(env, s, FinishRun(id, refined, raw)).db;
            && c in after.records
            && FinalItems(s.db.records[c], s.runs[id], refined) == T.StoredItems(s.db.records[c].text.segments)
            && var rows, rows' := s.db.records[c].text.segments, after.records[c].text.segments;
            && (forall p :: p in rows' <==> p in rows)
            && (forall p :: p in rows' ==> T.KeepsRow(rows[p], rows'[p]))
  {
    var run := s.runs[id];
    assert RecordOk(s.db, run.call);
    FinishNext(env, s, id, refined, raw);
    FinishRecordText(env, s.db.records[run.call], s.db.log, run, refined, raw);
    T.ReanalysisKeepsText(s.db.records[run.call].text, env.normalize);
  }

  /** Any other run leaves the corrected rows alone and makes the others mirror its items. */
  lemma {:induction false} FullRunMirrorsItems(
      env: Env, s: System, id: nat, refined: RoleAssignment, raw: E.Analysis, p: nat)
    requires Inv(s) && CanFinish(s, id, refined, raw) && s.runs[id].mode != Reanalyze
    ensures Outcome(env, s, FinishRun(id, refined, raw)).Some?
    ensures T.RowMirrors(s.db.records[s.runs[id].call].text.segments,
                         Outcome(env, s, FinishRun(id, refined, raw)).value.1.text.segments,
                         ApplyRoles(s.runs[id].items, refined), p, env.normalize)
  {
    var run := s.runs[id];
    FinishedText(env, s, id, refined, raw);
    assert RecordOk(s.db, run.call);
    T.WorkerWriteMirrors(s.db.records[run.call].text, ApplyRoles(run.items, refined), T.FromWorker, env.normalize, p);
  }
}

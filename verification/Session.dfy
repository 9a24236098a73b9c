/** The worker task and the endpoints as they run: row changes collect in `working` and become
    durable at a commit, a rollback throws them away (backend/app/tasks.py, backend/app/main.py).

    Every method is proved to commit exactly the steps of the lifecycle machine that its contract
    names, so what is proved of the machine's runs holds of any sequence of these calls. */
module Sessions {
  import opened Wrappers
  import opened Transcript
  import opened Pipeline
  import opened Processing
  import opened Records
  import E = Evidence
  import T = Transcripts
  import R = Reviews
  import F = Followups
  import L = Lifecycle

  /** Where a run is interrupted, if it is. */
  datatype Point =
    | BeforeFirstCommit | DuringPreprocessing | DuringTranscription | DuringAnalysis | DuringValidation
    | DuringFollowups

  /** What the outside world does in one run: the provider's results, the role assignment, an
      exception at some point, and the value the random source returns. */
  datatype World = World(
    items: seq<Item>, refined: RoleAssignment, raw: E.Analysis, failAt: Option<Point>, e: Exception, draw: real)

  /** `Raised`: the task itself raises, because its exception handler does. */
  datatype RunOutcome = Missing | AlreadyCompleted | Done(final: CallStatus) | Handled(final: CallStatus) | Raised

  /** The outcome of a run is the status its call is committed with: a final one, or the
      handler's. */
  ghost predicate Lands(outcome: RunOutcome, db: Store, c: nat) {
    match outcome
    case Done(final) => Committed(db, c, final) && final in {ReviewNeeded, Completed}
    case Handled(final) => Committed(db, c, final) && final in {RetryScheduled, Failed}
    case _ => true
  }

  ghost predicate Committed(db: Store, c: nat, status: CallStatus) {
    c in db.records && db.records[c].progress.status == status
  }

  lemma {:induction false} LastWriteWins(records: map<nat, Record>, c: nat, x: Record, y: Record, z: Record)
    ensures records[c := x][c := y][c := z] == records[c := z]
  {
  }

  // ---------- the steps of the lifecycle machine that one undisturbed task takes ----------

  predicate Skipped(db: Store, c: nat, mode: Mode) {
    c !in db.records || (db.records[c].progress.status == Completed && mode == Resume)
  }

  /** From the analysis on. Only a repeated new position refuses the last transaction. */
  function AnalyzePlan(rows: T.Rows, mode: Mode, w: World): seq<L.Step> {
    if w.failAt == Some(DuringAnalysis) then [L.FailRun(0, AnalyzingStage, w.e, w.draw)]
    else if w.failAt == Some(DuringValidation) then [L.FailRun(0, ValidatingStage, w.e, w.draw)]
    else if w.failAt == Some(DuringFollowups) then [L.FailRun(0, FollowupStage, w.e, w.draw)]
    else if mode != Reanalyze && DuplicateNew(rows, ApplyRoles(w.items, w.refined)) then
      [L.FailRun(0, ValidatingStage, DatabaseError, w.draw)]
    else [L.FinishRun(0, w.refined, w.raw)]
  }

  function TranscribePlan(rows: T.Rows, mode: Mode, w: World): seq<L.Step> {
    if w.failAt == Some(DuringTranscription) then [L.FailRun(0, TranscribingStage, w.e, w.draw)]
    else if w.items == [] then [L.FailRun(0, TranscribingStage, EmptyTranscriptMessage, w.draw)]
    else [L.EnterAnalyzing(0, w.items)] + AnalyzePlan(rows, mode, w)
  }

  function StartedPlan(rows: T.Rows, mode: Mode, w: World): seq<L.Step> {
    if mode == Reanalyze then
      if rows.Keys == {} then [L.FailRun(0, QueuedStage, EmptyTranscriptMessage, w.draw)]
          else AnalyzePlan(rows, mode, w)
    else if w.failAt == Some(DuringPreprocessing) then [L.FailRun(0, QueuedStage, w.e, w.draw)]
    else [L.EnterTranscribing(0)] + TranscribePlan(rows, mode, w)
  }

  function AttemptPlan(rec: Record, c: nat, mode: Mode, w: World): seq<L.Step> {
    if w.failAt == Some(BeforeFirstCommit) then [L.FailBegin(c, w.e, w.draw)]
    else if BeginRecord(rec, mode).None? then [L.FailBegin(c, ValueOrTypeError, w.draw)]
    else [L.BeginRun(0, c, mode)] + StartedPlan(rec.text.segments, mode, w)
  }

  function Plan(db: Store, c: nat, mode: Mode, w: World): seq<L.Step> {
    if Skipped(db, c, mode) then [] else AttemptPlan(db.records[c], c, mode, w)
  }

  predicate Finishes(plan: seq<L.Step>) {
    plan != [] && plan[|plan| - 1].FinishRun?
  }

  /** A failure before the first commit that the handler cannot record. */
  predicate HandlerRaises(env: Env, db: Store, plan: seq<L.Step>) {
    plan != [] && plan[0].FailBegin? && plan[0].call in db.records &&
    FailedRecord(env, db.records[plan[0].call], QueuedStage, plan[0].e, plan[0].draw).None?
  }

  /** Whether a run of the mode comes to the point at all. */
  predicate Passes(mode: Mode, point: Point) {
    mode == Reanalyze ==> point != DuringPreprocessing && point != DuringTranscription
  }

  /** A task finishes exactly when it is not skipped, the first step is allowed, nothing fails on its
      way, there is something to analyse and no position is new twice. */
  lemma {:induction false} FinishesExactly(db: Store, c: nat, mode: Mode, w: World)
    ensures Finishes(Plan(db, c, mode, w)) <==>
            && c in db.records && (mode == Resume ==> db.records[c].progress.status != Completed)
            && BeginRecord(db.records[c], mode).Some?
            && (w.failAt == None || !Passes(mode, w.failAt.value)) && HasWork(db.records[c].text.segments, mode, w)
  {
    if !Skipped(db, c, mode) && w.failAt != Some(BeforeFirstCommit) {
      StartedFinishes(db.records[c].text.segments, mode, w);
    }
  }

  ghost predicate HasWork(rows: T.Rows, mode: Mode, w: World) {
    if mode == Reanalyze then rows.Keys != {}
    else w.items != [] && !DuplicateNew(rows, ApplyRoles(w.items, w.refined))
  }

  lemma {:induction false} StartedFinishes(rows: T.Rows, mode: Mode, w: World)
    requires w.failAt != Some(BeforeFirstCommit)
    ensures StartedPlan(rows, mode, w) != []
    ensures Finishes(StartedPlan(rows, mode, w)) <==>
            (w.failAt == None || !Passes(mode, w.failAt.value)) && HasWork(rows, mode, w)
  {
    AnalyzeFinishes(rows, mode, w);
    if mode != Reanalyze {
      TranscribeFinishes(rows, mode, w);
      SameEnd([L.EnterTranscribing(0)], TranscribePlan(rows, mode, w));
      assert w.failAt.Some? ==>
          var point := w.failAt.value;
          || point.DuringPreprocessing? || point.DuringTranscription? || point.DuringAnalysis?
          || point.DuringValidation? || point.DuringFollowups?;
    }
  }

  lemma {:induction false} AnalyzeFinishes(rows: T.Rows, mode: Mode, w: World)
    ensures |AnalyzePlan(rows, mode, w)| == 1
    ensures Finishes(AnalyzePlan(rows, mode, w)) <==>
            && w.failAt !in {Some(DuringAnalysis), Some(DuringValidation), Some(DuringFollowups)}
            && (mode != Reanalyze ==> !DuplicateNew(rows, ApplyRoles(w.items, w.refined)))
  {
  }

  lemma {:induction false} TranscribeFinishes(rows: T.Rows, mode: Mode, w: World)
    ensures TranscribePlan(rows, mode, w) != []
    ensures Finishes(TranscribePlan(rows, mode, w)) <==>
            w.failAt != Some(DuringTranscription) && w.items != [] && Finishes(AnalyzePlan(rows, mode, w))
  {
    AnalyzeFinishes(rows, mode, w);
    SameEnd([L.EnterAnalyzing(0, w.items)], AnalyzePlan(rows, mode, w));
  }

  lemma {:induction false} SameEnd(first: seq<L.Step>, rest: seq<L.Step>)
    requires rest != []
    ensures Finishes(first + rest) <==> Finishes(rest)
  {
  }

  /** The stage an exception at the point is recorded with. */
  predicate RecordedAs(point: Point, stage: Stage) {
    match stage
    case QueuedStage => point == BeforeFirstCommit || point == DuringPreprocessing
    case TranscribingStage => point == DuringTranscription
    case AnalyzingStage => point == DuringAnalysis
    case ValidatingStage => point == DuringValidation
    case FollowupStage => point == DuringFollowups
  }

  /** The last step handles the exception of the world with the stage it happened in. */
  ghost predicate EndsWithFailure(plan: seq<L.Step>, w: World)
    requires w.failAt.Some?
  {
    plan != [] && var last := plan[|plan| - 1];
    last.FailRun? && RecordedAs(w.failAt.value, last.stage) && last.e == w.e && last.draw == w.draw
  }

  /** An exception on the way of a task that has begun and comes to that point is its end, recorded
      with the stage it happened in. */
  lemma {:induction false} InterruptedAt(rows: T.Rows, mode: Mode, w: World)
    requires w.failAt.Some? && w.failAt.value != BeforeFirstCommit && Passes(mode, w.failAt.value)
    requires mode == Reanalyze ==> rows.Keys != {}
    requires mode != Reanalyze && w.failAt.value != DuringPreprocessing && w.failAt.value != DuringTranscription ==>
               w.items != []
    ensures EndsWithFailure(StartedPlan(rows, mode, w), w)
  {
    var analyze := AnalyzePlan(rows, mode, w);
    assert |analyze| == 1;
    if mode != Reanalyze {
      var transcribe := TranscribePlan(rows, mode, w);
      assert transcribe != [] && ([L.EnterTranscribing(0)] + transcribe)[|transcribe|] == transcribe[|transcribe| - 1];
    }
  }

  /** A task that took the steps of the plan, and what it answered. */
  ghost predicate Attempted(env: Env, db: Store, plan: seq<L.Step>, db': Store, outcome: RunOutcome) {
    && db' == L.Exec(env, L.System(db, map[]), plan).db
    && (outcome == Raised <==> HandlerRaises(env, db, plan)) && (outcome.Done? <==> Finishes(plan))
  }

  lemma {:induction false} FailedEarly(
      env: Env, db: Store, c: nat, e: Exception, draw: real, db': Store, outcome: RunOutcome)
    requires c in db.records && db' == L.Exec(env, L.System(db, map[]), [L.FailBegin(c, e, draw)]).db
    requires outcome == Raised || outcome.Handled?
    requires outcome == Raised <==> FailedRecord(env, db.records[c], QueuedStage, e, draw).None?
    ensures Attempted(env, db, [L.FailBegin(c, e, draw)], db', outcome)
  {
  }

  lemma {:induction false} Begun(
      env: Env, db: Store, c: nat, mode: Mode, rest: seq<L.Step>, db': Store, outcome: RunOutcome)
    requires db' == L.Exec(env, L.System(db, map[]), [L.BeginRun(0, c, mode)] + rest).db
    requires outcome.Done? || outcome.Handled?
    requires outcome.Done? <==> Finishes(rest)
    ensures Attempted(env, db, [L.BeginRun(0, c, mode)] + rest, db', outcome)
  {
    if rest == [] {
    } else {
      SameEnd([L.BeginRun(0, c, mode)], rest);
    }
  }

  // ---------- who asks ----------

  /** `restricted`: a seller or agent, who reaches only the calls they sold. */
  datatype Principal = Principal(email: string, restricted: bool)

  predicate Visible(rec: Record, who: Principal) {
    who.restricted ==> rec.seller == Some(who.email)
  }

  predicate Reaches(db: Store, c: nat, who: Principal) {
    c in db.records && Visible(db.records[c], who)
  }

  /** The committed rows after one step of the lifecycle machine. */
  ghost function After(env: Env, db: Store, step: L.Step): Store {
    L.Next(env, L.System(db, map[]), step).db
  }

  function OperationOf(mode: Mode): Operation {
    match mode
    case Resume => Retry
    case Reanalyze => ReanalyzeNow
    case Full => FullReprocess
  }

  lemma {:induction false} OneCommit(env: Env, db: Store, step: L.Step, c: nat, rec: Record, added: seq<R.Publication>)
    requires L.Outcome(env, L.System(db, map[]), step) == Some((c, rec, added))
    ensures After(env, db, step).records == db.records[c := rec]
    ensures After(env, db, step).log == db.log + added
    ensures added == [] ==> After(env, db, step) == db.(records := db.records[c := rec])
  {
    assert db.log + [] == db.log;
  }

  lemma {:induction false} RolesCommit(
      env: Env, db: Store, c: nat, assignments: map<string, SpeakerRole>, reanalyze: bool, text: T.Text)
    requires c in db.records && T.AssignRoles(db.records[c].text, assignments) == Some(text)
    ensures After(env, db, L.AssignSpeakers(c, assignments, reanalyze)) ==
            db.(records := db.records[c := AfterEdit(db.records[c], text, reanalyze)])
  {
    var step := L.AssignSpeakers(c, assignments, reanalyze);
    assert RolesRecord(db.records[c], assignments, reanalyze) == Some(AfterEdit(db.records[c], text, reanalyze));
    OneCommit(env, db, step, c, AfterEdit(db.records[c], text, reanalyze), []);
  }

  lemma {:induction false} ReviewCommit(
      env: Env, db: Store, c: nat, k: nat, action: R.Action, actor: string, assignee: Option<string>, eligible: bool,
      note: Option<string>)
    requires c in db.records
    ensures match R.PerformReviewAction(db.records[c].reviews, c, db.records[c].seller, k, action, actor, assignee,
                                        eligible, note)
            case Failure(_) => true
            case Success(t) =>
              After(env, db, L.Review(c, k, action, actor, assignee, eligible, note)) ==
              L.Commit(db, c, ReviewedRecord(db.records[c], t), t.added)
  {
  }

  class Session {
    var committed: Store
    var working: Store

    ghost predicate Synced()
      reads this
    {
      working == committed
    }

    constructor (db: Store)
      ensures committed == working == db
    {
      committed, working := db, db;
    }

    method Commit()
      modifies this
      ensures committed == working == old(working)
    {
      committed := working;
    }

    method Rollback()
      modifies this`working
      ensures working == committed
    {
      working := committed;
    }

    method Put(c: nat, rec: Record)
      modifies this`working
      ensures working == old(working).(records := old(working).records[c := rec])
    {
      working := working.(records := working.records[c := rec]);
    }

    /** `_transition`: refused, and nothing written, unless the state machine allows the step. */
    method Transition(c: nat, before: CallStatus, target: CallStatus, attempt: nat) returns (ok: bool)
      requires c in working.records
      modifies this`working
      ensures ok <==> Allowed(before, target)
      ensures !ok ==> working == old(working)
      ensures ok ==>
                var rec := old(working).records[c];
                var rec' := rec.(progress := Enter(rec.progress, before, target, attempt));
                working == old(working).(records := old(working).records[c := rec'])
    {
      ok := Allowed(before, target);
      if ok {
        var rec := working.records[c];
        var events := CloseLatestOpen(rec.progress.events);
        var progress := rec.progress.(status := target,
                                      events := events + [Event(before, target, attempt, !ClosesEvent(target))]);
        Put(c, rec.(progress := progress));
      }
    }

    // ---------- the four transactions of a run ----------

    method BeginTransaction(c: nat, mode: Mode) returns (run: Option<Run>)
      requires Synced() && c in committed.records
      modifies this
      ensures Synced()
      ensures var rec := old(committed).records[c];
              match BeginRecord(rec, mode)
              case None => run.None? && committed == old(committed)
              case Some(rec') =>
                && run == Some(StartedRun(rec, c, mode))
                && committed == L.Commit(old(committed), c, rec', [])
    {
      var rec := working.records[c];
      Put(c, rec.(progress := rec.progress.(errorCode := None, nextRetry := None)));
      var ok := Transition(c, rec.progress.status, FirstStatus(mode), rec.progress.retryCount + 1);
      if !ok {
        Rollback();
        return None;
      }
      Commit();
      run := Some(StartedRun(rec, c, mode));
      assert committed.log == old(committed).log + [];
      assert committed.records == old(committed).records[c := BeginRecord(rec, mode).value];
    }

    method TranscribingTransaction(run: Run) returns (run': Run)
      requires Synced() && run.call in committed.records && run.status == Preprocessing
      modifies this
      ensures Synced()
      ensures committed == L.Commit(old(committed), run.call,
                                    TranscribingRecord(old(committed).records[run.call], run), [])
      ensures run' == run.(status := Transcribing)
    {
      var ok := Transition(run.call, run.status, Transcribing, run.copied + 1);
      Commit();
      run' := run.(status := Transcribing);
      assert committed.log == old(committed).log + [];
    }

    method AnalyzingTransaction(run: Run, items: seq<Item>) returns (run': Run)
      requires Synced() && run.call in committed.records && run.status == Transcribing
      modifies this
      ensures Synced()
      ensures committed == L.Commit(old(committed), run.call, AnalyzingRecord(old(committed).records[run.call], run),
                                    [])
      ensures run' == run.(status := Analyzing, items := items)
    {
      var ok := Transition(run.call, run.status, AssigningRoles, run.copied + 1);
      ok := Transition(run.call, AssigningRoles, Analyzing, run.copied + 1);
      Commit();
      run' := run.(status := Analyzing, items := items);
      assert committed.log == old(committed).log + [];
      assert committed.records
          == old(committed).records[run.call := AnalyzingRecord(old(committed).records[run.call], run)];
    }

    /** The exception handler: roll back, then reschedule or fail the call. It raises itself when
        the state machine refuses that. */
    method HandleException(env: Env, c: nat, stage: Stage, e: Exception, draw: real) returns (handled: bool)
      requires c in committed.records
      modifies this
      ensures Synced()
      ensures match FailedRecord(env, old(committed).records[c], stage, e, draw)
              case None => !handled && committed == old(committed)
              case Some(rec) => handled && committed == L.Commit(old(committed), c, rec, [])
    {
      Rollback();
      var rec := working.records[c];
      var descriptor := Classify(e, stage);
      var decision := Decide(env.policy, descriptor, rec.progress.retryCount, draw);
      var target := if decision.Some? then RetryScheduled else Failed;
      if !Allowed(rec.progress.status, target) {
        return false;
      }
      var attempt := rec.progress.retryCount + 1;
      var progress := rec.progress.(retryCount := attempt, errorCode := Some(descriptor.code));
      progress := progress.(errors := progress.errors + [ProcessingError(stage, descriptor, attempt, false)]);
      progress := progress.(status := target, nextRetry := decision);
      progress := progress.(events := CloseLatestOpen(progress.events)
                            + [Event(StatusOf(stage), target, attempt, false)]);
      Put(c, rec.(progress := progress));
      Commit();
      handled := true;
      assert committed.log == old(committed).log + [];
    }

    /** Into `validating`: the rows, the call's columns, the extraction and the snapshot. */
    method WriteRows(env: Env, run: Run, items: seq<Item>, a: E.Analysis, checks: seq<E.Check>) returns (ok: bool)
      requires run.call in working.records && run.status == Analyzing
      modifies this`working
      ensures ok <==> !DuplicateNew(old(working).records[run.call].text.segments, items)
      ensures ok ==> working == old(working).(records := old(working).records[run.call :=
                RowsWritten(env, old(working).records[run.call], run, items, a, checks)])
    {
      var c := run.call;
      var allowed := Transition(c, run.status, Validating, run.copied + 1);
      var rec := working.records[c];
      var rows := T.UpsertSegments(rec.text.segments, items, env.normalize);
      if rows.None? {
        return false;
      }
      rec := rec.(text := rec.text.(segments := rows.value));
      if a.outcome != run.outcome {
        rec := rec.(outcome := a.outcome);
      }
      if Some(a.overallScore) != run.score {
        rec := rec.(score := Some(a.overallScore));
      }
      rec := rec.(extraction := Some(ExtractionOf(env, rows.value, a, checks)));
      var text := T.SnapshotTranscript(rec.text, if run.mode == Reanalyze then T.FromReanalysis else T.FromWorker);
      Put(c, rec.(text := text));
      ok := true;
      assert working.records == old(working).records[c := rec.(text := text)];
    }

    /** The analysis version and its review case, then into `creating_followups`. */
    method AddVersion(run: Run, transcript: nat, a: E.Analysis, checks: seq<E.Check>) returns (required: bool)
      requires run.call in working.records
      modifies this`working
      ensures required <==> R.Reasons(|R.HumanPublished(old(working).log)|, run.call, a, checks) != []
      ensures var (rec, added) := VersionAdded(old(working).records[run.call], run, transcript,
                                               |R.HumanPublished(old(working).log)|, a, checks);
              working == Store(old(working).records[run.call := rec], old(working).log + added)
    {
      var c, rec := run.call, working.records[run.call];
      var reviews, added, needed := R.CreateAnalysisVersion(rec.reviews, working.log, c, transcript, a, checks);
      required := needed;
      Put(c, rec.(reviews := reviews));
      working := working.(log := working.log + added);
      var allowed := Transition(c, Validating, CreatingFollowups, run.copied + 1);
      assert working.records == old(working).records[c :=
        rec.(reviews := reviews, progress := Enter(rec.progress, Validating, CreatingFollowups, run.copied + 1))];
    }

    /** The follow-ups, then the final status. */
    method CloseRun(env: Env, run: Run, a: E.Analysis, required: bool)
      requires run.call in working.records
      modifies this`working
      ensures working == old(working).(records := old(working).records[run.call :=
                RunClosed(env, old(working).records[run.call], run, a, required)])
    {
      var c, rec := run.call, working.records[run.call];
      var followups := F.CreateFollowups(rec.followups, c, a, env.closed);
      Put(c, rec.(followups := followups));
      var final := if required then ReviewNeeded else Completed;
      var allowed := Transition(c, CreatingFollowups, final, run.copied + 1);
      var last := working.records[c];
      var count := if run.copied != 0 then 0 else last.progress.retryCount;
      var stage := if run.lastSuccessful != Some(final) then Some(final) else last.progress.lastSuccessful;
      Put(c, last.(progress := last.progress.(lastSuccessful := stage, retryCount := count)));
      assert working.records == old(working).records[c :=
        last.(progress := last.progress.(lastSuccessful := stage, retryCount := count))];
    }

    /** The three parts in turn, then one commit. */
    method FinishValidated(env: Env, run: Run, items: seq<Item>, a: E.Analysis, checks: seq<E.Check>) returns (ok: bool)
      requires Synced() && run.call in committed.records && run.status == Analyzing
      modifies this
      ensures Synced()
      ensures ok <==> !DuplicateNew(old(committed).records[run.call].text.segments, items)
      ensures !ok ==> committed == old(committed)
      ensures ok ==>
                var done := Finished(env, old(committed).records[run.call], |R.HumanPublished(old(committed).log)|,
                                     run, items, a, checks);
                committed == L.Commit(old(committed), run.call, done.0, done.1)
    {
      var rec := working.records[run.call];
      ok := WriteRows(env, run, items, a, checks);
      if !ok {
        Rollback();
        return;
      }
      ghost var written := working.records[run.call];
      var required := AddVersion(run, |rec.text.versions|, a, checks);
      ghost var versioned := working.records[run.call];
      CloseRun(env, run, a, required);
      LastWriteWins(committed.records, run.call, written, versioned, working.records[run.call]);
      FinishedInParts(env, rec, |R.HumanPublished(committed.log)|, run, items, a, checks);
      Commit();
    }

    /** The last transaction of a run. */
    method FinishTransaction(
        env: Env, run: Run, refined: RoleAssignment, raw: E.Analysis) returns (error: Option<FinishError>)
      requires Synced() && run.call in committed.records && run.status == Analyzing && E.WellShaped(raw)
      modifies this
      ensures Synced()
      ensures match FinishRecord(env, old(committed).records[run.call], old(committed).log, run, refined, raw)
              case Failure(why) => error == Some(why) && committed == old(committed)
              case Success(done) => error == None && committed == L.Commit(old(committed), run.call, done.0, done.1)
    {
      var items := FinalItems(committed.records[run.call], run, refined);
      if run.mode == Reanalyze && items == [] {
        return Some(NoTranscript);
      }
      var a, checks := E.ValidateAnalysisEvidence(env.oracle, raw, items);
      var ok := FinishValidated(env, run, items, a, checks);
      error := if ok then None else Some(DuplicatePosition);
    }

    // ---------- the task ----------

    /** One worker task with no other writer on its call: its commits are exactly the steps of
        its plan, and its outcome is the status they leave the call with. */
    method ProcessCall(env: Env, c: nat, mode: Mode, w: World) returns (outcome: RunOutcome)
      requires Synced() && L.DbInv(committed) && E.WellShaped(w.raw)
      modifies this
      ensures Synced()
      ensures committed == L.Exec(env, L.System(old(committed), map[]), Plan(old(committed), c, mode, w)).db
      ensures Lands(outcome, committed, c)
      ensures outcome == Missing <==> c !in old(committed).records
      ensures outcome == AlreadyCompleted <==> c in old(committed).records && Skipped(old(committed), c, mode)
      ensures outcome == Raised <==> HandlerRaises(env, old(committed), Plan(old(committed), c, mode, w))
      ensures outcome.Done? <==> Finishes(Plan(old(committed), c, mode, w))
      ensures outcome.Done? ==> WentTheRoute(old(committed), committed, c, mode)
    {
      if c !in committed.records {
        return Missing;
      }
      if committed.records[c].progress.status == Completed && mode == Resume {
        return AlreadyCompleted;
      }
      outcome := Attempt(env, c, mode, w);
      if outcome.Done? {
        DoneWentTheRoute(env, old(committed), c, mode, w);
      }
    }

    method Attempt(env: Env, c: nat, mode: Mode, w: World) returns (outcome: RunOutcome)
      requires Synced() && L.DbInv(committed) && E.WellShaped(w.raw) && c in committed.records
      modifies this
      ensures Synced() && Lands(outcome, committed, c) && outcome != Missing && outcome != AlreadyCompleted
      ensures Attempted(env, old(committed), AttemptPlan(old(committed).records[c], c, mode, w), committed, outcome)
    {
      ghost var db := committed;
      if w.failAt == Some(BeforeFirstCommit) {
        outcome := FailEarly(env, c, w.e, w.draw);
        FailedEarly(env, db, c, w.e, w.draw, committed, outcome);
        return;
      }
      var begun := BeginTransaction(c, mode);
      if begun.None? {
        outcome := FailEarly(env, c, ValueOrTypeError, w.draw);
        FailedEarly(env, db, c, ValueOrTypeError, w.draw, committed, outcome);
        return;
      }
      ghost var rest := StartedPlan(db.records[c].text.segments, mode, w);
      FirstCommit(env, db, c, mode, rest);
      outcome := AfterFirstCommit(env, begun.value, w);
      Begun(env, db, c, mode, rest, committed, outcome);
    }

    /** The system a lone run lives in: the committed rows and this run's memory. */
    ghost function Alone(run: Run): L.System
      reads this
    {
      L.System(committed, map[0 := run])
    }

    ghost predicate RunReady(run: Run)
      reads this
    {
      Synced() && L.Inv(Alone(run)) && L.InStep(Alone(run), 0)
    }

    method AfterFirstCommit(env: Env, started: Run, w: World) returns (outcome: RunOutcome)
      requires RunReady(started) && E.WellShaped(w.raw)
      requires started.status == if started.mode == Reanalyze then Analyzing else Preprocessing
      modifies this
      ensures Synced() && Lands(outcome, committed, started.call) && (outcome.Done? || outcome.Handled?)
      ensures var plan := StartedPlan(old(committed).records[started.call].text.segments, started.mode, w);
              committed == L.Exec(env, old(Alone(started)), plan).db && (outcome.Done? <==> Finishes(plan))
    {
      if started.mode == Reanalyze {
        if committed.records[started.call].text.segments.Keys == {} {
          outcome := FailIn(env, started, QueuedStage, EmptyTranscriptMessage, w.draw);
        } else {
          outcome := Analyze(env, started, w);
        }
        return;
      }
      if w.failAt == Some(DuringPreprocessing) {
        outcome := FailIn(env, started, QueuedStage, w.e, w.draw);
        return;
      }
      ghost var start := Alone(started);
      var run := TranscribingTransaction(started);
      OneStep(env, start, L.EnterTranscribing(0), Alone(run));
      PrependStep(env, start, L.EnterTranscribing(0),
                  TranscribePlan(committed.records[run.call].text.segments, run.mode, w));
      outcome := Transcribe(env, run, w);
    }

    method Transcribe(env: Env, transcribing: Run, w: World) returns (outcome: RunOutcome)
      requires RunReady(transcribing) && E.WellShaped(w.raw)
      requires transcribing.status == Transcribing && transcribing.mode != Reanalyze
      modifies this
      ensures Synced() && Lands(outcome, committed, transcribing.call) && (outcome.Done? || outcome.Handled?)
      ensures var plan := TranscribePlan(old(committed).records[transcribing.call].text.segments, transcribing.mode, w);
              committed == L.Exec(env, old(Alone(transcribing)), plan).db && (outcome.Done? <==> Finishes(plan))
    {
      if w.failAt == Some(DuringTranscription) {
        outcome := FailIn(env, transcribing, TranscribingStage, w.e, w.draw);
        return;
      }
      if w.items == [] {
        outcome := FailIn(env, transcribing, TranscribingStage, EmptyTranscriptMessage, w.draw);
        return;
      }
      ghost var start := Alone(transcribing);
      var run := AnalyzingTransaction(transcribing, w.items);
      OneStep(env, start, L.EnterAnalyzing(0, w.items), Alone(run));
      PrependStep(env, start, L.EnterAnalyzing(0, w.items),
                  AnalyzePlan(committed.records[run.call].text.segments, run.mode, w));
      outcome := Analyze(env, run, w);
    }

    method Analyze(env: Env, run: Run, w: World) returns (outcome: RunOutcome)
      requires RunReady(run) && E.WellShaped(w.raw) && run.status == Analyzing
      requires if run.mode == Reanalyze then committed.records[run.call].text.segments.Keys != {}
               else run.items == w.items
      modifies this
      ensures Synced() && Lands(outcome, committed, run.call) && (outcome.Done? || outcome.Handled?)
      ensures var plan := AnalyzePlan(old(committed).records[run.call].text.segments, run.mode, w);
              committed == L.Exec(env, old(Alone(run)), plan).db && (outcome.Done? <==> Finishes(plan))
    {
      if w.failAt == Some(DuringAnalysis) {
        outcome := FailIn(env, run, AnalyzingStage, w.e, w.draw);
      } else if w.failAt == Some(DuringValidation) {
        outcome := FailIn(env, run, ValidatingStage, w.e, w.draw);
      } else if w.failAt == Some(DuringFollowups) {
        outcome := FailIn(env, run, FollowupStage, w.e, w.draw);
      } else {
        var error := Conclude(env, run, w.refined, w.raw);
        if error.Some? {
          outcome := FailIn(env, run, ValidatingStage, DatabaseError, w.draw);
        } else {
          outcome := Done(committed.records[run.call].progress.status);
        }
      }
    }

    /** The last transaction as a step of the machine. A reanalysis always commits it. */
    method Conclude(env: Env, run: Run, refined: RoleAssignment, raw: E.Analysis) returns (error: Option<FinishError>)
      requires RunReady(run) && E.WellShaped(raw) && run.status == Analyzing
      requires run.mode == Reanalyze ==> committed.records[run.call].text.segments.Keys != {}
      modifies this
      ensures Synced()
      ensures error.Some? <==>
              && run.mode != Reanalyze
              && DuplicateNew(old(committed).records[run.call].text.segments, ApplyRoles(run.items, refined))
      ensures error.Some? ==> committed == old(committed)
      ensures error.None? ==>
                && committed == L.Exec(env, old(Alone(run)), [L.FinishRun(0, refined, raw)]).db
                && run.call in committed.records
                && committed.records[run.call].progress.status in {ReviewNeeded, Completed}
    {
      FinishStep(env, committed, run, refined, raw);
      FinishRefusedExactly(env, committed, run, refined, raw);
      error := FinishTransaction(env, run, refined, raw);
    }

    /** An exception after the first commit: always handled. */
    method FailIn(env: Env, run: Run, stage: Stage, e: Exception, draw: real) returns (outcome: RunOutcome)
      requires RunReady(run) && L.StagePossible(run.status, stage)
      modifies this
      ensures Synced()
      ensures committed == L.Exec(env, old(Alone(run)), [L.FailRun(0, stage, e, draw)]).db
      ensures outcome.Handled? && Lands(outcome, committed, run.call)
    {
      ghost var start := Alone(run);
      assert L.RunInv(start.runs[0]);
      HandlerLands(committed.records[run.call].progress, stage, Classify(e, stage), env.policy, draw);
      var handled := HandleException(env, run.call, stage, e, draw);
      SingleStep(env, start, L.FailRun(0, stage, e, draw));
      outcome := Handled(committed.records[run.call].progress.status);
    }

    /** An exception before the first commit. */
    method FailEarly(env: Env, c: nat, e: Exception, draw: real) returns (outcome: RunOutcome)
      requires Synced() && c in committed.records
      modifies this
      ensures Synced()
      ensures committed == L.Exec(env, L.System(old(committed), map[]), [L.FailBegin(c, e, draw)]).db
      ensures outcome == Raised || outcome.Handled?
      ensures outcome == Raised <==> FailedRecord(env, old(committed).records[c], QueuedStage, e, draw).None?
      ensures Lands(outcome, committed, c)
    {
      ghost var start := L.System(committed, map[]);
      var handled := HandleException(env, c, QueuedStage, e, draw);
      SingleStep(env, start, L.FailBegin(c, e, draw));
      outcome := if handled then Handled(committed.records[c].progress.status) else Raised;
    }

    // ---------- the endpoints ----------

    /** Corrects one segment. */
    method EditSegment(
        env: Env, who: Principal, c: nat, p: nat, content: string, role: SpeakerRole, reanalyze: bool)
      returns (ok: bool)
      requires Synced()
      modifies this
      ensures Synced()
      ensures ok <==> Reaches(old(committed), c, who) && p in old(committed).records[c].text.segments
      ensures ok ==> committed == After(env, old(committed), L.EditSegment(c, p, content, role, reanalyze))
      ensures !ok ==> committed == old(committed)
    {
      ok := c in working.records && p in working.records[c].text.segments && Visible(working.records[c], who);
      if !ok {
        return;
      }
      var rec, stripped := working.records[c], Strip(content);
      var text := rec.text.(corrections := rec.text.corrections + [T.Correction(p, stripped, Canonical(role))]);
      var row := text.segments[p].(content := stripped, normalizedText := env.normalize(stripped));
      row := row.(role := Canonical(role), corrected := true);
      text := text.(segments := text.segments[p := row], manuallyCorrected := true);
      var progress := rec.progress.(status := if reanalyze then Queued else ReviewNeeded);
      text := T.SnapshotTranscript(text, T.HumanCorrection);
      Put(c, rec.(text := text, progress := progress));
      Commit();
      assert EditRecord(env, rec, p, content, role, reanalyze) == Some(rec.(text := text, progress := progress));
      OneCommit(env, old(committed), L.EditSegment(c, p, content, role, reanalyze), c,
                rec.(text := text, progress := progress), []);
    }

    /** Reassigns the roles of speakers. Refused when that changes no row. */
    method UpdateSpeakerRoles(
        env: Env, who: Principal, c: nat, assignments: map<string, SpeakerRole>, reanalyze: bool) returns (ok: bool)
      requires Synced()
      modifies this
      ensures Synced()
      ensures ok <==>
              && Reaches(old(committed), c, who)
              && T.AssignRoles(old(committed).records[c].text, assignments).Some?
      ensures ok ==> committed == After(env, old(committed), L.AssignSpeakers(c, assignments, reanalyze))
      ensures !ok ==> committed == old(committed)
    {
      ok := c in working.records && Visible(working.records[c], who);
      if !ok {
        return;
      }
      var rec := working.records[c];
      var text := T.UpdateSpeakerRoles(rec.text, assignments);
      ok := text.Some?;
      if !ok {
        return;
      }
      Put(c, rec.(text := text.value, progress := rec.progress.(status := if reanalyze then Queued else ReviewNeeded)));
      Commit();
      RolesCommit(env, old(committed), c, assignments, reanalyze, text.value);
    }

    method CreateTranscriptSnapshot(env: Env, who: Principal, c: nat) returns (ok: bool)
      requires Synced()
      modifies this
      ensures Synced()
      ensures ok <==> Reaches(old(committed), c, who)
      ensures ok ==> committed == After(env, old(committed), L.TakeSnapshot(c))
      ensures !ok ==> committed == old(committed)
    {
      ok := c in working.records && Visible(working.records[c], who);
      if !ok {
        return;
      }
      var rec := working.records[c];
      var text := T.SnapshotTranscript(rec.text, T.HumanSnapshot);
      Put(c, rec.(text := text));
      Commit();
      OneCommit(env, old(committed), L.TakeSnapshot(c), c, rec.(text := text), []);
    }

    /** Queues the call again; the counter restarts on a full reprocessing only. */
    method ReprocessCall(env: Env, who: Principal, c: nat, mode: Mode) returns (ok: bool)
      requires Synced()
      modifies this
      ensures Synced()
      ensures ok <==> Reaches(old(committed), c, who)
      ensures ok ==> committed == After(env, old(committed), L.OperateOn(c, OperationOf(mode)))
      ensures !ok ==> committed == old(committed)
    {
      ok := c in working.records && Visible(working.records[c], who);
      if ok {
        Requeued(env, c, mode);
      }
    }

    method Requeued(env: Env, c: nat, mode: Mode)
      requires Synced() && c in committed.records
      modifies this
      ensures Synced()
      ensures committed == After(env, old(committed), L.OperateOn(c, OperationOf(mode)))
    {
      var rec := working.records[c];
      var progress := rec.progress.(status := Queued, errorCode := None, nextRetry := None);
      if mode == Full {
        progress := progress.(retryCount := 0);
      }
      Put(c, rec.(progress := progress));
      Commit();
      OneCommit(env, old(committed), L.OperateOn(c, OperationOf(mode)), c, rec.(progress := progress), []);
    }

    method ProcessingAction(env: Env, c: nat, operation: Operation) returns (ok: bool)
      requires Synced()
      modifies this
      ensures Synced()
      ensures ok <==> c in old(committed).records
      ensures ok ==> committed == After(env, old(committed), L.OperateOn(c, operation))
      ensures !ok ==> committed == old(committed)
    {
      ok := c in working.records;
      if !ok {
        return;
      }
      match operation
      case Retry => Requeued(env, c, Resume);
      case ReanalyzeNow => Requeued(env, c, Reanalyze);
      case FullReprocess => Requeued(env, c, Full);
      case Quarantine =>
        var rec := working.records[c];
        var progress := rec.progress.(status := Quarantined, nextRetry := None);
        Put(c, rec.(progress := progress));
        Commit();
        OneCommit(env, old(committed), L.OperateOn(c, operation), c, rec.(progress := progress), []);
      case ResolveErrors => ResolveAll(env, c);
    }

    /** Marks every error of the call as resolved; the ones that are stay so. */
    method ResolveAll(env: Env, c: nat)
      requires Synced() && c in committed.records
      modifies this
      ensures Synced()
      ensures committed == After(env, old(committed), L.OperateOn(c, ResolveErrors))
    {
      var rec := working.records[c];
      var errors := rec.progress.errors;
      for k := 0 to |errors|
        invariant |errors| == |rec.progress.errors|
        invariant forall i :: 0 <= i < k ==> errors[i] == rec.progress.errors[i].(resolved := true)
        invariant forall i :: k <= i < |errors| ==> errors[i] == rec.progress.errors[i]
        invariant working == committed == old(committed)
      {
        if !errors[k].resolved {
          errors := errors[k := errors[k].(resolved := true)];
        }
      }
      var progress := rec.progress.(errors := errors);
      Put(c, rec.(progress := progress));
      Commit();
      assert progress == Operate(rec.progress, ResolveErrors);
      OneCommit(env, old(committed), L.OperateOn(c, ResolveErrors), c, rec.(progress := progress), []);
    }

    method QueueAnalysisVersion(env: Env, c: nat) returns (ok: bool)
      requires Synced()
      modifies this
      ensures Synced()
      ensures ok <==> c in old(committed).records
      ensures ok ==> committed == After(env, old(committed), L.QueueAnalysis(c))
      ensures !ok ==> committed == old(committed)
    {
      ok := c in working.records;
      if !ok {
        return;
      }
      var rec := working.records[c];
      Put(c, rec.(progress := rec.progress.(status := Queued)));
      Commit();
      OneCommit(env, old(committed), L.QueueAnalysis(c), c, rec.(progress := rec.progress.(status := Queued)), []);
    }

    /** One review action: assign, approve, reject, request changes or publish. A refused one
        leaves the committed rows as they were, a changed assignee included. */
    method PerformReviewAction(env: Env, c: nat, k: nat, action: R.Action, actor: string,
                               assignee: Option<string>, eligible: bool,
                               note: Option<string>) returns (refused: Option<R.Refusal>)
      requires Synced() && c in committed.records
      modifies this
      ensures Synced()
      ensures refused.None? ==> committed == After(env, old(committed),
                                                   L.Review(c, k, action, actor, assignee, eligible, note))
      ensures var rec := old(committed).records[c];
              match R.PerformReviewAction(rec.reviews, c, rec.seller, k, action, actor, assignee, eligible, note)
              case Failure(why) => refused == Some(why) && committed == old(committed)
              case Success(t) =>
                && refused == None
                && committed == L.Commit(old(committed), c, ReviewedRecord(rec, t), t.added)
    {
      var rec := working.records[c];
      if k >= |rec.reviews.cases| {
        return Some(R.ReviewNotFound);
      }
      if (action == R.Approve || action == R.Publish) && rec.seller == Some(actor) {
        return Some(R.SelfReviewNotAllowed);
      }
      if action == R.Assign && assignee.Some? {
        if !eligible {
          return Some(R.ReviewerNotEligible);
        }
        var review := rec.reviews.cases[k].(assignee := assignee);
        Put(c, rec.(reviews := rec.reviews.(cases := rec.reviews.cases[k := review])));
      }
      var moved := TransitionReview(c, k, action, actor, note);
      if !moved {
        Rollback();
        return Some(R.InvalidTransition);
      }
      Commit();
      assert committed.records == old(committed).records[c := committed.records[c]];
      ReviewCommit(env, old(committed), c, k, action, actor, assignee, eligible, note);
      return None;
    }

    /** `transition_review`: the case, its version, and on approval or publication the call. */
    method TransitionReview(c: nat, k: nat, action: R.Action, actor: string, note: Option<string>) returns (moved: bool)
      requires c in working.records && k < |working.records[c].reviews.cases|
      modifies this`working
      ensures match R.TransitionReview(old(working).records[c].reviews, c, k, action, actor, note)
              case None => !moved && working == old(working)
              case Some(t) => moved && working == L.Commit(old(working), c, ReviewedRecord(old(working).records[c], t),
                                                           t.added)
    {
      var rec := working.records[c];
      var review := rec.reviews.cases[k];
      if review.status !in R.AllowedFrom(action) {
        return false;
      }
      var target, v := R.Target(action), review.version;
      var event := R.ReviewEvent(actor, action, review.status, target);
      var moved' := review.(status := target, note := note, events := review.events + [event]);
      var reviews := rec.reviews.(cases := rec.reviews.cases[k := moved']);
      if v < |reviews.versions| {
        reviews := reviews.(versions := reviews.versions[v := reviews.versions[v].(status := target)]);
      }
      if action == R.Approve {
        reviews := reviews.(reviewed := Some(v));
      }
      if action != R.Publish {
        Put(c, rec.(reviews := reviews));
        assert working.log == old(working).log + [];
        return true;
      }
      var previous := reviews.published;
      if previous.Some? && previous.value != v && previous.value < |reviews.versions| {
        var superseded := reviews.versions[previous.value].(status := R.Superseded);
        reviews := reviews.(versions := reviews.versions[previous.value := superseded]);
      }
      reviews := reviews.(reviewed := Some(v), published := Some(v), outcomeConfirmed := true);
      rec := rec.(reviews := reviews);
      if v < |reviews.versions| && reviews.latest == Some(v) {
        var a := reviews.versions[v].analysis;
        rec := rec.(outcome := a.outcome, score := Some(a.overallScore),
                    progress := rec.progress.(status := Completed));
      }
      Put(c, rec);
      working := working.(log := working.log + [R.Publication(c, v, actor, R.ByHuman)]);
      return true;
    }
  }

  // ---------- what a task that is done has recorded ----------

  /** The events added to the call lead from its old status to its new one, along the route of
      its mode. */
  ghost predicate WentTheRoute(db: Store, db': Store, c: nat, mode: Mode) {
    c in db.records && c in db'.records &&
    var before, final := db.records[c].progress.status, db'.records[c].progress.status;
    && L.Recorded(db', c) == L.Recorded(db, c) + WholeRoute(mode, before, final)
    && Chain(WholeRoute(mode, before, final), before, final)
  }

  predicate Advances(step: L.Step) {
    (step.EnterTranscribing? || step.EnterAnalyzing?) && step.id == 0
  }

  lemma {:induction false} AdvancesUndisturbed(env: Env, s: L.System, steps: seq<L.Step>)
    requires 0 in s.runs && forall i :: 0 <= i < |steps| ==> Advances(steps[i])
    ensures L.Undisturbed(env, s, steps, 0) && 0 in L.Exec(env, s, steps).runs
  {
    if steps == [] {
    } else {
      var init := steps[..|steps| - 1];
      assert forall i :: 0 <= i < |init| ==> init[i] == steps[i];
      AdvancesUndisturbed(env, s, init);
    }
  }

  /** A plan that finishes begins, advances, and finishes. */
  lemma {:induction false} FinishingPlan(rec: Record, c: nat, mode: Mode, w: World) returns (middle: seq<L.Step>)
    requires Finishes(AttemptPlan(rec, c, mode, w))
    ensures BeginRecord(rec, mode).Some?
    ensures AttemptPlan(rec, c, mode, w) == [L.BeginRun(0, c, mode)] + (middle + [L.FinishRun(0, w.refined, w.raw)])
    ensures forall i :: 0 <= i < |middle| ==> Advances(middle[i])
  {
    if mode == Reanalyze {
      middle := [];
      assert AnalyzePlan(rec.text.segments, mode, w) == [] + [L.FinishRun(0, w.refined, w.raw)];
    } else {
      middle := [L.EnterTranscribing(0), L.EnterAnalyzing(0, w.items)];
      assert [L.EnterTranscribing(0)] + ([L.EnterAnalyzing(0, w.items)] + [L.FinishRun(0, w.refined, w.raw)])
          == middle + [L.FinishRun(0, w.refined, w.raw)];
    }
  }

  /** The last step of a lone run commits if it leaves the call in a final status. */
  lemma {:induction false} LastStepCommits(env: Env, s: L.System, refined: RoleAssignment, raw: E.Analysis)
    requires L.Inv(s) && 0 in s.runs && L.InStep(s, 0)
    requires s.runs[0].call in L.Next(env, s, L.FinishRun(0, refined, raw)).db.records
    requires L.Next(env, s, L.FinishRun(0, refined, raw)).db.records[s.runs[0].call].progress.status
             in {ReviewNeeded, Completed}
    ensures L.CanFinish(s, 0, refined, raw)
  {
    assert L.RunInv(s.runs[0]);
    L.FinishCommitsExactly(env, s, L.FinishRun(0, refined, raw));
  }

  lemma {:induction false} DoneWentTheRoute(env: Env, db: Store, c: nat, mode: Mode, w: World)
    requires L.DbInv(db) && c in db.records && Finishes(AttemptPlan(db.records[c], c, mode, w))
    requires var db' := L.Exec(env, L.System(db, map[]), AttemptPlan(db.records[c], c, mode, w)).db;
             c in db'.records && db'.records[c].progress.status in {ReviewNeeded, Completed}
    ensures WentTheRoute(db, L.Exec(env, L.System(db, map[]), AttemptPlan(db.records[c], c, mode, w)).db, c, mode)
  {
    var middle := FinishingPlan(db.records[c], c, mode, w);
    var begin, finish := L.BeginRun(0, c, mode), L.FinishRun(0, w.refined, w.raw);
    var start := L.System(db, map[]);
    var started := L.Next(env, start, begin);
    PrependStep(env, start, begin, middle + [finish]);
    L.ExecConcat(env, started, middle, [finish]);
    SingleStep(env, L.Exec(env, started, middle), finish);
    BegunInStep(env, db, c, mode);
    AdvancesUndisturbed(env, started, middle);
    L.StaysInStep(env, started, middle, 0);
    L.ReachableInv(env, started, middle);
    L.RunRecordsItsSteps(env, start, begin, started, middle);
    LastStepCommits(env, L.Exec(env, started, middle), w.refined, w.raw);
    L.FinishedRunRecordsItsRoute(env, start, begin, started, middle, w.refined, w.raw);
  }

  lemma {:induction false} BegunInStep(env: Env, db: Store, c: nat, mode: Mode)
    requires L.DbInv(db) && c in db.records && BeginRecord(db.records[c], mode).Some?
    ensures var s := L.Next(env, L.System(db, map[]), L.BeginRun(0, c, mode));
            L.Inv(s) && 0 in s.runs && L.InStep(s, 0)
  {
    FirstStep(env, L.System(db, map[]), L.BeginRun(0, c, mode),
              L.Next(env, L.System(db, map[]), L.BeginRun(0, c, mode)));
  }

  lemma {:induction false} SingleStep(env: Env, s: L.System, step: L.Step)
    ensures L.Exec(env, s, [step]) == L.Next(env, s, step)
  {
    assert [step][..0] == [];
  }

  lemma {:induction false} FinalStatus(
      env: Env, rec: Record, log: seq<R.Publication>, run: Run, refined: RoleAssignment, raw: E.Analysis)
    requires Obstacle(rec, run, refined).None?
    ensures FinishRecord(env, rec, log, run, refined, raw).Success?
    ensures FinishRecord(env, rec, log, run, refined, raw).value.0.progress.status in {ReviewNeeded, Completed}
  {
  }

  lemma {:induction false} FinishStep(env: Env, db: Store, run: Run, refined: RoleAssignment, raw: E.Analysis)
    requires run.call in db.records && E.WellShaped(raw)
    ensures match FinishRecord(env, db.records[run.call], db.log, run, refined, raw)
            case Failure(_) => true
            case Success(done) =>
              && L.Exec(env, L.System(db, map[0 := run]), [L.FinishRun(0, refined, raw)]).db
                  == L.Commit(db, run.call, done.0, done.1)
              && done.0.progress.status in {ReviewNeeded, Completed}
  {
    var result := FinishRecord(env, db.records[run.call], db.log, run, refined, raw);
    SingleStep(env, L.System(db, map[0 := run]), L.FinishRun(0, refined, raw));
    if result.Success? {
      FinalStatus(env, db.records[run.call], db.log, run, refined, raw);
      L.FinishNext(env, L.System(db, map[0 := run]), 0, refined, raw);
    }
  }

  /** With analysis reached, the last transaction is refused for a repeated new position only. */
  lemma {:induction false} FinishRefusedExactly(env: Env, db: Store, run: Run, refined: RoleAssignment, raw: E.Analysis)
    requires run.call in db.records && run.status == Analyzing
    requires run.mode == Reanalyze ==> db.records[run.call].text.segments.Keys != {}
    ensures FinishRecord(env, db.records[run.call], db.log, run, refined, raw).Failure?
            <==> run.mode != Reanalyze && DuplicateNew(db.records[run.call].text.segments,
                                                       ApplyRoles(run.items, refined))
  {
    var rows := db.records[run.call].text.segments;
    if run.mode == Reanalyze {
      T.StoredItemsFit(rows);
      var p :| p in rows.Keys;
      T.StoredItemsCover(rows, p);
    }
  }

  lemma {:induction false} FirstStep(env: Env, s: L.System, step: L.Step, s': L.System)
    requires L.DbInv(s.db) && s.runs == map[] && step.BeginRun? && step.id == 0 && s' == L.Next(env, s, step)
             && 0 in s'.runs
    ensures L.Inv(s') && L.InStep(s', 0)
  {
    L.StepKeeps(env, s, step);
  }

  /** The first commit of a run, as the first step of its plan. */
  lemma {:induction false} FirstCommit(env: Env, db: Store, c: nat, mode: Mode, rest: seq<L.Step>)
    requires L.DbInv(db) && c in db.records && BeginRecord(db.records[c], mode).Some?
    ensures var s := L.System(L.Commit(db, c, BeginRecord(db.records[c], mode).value, []),
                              map[0 := StartedRun(db.records[c], c, mode)]);
            && L.Inv(s) && L.InStep(s, 0)
            && L.Exec(env, L.System(db, map[]), [L.BeginRun(0, c, mode)] + rest) == L.Exec(env, s, rest)
  {
    var start, step := L.System(db, map[]), L.BeginRun(0, c, mode);
    var s := L.System(L.Commit(db, c, BeginRecord(db.records[c], mode).value, []),
                      map[0 := StartedRun(db.records[c], c, mode)]);
    assert L.Next(env, start, step) == s;
    FirstStep(env, start, step, s);
    PrependStep(env, start, step, rest);
  }

  /** A step of the lone run, with what it keeps. */
  lemma {:induction false} OneStep(env: Env, s: L.System, step: L.Step, s': L.System)
    requires L.Inv(s) && 0 in s.runs && L.InStep(s, 0) && L.OwnStep(step, 0) && s' == L.Next(env, s, step)
    ensures L.Inv(s') && L.InStep(s', 0)
  {
    L.StepKeeps(env, s, step);
    L.OwnStepInStep(env, s, step, 0);
  }

  lemma {:induction false} PrependStep(env: Env, s: L.System, step: L.Step, steps: seq<L.Step>)
    ensures L.Exec(env, s, [step] + steps) == L.Exec(env, L.Next(env, s, step), steps)
  {
    L.ExecConcat(env, s, [step], steps);
    assert [step][..0] == [];
    assert L.Exec(env, s, [step]) == L.Next(env, s, step);
  }
}

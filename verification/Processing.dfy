/** A call's processing status with its pipeline events, errors and retry counter
    (backend/app/tasks.py). */
module Processing {
  import opened Wrappers
  import opened Pipeline

  datatype Mode = Resume | Reanalyze | Full

  /** `open` while the event has no finish time. */
  datatype Event = Event(before: CallStatus, target: CallStatus, attempt: nat, open: bool)

  datatype ProcessingError = ProcessingError(stage: Stage, descriptor: Descriptor, attempt: nat, resolved: bool)

  datatype Progress = Progress(
    status: CallStatus, retryCount: nat, events: seq<Event>, errors: seq<ProcessingError>,
    errorCode: Option<string>, nextRetry: Option<int>, lastSuccessful: Option<CallStatus>)

  // ---------- _transition ----------

  /** Closes the newest open event, if there is one. */
  function CloseLatestOpen(events: seq<Event>): seq<Event> {
    if events == [] then []
    else
      var init, last := events[..|events| - 1], events[|events| - 1];
      if last.open then init + [last.(open := false)] else CloseLatestOpen(init) + [last]
  }

  /** What the transition writes once it is allowed. `before` and `attempt` come from the
      worker's own copy of the call. */
  function Enter(p: Progress, before: CallStatus, target: CallStatus, attempt: nat): Progress {
    p.(status := target,
       events := CloseLatestOpen(p.events) + [Event(before, target, attempt, !ClosesEvent(target))])
  }

  /** No result when the state machine refuses the step. */
  function Step(p: Progress, before: CallStatus, target: CallStatus, attempt: nat): Option<Progress> {
    if Allowed(before, target) then Some(Enter(p, before, target, attempt)) else None
  }

  // ---------- the commits of a worker run ----------

  function FirstStatus(mode: Mode): CallStatus {
    if mode == Reanalyze then Analyzing else Preprocessing
  }

  /** Up to the first commit. */
  function Begin(p: Progress, mode: Mode): Option<Progress> {
    Step(p.(errorCode := None, nextRetry := None), p.status, FirstStatus(mode), p.retryCount + 1)
  }

  /** The session keeps its copies of a row over its commits, and writes a column only when the new
      value differs from its copy. A stale copy with the same value leaves the stored one alone. */
  function Written<T(==)>(copy: T, value: T, stored: T): T {
    if value != copy then value else stored
  }

  /** The last commit: three steps, the final status and the reset of the counter. */
  function Finish(
      p: Progress, before: CallStatus, copied: nat, lastSuccessful: Option<CallStatus>, reviewRequired: bool)
    : Option<Progress>
  {
    var final := if reviewRequired then ReviewNeeded else Completed;
    match Step(p, before, Validating, copied + 1)
    case None => None
    case Some(validating) =>
      var done := Enter(Enter(validating, Validating, CreatingFollowups, copied + 1), CreatingFollowups, final,
                        copied + 1);
      Some(done.(lastSuccessful := Written(lastSuccessful, Some(final), p.lastSuccessful),
                 retryCount := Written(copied, 0, p.retryCount)))
  }

  /** The statuses of stages, which the handler writes as the state an error came from. */
  function StatusOf(stage: Stage): CallStatus {
    match stage
    case QueuedStage => Queued
    case TranscribingStage => Transcribing
    case AnalyzingStage => Analyzing
    case ValidatingStage => Validating
    case FollowupStage => CreatingFollowups
  }

  /** The exception handler, after the rollback. No result when it raises itself, which leaves
      the committed rows as they are. */
  function HandleFailure(p: Progress, stage: Stage, d: Descriptor, policy: RetryPolicy, draw: real): Option<Progress> {
    var decision := Decide(policy, d, p.retryCount, draw);
    var target := if decision.Some? then RetryScheduled else Failed;
    if !Allowed(p.status, target) then None
    else
      var attempt := p.retryCount + 1;
      Some(p.(status := target, retryCount := attempt, errorCode := Some(d.code), nextRetry := decision,
              errors := p.errors + [ProcessingError(stage, d, attempt, false)],
              events := CloseLatestOpen(p.events) + [Event(StatusOf(stage), target, attempt, false)]))
  }

  // ---------- the endpoints ----------

  function Requeue(p: Progress, mode: Mode): Progress {
    p.(status := Queued, errorCode := None, nextRetry := None, retryCount := if mode == Full then 0 else p.retryCount)
  }

  /** The processing actions of the operations page. */
  datatype Operation = Retry | ReanalyzeNow | FullReprocess | Quarantine | ResolveErrors

  function Operate(p: Progress, operation: Operation): Progress {
    match operation
    case Retry => Requeue(p, Resume)
    case ReanalyzeNow => Requeue(p, Reanalyze)
    case FullReprocess => Requeue(p, Full)
    case Quarantine => p.(status := Quarantined, nextRetry := None)
    case ResolveErrors =>
      p.(errors := seq(|p.errors|, k requires 0 <= k < |p.errors| => p.errors[k].(resolved := true)))
  }

  // ---------- what each commit writes ----------

  /** The recorded events stay; at most they are closed. */
  ghost predicate OnlyClosed(events: seq<Event>, events': seq<Event>) {
    && |events'| == |events|
    && forall i :: 0 <= i < |events| ==>
         (events'[i] == events[i] || (events[i].open && events'[i] == events[i].(open := false)))
  }

  /** Of the open events the newest is closed. */
  lemma {:induction false} ClosesNewest(events: seq<Event>)
    ensures OnlyClosed(events, CloseLatestOpen(events))
    ensures forall i :: 0 <= i < |events| && events[i].open && (forall j :: i < j < |events| ==> !events[j].open) ==>
              !CloseLatestOpen(events)[i].open
    ensures forall i, j :: 0 <= i < j < |events| && events[j].open ==> CloseLatestOpen(events)[i] == events[i]
  {
    if events == [] {
    } else {
      var init := events[..|events| - 1];
      assert events == init + [events[|events| - 1]];
      ClosesNewest(init);
    }
  }

  /** A committed step: only the status and the events change, by one new event. */
  ghost predicate Entered(p: Progress, p': Progress, before: CallStatus, target: CallStatus, attempt: nat) {
    && p' == p.(status := target, events := p'.events)
    && |p'.events| == |p.events| + 1 && OnlyClosed(p.events, p'.events[..|p.events|])
    && p'.events[|p.events|] == Event(before, target, attempt, p'.events[|p.events|].open)
    && (p'.events[|p.events|].open <==>
          target != Completed && target != ReviewNeeded && target != Failed && target != Quarantined)
  }

  lemma {:induction false} StepExactly(p: Progress, before: CallStatus, target: CallStatus, attempt: nat)
    ensures Step(p, before, target, attempt).Some? <==> EnteredFrom(target, before)
    ensures Step(p, before, target, attempt).Some? ==>
              Entered(p, Step(p, before, target, attempt).value, before, target, attempt)
  {
    AllowedExactly(before, target);
    EnterExactly(p, before, target, attempt);
  }

  lemma {:induction false} EnterExactly(p: Progress, before: CallStatus, target: CallStatus, attempt: nat)
    ensures Entered(p, Enter(p, before, target, attempt), before, target, attempt)
  {
    ClosesNewest(p.events);
  }

  /** A run begins from a queued or rescheduled call, and a reanalysis from a finished or failed one
      too. The counter is left as it is, and the last error's code and the retry time are cleared. */
  lemma {:induction false} BeginExactly(p: Progress, mode: Mode)
    requires Committable(p.status)
    ensures Begin(p, mode).Some? <==>
            || p.status in {Queued, RetryScheduled}
            || (mode == Reanalyze && p.status in {ReviewNeeded, Completed, Failed})
    ensures Begin(p, mode).Some? ==>
              Entered(p.(errorCode := None, nextRetry := None), Begin(p, mode).value, p.status,
                      if mode == Reanalyze then Analyzing else Preprocessing, p.retryCount + 1)
  {
    var target := if mode == Reanalyze then Analyzing else Preprocessing;
    StepExactly(p.(errorCode := None, nextRetry := None), p.status, target, p.retryCount + 1);
  }

  /** After a run the counter is zero and the last stage is its final status, unless the session
      believes that they already are. */
  lemma {:induction false} FinishExactly(
      p: Progress, before: CallStatus, copied: nat, lastSuccessful: Option<CallStatus>, reviewRequired: bool)
    ensures Finish(p, before, copied, lastSuccessful, reviewRequired).Some? <==> before == Analyzing
    ensures before == Analyzing ==>
              var p' := Finish(p, before, copied, lastSuccessful, reviewRequired).value;
              && p'.status == (if reviewRequired then ReviewNeeded else Completed)
              && p'.retryCount == (if copied == 0 then p.retryCount else 0)
              && p'.lastSuccessful == (if lastSuccessful == Some(p'.status) then p.lastSuccessful else Some(p'.status))
              && p'.errors == p.errors && p'.errorCode == p.errorCode && p'.nextRetry == p.nextRetry
  {
    AllowedExactly(before, Validating);
  }

  /** Its three steps are recorded with the session's copy of the counter, and the last is closed. */
  lemma {:induction false} FinishAttempts(
      p: Progress, copied: nat, lastSuccessful: Option<CallStatus>, reviewRequired: bool)
    ensures var n, p' := |p.events|, Finish(p, Analyzing, copied, lastSuccessful, reviewRequired).value;
            && |p'.events| == n + 3
            && p'.events[n].attempt == p'.events[n + 1].attempt == p'.events[n + 2].attempt == copied + 1
            && p'.events[n + 2].target == p'.status && !p'.events[n + 2].open
  {
    var final := if reviewRequired then ReviewNeeded else Completed;
    var validating := Enter(p, Analyzing, Validating, copied + 1);
    var following := Enter(validating, Validating, CreatingFollowups, copied + 1);
    EntersOne(p, Analyzing, Validating, copied + 1);
    EntersOne(validating, Validating, CreatingFollowups, copied + 1);
    EntersOne(following, CreatingFollowups, final, copied + 1);
  }

  lemma {:induction false} EntersOne(p: Progress, before: CallStatus, target: CallStatus, attempt: nat)
    ensures var p' := Enter(p, before, target, attempt);
            && |p'.events| == |p.events| + 1
            && p'.events[|p.events|] == Event(before, target, attempt, !ClosesEvent(target))
            && forall i :: 0 <= i < |p.events| ==> p'.events[i].attempt == p.events[i].attempt
  {
    ClosesNewest(p.events);
  }

  /** The status an error of the stage is recorded to come from. */
  predicate IsStage(status: CallStatus, stage: Stage) {
    match status
    case Queued => stage == QueuedStage
    case Transcribing => stage == TranscribingStage
    case Analyzing => stage == AnalyzingStage
    case Validating => stage == ValidatingStage
    case CreatingFollowups => stage == FollowupStage
    case _ => false
  }

  /** The handler counts the attempt and records the error, the code and when to try again, which it
      does exactly for a transient error while the schedule has a slot left. */
  lemma {:induction false} FailureWrites(p: Progress, stage: Stage, d: Descriptor, policy: RetryPolicy, draw: real)
    requires HandleFailure(p, stage, d, policy, draw).Some?
    ensures var p' := HandleFailure(p, stage, d, policy, draw).value;
            var retried := d.transient && p.retryCount < |policy.schedule|;
            && p'.status == (if retried then RetryScheduled else Failed)
            && (p'.nextRetry.Some? <==> retried) && p'.errorCode == Some(d.code)
            && p'.retryCount == p.retryCount + 1 && p'.lastSuccessful == p.lastSuccessful
            && p'.errors == p.errors + [ProcessingError(stage, d, p.retryCount + 1, false)]
            && |p'.events| == |p.events| + 1 && OnlyClosed(p.events, p'.events[..|p.events|])
            && p'.events[|p.events|] == Event(p'.events[|p.events|].before, p'.status, p.retryCount + 1, false)
            && IsStage(p'.events[|p.events|].before, stage)
  {
    ClosesNewest(p.events);
  }

  /** Any mode can begin after a request to process a call again; a full one starts the retries over. */
  lemma {:induction false} RequeuedCanBegin(p: Progress, operation: Operation, mode: Mode)
    requires operation == Retry || operation == ReanalyzeNow || operation == FullReprocess
    ensures var p' := Operate(p, operation);
            && Begin(p', mode).Some? && p'.status == Queued
            && p'.retryCount == (if operation == FullReprocess then 0 else p.retryCount)
            && p' == p.(status := p'.status, retryCount := p'.retryCount, errorCode := None, nextRetry := None)
  {
    BeginExactly(Operate(p, operation), mode);
  }

  /** Nothing begins on a quarantined call, and no retry time is left to wait for. */
  lemma {:induction false} QuarantineStops(p: Progress, mode: Mode)
    ensures var p' := Operate(p, Quarantine);
            p' == p.(status := Quarantined, nextRetry := None) && Begin(p', mode) == None
  {
    BeginExactly(Operate(p, Quarantine), mode);
  }

  /** Resolving marks every error of the call, and does nothing else. */
  lemma {:induction false} AllResolved(p: Progress)
    ensures var p' := Operate(p, ResolveErrors);
            && p' == p.(errors := p'.errors) && |p'.errors| == |p.errors|
            && forall k :: 0 <= k < |p.errors| ==> p'.errors[k].resolved && SameError(p.errors[k], p'.errors[k])
  {
  }

  ghost predicate SameError(a: ProcessingError, b: ProcessingError) {
    a.stage == b.stage && a.descriptor == b.descriptor && a.attempt == b.attempt
  }

  // ---------- the steps a call's events record ----------

  function Pairs(events: seq<Event>): seq<(CallStatus, CallStatus)> {
    seq(|events|, k requires 0 <= k < |events| => (events[k].before, events[k].target))
  }

  lemma {:induction false} ClosingKeepsPairs(events: seq<Event>)
    ensures Pairs(CloseLatestOpen(events)) == Pairs(events)
  {
    if events == [] {
    } else {
      var init, last := events[..|events| - 1], events[|events| - 1];
      ClosingKeepsPairs(init);
      PairsSnoc(init, last);
      PairsSnoc(init, last.(open := false));
      PairsSnoc(CloseLatestOpen(init), last);
      assert events == init + [last];
    }
  }

  lemma {:induction false} PairsSnoc(events: seq<Event>, e: Event)
    ensures Pairs(events + [e]) == Pairs(events) + [(e.before, e.target)]
  {
  }

  /** A transition adds its own step to the record, and closing an event changes none. */
  lemma {:induction false} EnterRecords(p: Progress, before: CallStatus, target: CallStatus, attempt: nat)
    ensures Pairs(Enter(p, before, target, attempt).events) == Pairs(p.events) + [(before, target)]
  {
    ClosingKeepsPairs(p.events);
    PairsSnoc(CloseLatestOpen(p.events), Event(before, target, attempt, !ClosesEvent(target)));
  }

  /** The steps of the last commit. */
  function LastSteps(final: CallStatus): seq<(CallStatus, CallStatus)> {
    [(Analyzing, Validating), (Validating, CreatingFollowups), (CreatingFollowups, final)]
  }

  lemma {:induction false} FinishRecords(
      p: Progress, copied: nat, lastSuccessful: Option<CallStatus>, reviewRequired: bool)
    ensures Finish(p, Analyzing, copied, lastSuccessful, reviewRequired).Some?
    ensures var p' := Finish(p, Analyzing, copied, lastSuccessful, reviewRequired).value;
            Pairs(p'.events) == Pairs(p.events) + LastSteps(p'.status)
  {
    var validating := Enter(p, Analyzing, Validating, copied + 1);
    var following := Enter(validating, Validating, CreatingFollowups, copied + 1);
    EnterRecords(p, Analyzing, Validating, copied + 1);
    EnterRecords(validating, Validating, CreatingFollowups, copied + 1);
    EnterRecords(following, CreatingFollowups, if reviewRequired then ReviewNeeded else Completed, copied + 1);
  }

  /** The handler adds one pair: the stage it was called in, and where it leaves the call. */
  lemma {:induction false} FailureRecords(p: Progress, stage: Stage, d: Descriptor, policy: RetryPolicy, draw: real)
    requires HandleFailure(p, stage, d, policy, draw).Some?
    ensures var p' := HandleFailure(p, stage, d, policy, draw).value;
            Pairs(p'.events) == Pairs(p.events) + [(StatusOf(stage), p'.status)]
  {
    var p' := HandleFailure(p, stage, d, policy, draw).value;
    ClosingKeepsPairs(p.events);
    PairsSnoc(CloseLatestOpen(p.events), Event(StatusOf(stage), p'.status, p.retryCount + 1, false));
  }

  /** The steps a run has taken when its own status is `reached`; `before` is the status the
      call had at its start. */
  function Route(mode: Mode, before: CallStatus, reached: CallStatus): seq<(CallStatus, CallStatus)> {
    var start := [(before, FirstStatus(mode))];
    if mode == Reanalyze || reached == Preprocessing then start
    else if reached == Transcribing then start + [(Preprocessing, Transcribing)]
    else start + [(Preprocessing, Transcribing), (Transcribing, AssigningRoles), (AssigningRoles, Analyzing)]
  }

  function WholeRoute(mode: Mode, before: CallStatus, final: CallStatus): seq<(CallStatus, CallStatus)> {
    Route(mode, before, Analyzing) + LastSteps(final)
  }

  /** Steps that lead from `first` to `last`, each where the one before ended and each allowed by
      the state machine. */
  ghost predicate Chain(steps: seq<(CallStatus, CallStatus)>, first: CallStatus, last: CallStatus) {
    && steps != [] && steps[0].0 == first && steps[|steps| - 1].1 == last
    && (forall i :: 0 <= i < |steps| ==> Allowed(steps[i].0, steps[i].1))
    && (forall i, j :: 0 <= i < |steps| && j == i + 1 < |steps| ==> steps[i].1 == steps[j].0)
  }

  lemma {:induction false} ChainsJoin(
      a: seq<(CallStatus, CallStatus)>, b: seq<(CallStatus, CallStatus)>, first: CallStatus, middle: CallStatus,
      last: CallStatus)
    requires Chain(a, first, middle) && Chain(b, middle, last)
    ensures Chain(a + b, first, last)
  {
  }

  lemma {:induction false} RouteGoesOn(mode: Mode, before: CallStatus)
    requires mode != Reanalyze
    ensures Route(mode, before, Preprocessing) + [(Preprocessing, Transcribing)] == Route(mode, before, Transcribing)
    ensures Route(mode, before, Transcribing) + [(Transcribing, AssigningRoles), (AssigningRoles, Analyzing)]
            == Route(mode, before, Analyzing)
  {
  }

  lemma {:induction false} StepsJoin(
      start: seq<(CallStatus, CallStatus)>, own: seq<(CallStatus, CallStatus)>, more: seq<(CallStatus, CallStatus)>,
      sofar: seq<(CallStatus, CallStatus)>)
    requires start + own == sofar
    ensures start + (own + more) == sofar + more
  {
    assert start + (own + more) == start + own + more;
  }

  lemma {:induction false} WholeRouteChains(mode: Mode, before: CallStatus, final: CallStatus)
    requires Allowed(before, FirstStatus(mode)) && final in {ReviewNeeded, Completed}
    ensures Chain(WholeRoute(mode, before, final), before, final)
  {
    RouteChainsTo(mode, before, Analyzing);
    assert Chain(LastSteps(final), Analyzing, final);
    ChainsJoin(Route(mode, before, Analyzing), LastSteps(final), before, Analyzing, final);
  }

  lemma {:induction false} RouteChainsTo(mode: Mode, before: CallStatus, reached: CallStatus)
    requires Allowed(before, FirstStatus(mode))
    requires if mode == Reanalyze then reached == Analyzing else reached in {Preprocessing, Transcribing, Analyzing}
    ensures Chain(Route(mode, before, reached), before, reached)
  {
  }

  // ---------- the invariant ----------

  /** The statuses a call can be committed with. */
  predicate Committable(s: CallStatus) {
    s in {Queued, Preprocessing, Transcribing, Analyzing, ReviewNeeded, Completed, RetryScheduled, Failed, Quarantined}
  }

  /** The newest event records a terminal or failed outcome. */
  predicate EndsRun(events: seq<Event>) {
    events != [] && events[|events| - 1].target in {Completed, ReviewNeeded, Failed, RetryScheduled}
  }

  /** Only the newest event can be open, and not when its target ends the run. Every event records
      a legal step. */
  ghost predicate EventsInv(events: seq<Event>) {
    && (forall i :: 0 <= i < |events| - 1 ==> !events[i].open)
    && (EndsRun(events) ==> !events[|events| - 1].open)
    && (forall i :: 0 <= i < |events| ==> Legal(events[i].before, events[i].target))
  }

  /** A recorded step is allowed by the state machine, or it is the exception handler's, which
      records the stage it was called in. */
  predicate Legal(before: CallStatus, target: CallStatus) {
    Allowed(before, target) ||
    (target in {RetryScheduled, Failed} && before in {Queued, Transcribing, Analyzing, Validating, CreatingFollowups})
  }

  /** The newest event is open. */
  predicate HasOpen(events: seq<Event>) {
    events != [] && events[|events| - 1].open
  }

  /** A status that only a worker's commit sets tells whether an event is open: the step into it is,
      while the run is under way, and none is once the handler is through. */
  ghost predicate OpenByStatus(p: Progress) {
    && (p.status in {Failed, RetryScheduled} ==> !HasOpen(p.events))
    && (p.status in {Preprocessing, Transcribing, Analyzing} ==>
          HasOpen(p.events) && p.events[|p.events| - 1].target == p.status)
  }

  ghost predicate ProgressInv(p: Progress) {
    Committable(p.status) && EventsInv(p.events) && OpenByStatus(p)
  }

  lemma {:induction false} ClosingLeavesNoneOpen(events: seq<Event>)
    requires EventsInv(events)
    ensures |CloseLatestOpen(events)| == |events|
    ensures forall i :: 0 <= i < |events| ==> !CloseLatestOpen(events)[i].open
    ensures forall i :: 0 <= i < |events| ==> CloseLatestOpen(events)[i] == events[i].(open := false)
  {
    if events != [] && !events[|events| - 1].open {
      AllClosed(events[..|events| - 1]);
    }
  }

  lemma {:induction false} AllClosed(events: seq<Event>)
    requires forall i :: 0 <= i < |events| ==> !events[i].open
    ensures CloseLatestOpen(events) == events
  {
    if events == [] {
    } else {
      AllClosed(events[..|events| - 1]);
    }
  }

  lemma {:induction false} EnterKeeps(p: Progress, before: CallStatus, target: CallStatus, attempt: nat)
    requires EventsInv(p.events) && Allowed(before, target) && target != RetryScheduled
    ensures var p' := Enter(p, before, target, attempt);
            && EventsInv(p'.events) && OpenByStatus(p')
            && (HasOpen(p'.events) <==> !ClosesEvent(target))
  {
    ClosingLeavesNoneOpen(p.events);
  }

  lemma {:induction false} BeginKeeps(p: Progress, mode: Mode)
    requires ProgressInv(p) && Begin(p, mode).Some?
    ensures ProgressInv(Begin(p, mode).value) && Begin(p, mode).value.retryCount == p.retryCount
  {
    EnterKeeps(p.(errorCode := None, nextRetry := None), p.status, FirstStatus(mode), p.retryCount + 1);
  }

  /** The commit before analysis takes two steps. */
  lemma {:induction false} TwoStepsKeep(p: Progress, attempt: nat)
    requires ProgressInv(p)
    ensures ProgressInv(Enter(Enter(p, Transcribing, AssigningRoles, attempt), AssigningRoles, Analyzing, attempt))
  {
    EnterKeeps(p, Transcribing, AssigningRoles, attempt);
    EnterKeeps(Enter(p, Transcribing, AssigningRoles, attempt), AssigningRoles, Analyzing, attempt);
  }

  lemma {:induction false} FinishKeeps(
      p: Progress, before: CallStatus, copied: nat, lastSuccessful: Option<CallStatus>, reviewRequired: bool)
    requires ProgressInv(p) && Finish(p, before, copied, lastSuccessful, reviewRequired).Some?
    ensures var p' := Finish(p, before, copied, lastSuccessful, reviewRequired).value;
            ProgressInv(p') && p'.status in {ReviewNeeded, Completed} && !HasOpen(p'.events)
  {
    ThreeStepsKeep(p, before, copied + 1, if reviewRequired then ReviewNeeded else Completed);
  }

  lemma {:induction false} ThreeStepsKeep(p: Progress, before: CallStatus, attempt: nat, final: CallStatus)
    requires EventsInv(p.events) && Allowed(before, Validating) && final in {ReviewNeeded, Completed}
    ensures var following := Enter(Enter(p, before, Validating, attempt), Validating, CreatingFollowups, attempt);
            var done := Enter(following, CreatingFollowups, final, attempt);
            EventsInv(done.events) && !HasOpen(done.events)
  {
    var validating := Enter(p, before, Validating, attempt);
    EnterKeeps(p, before, Validating, attempt);
    EnterKeeps(validating, Validating, CreatingFollowups, attempt);
    EnterKeeps(Enter(validating, Validating, CreatingFollowups, attempt), CreatingFollowups, final, attempt);
  }

  /** From a status the worker itself committed the handler never raises, and it ends in a
      scheduled retry or in failure. */
  lemma {:induction false} HandlerLands(p: Progress, stage: Stage, d: Descriptor, policy: RetryPolicy, draw: real)
    requires p.status in {Preprocessing, Transcribing, Analyzing}
    ensures HandleFailure(p, stage, d, policy, draw).Some?
    ensures var p' := HandleFailure(p, stage, d, policy, draw).value;
            && p'.status == (if Decide(policy, d, p.retryCount, draw).Some? then RetryScheduled else Failed)
            && p'.nextRetry == Decide(policy, d, p.retryCount, draw)
            && p'.retryCount == p.retryCount + 1
  {
  }

  /** When exactly the handler raises, from any status a call can be committed with: a
      transient failure of a call still queued or already rescheduled, and any failure of a
      call that is finished or quarantined. */
  lemma {:induction false} HandlerRaisesExactly(
      p: Progress, stage: Stage, d: Descriptor, policy: RetryPolicy, draw: real)
    requires Committable(p.status)
    ensures HandleFailure(p, stage, d, policy, draw).None? <==>
            || p.status in {ReviewNeeded, Completed, Failed, Quarantined}
            || (p.status in {Queued, RetryScheduled} && d.transient && p.retryCount < |policy.schedule|)
  {
  }

  lemma {:induction false} FailureKeeps(p: Progress, stage: Stage, d: Descriptor, policy: RetryPolicy, draw: real)
    requires ProgressInv(p) && HandleFailure(p, stage, d, policy, draw).Some?
    ensures var p' := HandleFailure(p, stage, d, policy, draw).value;
            ProgressInv(p') && p'.status in {Failed, RetryScheduled}
  {
    ClosingLeavesNoneOpen(p.events);
  }

  lemma {:induction false} OperateKeeps(p: Progress, operation: Operation)
    requires ProgressInv(p)
    ensures ProgressInv(Operate(p, operation))
  {
  }

  /** What the invariant says to a reader of the events. */
  lemma {:induction false} EventsRead(p: Progress)
    requires ProgressInv(p)
    ensures forall i :: 0 <= i < |p.events| ==> Legal(p.events[i].before, p.events[i].target)
    ensures forall i, j :: 0 <= i < |p.events| && 0 <= j < |p.events| && p.events[i].open && p.events[j].open ==> i == j
    ensures EndsRun(p.events) ==> forall i :: 0 <= i < |p.events| ==> !p.events[i].open
    ensures HasOpen(p.events) <==> exists i :: 0 <= i < |p.events| && p.events[i].open
    ensures p.status in {Failed, RetryScheduled} ==> forall i :: 0 <= i < |p.events| ==> !p.events[i].open
  {
  }

  /** At most one open event, and none once the newest one ends a run. */
  lemma {:induction false} AtMostOneOpen(p: Progress, i: nat, j: nat)
    requires ProgressInv(p)
    requires i < |p.events| && j < |p.events| && p.events[i].open && p.events[j].open
    ensures i == j == |p.events| - 1
    ensures p.events[i].target !in {Completed, ReviewNeeded, Failed, RetryScheduled}
  {
  }
}

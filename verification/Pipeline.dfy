/** The call-processing state machine, error classification and retry policy
    (backend/app/services/pipeline.py). */
module Pipeline {
  import opened Basics
  import opened Wrappers

  /** A call's status. `Received` exists in the database type only: the state machine does not
      know it, so no transition from it or to it is ever accepted. */
  datatype CallStatus =
    | Discovered | WaitingForFile | Received | Uploaded | Queued | Preprocessing | Diarizing | Transcribing
    | AssigningRoles | Analyzing | Validating | CreatingFollowups | ReviewNeeded | Completed
    | RetryScheduled | Failed | Quarantined

  function Forward(current: CallStatus): set<CallStatus> {
    match current
    case Discovered => {WaitingForFile, Queued, Quarantined}
    case WaitingForFile => {Queued, Quarantined, Failed}
    case Received => {}
    case Uploaded => {Queued, Quarantined}
    case Queued => {Preprocessing, Analyzing, Failed}
    case Preprocessing => {Diarizing, Transcribing, RetryScheduled, Failed, Quarantined}
    case Diarizing => {Transcribing, RetryScheduled, Failed}
    case Transcribing => {AssigningRoles, RetryScheduled, Failed}
    case AssigningRoles => {Analyzing, RetryScheduled, Failed}
    case Analyzing => {Validating, RetryScheduled, Failed}
    case Validating => {CreatingFollowups, ReviewNeeded, Failed}
    case CreatingFollowups => {Completed, ReviewNeeded, Failed}
    case RetryScheduled => {Queued, Preprocessing, Transcribing, Analyzing, Failed}
    case ReviewNeeded => {Queued, Analyzing, Completed}
    case Completed => {Queued, Analyzing}
    case Failed => {Queued, Analyzing, Quarantined}
    case Quarantined => {Queued}
  }

  /** From where each status may be entered; no transition leads to the first three. */
  predicate EnteredFrom(target: CallStatus, current: CallStatus) {
    match target
    case Discovered => false
    case Received => false
    case Uploaded => false
    case WaitingForFile => current.Discovered?
    case Queued =>
      current in {Discovered, WaitingForFile, Uploaded, RetryScheduled, ReviewNeeded, Completed, Failed, Quarantined}
    case Preprocessing => current.Queued? || current.RetryScheduled?
    case Diarizing => current.Preprocessing?
    case Transcribing => current.Preprocessing? || current.Diarizing? || current.RetryScheduled?
    case AssigningRoles => current.Transcribing?
    case Analyzing => current in {Queued, AssigningRoles, RetryScheduled, ReviewNeeded, Completed, Failed}
    case Validating => current.Analyzing?
    case CreatingFollowups => current.Validating?
    case ReviewNeeded => current.Validating? || current.CreatingFollowups?
    case Completed => current.CreatingFollowups? || current.ReviewNeeded?
    case RetryScheduled => current in {Preprocessing, Diarizing, Transcribing, AssigningRoles, Analyzing}
    case Failed =>
      current !in {Discovered, Received, Uploaded, ReviewNeeded, Completed, Failed, Quarantined}
    case Quarantined => current in {Discovered, WaitingForFile, Uploaded, Preprocessing, Failed}
  }

  lemma {:induction false} AllowedExactly(current: CallStatus, target: CallStatus)
    ensures Allowed(current, target) <==> EnteredFrom(target, current)
  {
  }

  /** Whether `ensure_transition` returns instead of raising. */
  predicate Allowed(current: CallStatus, target: CallStatus) {
    target in Forward(current)
  }

  /** The states a pipeline event is closed in as soon as it is written. */
  predicate ClosesEvent(target: CallStatus) {
    target in {Completed, ReviewNeeded, Failed, Quarantined}
  }

  // ---------- errors ----------

  datatype Category =
    | Input | Storage | Database | Queue | Transcription | Analysis | Validation | Configuration | Internal

  datatype Descriptor = Descriptor(code: string, category: Category, transient: bool)

  const STORAGE_UNAVAILABLE := Descriptor("storage_unavailable", Storage, true)
  const TRANSCRIPTION_TIMEOUT := Descriptor("transcription_timeout", Transcription, true)
  const TRANSCRIPTION_UNAVAILABLE := Descriptor("transcription_unavailable", Transcription, true)
  const EMPTY_TRANSCRIPT := Descriptor("empty_transcript", Transcription, false)
  const ANALYSIS_UNAVAILABLE := Descriptor("analysis_unavailable", Analysis, true)
  const UNSUPPORTED_EVIDENCE := Descriptor("unsupported_evidence", Validation, false)
  const INTERNAL_ERROR := Descriptor("internal_error", Internal, false)
  const DATABASE_UNAVAILABLE := Descriptor("database_unavailable", Database, true)

  const ERRORS := map[
    "audio_corrupt" := Descriptor("audio_corrupt", Input, false),
    "audio_too_short" := Descriptor("audio_too_short", Input, false),
    "unsupported_audio" := Descriptor("unsupported_audio", Input, false),
    "storage_unavailable" := STORAGE_UNAVAILABLE,
    "transcription_timeout" := TRANSCRIPTION_TIMEOUT,
    "transcription_unavailable" := TRANSCRIPTION_UNAVAILABLE,
    "empty_transcript" := EMPTY_TRANSCRIPT,
    "analysis_invalid" := Descriptor("analysis_invalid", Analysis, true),
    "analysis_unavailable" := ANALYSIS_UNAVAILABLE,
    "unsupported_evidence" := UNSUPPORTED_EVIDENCE,
    "configuration_invalid" := Descriptor("configuration_invalid", Configuration, false),
    "internal_error" := INTERNAL_ERROR
  ]

  /** What was raised, by the first test of `classify_exception` that recognises it. */
  datatype Exception =
    | PipelineFailure(descriptor: Descriptor)
    | EmptyTranscriptMessage
    | ProviderTimeout
    | ProviderUnavailable
    | ObjectStoreError
    | DatabaseError
    | Timeout
    | ConnectionLost
    | ValueOrTypeError
    | OtherError

  datatype Stage = QueuedStage | TranscribingStage | AnalyzingStage | ValidatingStage | FollowupStage {
    function Name(): string {
      match this
      case QueuedStage => "queued"
      case TranscribingStage => "transcribing"
      case AnalyzingStage => "analyzing"
      case ValidatingStage => "validating"
      case FollowupStage => "creating_followups"
    }
  }

  function Classify(e: Exception, stage: Stage): Descriptor {
    match e
    case PipelineFailure(d) => d
    case EmptyTranscriptMessage => EMPTY_TRANSCRIPT
    case ProviderTimeout => if stage.TranscribingStage? then TRANSCRIPTION_TIMEOUT else ANALYSIS_UNAVAILABLE
    case ProviderUnavailable => if stage.TranscribingStage? then TRANSCRIPTION_UNAVAILABLE else ANALYSIS_UNAVAILABLE
    case ObjectStoreError => STORAGE_UNAVAILABLE
    case DatabaseError => DATABASE_UNAVAILABLE
    case Timeout =>
      ByCode(if stage.TranscribingStage? then "transcription_timeout" else stage.Name() + "_unavailable")
    case ConnectionLost => ByCode(stage.Name() + "_unavailable")
    case ValueOrTypeError => if stage.ValidatingStage? then UNSUPPORTED_EVIDENCE else INTERNAL_ERROR
    case OtherError => INTERNAL_ERROR
  }

  function ByCode(code: string): Descriptor {
    if code in ERRORS then ERRORS[code] else Descriptor(code, Internal, true)
  }

  /** Which raised exceptions are retried: the ones of the network, the storage and the
      database, and a pipeline failure that says so itself. */
  lemma {:induction false} TransientExactly(e: Exception, stage: Stage)
    ensures Classify(e, stage).transient
            <==> match e
                 case PipelineFailure(d) => d.transient
                 case ProviderTimeout => true
                 case ProviderUnavailable => true
                 case ObjectStoreError => true
                 case DatabaseError => true
                 case Timeout => true
                 case ConnectionLost => true
                 case _ => false
  {
    if e.Timeout? || e.ConnectionLost? {
      StageCodesAreUnlisted(stage);
    }
  }

  /** What an exception is recorded as: a failure of the pipeline as itself, one of the services by
      the service, and a timeout or a lost connection by the stage it happened in. */
  lemma {:induction false} ClassifiedExactly(e: Exception, stage: Stage)
    ensures var transcribing := stage == TranscribingStage;
            Classify(e, stage)
            == match e
               case PipelineFailure(d) => d
               case EmptyTranscriptMessage => Descriptor("empty_transcript", Transcription, false)
               case ProviderTimeout =>
                 if transcribing then Descriptor("transcription_timeout", Transcription, true)
                 else Descriptor("analysis_unavailable", Analysis, true)
               case ProviderUnavailable =>
                 if transcribing then Descriptor("transcription_unavailable", Transcription, true)
                 else Descriptor("analysis_unavailable", Analysis, true)
               case ObjectStoreError => Descriptor("storage_unavailable", Storage, true)
               case DatabaseError => Descriptor("database_unavailable", Database, true)
               case Timeout =>
                 if transcribing then Descriptor("transcription_timeout", Transcription, true)
                 else Descriptor(stage.Name() + "_unavailable", Internal, true)
               case ConnectionLost => Descriptor(stage.Name() + "_unavailable", Internal, true)
               case ValueOrTypeError =>
                 if stage == ValidatingStage then Descriptor("unsupported_evidence", Validation, false)
                 else Descriptor("internal_error", Internal, false)
               case OtherError => Descriptor("internal_error", Internal, false)
  {
    if e.Timeout? || e.ConnectionLost? {
      StageCodesAreUnlisted(stage);
    }
  }

  /** No stage's own name with "_unavailable" is a listed code, so every such failure gets the
      generic internal descriptor. */
  lemma {:induction false} StageCodesAreUnlisted(stage: Stage)
    ensures stage.Name() + "_unavailable" !in ERRORS
  {
    var code := stage.Name() + "_unavailable";
    match stage
    case QueuedStage => assert code[0] == 'q';
    case TranscribingStage => assert code[8] == 'b';
    case AnalyzingStage => assert code[5] == 'z';
    case ValidatingStage => assert code[0] == 'v';
    case FollowupStage => assert code[1] == 'r';
  }

  // ---------- retry policy ----------

  /** `base * factor`, rounded. */
  function Scaled(base: real, factor: real): int {
    RoundHalfEven(base * factor)
  }

  datatype RetryPolicy = RetryPolicy(schedule: seq<int>, jitterRatio: real) {
    /** What the constructor insists on. */
    ghost predicate Valid() {
      schedule != [] && (forall k :: 0 <= k < |schedule| ==> schedule[k] > 0) && 0.0 <= jitterRatio <= 1.0
    }

    /** The longest delay of a slot. */
    function Cap(slot: nat): int
      requires slot < |schedule|
    {
      Scaled(schedule[slot] as real, 1.0 + jitterRatio)
    }

    /** The shortest delay of a slot. */
    function Least(slot: nat): int
      requires slot < |schedule|
    {
      Scaled(schedule[slot] as real, 1.0 - jitterRatio)
    }

    /** Sum of the longest delays of the slots up to `to`. */
    function CapSum(lo: nat, hi: nat): int
      requires lo <= hi <= |schedule|
      decreases hi
    {
      if lo == hi then 0 else CapSum(lo, hi - 1) + Cap(hi - 1)
    }
  }

  function Jitter(ratio: real, draw: real): real {
    (draw * 2.0 - 1.0) * ratio
  }

  /** `None` when the failure is final, otherwise the delay in seconds. `draw` is the value the
      random source returned. */
  function Decide(policy: RetryPolicy, d: Descriptor, attempt: nat, draw: real): Option<int> {
    if !d.transient || attempt >= |policy.schedule| then None
    else
      var base := policy.schedule[attempt] as real;
      var delay := Scaled(base, 1.0 + Jitter(policy.jitterRatio, draw));
      Some(if delay < 1 then 1 else delay)
  }

  lemma {:induction false} DelayInBand(policy: RetryPolicy, d: Descriptor, attempt: nat, draw: real)
    requires policy.Valid() && 0.0 <= draw <= 1.0
    ensures Decide(policy, d, attempt, draw).Some? <==> d.transient && attempt < |policy.schedule|
    ensures Decide(policy, d, attempt, draw).Some? ==>
              var delay := Decide(policy, d, attempt, draw).value;
              1 <= delay && policy.Least(attempt) <= delay <= policy.Cap(attempt)
  {
    if d.transient && attempt < |policy.schedule| {
      var base, ratio := policy.schedule[attempt] as real, policy.jitterRatio;
      JitterRange(draw, ratio);
      ScaledMonotone(base, 1.0 - ratio, 1.0 + Jitter(ratio, draw));
      ScaledMonotone(base, 1.0 + Jitter(ratio, draw), 1.0 + ratio);
      ScaledAtLeastOne(base, 1.0 + ratio);
    }
  }

  /** The delay is the slot's time stretched by a factor between `1 - ratio` for a draw of zero and
      `1 + ratio` for a draw of one, to the nearest second, and at least one. */
  lemma {:induction false} DelayNearest(policy: RetryPolicy, d: Descriptor, attempt: nat, draw: real)
    requires d.transient && attempt < |policy.schedule|
    ensures Decide(policy, d, attempt, draw).Some?
    ensures Nearest(Decide(policy, d, attempt, draw).value,
                    Stretched(policy.schedule[attempt] as real, draw, policy.jitterRatio))
  {
    NearestStretch(policy.schedule[attempt] as real, draw, policy.jitterRatio);
  }

  lemma {:induction false} NearestStretch(base: real, draw: real, ratio: real)
    ensures var delay := Scaled(base, 1.0 + Jitter(ratio, draw));
            Nearest(if delay < 1 then 1 else delay, Stretched(base, draw, ratio))
  {
    StretchedBy(base, draw, ratio);
    RoundedDelay(base * (1.0 + Jitter(ratio, draw)));
  }

  function Stretched(base: real, draw: real, ratio: real): real {
    base * (1.0 - ratio + 2.0 * draw * ratio)
  }

  ghost predicate Nearest(delay: int, exact: real) {
    if exact < 1.0 then delay == 1 else -0.5 <= delay as real - exact <= 0.5
  }

  lemma {:induction false} RoundedDelay(exact: real)
    ensures Nearest(if RoundHalfEven(exact) < 1 then 1 else RoundHalfEven(exact), exact)
  {
    RoundNearest(exact, 0);
  }

  lemma {:induction false} StretchedBy(base: real, draw: real, ratio: real)
    ensures base * (1.0 + Jitter(ratio, draw)) == Stretched(base, draw, ratio)
  {
    assert (draw * 2.0 - 1.0) * ratio == 2.0 * draw * ratio - ratio;
  }

  lemma {:induction false} JitterRange(draw: real, ratio: real)
    requires 0.0 <= draw <= 1.0 && 0.0 <= ratio
    ensures -ratio <= Jitter(ratio, draw) <= ratio
  {
    ProductNonNegative(draw, ratio);
    ProductNonNegative(1.0 - draw, ratio);
  }

  lemma {:induction false} ProductNonNegative(x: real, y: real)
    requires 0.0 <= x && 0.0 <= y
    ensures 0.0 <= x * y
  {
    if x == 0.0 {
      assert x * y == 0.0;
    } else if y == 0.0 {
      assert x * y == 0.0;
    } else {
      assert x * y > 0.0;
    }
  }

  lemma {:induction false} ProductMonotone(base: real, x: real, y: real)
    requires 0.0 <= base && x <= y
    ensures base * x <= base * y
  {
    ProductNonNegative(base, y - x);
    assert base * (y - x) == base * y - base * x;
  }

  lemma {:induction false} ScaledMonotone(base: real, x: real, y: real)
    requires 0.0 <= base && x <= y
    ensures Scaled(base, x) <= Scaled(base, y)
  {
    ProductMonotone(base, x, y);
    RoundMonotone(base * x, base * y);
  }

  lemma {:induction false} ScaledAtLeastOne(base: real, x: real)
    requires 1.0 <= base && 1.0 <= x
    ensures 1 <= Scaled(base, x)
  {
    ProductMonotone(base, 1.0, x);
    RoundMonotone(1.0, base * x);
  }

  // ---------- the retry budget ----------

  /** One failure the handler saw: what it was and what the random source returned. */
  datatype Fault = Fault(descriptor: Descriptor, draw: real)

  /** The delays scheduled by a run of failures, when the count starts at `count` and every
      failure, retried or not, raises it by one. */
  function Delays(policy: RetryPolicy, count: nat, failures: seq<Fault>): seq<int>
    decreases |failures|
  {
    if failures == [] then []
    else
      var decision := Decide(policy, failures[0].descriptor, count, failures[0].draw);
      (if decision.Some? then [decision.value] else []) + Delays(policy, count + 1, failures[1..])
  }

  /** The slots these delays were taken from. */
  function Slots(policy: RetryPolicy, count: nat, failures: seq<Fault>): seq<nat>
    decreases |failures|
  {
    if failures == [] then []
    else
      (if Decide(policy, failures[0].descriptor, count, failures[0].draw).Some? then [count] else [])
      + Slots(policy, count + 1, failures[1..])
  }

  /** The slots of `slots` go up, starting at `least` or later, and every delay keeps to the
      jitter band of its slot. */
  ghost predicate InBands(policy: RetryPolicy, delays: seq<int>, slots: seq<nat>, least: nat) {
    && |slots| == |delays|
    && (forall k :: 0 <= k < |slots| ==> least <= slots[k] < |policy.schedule|)
    && (forall k :: 0 <= k < |slots| ==> policy.Least(slots[k]) <= delays[k] <= policy.Cap(slots[k]))
    && (forall j, k :: 0 <= j < k < |slots| ==> slots[j] < slots[k])
  }

  /** Whatever fails, no slot of the schedule is used twice or out of order. */
  lemma {:induction false} DelaysInBands(policy: RetryPolicy, count: nat, failures: seq<Fault>)
    requires policy.Valid()
    requires forall k :: 0 <= k < |failures| ==> 0.0 <= failures[k].draw <= 1.0
    ensures InBands(policy, Delays(policy, count, failures), Slots(policy, count, failures), count)
    decreases |failures|
  {
    if failures == [] {
    } else {
      var f := failures[0];
      DelayInBand(policy, f.descriptor, count, f.draw);
      DelaysInBands(policy, count + 1, failures[1..]);
    }
  }

  function Sum(s: seq<int>): int {
    if s == [] then 0 else s[0] + Sum(s[1..])
  }

  lemma {:induction false} CapSumFirst(policy: RetryPolicy, lo: nat, hi: nat)
    requires policy.Valid() && lo < hi <= |policy.schedule|
    ensures policy.CapSum(lo, hi) == policy.Cap(lo) + policy.CapSum(lo + 1, hi)
    decreases hi
  {
    if lo + 1 < hi { CapSumFirst(policy, lo, hi - 1); }
  }

  lemma {:induction false} CapPositive(policy: RetryPolicy, slot: nat)
    requires policy.Valid() && slot < |policy.schedule|
    ensures policy.Cap(slot) >= 1
  {
    DelayInBand(policy, INTERNAL_ERROR.(transient := true), slot, 0.5);
  }

  lemma {:induction false} CapSumNonNegative(policy: RetryPolicy, lo: nat, hi: nat)
    requires policy.Valid() && lo <= hi <= |policy.schedule|
    ensures 0 <= policy.CapSum(lo, hi)
    decreases hi
  {
    if lo == hi {
    } else {
      CapPositive(policy, hi - 1);
      CapSumNonNegative(policy, lo, hi - 1);
    }
  }

  /** However many failures follow a reset, at most one retry per slot is scheduled, each delay
      is at least one second, and together they stay within the sum of the longest delays. */
  lemma {:induction false} RetryBudget(policy: RetryPolicy, count: nat, failures: seq<Fault>)
    requires policy.Valid()
    requires forall k :: 0 <= k < |failures| ==> 0.0 <= failures[k].draw <= 1.0
    ensures var delays := Delays(policy, count, failures);
            var slots := |policy.schedule|;
            && (count <= slots ==> |delays| <= slots - count && Sum(delays) <= policy.CapSum(count, slots))
            && (count >= slots ==> delays == [])
            && forall k :: 0 <= k < |delays| ==> delays[k] >= 1
    decreases |failures|
  {
    var slots := |policy.schedule|;
    if failures == [] {
      if count <= slots { CapSumNonNegative(policy, count, slots); }
    } else {
      var f := failures[0];
      DelayInBand(policy, f.descriptor, count, f.draw);
      RetryBudget(policy, count + 1, failures[1..]);
      if count < slots {
        CapSumFirst(policy, count, slots);
        CapPositive(policy, count);
        CapSumNonNegative(policy, count + 1, slots);
        var rest := Delays(policy, count + 1, failures[1..]);
        var decision := Decide(policy, f.descriptor, count, f.draw);
        if decision.Some? {
          assert ([decision.value] + rest)[1..] == rest;
        } else {
          assert [] + rest == rest;
        }
      }
    }
  }
}

/** Analysis versions, their human review and their publication
    (backend/app/services/versioning.py, backend/app/main.py). The rows of one call are kept
    together: a version and its review case share one index, and a case carries its own events. */
module Reviews {
  import opened Wrappers
  import Transcript
  import E = Evidence

  datatype Status =
    | Draft | QueuedForReview | InReview | ChangesRequested | Approved | Rejected | Published | Superseded
    | PolicyApproved

  datatype Action = Assign | Approve | Reject | RequestChanges | Publish

  datatype Reason =
    | PilotFirst50 | LowConfidence | UnsupportedEvidence | AmbiguousSpeakerRoles | CriticalOutcome
    | CriticalFacts | QualitySample

  /** The row's confidence, outcome and score columns are those of the stored analysis. */
  datatype AnalysisVersion = AnalysisVersion(
    number: nat, transcript: nat, status: Status, evidenceValidated: bool,
    analysis: E.Analysis, evidence: seq<E.Check>)

  datatype ReviewEvent = ReviewEvent(actor: string, action: Action, before: Status, after: Status)

  datatype ReviewCase = ReviewCase(
    version: nat, status: Status, reasons: seq<Reason>, required: bool,
    assignee: Option<string>, note: Option<string>, events: seq<ReviewEvent>)

  datatype Kind = ByHuman | ByPolicy

  datatype Publication = Publication(call: nat, version: nat, actor: string, kind: Kind)

  datatype Reviews = Reviews(
    versions: seq<AnalysisVersion>, cases: seq<ReviewCase>,
    latest: Option<nat>, reviewed: Option<nat>, published: Option<nat>, outcomeConfirmed: bool)

  // ---------- publications ----------

  /** The publications of one call, in order. */
  function Of(log: seq<Publication>, call: nat): seq<Publication> {
    if log == [] then []
    else Of(log[..|log| - 1], call) + if log[|log| - 1].call == call then [log[|log| - 1]] else []
  }

  /** The calls a human has published some version of. */
  function HumanPublished(log: seq<Publication>): set<nat> {
    if log == [] then {}
    else HumanPublished(log[..|log| - 1]) + if log[|log| - 1].kind == ByHuman then {log[|log| - 1].call} else {}
  }

  lemma {:induction false} InOf(log: seq<Publication>, call: nat, i: nat)
    requires i < |log| && log[i].call == call
    ensures log[i] in Of(log, call)
  {
    if i < |log| - 1 {
      InOf(log[..|log| - 1], call, i);
    }
  }

  /** A call counts for the pilot exactly when a human published some version of it. */
  lemma {:induction false} HumanPublishedExactly(log: seq<Publication>, call: nat)
    ensures call in HumanPublished(log) <==> exists i :: 0 <= i < |log| && log[i].call == call && log[i].kind == ByHuman
  {
    if log == [] {
    } else {
      var init := log[..|log| - 1];
      HumanPublishedExactly(init, call);
      if call in HumanPublished(init) {
        var i :| 0 <= i < |init| && init[i].call == call && init[i].kind == ByHuman;
        assert log[i] == init[i];
      }
      forall i | 0 <= i < |log| && log[i].call == call && log[i].kind == ByHuman ensures call in HumanPublished(log) {
        if i < |init| { assert init[i] == log[i]; }
      }
    }
  }

  // ---------- _review_reasons ----------

  function When(condition: bool, reason: Reason): seq<Reason> {
    if condition then [reason] else []
  }

  predicate CriticalFactsPresent(a: E.Analysis) {
    E.AMOUNT in a.facts || E.EXACT_AMOUNT in a.facts || E.REQUESTED_DISCOUNT in a.facts || E.FOLLOWUP_AT in a.facts
    || a.riskFlag
  }

  function Reasons(human: nat, call: nat, a: E.Analysis, checks: seq<E.Check>): seq<Reason> {
    When(human < 50, PilotFirst50) + When(a.outcomeConfidence < 0.75, LowConfidence)
    + When(E.AnyUnsupported(checks), UnsupportedEvidence) + When(a.roleConfidence < 0.70, AmbiguousSpeakerRoles)
    + When(a.outcome == E.Won || a.outcome == E.Lost, CriticalOutcome) + When(CriticalFactsPresent(a), CriticalFacts)
    + When(human >= 50 && call % 10 == 0, QualitySample)
  }

  /** A version is published without review exactly when all of this holds. */
  predicate NeedsNoReview(human: nat, call: nat, a: E.Analysis, checks: seq<E.Check>) {
    && 50 <= human && 0.75 <= a.outcomeConfidence && !E.AnyUnsupported(checks)
    && 0.70 <= a.roleConfidence && a.outcome != E.Won && a.outcome != E.Lost
    && !CriticalFactsPresent(a) && call % 10 != 0
  }

  lemma {:induction false} EmptyConcat<T>(a: seq<T>, b: seq<T>)
    ensures a + b == [] <==> a == [] && b == []
  {
    assert |a + b| == |a| + |b|;
  }

  lemma {:induction false} NoReasonExactly(human: nat, call: nat, a: E.Analysis, checks: seq<E.Check>)
    ensures Reasons(human, call, a, checks) == [] <==> NeedsNoReview(human, call, a, checks)
  {
    var r1, r2, r3 := When(human < 50, PilotFirst50), When(a.outcomeConfidence < 0.75, LowConfidence),
        When(E.AnyUnsupported(checks), UnsupportedEvidence);
    var r4, r5 := When(a.roleConfidence < 0.70, AmbiguousSpeakerRoles),
        When(a.outcome == E.Won || a.outcome == E.Lost, CriticalOutcome);
    var r6, r7 := When(CriticalFactsPresent(a), CriticalFacts), When(human >= 50 && call % 10 == 0, QualitySample);
    EmptyConcat(r1 + r2 + r3 + r4 + r5 + r6, r7);
    EmptyConcat(r1 + r2 + r3 + r4 + r5, r6);
    EmptyConcat(r1 + r2 + r3 + r4, r5);
    EmptyConcat(r1 + r2 + r3, r4);
    EmptyConcat(r1 + r2, r3);
    EmptyConcat(r1, r2);
  }

  /** When each reason is given. */
  predicate Warranted(human: nat, call: nat, a: E.Analysis, checks: seq<E.Check>, reason: Reason) {
    match reason
    case PilotFirst50 => human <= 49
    case LowConfidence => a.outcomeConfidence < 0.75
    case UnsupportedEvidence => exists k :: 0 <= k < |checks| && !checks[k].supported
    case AmbiguousSpeakerRoles => a.roleConfidence < 0.70
    case CriticalOutcome => a.outcome.Won? || a.outcome.Lost?
    case CriticalFacts =>
      a.riskFlag || a.facts.Keys * {E.AMOUNT, E.EXACT_AMOUNT, E.REQUESTED_DISCOUNT, E.FOLLOWUP_AT} != {}
    case QualitySample => human >= 50 && call % 10 == 0
  }

  /** The place of a reason in the order they are listed in. */
  function Place(reason: Reason): nat {
    match reason
    case PilotFirst50 => 0
    case LowConfidence => 1
    case UnsupportedEvidence => 2
    case AmbiguousSpeakerRoles => 3
    case CriticalOutcome => 4
    case CriticalFacts => 5
    case QualitySample => 6
  }

  ghost predicate InPlace(reasons: seq<Reason>) {
    forall i, j :: 0 <= i < j < |reasons| ==> Place(reasons[i]) < Place(reasons[j])
  }

  lemma {:induction false} CriticalFactsKeys(a: E.Analysis)
    ensures CriticalFactsPresent(a) <==>
            a.riskFlag || a.facts.Keys * {E.AMOUNT, E.EXACT_AMOUNT, E.REQUESTED_DISCOUNT, E.FOLLOWUP_AT} != {}
  {
    var critical := {E.AMOUNT, E.EXACT_AMOUNT, E.REQUESTED_DISCOUNT, E.FOLLOWUP_AT};
    if a.facts.Keys * critical != {} {
      var f :| f in a.facts.Keys * critical;
    }
    if CriticalFactsPresent(a) && !a.riskFlag {
      var f :| f in critical && f in a.facts;
      assert f in a.facts.Keys * critical;
    }
  }

  /** The warranted ones of the first `n` reasons. */
  ghost predicate FirstReasons(
      reasons: seq<Reason>, n: nat, human: nat, call: nat, a: E.Analysis, checks: seq<E.Check>)
  {
    && (forall x :: x in reasons <==> Place(x) < n && Warranted(human, call, a, checks, x))
    && InPlace(reasons)
  }

  lemma {:induction false} NextReason(
      reasons: seq<Reason>, human: nat, call: nat, a: E.Analysis, checks: seq<E.Check>, condition: bool,
      reason: Reason)
    requires FirstReasons(reasons, Place(reason), human, call, a, checks)
    requires condition <==> Warranted(human, call, a, checks, reason)
    ensures FirstReasons(reasons + When(condition, reason), Place(reason) + 1, human, call, a, checks)
  {
    var more := reasons + When(condition, reason);
    forall x ensures x in more <==> Place(x) < Place(reason) + 1 && Warranted(human, call, a, checks, x) {
      assert x in more <==> x in reasons || (condition && x == reason);
      assert Place(x) == Place(reason) ==> x == reason;
    }
  }

  lemma {:induction false} FirstThree(human: nat, call: nat, a: E.Analysis, checks: seq<E.Check>)
    ensures FirstReasons(When(human < 50, PilotFirst50) + When(a.outcomeConfidence < 0.75, LowConfidence)
                         + When(E.AnyUnsupported(checks), UnsupportedEvidence), 3, human, call, a, checks)
  {
    var s1 := When(human < 50, PilotFirst50);
    NextReason(s1, human, call, a, checks, a.outcomeConfidence < 0.75, LowConfidence);
    NextReason(s1 + When(a.outcomeConfidence < 0.75, LowConfidence), human, call, a, checks,
               E.AnyUnsupported(checks), UnsupportedEvidence);
  }

  lemma {:induction false} NextTwo(
      reasons: seq<Reason>, human: nat, call: nat, a: E.Analysis, checks: seq<E.Check>)
    requires FirstReasons(reasons, 3, human, call, a, checks)
    ensures FirstReasons(reasons + When(a.roleConfidence < 0.70, AmbiguousSpeakerRoles)
                         + When(a.outcome == E.Won || a.outcome == E.Lost, CriticalOutcome), 5, human, call, a, checks)
  {
    NextReason(reasons, human, call, a, checks, a.roleConfidence < 0.70, AmbiguousSpeakerRoles);
    NextReason(reasons + When(a.roleConfidence < 0.70, AmbiguousSpeakerRoles), human, call, a, checks,
               a.outcome == E.Won || a.outcome == E.Lost, CriticalOutcome);
  }

  lemma {:induction false} LastTwo(
      reasons: seq<Reason>, human: nat, call: nat, a: E.Analysis, checks: seq<E.Check>)
    requires FirstReasons(reasons, 5, human, call, a, checks)
    ensures FirstReasons(reasons + When(CriticalFactsPresent(a), CriticalFacts)
                         + When(human >= 50 && call % 10 == 0, QualitySample), 7, human, call, a, checks)
  {
    CriticalFactsKeys(a);
    NextReason(reasons, human, call, a, checks, CriticalFactsPresent(a), CriticalFacts);
    NextReason(reasons + When(CriticalFactsPresent(a), CriticalFacts), human, call, a, checks,
               human >= 50 && call % 10 == 0, QualitySample);
  }

  lemma {:induction false} AllReasons(human: nat, call: nat, a: E.Analysis, checks: seq<E.Check>)
    ensures FirstReasons(Reasons(human, call, a, checks), 7, human, call, a, checks)
  {
    var s3 := When(human < 50, PilotFirst50) + When(a.outcomeConfidence < 0.75, LowConfidence)
              + When(E.AnyUnsupported(checks), UnsupportedEvidence);
    var s5 := s3 + When(a.roleConfidence < 0.70, AmbiguousSpeakerRoles)
              + When(a.outcome == E.Won || a.outcome == E.Lost, CriticalOutcome);
    FirstThree(human, call, a, checks);
    NextTwo(s3, human, call, a, checks);
    LastTwo(s5, human, call, a, checks);
  }

  lemma {:induction false} SameReasons(
      reasons: seq<Reason>, human: nat, call: nat, a: E.Analysis, checks: seq<E.Check>)
    requires FirstReasons(reasons, 7, human, call, a, checks)
    ensures forall x :: x in reasons <==> Warranted(human, call, a, checks, x)
    ensures InPlace(reasons)
  {
    forall x: Reason ensures Place(x) < 7 {
    }
  }

  /** Exactly the warranted reasons are listed, each once, in their order. */
  lemma {:induction false} ReasonsExactly(human: nat, call: nat, a: E.Analysis, checks: seq<E.Check>)
    ensures forall x :: x in Reasons(human, call, a, checks) <==> Warranted(human, call, a, checks, x)
    ensures InPlace(Reasons(human, call, a, checks))
  {
    AllReasons(human, call, a, checks);
    SameReasons(Reasons(human, call, a, checks), human, call, a, checks);
  }

  method ReviewReasons(
      log: seq<Publication>, call: nat, a: E.Analysis, checks: seq<E.Check>) returns (reasons: seq<Reason>)
    ensures reasons == Reasons(|HumanPublished(log)|, call, a, checks)
    ensures reasons == [] <==> NeedsNoReview(|HumanPublished(log)|, call, a, checks)
  {
    var human := |HumanPublished(log)|;
    NoReasonExactly(human, call, a, checks);
    reasons := When(human < 50, PilotFirst50);
    reasons := reasons + When(a.outcomeConfidence < 0.75, LowConfidence);
    reasons := reasons + When(E.AnyUnsupported(checks), UnsupportedEvidence);
    reasons := reasons + When(a.roleConfidence < 0.70, AmbiguousSpeakerRoles);
    reasons := reasons + When(a.outcome == E.Won || a.outcome == E.Lost, CriticalOutcome);
    reasons := reasons + When(CriticalFactsPresent(a), CriticalFacts);
    reasons := reasons + When(human >= 50 && call % 10 == 0, QualitySample);
  }

  // ---------- create_analysis_version ----------

  function MaxNumber(versions: seq<AnalysisVersion>): nat {
    if versions == [] then 0
    else
      var rest := MaxNumber(versions[..|versions| - 1]);
      if versions[|versions| - 1].number > rest then versions[|versions| - 1].number else rest
  }

  /** A version with its review case; without any reason for review it is published at once. The
      second result lists the publication rows to add. */
  function CreateVersion(r: Reviews, call: nat, transcript: nat, human: nat, a: E.Analysis, checks: seq<E.Check>)
    : (Reviews, seq<Publication>)
  {
    var reasons := Reasons(human, call, a, checks);
    var required := reasons != [];
    var id := |r.versions|;
    var version := AnalysisVersion(MaxNumber(r.versions) + 1, transcript, if required then Draft else PolicyApproved,
                                   !E.AnyUnsupported(checks), a, checks);
    var review := ReviewCase(id, if required then QueuedForReview else PolicyApproved, reasons, required, None, None,
                             []);
    var added := r.(versions := r.versions + [version], cases := r.cases + [review], latest := Some(id));
    if required then (added, [])
    else (added.(reviewed := Some(id), published := Some(id)), [Publication(call, id, "review-policy", ByPolicy)])
  }

  method CreateAnalysisVersion(
      r: Reviews, log: seq<Publication>, call: nat, transcript: nat, a: E.Analysis, checks: seq<E.Check>)
    returns (r': Reviews, added: seq<Publication>, required: bool)
    ensures (r', added) == CreateVersion(r, call, transcript, |HumanPublished(log)|, a, checks)
    ensures required <==> Reasons(|HumanPublished(log)|, call, a, checks) != []
  {
    var number := MaxNumber(r.versions) + 1;
    var reasons := ReviewReasons(log, call, a, checks);
    required := reasons != [];
    var id := |r.versions|;
    r' := r.(versions := r.versions + [AnalysisVersion(number, transcript, if required then Draft else PolicyApproved,
                                                       !E.AnyUnsupported(checks), a, checks)]);
    r' := r'.(cases := r'.cases + [ReviewCase(id, if required then QueuedForReview else PolicyApproved, reasons,
                                              required, None, None, [])]);
    r' := r'.(latest := Some(id));
    added := [];
    if !required {
      r' := r'.(reviewed := Some(id));
      r' := r'.(published := Some(id));
      added := [Publication(call, id, "review-policy", ByPolicy)];
    }
  }

  lemma {:induction false} MaxNumberIsMax(versions: seq<AnalysisVersion>)
    ensures forall k :: 0 <= k < |versions| ==> versions[k].number <= MaxNumber(versions)
    ensures MaxNumber(versions) == 0 || exists k :: 0 <= k < |versions| && versions[k].number == MaxNumber(versions)
  {
    if versions == [] {
    } else {
      var init := versions[..|versions| - 1];
      MaxNumberIsMax(init);
      if MaxNumber(versions) == MaxNumber(init) != 0 {
        var k :| 0 <= k < |init| && init[k].number == MaxNumber(init);
        assert versions[k] == init[k];
      }
      forall k | 0 <= k < |versions| ensures versions[k].number <= MaxNumber(versions) {
        if k < |init| { assert versions[k] == init[k]; }
      }
    }
  }

  /** The next number after all that are given. */
  ghost predicate NextNumber(versions: seq<AnalysisVersion>, number: nat) {
    && (forall k :: 0 <= k < |versions| ==> versions[k].number < number)
    && (number == 1 || exists k :: 0 <= k < |versions| && versions[k].number == number - 1)
  }

  /** The analysis as stored, with its review: queued, or published at once when no reason for a
      review is warranted. */
  lemma {:induction false} CreatedExactly(
      r: Reviews, call: nat, transcript: nat, human: nat, a: E.Analysis, checks: seq<E.Check>)
    ensures var (r', added) := CreateVersion(r, call, transcript, human, a, checks);
            var n := |r.versions|;
            && |r'.versions| == n + 1 && r'.versions[..n] == r.versions
            && |r'.cases| == |r.cases| + 1 && r'.cases[..|r.cases|] == r.cases
            && r'.latest == Some(n) && r'.outcomeConfirmed == r.outcomeConfirmed
            && StoredVersion(r'.versions[n], transcript, a, checks) && NextNumber(r.versions, r'.versions[n].number)
            && NewCase(r'.cases[|r.cases|], n, human, call, a, checks)
            && if forall x :: !Warranted(human, call, a, checks, x) then
                 && r'.versions[n].status == r'.cases[|r.cases|].status == PolicyApproved
                 && r'.reviewed == r'.published == Some(n) && added == [Publication(call, n, "review-policy", ByPolicy)]
               else
                 && r'.versions[n].status == Draft && r'.cases[|r.cases|].status == QueuedForReview
                 && r'.reviewed == r.reviewed && r'.published == r.published && added == []
  {
    MaxNumberIsMax(r.versions);
    ReasonsExactly(human, call, a, checks);
    var reasons := Reasons(human, call, a, checks);
    if reasons != [] { assert reasons[0] in reasons; }
  }

  ghost predicate StoredVersion(version: AnalysisVersion, transcript: nat, a: E.Analysis, checks: seq<E.Check>) {
    && version.transcript == transcript && version.analysis == a && version.evidence == checks
    && (version.evidenceValidated <==> forall k :: 0 <= k < |checks| ==> checks[k].supported)
  }

  ghost predicate NewCase(
      review: ReviewCase, version: nat, human: nat, call: nat, a: E.Analysis, checks: seq<E.Check>)
  {
    && review.version == version && review.assignee == review.note == None && review.events == []
    && (forall x :: x in review.reasons <==> Warranted(human, call, a, checks, x)) && InPlace(review.reasons)
    && (review.required <==> review.reasons != [])
  }

  // ---------- transition_review ----------

  function Target(action: Action): Status {
    match action
    case Assign => InReview
    case Approve => Approved
    case Reject => Rejected
    case RequestChanges => ChangesRequested
    case Publish => Published
  }

  function AllowedFrom(action: Action): set<Status> {
    match action
    case Assign => {QueuedForReview, ChangesRequested}
    case Approve => {QueuedForReview, InReview, ChangesRequested}
    case Reject => {QueuedForReview, InReview, ChangesRequested}
    case RequestChanges => {QueuedForReview, InReview, Approved}
    case Publish => {Approved}
  }

  function SetStatus(versions: seq<AnalysisVersion>, k: nat, status: Status): seq<AnalysisVersion> {
    if k < |versions| then versions[k := versions[k].(status := status)] else versions
  }

  /** `completes`: the publication also completes the call with the version's outcome and score. */
  datatype Transition = Transition(reviews: Reviews, added: seq<Publication>, completes: bool)

  /** No result when the action is not allowed from the case's status. */
  function TransitionReview(
      r: Reviews, call: nat, k: nat, action: Action, actor: string, note: Option<string>): Option<Transition>
    requires k < |r.cases|
  {
    var review := r.cases[k];
    if review.status !in AllowedFrom(action) then None
    else
      var moved := review.(status := Target(action), note := note,
                           events := review.events + [ReviewEvent(actor, action, review.status, Target(action))]);
      var b := r.(cases := r.cases[k := moved], versions := SetStatus(r.versions, review.version, Target(action)));
      match action
      case Approve => Some(Transition(b.(reviewed := Some(review.version)), [], false))
      case Publish =>
        var old' := r.published;
        var versions := if old'.Some? && old'.value != review.version
            then SetStatus(b.versions, old'.value, Superseded) else b.versions;
        Some(Transition(
               b.(versions := versions, reviewed := Some(review.version), published := Some(review.version),
                  outcomeConfirmed := true),
               [Publication(call, review.version, actor, ByHuman)],
               review.version < |r.versions| && r.latest == Some(review.version)))
      case _ => Some(Transition(b, [], false))
  }

  /** What the endpoint answers before or instead of committing. */
  datatype Refusal = ReviewNotFound | SelfReviewNotAllowed | ReviewerNotEligible | InvalidTransition

  /** The endpoint: nobody approves or publishes a review of their own call, and a review is
      assigned only to an eligible member. */
  function PerformReviewAction(
      r: Reviews, call: nat, seller: Option<string>, k: nat, action: Action, actor: string,
      assignee: Option<string>, eligible: bool, note: Option<string>): Result<Transition, Refusal>
  {
    if k >= |r.cases| then Failure(ReviewNotFound)
    else if action in {Approve, Publish} && seller == Some(actor) then Failure(SelfReviewNotAllowed)
    else if action == Assign && assignee.Some? && !eligible then Failure(ReviewerNotEligible)
    else
      var assigned' := if action == Assign && assignee.Some?
          then r.(cases := r.cases[k := r.cases[k].(assignee := assignee)]) else r;
      match TransitionReview(assigned', call, k, action, actor, note)
      case None => Failure(InvalidTransition)
      case Some(t) => Success(t)
  }

  /** The actions each status is open to. */
  predicate OpenTo(status: Status, action: Action) {
    match status
    case QueuedForReview => action != Publish
    case InReview => action == Approve || action == Reject || action == RequestChanges
    case ChangesRequested => action == Assign || action == Approve || action == Reject
    case Approved => action == RequestChanges || action == Publish
    case _ => false
  }

  /** Where an action leaves a case. */
  predicate LeadsTo(action: Action, status: Status) {
    match status
    case InReview => action == Assign
    case ChangesRequested => action == RequestChanges
    case Approved => action == Approve
    case Rejected => action == Reject
    case Published => action == Publish
    case _ => false
  }

  /** Which answer the endpoint gives to which request. */
  lemma {:induction false} ActionAcceptedExactly(
      r: Reviews, call: nat, seller: Option<string>, k: nat, action: Action, actor: string,
      assignee: Option<string>, eligible: bool, note: Option<string>)
    ensures var answer := PerformReviewAction(r, call, seller, k, action, actor, assignee, eligible, note);
            var own := (action == Approve || action == Publish) && seller == Some(actor);
            var unfit := action == Assign && assignee != None && !eligible;
            && (answer == Failure(ReviewNotFound) <==> |r.cases| <= k)
            && (answer == Failure(SelfReviewNotAllowed) <==> k < |r.cases| && own)
            && (answer == Failure(ReviewerNotEligible) <==> k < |r.cases| && unfit)
            && (answer == Failure(InvalidTransition)
                <==> k < |r.cases| && !own && !unfit && !OpenTo(r.cases[k].status, action))
            && (answer.Success? <==> k < |r.cases| && !own && !unfit && OpenTo(r.cases[k].status, action))
  {
    if k < |r.cases| {
      TableExactly(r.cases[k].status, action);
    }
  }

  lemma {:induction false} TableExactly(status: Status, action: Action)
    ensures status in AllowedFrom(action) <==> OpenTo(status, action)
    ensures LeadsTo(action, Target(action))
  {
  }

  /** What an accepted action does to the case, its version, the version pointed to and the
      pointers, and what it adds to the publications. */
  lemma {:induction false} ActionDoes(
      r: Reviews, call: nat, seller: Option<string>, k: nat, action: Action, actor: string,
      assignee: Option<string>, eligible: bool, note: Option<string>)
    requires PerformReviewAction(r, call, seller, k, action, actor, assignee, eligible, note).Success?
    ensures var t := PerformReviewAction(r, call, seller, k, action, actor, assignee, eligible, note).value;
            && |t.reviews.cases| == |r.cases| && |t.reviews.versions| == |r.versions|
            && CaseMoved(r.cases[k], t.reviews.cases[k], action, actor, assignee, note)
            && (forall j :: 0 <= j < |r.cases| && j != k ==> t.reviews.cases[j] == r.cases[j])
            && (forall j :: 0 <= j < |r.versions| ==>
                VersionMoved(r.versions[j], t.reviews.versions[j], action, j == r.cases[k].version,
                             r.published == Some(j)))
            && PointersMoved(r, t, call, r.cases[k].version, action, actor)
  {
  }

  ghost predicate CaseMoved(
      review: ReviewCase, review': ReviewCase, action: Action, actor: string, assignee: Option<string>,
      note: Option<string>)
  {
    && review'.version == review.version && review'.reasons == review.reasons && review'.required == review.required
    && LeadsTo(action, review'.status) && review'.note == note
    && review'.assignee == (if action == Assign && assignee != None then assignee else review.assignee)
    && review'.events == review.events + [ReviewEvent(actor, action, review.status, review'.status)]
  }

  /** `acted`: the version is that of the case; `pointed`: it was the published one. */
  ghost predicate VersionMoved(
      version: AnalysisVersion, version': AnalysisVersion, action: Action, acted: bool, pointed: bool)
  {
    && version' == version.(status := version'.status)
    && if acted then LeadsTo(action, version'.status)
       else if pointed && action == Publish then version'.status == Superseded
       else version'.status == version.status
  }

  ghost predicate PointersMoved(r: Reviews, t: Transition, call: nat, version: nat, action: Action, actor: string) {
    && t.reviews.latest == r.latest
    && t.reviews.reviewed == (if action == Approve || action == Publish then Some(version) else r.reviewed)
    && t.reviews.published == (if action == Publish then Some(version) else r.published)
    && (t.reviews.outcomeConfirmed <==> action == Publish || r.outcomeConfirmed)
    && t.added == (if action == Publish then [Publication(call, version, actor, ByHuman)] else [])
    && (t.completes <==> action == Publish && version < |r.versions| && r.latest == Some(version))
  }

  // ---------- replaying a review ----------

  /** The events lead from one status to the other by allowed actions. */
  ghost predicate Replays(events: seq<ReviewEvent>, start: Status, end: Status) {
    if events == [] then start == end
    else
      var last := events[|events| - 1];
      && last.after == end == Target(last.action)
      && last.before in AllowedFrom(last.action)
      && Replays(events[..|events| - 1], start, last.before)
  }

  /** Nothing follows a publication, and a publication directly follows an approval. */
  lemma {:induction false} PublishFollowsApprove(events: seq<ReviewEvent>, start: Status, end: Status, i: nat)
    requires Replays(events, start, end) && start in {QueuedForReview, PolicyApproved}
    requires i < |events| && events[i].action == Publish
    ensures i == |events| - 1 && end == Published
    ensures i > 0 && events[i - 1].action == Approve
    decreases |events|
  {
    var init, last := events[..|events| - 1], events[|events| - 1];
    if i == |events| - 1 {
      assert last.before == Approved;
      assert init != [];
      assert init[|init| - 1].after == Approved;
      assert init[i - 1] == events[i - 1];
    } else {
      assert init[i] == events[i];
      PublishFollowsApprove(init, start, last.before, i);
      assert false;
    }
  }

  /** Nothing follows a rejection. */
  lemma {:induction false} RejectionIsFinal(events: seq<ReviewEvent>, start: Status, end: Status, i: nat)
    requires Replays(events, start, end)
    requires i < |events| && events[i].action == Reject
    ensures i == |events| - 1 && end == Rejected
    decreases |events|
  {
    var init, last := events[..|events| - 1], events[|events| - 1];
    if i < |events| - 1 {
      assert init[i] == events[i];
      RejectionIsFinal(init, start, last.before, i);
      assert false;
    }
  }

  // ---------- what the publications say of a version ----------

  /** The status the publications of a call leave a version in: published by a human or by the
      policy, then superseded when a human publishes another one right after. */
  function StatusAfter(history: seq<Publication>, k: nat): Option<Status> {
    if history == [] then None
    else
      var init, last := history[..|history| - 1], history[|history| - 1];
      if last.version == k then Some(if last.kind == ByHuman then Published else PolicyApproved)
      else if last.kind == ByHuman && init != [] && init[|init| - 1].version == k then Some(Superseded)
      else StatusAfter(init, k)
  }

  ghost predicate VersionMatches(version: AnalysisVersion, review: ReviewCase, after: Option<Status>) {
    && (after.Some? <==> review.status in {Published, PolicyApproved})
    && version.status == (if after.Some? then after.value else if review.status == QueuedForReview then Draft
                          else review.status)
  }

  ghost predicate CaseInv(review: ReviewCase, seller: Option<string>) {
    && Replays(review.events, if review.required then QueuedForReview else PolicyApproved, review.status)
    && (forall i :: 0 <= i < |review.events| && review.events[i].action in {Approve, Publish} ==>
        seller != Some(review.events[i].actor))
  }

  ghost predicate DistinctVersions(history: seq<Publication>) {
    forall i, j :: 0 <= i < j < |history| ==> history[i].version != history[j].version
  }

  ghost predicate PointerInv(published: Option<nat>, history: seq<Publication>) {
    published == if history == [] then None else Some(history[|history| - 1].version)
  }

  ghost predicate RowInv(
      version: AnalysisVersion, review: ReviewCase, k: nat, seller: Option<string>, after: Option<Status>)
  {
    && review.version == k && version.number == k + 1
    && CaseInv(review, seller) && VersionMatches(version, review, after)
  }

  ghost predicate HistoryInv(history: seq<Publication>, versions: nat) {
    (forall i :: 0 <= i < |history| ==> history[i].version < versions) && DistinctVersions(history)
  }

  /** Everything that holds of a call's reviews in every reachable state; `history` is the list
      of the call's publications. */
  ghost predicate ReviewInv(r: Reviews, seller: Option<string>, history: seq<Publication>) {
    && |r.cases| == |r.versions|
    && (forall k :: 0 <= k < |r.versions| ==> RowInv(r.versions[k], r.cases[k], k, seller, StatusAfter(history, k)))
    && HistoryInv(history, |r.versions|)
    && PointerInv(r.published, history)
    && ReviewedInv(r)
  }

  /** Somebody approved the version, or the policy did. */
  ghost predicate EverApproved(review: ReviewCase) {
    !review.required || exists i :: 0 <= i < |review.events| && review.events[i].action == Approve
  }

  /** The reviewed pointer names a version that was approved at some time and is not superseded. */
  ghost predicate ReviewedInv(r: Reviews) {
    r.reviewed.Some? ==>
      var v := r.reviewed.value;
      v < |r.versions| && v < |r.cases| && r.versions[v].status != Superseded && EverApproved(r.cases[v])
  }

  /** What no step undoes: rows are only added, a superseded version stays superseded, and the
      events of a case only grow. */
  ghost predicate ReviewsGrow(r: Reviews, r': Reviews) {
    && |r.versions| <= |r'.versions| && |r.cases| <= |r'.cases|
    && (forall k :: 0 <= k < |r.versions| && r.versions[k].status == Superseded ==> r'.versions[k].status == Superseded)
    && (forall k :: 0 <= k < |r.versions| ==> r'.versions[k] == r.versions[k].(status := r'.versions[k].status))
    && (forall k :: 0 <= k < |r.cases| ==> r.cases[k].events <= r'.cases[k].events)
  }

  lemma {:induction false} Appended(history: seq<Publication>, p: Publication, k: nat)
    ensures StatusAfter(history + [p], k) ==
            if p.version == k then Some(if p.kind == ByHuman then Published else PolicyApproved)
            else if p.kind == ByHuman && history != [] && history[|history| - 1].version == k then Some(Superseded)
            else StatusAfter(history, k)
  {
    assert (history + [p])[..|history|] == history;
  }

  lemma {:induction false} InHistory(history: seq<Publication>, i: nat)
    requires i < |history|
    ensures StatusAfter(history, history[i].version).Some?
  {
    if i < |history| - 1 {
      assert history[..|history| - 1][i] == history[i];
      InHistory(history[..|history| - 1], i);
    }
  }

  lemma {:induction false} NotYetPublished(history: seq<Publication>, k: nat)
    requires forall i :: 0 <= i < |history| ==> history[i].version != k
    ensures StatusAfter(history, k).None?
  {
    if history == [] {
    } else {
      var init := history[..|history| - 1];
      assert forall i :: 0 <= i < |init| ==> init[i] == history[i];
      NotYetPublished(init, k);
    }
  }

  lemma {:induction false} MaxOfNumbered(versions: seq<AnalysisVersion>)
    requires forall k :: 0 <= k < |versions| ==> versions[k].number == k + 1
    ensures MaxNumber(versions) == |versions|
  {
    if versions == [] {
    } else {
      MaxOfNumbered(versions[..|versions| - 1]);
    }
  }

  // ---------- the reviewed version ----------

  lemma {:induction false} StillApproved(review: ReviewCase, event: ReviewEvent, review': ReviewCase)
    requires EverApproved(review)
    requires review'.required == review.required && review'.events == review.events + [event]
    ensures EverApproved(review')
  {
    if review.required {
      var i: nat :| i < |review.events| && review.events[i].action == Approve;
      assert review'.events[i].action == Approve;
    }
  }

  lemma {:induction false} ApprovedHasApproval(events: seq<ReviewEvent>)
    requires Replays(events, QueuedForReview, Approved)
    ensures exists i :: 0 <= i < |events| && events[i].action == Approve
  {
    assert events[|events| - 1].action == Approve;
  }

  /** After the last approval, changes were requested. */
  ghost predicate Withdrawn(events: seq<ReviewEvent>) {
    exists j: nat :: j < |events| && events[j].action == RequestChanges && NotApprovedAfter(events, j)
  }

  ghost predicate NotApprovedAfter(events: seq<ReviewEvent>, j: nat) {
    forall i :: j < i < |events| ==> events[i].action != Approve
  }

  lemma {:induction false} WithdrawnNext(events: seq<ReviewEvent>)
    requires events != []
    ensures var init, last := events[..|events| - 1], events[|events| - 1];
            Withdrawn(events) <==> last.action == RequestChanges || (last.action != Approve && Withdrawn(init))
  {
    var init, n := events[..|events| - 1], |events| - 1;
    if Withdrawn(events) {
      var j: nat :| j < |events| && events[j].action == RequestChanges && NotApprovedAfter(events, j);
      if j < n {
        assert init[j] == events[j] && NotApprovedAfter(init, j);
      }
    }
    if events[n].action == RequestChanges {
      assert NotApprovedAfter(events, n);
    } else if events[n].action != Approve && Withdrawn(init) {
      var j: nat :| j < |init| && init[j].action == RequestChanges && NotApprovedAfter(init, j);
      assert events[j] == init[j];
      assert forall i :: j < i < n ==> events[i] == init[i];
      assert NotApprovedAfter(events, j);
    }
  }

  /** A case that was approved is approved or published exactly when that was not withdrawn. */
  lemma {:induction false} ApprovalStands(events: seq<ReviewEvent>, end: Status)
    requires Replays(events, QueuedForReview, end)
    requires exists i :: 0 <= i < |events| && events[i].action == Approve
    ensures end in {Approved, Published} <==> !Withdrawn(events)
  {
    var init, last := events[..|events| - 1], events[|events| - 1];
    WithdrawnNext(events);
    if last.action != Approve {
      var i :| 0 <= i < |events| && events[i].action == Approve;
      assert init[i] == events[i];
      ApprovalStands(init, last.before);
    }
  }

  /** The version the reviewed pointer names is approved or published exactly when its approval was
      not withdrawn by a later request for changes, which leaves the pointer as it is. */
  lemma {:induction false} ReviewedExactly(r: Reviews, seller: Option<string>, history: seq<Publication>)
    requires ReviewInv(r, seller, history) && r.reviewed.Some?
    ensures r.reviewed.value < |r.versions| == |r.cases|
    ensures var v := r.reviewed.value;
            && r.versions[v].status != Superseded
            && (r.versions[v].status in {Approved, Published, PolicyApproved} <==> !Withdrawn(r.cases[v].events))
  {
    var v := r.reviewed.value;
    var events, status := r.cases[v].events, r.cases[v].status;
    assert RowInv(r.versions[v], r.cases[v], v, seller, StatusAfter(history, v));
    PublicationStatuses(history, v);
    if r.cases[v].required {
      ApprovalStands(events, status);
      NeverPolicy(events, QueuedForReview, status);
    } else {
      PolicyCaseRests(events, status);
    }
  }

  lemma {:induction false} PublicationStatuses(history: seq<Publication>, k: nat)
    ensures StatusAfter(history, k).Some? ==> StatusAfter(history, k).value in {Published, PolicyApproved, Superseded}
  {
    if history == [] {
    } else {
      PublicationStatuses(history[..|history| - 1], k);
    }
  }

  lemma {:induction false} NeverPolicy(events: seq<ReviewEvent>, start: Status, end: Status)
    requires Replays(events, start, end) && start != PolicyApproved
    ensures end != PolicyApproved
  {
  }

  /** Nothing is done with a case the policy approved. */
  lemma {:induction false} PolicyCaseRests(events: seq<ReviewEvent>, end: Status)
    requires Replays(events, PolicyApproved, end)
    ensures events == [] && end == PolicyApproved
  {
    if events == [] {
    } else {
      PolicyCaseRests(events[..|events| - 1], events[|events| - 1].before);
    }
  }

  /** Somebody approves a queued version and then requests changes: the pointer still names it. */
  lemma {:induction false} ApprovalWithdrawn(r: Reviews, call: nat, seller: Option<string>, k: nat, actor: string)
    requires k < |r.cases| == |r.versions| && r.cases[k].version == k && r.cases[k].status == QueuedForReview
    requires seller != Some(actor)
    ensures var approved := PerformReviewAction(r, call, seller, k, Approve, actor, None, true, None);
            && approved.Success?
            && var changed := PerformReviewAction(
                 approved.value.reviews, call, seller, k, RequestChanges, actor, None, true, None);
            && changed.Success?
            && changed.value.reviews.reviewed == Some(k)
            && changed.value.reviews.versions[k].status == ChangesRequested
  {
  }

  // ---------- creating a version keeps the invariant ----------

  lemma {:induction false} NewRow(
      r: Reviews, seller: Option<string>, history: seq<Publication>,
      call: nat, transcript: nat, human: nat, a: E.Analysis, checks: seq<E.Check>)
    requires ReviewInv(r, seller, history)
    ensures var (r', added) := CreateVersion(r, call, transcript, human, a, checks);
            var id := |r.versions|;
            && |r'.versions| == |r'.cases| == id + 1
            && RowInv(r'.versions[id], r'.cases[id], id, seller, StatusAfter(history + added, id))
  {
    forall k | 0 <= k < |r.versions| ensures r.versions[k].number == k + 1 {
      assert RowInv(r.versions[k], r.cases[k], k, seller, StatusAfter(history, k));
    }
    MaxOfNumbered(r.versions);
    var (r', added) := CreateVersion(r, call, transcript, human, a, checks);
    var id := |r.versions|;
    NotYetPublished(history, id);
    if added == [] {
      assert history + added == history;
    } else {
      Appended(history, added[0], id);
    }
  }

  lemma {:induction false} HistoryExtends(history: seq<Publication>, p: Publication, versions: nat)
    requires HistoryInv(history, versions) && StatusAfter(history, p.version).None? && p.version < versions
    ensures HistoryInv(history + [p], versions)
  {
    forall i | 0 <= i < |history| ensures history[i].version != p.version {
      InHistory(history, i);
    }
  }

  lemma {:induction false} CreateVersionKeeps(
      r: Reviews, seller: Option<string>, history: seq<Publication>,
      call: nat, transcript: nat, human: nat, a: E.Analysis, checks: seq<E.Check>)
    requires ReviewInv(r, seller, history)
    ensures var (r', added) := CreateVersion(r, call, transcript, human, a, checks);
            ReviewInv(r', seller, history + added) && ReviewsGrow(r, r')
  {
    var (r', added) := CreateVersion(r, call, transcript, human, a, checks);
    var id := |r.versions|;
    NewRow(r, seller, history, call, transcript, human, a, checks);
    NotYetPublished(history, id);
    if added == [] {
      assert history + added == history;
      OldRows(r, r', seller, history, history);
    } else {
      assert added == [Publication(call, id, "review-policy", ByPolicy)];
      HistoryExtends(history, added[0], id + 1);
      forall k | 0 <= k < id ensures StatusAfter(history + added, k) == StatusAfter(history, k) {
        Appended(history, added[0], k);
      }
      OldRows(r, r', seller, history, history + added);
    }
  }

  lemma {:induction false} OldRows(
      r: Reviews, r': Reviews, seller: Option<string>, history: seq<Publication>, history': seq<Publication>)
    requires ReviewInv(r, seller, history)
    requires r.versions <= r'.versions && r.cases <= r'.cases
    requires forall k :: 0 <= k < |r.versions| ==> StatusAfter(history', k) == StatusAfter(history, k)
    ensures forall k :: 0 <= k < |r.versions| ==>
            RowInv(r'.versions[k], r'.cases[k], k, seller, StatusAfter(history', k))
    ensures ReviewsGrow(r, r')
  {
  }

  // ---------- a review action keeps the invariant ----------

  lemma {:induction false} MovedCase(
      review: ReviewCase, seller: Option<string>, action: Action, actor: string, note: Option<string>)
    requires CaseInv(review, seller) && review.status in AllowedFrom(action)
    requires action in {Approve, Publish} ==> seller != Some(actor)
    ensures CaseInv(review.(status := Target(action), note := note,
                            events := review.events + [ReviewEvent(actor, action, review.status, Target(action))]),
                                seller)
  {
    var event := ReviewEvent(actor, action, review.status, Target(action));
    assert (review.events + [event])[..|review.events|] == review.events;
  }

  lemma {:induction false} ActionWithoutPublishing(
      r: Reviews, seller: Option<string>, history: seq<Publication>,
      call: nat, k: nat, action: Action, actor: string, note: Option<string>)
    requires ReviewInv(r, seller, history) && k < |r.cases| && action != Publish
    requires action in {Approve, Publish} ==> seller != Some(actor)
    requires TransitionReview(r, call, k, action, actor, note).Some?
    ensures var t := TransitionReview(r, call, k, action, actor, note).value;
            t.added == [] && ReviewInv(t.reviews, seller, history) && ReviewsGrow(r, t.reviews)
  {
    MovedRows(r, seller, history, call, k, action, actor, note);
    MovedGrows(r, seller, history, call, k, action, actor, note);
    ReviewedStays(r, seller, history, call, k, action, actor, note);
  }

  lemma {:induction false} MovedRows(
      r: Reviews, seller: Option<string>, history: seq<Publication>,
      call: nat, k: nat, action: Action, actor: string, note: Option<string>)
    requires ReviewInv(r, seller, history) && k < |r.cases| && action != Publish
    requires action in {Approve, Publish} ==> seller != Some(actor)
    requires TransitionReview(r, call, k, action, actor, note).Some?
    ensures var r' := TransitionReview(r, call, k, action, actor, note).value.reviews;
            && |r'.versions| == |r'.cases| == |r.versions|
            && forall j :: 0 <= j < |r.versions| ==>
                 RowInv(r'.versions[j], r'.cases[j], j, seller, StatusAfter(history, j))
  {
    var r' := TransitionReview(r, call, k, action, actor, note).value.reviews;
    assert RowInv(r.versions[k], r.cases[k], k, seller, StatusAfter(history, k));
    MovedCase(r.cases[k], seller, action, actor, note);
    NotSuperseded(r, seller, history, k);
    forall j | 0 <= j < |r.versions| ensures RowInv(r'.versions[j], r'.cases[j], j, seller, StatusAfter(history, j)) {
      assert RowInv(r.versions[j], r.cases[j], j, seller, StatusAfter(history, j));
    }
  }

  lemma {:induction false} MovedGrows(
      r: Reviews, seller: Option<string>, history: seq<Publication>,
      call: nat, k: nat, action: Action, actor: string, note: Option<string>)
    requires ReviewInv(r, seller, history) && k < |r.cases| && action != Publish
    requires TransitionReview(r, call, k, action, actor, note).Some?
    ensures var t := TransitionReview(r, call, k, action, actor, note).value;
            t.added == [] && t.reviews.published == r.published && ReviewsGrow(r, t.reviews)
  {
    assert RowInv(r.versions[k], r.cases[k], k, seller, StatusAfter(history, k));
    NotSuperseded(r, seller, history, k);
  }

  lemma {:induction false} ReviewedStays(
      r: Reviews, seller: Option<string>, history: seq<Publication>,
      call: nat, k: nat, action: Action, actor: string, note: Option<string>)
    requires ReviewInv(r, seller, history) && k < |r.cases| && action != Publish
    requires TransitionReview(r, call, k, action, actor, note).Some?
    ensures ReviewedInv(TransitionReview(r, call, k, action, actor, note).value.reviews)
  {
    var review := r.cases[k];
    var event := ReviewEvent(actor, action, review.status, Target(action));
    var r' := TransitionReview(r, call, k, action, actor, note).value.reviews;
    assert RowInv(r.versions[k], r.cases[k], k, seller, StatusAfter(history, k));
    if action == Approve {
      assert r'.cases[k].events[|review.events|].action == Approve;
    } else if r.reviewed == Some(k) {
      StillApproved(review, event, r'.cases[k]);
    }
  }

  lemma {:induction false} NotSuperseded(r: Reviews, seller: Option<string>, history: seq<Publication>, k: nat)
    requires ReviewInv(r, seller, history) && k < |r.cases| && r.cases[k].status !in {Published, PolicyApproved}
    ensures r.versions[k].status != Superseded && StatusAfter(history, k).None?
  {
    assert RowInv(r.versions[k], r.cases[k], k, seller, StatusAfter(history, k));
    NeverSupersededByReview(r.cases[k].events, if r.cases[k].required then QueuedForReview else PolicyApproved,
                            r.cases[k].status);
  }

  lemma {:induction false} NeverSupersededByReview(events: seq<ReviewEvent>, start: Status, end: Status)
    requires Replays(events, start, end) && start in {QueuedForReview, PolicyApproved}
    ensures end != Superseded && end != Draft
  {
  }

  lemma {:induction false} PublishKeeps(
      r: Reviews, seller: Option<string>, history: seq<Publication>,
      call: nat, k: nat, actor: string, note: Option<string>)
    requires ReviewInv(r, seller, history) && k < |r.cases| && seller != Some(actor)
    requires TransitionReview(r, call, k, Publish, actor, note).Some?
    ensures var t := TransitionReview(r, call, k, Publish, actor, note).value;
            && t.added == [Publication(call, k, actor, ByHuman)]
            && ReviewInv(t.reviews, seller, history + t.added) && ReviewsGrow(r, t.reviews)
  {
    var p := Publication(call, k, actor, ByHuman);
    assert RowInv(r.versions[k], r.cases[k], k, seller, StatusAfter(history, k));
    NotSuperseded(r, seller, history, k);
    HistoryExtends(history, p, |r.versions|);
    PublishedRows(r, seller, history, call, k, actor, note);
    PublishGrows(r, seller, history, call, k, actor, note);
    PublishedIsReviewed(r, seller, history, call, k, actor, note);
  }

  lemma {:induction false} PublishedIsReviewed(
      r: Reviews, seller: Option<string>, history: seq<Publication>,
      call: nat, k: nat, actor: string, note: Option<string>)
    requires ReviewInv(r, seller, history) && k < |r.cases|
    requires TransitionReview(r, call, k, Publish, actor, note).Some?
    ensures ReviewedInv(TransitionReview(r, call, k, Publish, actor, note).value.reviews)
  {
    var review := r.cases[k];
    var r' := TransitionReview(r, call, k, Publish, actor, note).value.reviews;
    assert RowInv(r.versions[k], review, k, seller, StatusAfter(history, k));
    if review.required {
      ApprovedHasApproval(review.events);
    }
    StillApproved(review, ReviewEvent(actor, Publish, review.status, Published), r'.cases[k]);
  }

  lemma {:induction false} PublishGrows(
      r: Reviews, seller: Option<string>, history: seq<Publication>,
      call: nat, k: nat, actor: string, note: Option<string>)
    requires ReviewInv(r, seller, history) && k < |r.cases|
    requires TransitionReview(r, call, k, Publish, actor, note).Some?
    ensures ReviewsGrow(r, TransitionReview(r, call, k, Publish, actor, note).value.reviews)
  {
    assert RowInv(r.versions[k], r.cases[k], k, seller, StatusAfter(history, k));
    NotSuperseded(r, seller, history, k);
  }

  lemma {:induction false} PublishedRows(
      r: Reviews, seller: Option<string>, history: seq<Publication>,
      call: nat, k: nat, actor: string, note: Option<string>)
    requires ReviewInv(r, seller, history) && k < |r.cases| && seller != Some(actor)
    requires TransitionReview(r, call, k, Publish, actor, note).Some?
    ensures var r' := TransitionReview(r, call, k, Publish, actor, note).value.reviews;
            var p := Publication(call, k, actor, ByHuman);
            && |r'.versions| == |r'.cases| == |r.versions|
            && forall j :: 0 <= j < |r.versions| ==>
                 RowInv(r'.versions[j], r'.cases[j], j, seller, StatusAfter(history + [p], j))
  {
    var r' := TransitionReview(r, call, k, Publish, actor, note).value.reviews;
    var p := Publication(call, k, actor, ByHuman);
    assert RowInv(r.versions[k], r.cases[k], k, seller, StatusAfter(history, k));
    MovedCase(r.cases[k], seller, Publish, actor, note);
    forall j | 0 <= j < |r.versions|
      ensures RowInv(r'.versions[j], r'.cases[j], j, seller, StatusAfter(history + [p], j))
    {
      assert RowInv(r.versions[j], r.cases[j], j, seller, StatusAfter(history, j));
      Appended(history, p, j);
      if history != [] { InHistory(history, |history| - 1); }
    }
  }

  /** Whatever the endpoint commits keeps the invariant. */
  lemma {:induction false} ReviewActionKeeps(
      r: Reviews, seller: Option<string>, history: seq<Publication>,
      call: nat, k: nat, action: Action, actor: string, assignee: Option<string>, eligible: bool, note: Option<string>)
    requires ReviewInv(r, seller, history)
    requires PerformReviewAction(r, call, seller, k, action, actor, assignee, eligible, note).Success?
    ensures var t := PerformReviewAction(r, call, seller, k, action, actor, assignee, eligible, note).value;
            && ReviewInv(t.reviews, seller, history + t.added) && ReviewsGrow(r, t.reviews)
            && (t.added == [] || t.added == [Publication(call, k, actor, ByHuman)])
  {
    var b := r.(cases := r.cases[k := r.cases[k].(assignee := assignee)]);
    if action == Assign && assignee.Some? {
      AssigneeKeeps(r, seller, history, k, assignee);
      ActionWithoutPublishing(b, seller, history, call, k, action, actor, note);
      assert history + [] == history;
    } else if action == Publish {
      PublishKeeps(r, seller, history, call, k, actor, note);
    } else {
      ActionWithoutPublishing(r, seller, history, call, k, action, actor, note);
      assert history + [] == history;
    }
  }

  lemma {:induction false} AssigneeKeeps(
      r: Reviews, seller: Option<string>, history: seq<Publication>, k: nat, assignee: Option<string>)
    requires ReviewInv(r, seller, history) && k < |r.cases|
    ensures var b := r.(cases := r.cases[k := r.cases[k].(assignee := assignee)]);
            ReviewInv(b, seller, history) && ReviewsGrow(r, b)
  {
    var b := r.(cases := r.cases[k := r.cases[k].(assignee := assignee)]);
    forall j | 0 <= j < |b.versions| ensures RowInv(b.versions[j], b.cases[j], j, seller, StatusAfter(history, j)) {
      assert RowInv(r.versions[j], r.cases[j], j, seller, StatusAfter(history, j));
    }
  }

  // ---------- what the invariant says of publications ----------

  /** The publication still stands: nobody superseded the version it published. */
  predicate Stands(history: seq<Publication>, i: nat)
    requires i < |history|
  {
    history[i].kind == ByHuman && (i + 1 == |history| || history[i + 1].kind == ByPolicy)
  }

  lemma {:induction false} StatusAt(history: seq<Publication>, i: nat)
    requires DistinctVersions(history) && i < |history|
    ensures StatusAfter(history, history[i].version) ==
            Some(if i + 1 < |history| && history[i + 1].kind == ByHuman then Superseded
                 else if history[i].kind == ByHuman then Published else PolicyApproved)
  {
    var init := history[..|history| - 1];
    if i == |init| {
    } else {
      assert init[i] == history[i];
      assert DistinctVersions(init);
      StatusAt(init, i);
    }
  }

  lemma {:induction false} WasPublished(history: seq<Publication>, k: nat) returns (i: nat)
    requires StatusAfter(history, k).Some?
    ensures i < |history| && history[i].version == k
  {
    var init := history[..|history| - 1];
    if history[|history| - 1].version == k {
      i := |history| - 1;
    } else if init != [] && init[|init| - 1].version == k {
      i := |init| - 1;
    } else {
      i := WasPublished(init, k);
    }
  }

  /** The pointer, when set, is the version of the last publication, and that version is
      published or policy-approved. */
  lemma {:induction false} PointerIsLastPublication(r: Reviews, seller: Option<string>, history: seq<Publication>)
    requires ReviewInv(r, seller, history)
    ensures r.published.Some? <==> history != []
    ensures r.published.Some? ==>
              var k := r.published.value;
              && k == history[|history| - 1].version && k < |r.versions|
              && r.versions[k].status == (if history[|history| - 1].kind == ByHuman then Published else PolicyApproved)
  {
    if history != [] {
      var k := history[|history| - 1].version;
      assert RowInv(r.versions[k], r.cases[k], k, seller, StatusAfter(history, k));
      StatusAt(history, |history| - 1);
    }
  }

  /** Which versions hold the status `published`: the human-published ones that no human
      publication directly followed. A policy approval leaves its predecessor in place. */
  lemma {:induction false} PublishedExactly(r: Reviews, seller: Option<string>, history: seq<Publication>, k: nat)
    requires ReviewInv(r, seller, history) && k < |r.versions|
    ensures r.versions[k].status == Published
            <==> exists i :: 0 <= i < |history| && history[i].version == k && Stands(history, i)
    ensures r.versions[k].status == Superseded
            <==> exists i :: 0 <= i < |history| - 1 && history[i].version == k && history[i + 1].kind == ByHuman
  {
    assert RowInv(r.versions[k], r.cases[k], k, seller, StatusAfter(history, k));
    NeverSupersededByReview(r.cases[k].events, if r.cases[k].required then QueuedForReview else PolicyApproved,
                            r.cases[k].status);
    if StatusAfter(history, k).Some? {
      var i := WasPublished(history, k);
      StatusAt(history, i);
      assert Stands(history, i) <==> StatusAfter(history, k) == Some(Published);
    }
    forall i | 0 <= i < |history| && history[i].version == k ensures StatusAfter(history, k).Some? {
      InHistory(history, i);
    }
  }

  /** A rejected version stays rejected and no publication names it. */
  lemma {:induction false} RejectedNeverPublished(
      r: Reviews, seller: Option<string>, history: seq<Publication>, k: nat, i: nat)
    requires ReviewInv(r, seller, history) && k < |r.cases|
    requires i < |r.cases[k].events| && r.cases[k].events[i].action == Reject
    ensures i == |r.cases[k].events| - 1
    ensures r.cases[k].status == Rejected && r.versions[k].status == Rejected
    ensures r.published != Some(k) && forall j :: 0 <= j < |history| ==> history[j].version != k
  {
    var review := r.cases[k];
    assert RowInv(r.versions[k], review, k, seller, StatusAfter(history, k));
    RejectionIsFinal(review.events, if review.required then QueuedForReview else PolicyApproved, review.status, i);
    forall j | 0 <= j < |history| ensures history[j].version != k {
      InHistory(history, j);
    }
  }

  ghost predicate AtMostOnePublished(r: Reviews) {
    forall j, k | 0 <= j < |r.versions| && 0 <= k < |r.versions| ::
      r.versions[j].status == Published && r.versions[k].status == Published ==> j == k
  }

  ghost predicate AtMostOneStands(history: seq<Publication>) {
    forall i, j | 0 <= i < |history| && 0 <= j < |history| :: Stands(history, i) && Stands(history, j) ==> i == j
  }

  /** At most one version is published exactly when at most one human publication still stands. */
  lemma {:induction false} AtMostOneExactly(r: Reviews, seller: Option<string>, history: seq<Publication>)
    requires ReviewInv(r, seller, history)
    ensures AtMostOnePublished(r) <==> AtMostOneStands(history)
  {
    if AtMostOnePublished(r) {
      forall i, j | 0 <= i < |history| && 0 <= j < |history| && Stands(history, i) && Stands(history, j)
        ensures i == j
      {
        PublishedExactly(r, seller, history, history[i].version);
        PublishedExactly(r, seller, history, history[j].version);
      }
    } else {
      var j, k :| 0 <= j < |r.versions| && 0 <= k < |r.versions|
        && r.versions[j].status == Published && r.versions[k].status == Published && j != k;
      PublishedExactly(r, seller, history, j);
      PublishedExactly(r, seller, history, k);
    }
  }

  /** Without policy approvals the only published version is the one pointed to. */
  lemma {:induction false} WithoutPolicyOnlyPointer(
      r: Reviews, seller: Option<string>, history: seq<Publication>, k: nat)
    requires ReviewInv(r, seller, history) && k < |r.versions|
    requires forall i :: 0 <= i < |history| ==> history[i].kind == ByHuman
    ensures r.versions[k].status == Published <==> r.published == Some(k)
    ensures AtMostOnePublished(r)
  {
    PublishedExactly(r, seller, history, k);
    if history != [] && r.published == Some(k) { assert Stands(history, |history| - 1); }
    assert forall i :: 0 <= i < |history| && Stands(history, i) ==> i == |history| - 1;
    AtMostOneExactly(r, seller, history);
  }

  /** The only published version is the one pointed to. */
  ghost predicate OnlyPointerPublished(r: Reviews) {
    forall k :: 0 <= k < |r.versions| && r.versions[k].status == Published ==> r.published == Some(k)
  }

  /** A policy approval keeps that property exactly when no version is published at that moment. */
  lemma {:induction false} PolicyApprovalOrphans(
      r: Reviews, call: nat, transcript: nat, human: nat, a: E.Analysis, checks: seq<E.Check>)
    requires Reasons(human, call, a, checks) == []
    requires r.published.Some? ==> r.published.value < |r.versions|
    ensures var r' := CreateVersion(r, call, transcript, human, a, checks).0;
            OnlyPointerPublished(r') <==> forall k :: 0 <= k < |r.versions| ==> r.versions[k].status != Published
  {
    var r' := CreateVersion(r, call, transcript, human, a, checks).0;
    forall k | 0 <= k < |r.versions| ensures r'.versions[k] == r.versions[k] {
    }
  }

  /** A human publication keeps it exactly when it held before. */
  lemma {:induction false} PublishKeepsOnlyPointer(
      r: Reviews, seller: Option<string>, history: seq<Publication>, call: nat, k: nat, actor: string,
      note: Option<string>)
    requires ReviewInv(r, seller, history) && k < |r.cases|
    requires TransitionReview(r, call, k, Publish, actor, note).Some?
    ensures OnlyPointerPublished(TransitionReview(r, call, k, Publish, actor, note).value.reviews)
            <==> OnlyPointerPublished(r)
  {
    var r' := TransitionReview(r, call, k, Publish, actor, note).value.reviews;
    assert RowInv(r.versions[k], r.cases[k], k, seller, StatusAfter(history, k));
    NotSuperseded(r, seller, history, k);
    PointerIsLastPublication(r, seller, history);
    if r.published.Some? { InHistory(history, |history| - 1); }
    forall j | 0 <= j < |r.versions| && j != k && r.published != Some(j) ensures r'.versions[j] == r.versions[j] {
    }
  }

  // ---------- two published versions ----------

  /** One person approves a review and publishes it. */
  function ApprovedAndPublished(r: Reviews, call: nat, seller: Option<string>, k: nat, actor: string): Option<Reviews> {
    match PerformReviewAction(r, call, seller, k, Approve, actor, None, true, None)
    case Failure(_) => None
    case Success(t) =>
      match PerformReviewAction(t.reviews, call, seller, k, Publish, actor, None, true, None)
      case Failure(_) => None
      case Success(t') => Some(t'.reviews)
  }

  /** What the two actions do to the version, to the one pointed to and to the others. */
  lemma {:induction false} PublishesOne(r: Reviews, call: nat, seller: Option<string>, k: nat, actor: string)
    requires k < |r.cases| == |r.versions| && r.cases[k].version == k && r.cases[k].status == QueuedForReview
    requires seller != Some(actor) && (r.published.Some? ==> k != r.published.value < |r.versions|)
    ensures var done := ApprovedAndPublished(r, call, seller, k, actor);
            && done.Some? && |done.value.cases| == |done.value.versions| == |r.versions|
            && done.value.published == Some(k) && done.value.versions[k].status == Published
            && forall j :: 0 <= j < |r.versions| && j != k && r.published != Some(j) ==>
                done.value.versions[j] == r.versions[j]
  {
  }

  lemma {:induction false} CreatesOne(
      r: Reviews, call: nat, transcript: nat, human: nat, a: E.Analysis, checks: seq<E.Check>)
    requires |r.cases| == |r.versions|
    ensures var (r', id) := (CreateVersion(r, call, transcript, human, a, checks).0, |r.versions|);
            && |r'.cases| == |r'.versions| == id + 1 && r'.cases[id].version == id
            && (forall j :: 0 <= j < id ==> r'.versions[j] == r.versions[j])
            && if Reasons(human, call, a, checks) == [] then r'.published == Some(id)
               else r'.published == r.published && r'.cases[id].status == QueuedForReview
  {
  }

  /** A version is published by a person, the policy approves the next one, and a person publishes
      the one after: the first is still published, next to the third. */
  lemma {:induction false} TwoPublished(
      r: Reviews, call: nat, seller: Option<string>, actor: string, human: nat, a: seq<E.Analysis>,
      checks: seq<E.Check>)
    requires r.versions == [] && r.cases == [] && r.published == None && seller != Some(actor) && |a| == 3
    requires Reasons(human, call, a[0], checks) != []
    requires Reasons(human, call, a[1], checks) == []
    requires Reasons(human, call, a[2], checks) != []
    ensures var one := ApprovedAndPublished(CreateVersion(r, call, 0, human, a[0], checks).0, call, seller, 0, actor);
            && one.Some?
            && var two := CreateVersion(one.value, call, 1, human, a[1], checks).0;
            && var three := ApprovedAndPublished(CreateVersion(two, call, 2, human, a[2], checks).0, call, seller, 2,
                                                 actor);
            && three.Some? && |three.value.versions| == 3
            && three.value.versions[0].status == three.value.versions[2].status == Published
            && !AtMostOnePublished(three.value)
  {
    CreatesOne(r, call, 0, human, a[0], checks);
    var r0 := CreateVersion(r, call, 0, human, a[0], checks).0;
    PublishesOne(r0, call, seller, 0, actor);
    var one := ApprovedAndPublished(r0, call, seller, 0, actor).value;
    CreatesOne(one, call, 1, human, a[1], checks);
    var two := CreateVersion(one, call, 1, human, a[1], checks).0;
    CreatesOne(two, call, 2, human, a[2], checks);
    var r2 := CreateVersion(two, call, 2, human, a[2], checks).0;
    PublishesOne(r2, call, seller, 2, actor);
  }

  // ---------- policy publications ----------

  /** Every policy publication was preceded by human publications of at least 50 distinct calls. */
  ghost predicate PilotRespected(log: seq<Publication>) {
    forall i :: 0 <= i < |log| && log[i].kind == ByPolicy ==> |HumanPublished(log[..i])| >= 50
  }

  lemma {:induction false} PilotExtends(log: seq<Publication>, added: seq<Publication>)
    requires PilotRespected(log) && |added| <= 1
    requires added != [] && added[0].kind == ByPolicy ==> |HumanPublished(log)| >= 50
    ensures PilotRespected(log + added)
  {
    forall i | 0 <= i < |log + added| && (log + added)[i].kind == ByPolicy
      ensures |HumanPublished((log + added)[..i])| >= 50
    {
      if i < |log| {
        assert (log + added)[..i] == log[..i];
      } else {
        assert (log + added)[..i] == log;
      }
    }
  }

  /** A version is published by the policy only when validation removed nothing from it: the
      stored analysis is the provider's own but for the recomputed score and repeated notes. */
  lemma {:induction false} AutoPublishedUntouched(
      o: E.TextOracle, raw: E.Analysis, segments: seq<Transcript.Item>, r: Reviews, call: nat, transcript: nat,
      human: nat)
    requires E.WellShaped(raw)
    requires CreateVersion(r, call, transcript, human, E.Sanitize(o, raw, segments),
                           E.AllChecks(o, raw, segments)).1 != []
    ensures 50 <= human
    ensures E.AllSupported(E.AllChecks(o, raw, segments))
    ensures E.Sanitize(o, raw, segments)
            == raw.(overallScore := E.Round2(E.ScoreTotal(E.ClaimsOf(raw, E.ScoreItems))),
                    limitations := E.Dedupe(raw.limitations))
  {
    NoReasonExactly(human, call, E.Sanitize(o, raw, segments), E.AllChecks(o, raw, segments));
    E.NothingRemovedAboveCap(o, raw, segments);
  }

  // ---------- the log of all calls ----------

  lemma {:induction false} OfAppend(log: seq<Publication>, added: seq<Publication>, call: nat)
    requires |added| <= 1
    ensures Of(log + added, call) == Of(log, call) + if added != [] && added[0].call == call then added else []
  {
    if added == [] {
      assert log + added == log;
    } else {
      assert (log + added)[..|log|] == log;
      assert added == [added[0]];
    }
  }
}

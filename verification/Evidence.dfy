/** Grounding of model claims in transcript segments (backend/app/services/evidence.py,
    backend/app/schemas.py). Text folding, tokenising and the fuzzy ratio are parameters: any
    deterministic functions. Times, confidences and scores are exact reals. */
module Evidence {
  import opened Basics
  import opened Wrappers
  import opened Transcript

  datatype TextOracle = TextOracle(
    fold: string -> string, tokens: string -> set<string>, ratio: (string, string) -> real)

  datatype Quote = Quote(segmentIndex: int, timestamp: Option<real>, quote: string)

  datatype Reason = SegmentOutOfRange | EmptyText | SupportedQuote | TimestampMismatch | QuoteMismatch

  datatype Check = Check(evidence: Quote, supported: bool, similarity: real, reason: Reason)

  // ---------- one piece of evidence ----------

  const THRESHOLD := 0.72

  /** Whether `q` occurs in `t`. */
  predicate Contains(t: string, q: string) {
    q <= t || (t != "" && Contains(t[1..], q))
  }

  /** The share of the quote's tokens that the segment has. */
  function Coverage(o: TextOracle, quote: string, text: string): real {
    var quoteTokens, segmentTokens := o.tokens(quote), o.tokens(text);
    |quoteTokens * segmentTokens| as real / (if |quoteTokens| > 1 then |quoteTokens| else 1) as real
  }

  function Similarity(o: TextOracle, quote: string, text: string): real {
    if Contains(text, quote) then 1.0
    else
      var coverage, sequence := Coverage(o, quote, text), o.ratio(quote, text);
      if sequence > coverage then sequence else coverage
  }

  /** A missing time on either side never fails; otherwise one second of tolerance applies. */
  predicate TimestampValid(timestamp: Option<real>, start: Option<real>, end: Option<real>) {
    timestamp.None? || start.None? || end.None? || start.value - 1.0 <= timestamp.value <= end.value + 1.0
  }

  function CheckEvidence(o: TextOracle, e: Quote, segments: seq<Item>): Check {
    if e.segmentIndex < 0 || e.segmentIndex >= |segments| then Check(e, false, 0.0, SegmentOutOfRange)
    else
      var segment := segments[e.segmentIndex];
      var text, quote := o.fold(segment.text), o.fold(e.quote);
      if quote == "" || text == "" then Check(e, false, 0.0, EmptyText)
      else
        var similarity := Similarity(o, quote, text);
        var timestampValid := TimestampValid(e.timestamp, segment.start, segment.end);
        var supported := similarity >= THRESHOLD && timestampValid;
        Check(e, supported, similarity,
              if supported then SupportedQuote else if !timestampValid then TimestampMismatch else QuoteMismatch)
  }

  predicate Supported(o: TextOracle, e: Quote, segments: seq<Item>) {
    CheckEvidence(o, e, segments).supported
  }

  /** In a segment that exists, with some text on both sides, and in time. */
  ghost predicate Placed(o: TextOracle, e: Quote, segments: seq<Item>) {
    && 0 <= e.segmentIndex < |segments|
    && o.fold(e.quote) != "" && o.fold(segments[e.segmentIndex].text) != ""
    && TimestampValid(e.timestamp, segments[e.segmentIndex].start, segments[e.segmentIndex].end)
  }

  /** And verbatim there, or with enough of its tokens. */
  ghost predicate VerbatimOrCovered(o: TextOracle, e: Quote, segments: seq<Item>) {
    Placed(o, e, segments) &&
    var quote, text := o.fold(e.quote), o.fold(segments[e.segmentIndex].text);
    Contains(text, quote) || Coverage(o, quote, text) >= THRESHOLD
  }

  /** A quote is accepted whatever the fuzzy ratio answers exactly when it occurs verbatim in its
      segment, or enough of its tokens do, and its time fits. Any other quote that is placed in
      text and time depends on the ratio, and a misplaced one is refused by every ratio. */
  lemma {:induction false} AcceptedWhateverTheRatio(o: TextOracle, e: Quote, segments: seq<Item>)
    ensures (forall ratio :: Supported(o.(ratio := ratio), e, segments)) <==> VerbatimOrCovered(o, e, segments)
    ensures (exists ratio :: Supported(o.(ratio := ratio), e, segments)) <==> Placed(o, e, segments)
  {
    if Placed(o, e, segments) {
      assert Supported(o.(ratio := (_, _) => 1.0), e, segments);
    }
    var never := o.(ratio := (_, _) => 0.0);
    if Supported(never, e, segments) {
      assert VerbatimOrCovered(o, e, segments);
    }
    if VerbatimOrCovered(o, e, segments) {
      forall ratio ensures Supported(o.(ratio := ratio), e, segments) {
        EnoughCoverage(o.(ratio := ratio), o.fold(e.quote), o.fold(segments[e.segmentIndex].text));
      }
    }
  }

  lemma {:induction false} EnoughCoverage(o: TextOracle, quote: string, text: string)
    requires Contains(text, quote) || Coverage(o, quote, text) >= THRESHOLD
    ensures Similarity(o, quote, text) >= THRESHOLD
  {
  }

  // ---------- _filter ----------

  function ChecksOf(o: TextOracle, quotes: seq<Quote>, segments: seq<Item>): seq<Check> {
    seq(|quotes|, k requires 0 <= k < |quotes| => CheckEvidence(o, quotes[k], segments))
  }

  /** The supported quotes, in order. */
  function Kept(o: TextOracle, quotes: seq<Quote>, segments: seq<Item>): seq<Quote> {
    if quotes == [] then []
    else
      var last := quotes[|quotes| - 1];
      Kept(o, quotes[..|quotes| - 1], segments) + if Supported(o, last, segments) then [last] else []
  }

  ghost predicate AllSupported(checks: seq<Check>) {
    forall k :: 0 <= k < |checks| ==> checks[k].supported
  }

  lemma {:induction false} KeptSupported(o: TextOracle, quotes: seq<Quote>, segments: seq<Item>)
    ensures AllSupported(ChecksOf(o, Kept(o, quotes, segments), segments))
    ensures forall e :: e in Kept(o, quotes, segments) ==> e in quotes && Supported(o, e, segments)
  {
    if quotes == [] {
    } else {
      var init := quotes[..|quotes| - 1];
      KeptSupported(o, init, segments);
      var kept, checks := Kept(o, quotes, segments), ChecksOf(o, Kept(o, quotes, segments), segments);
      forall k | 0 <= k < |checks| ensures checks[k].supported {
        if k < |Kept(o, init, segments)| {
          assert checks[k] == ChecksOf(o, Kept(o, init, segments), segments)[k];
        }
      }
    }
  }

  lemma {:induction false} KeptAll(o: TextOracle, quotes: seq<Quote>, segments: seq<Item>)
    ensures AllSupported(ChecksOf(o, quotes, segments)) <==> Kept(o, quotes, segments) == quotes
    ensures |Kept(o, quotes, segments)| <= |quotes|
  {
    if quotes == [] {
    } else {
      var init, last := quotes[..|quotes| - 1], quotes[|quotes| - 1];
      assert quotes == init + [last];
      KeptAll(o, init, segments);
      var all, some := ChecksOf(o, quotes, segments), ChecksOf(o, init, segments);
      assert forall k :: 0 <= k < |init| ==> all[k] == some[k];
      assert all[|init|].supported == Supported(o, last, segments);
      if Kept(o, quotes, segments) == quotes {
        assert Supported(o, last, segments);
        assert Kept(o, quotes, segments)[..|init|] == init;
      }
    }
  }

  // ---------- what filtering keeps, by support alone ----------

  /** `kept` holds the quotes at these places, in order: exactly the places of supported quotes. */
  ghost predicate KeptAt(
      o: TextOracle, quotes: seq<Quote>, segments: seq<Item>, kept: seq<Quote>, places: seq<nat>)
  {
    && |places| == |kept|
    && (forall i, j :: 0 <= i < j < |places| ==> places[i] < places[j])
    && (forall j :: 0 <= j < |places| ==> places[j] < |quotes| && kept[j] == quotes[places[j]])
    && (forall k :: 0 <= k < |quotes| ==> (k in places <==> Supported(o, quotes[k], segments)))
  }

  /** The supported quotes in their order, each as often as it is given, and no other. */
  ghost predicate IsKept(o: TextOracle, quotes: seq<Quote>, segments: seq<Item>, kept: seq<Quote>) {
    exists places: seq<nat> :: KeptAt(o, quotes, segments, kept, places)
  }

  ghost predicate SomeSupported(o: TextOracle, quotes: seq<Quote>, segments: seq<Item>) {
    exists e :: e in quotes && Supported(o, e, segments)
  }

  lemma {:induction false} KeptExactly(o: TextOracle, quotes: seq<Quote>, segments: seq<Item>)
    ensures IsKept(o, quotes, segments, Kept(o, quotes, segments))
  {
    if quotes == [] {
      assert KeptAt(o, quotes, segments, [], []);
    } else {
      var init := quotes[..|quotes| - 1];
      KeptExactly(o, init, segments);
      var places: seq<nat> :| KeptAt(o, init, segments, Kept(o, init, segments), places);
      KeptNext(o, quotes, segments, places);
    }
  }

  lemma {:induction false} KeptNext(o: TextOracle, quotes: seq<Quote>, segments: seq<Item>, places: seq<nat>)
    requires quotes != []
    requires KeptAt(o, quotes[..|quotes| - 1], segments, Kept(o, quotes[..|quotes| - 1], segments), places)
    ensures IsKept(o, quotes, segments, Kept(o, quotes, segments))
  {
    var n, last := |quotes| - 1, quotes[|quotes| - 1];
    assert n !in places;
    if Supported(o, last, segments) {
      assert KeptAt(o, quotes, segments, Kept(o, quotes, segments), places + [n]);
    } else {
      assert KeptAt(o, quotes, segments, Kept(o, quotes, segments), places);
    }
  }

  lemma {:induction false} KeepsSome(o: TextOracle, quotes: seq<Quote>, segments: seq<Item>)
    ensures Kept(o, quotes, segments) != [] <==> SomeSupported(o, quotes, segments)
  {
    KeptExactly(o, quotes, segments);
    var kept := Kept(o, quotes, segments);
    var places: seq<nat> :| KeptAt(o, quotes, segments, kept, places);
    if kept != [] {
      assert places[0] in places;
      assert quotes[places[0]] in quotes;
    }
    if SomeSupported(o, quotes, segments) {
      var e :| e in quotes && Supported(o, e, segments);
      var k :| 0 <= k < |quotes| && quotes[k] == e;
      assert k in places;
    }
  }

  lemma {:induction false} KeptTwice(o: TextOracle, quotes: seq<Quote>, segments: seq<Item>)
    ensures Kept(o, Kept(o, quotes, segments), segments) == Kept(o, quotes, segments)
  {
    KeptSupported(o, quotes, segments);
    KeptAll(o, Kept(o, quotes, segments), segments);
  }

  /** `_filter`: the supported quotes and all the checks. */
  method Filter(o: TextOracle, quotes: seq<Quote>, segments: seq<Item>) returns (kept: seq<Quote>, checks: seq<Check>)
    ensures kept == Kept(o, quotes, segments) && checks == ChecksOf(o, quotes, segments)
  {
    checks := ChecksOf(o, quotes, segments);
    kept := [];
    for k := 0 to |checks|
      invariant kept == Kept(o, quotes[..k], segments)
    {
      assert quotes[..k + 1][..k] == quotes[..k];
      if checks[k].supported {
        kept := kept + [checks[k].evidence];
      }
    }
    assert quotes[..|quotes|] == quotes;
  }

  // ---------- the analysis ----------

  datatype Outcome = Won | Lost | FollowUp | Unknown

  datatype Collection = ScoreItems | Strengths | Improvements | Objections | MissedOpportunities

  const COLLECTION_COUNT := 5

  /** The order in which the collections are validated. */
  function CollectionAt(k: nat): Collection
    requires k < COLLECTION_COUNT
  {
    if k == 0 then ScoreItems else if k == 1 then Strengths else if k == 2 then Improvements
    else if k == 3 then Objections else MissedOpportunities
  }

  function CollectionIndex(c: Collection): nat {
    match c
    case ScoreItems => 0
    case Strengths => 1
    case Improvements => 2
    case Objections => 3
    case MissedOpportunities => 4
  }

  /** A claim with its evidence; only score items carry a weighted score. */
  datatype Claim = Claim(body: string, weightedScore: real, evidence: seq<Quote>)

  /** Keys of the field evidence: the customer facts and the customer lists, each by its place
      in the order the source validates them in, the two fields of the analysis itself, and
      the keys nothing is validated under. */
  datatype Field =
    | Fact(n: nat)
    | ListField(n: nat)
    | OutcomeField
    | NextActionField
    | RiskFlag
    | OtherKey(key: string)

  /** name, company, need, budget, product, phone, alternate_phone, address, customer_type, city,
      province, product_category, quantity, unit, amount, exact_amount, budget_min, budget_max,
      requested_discount, currency, followup_at, sales_stage, lead_temperature, sentiment,
      competitor_name, purchase_timeline, lost_reason, purchase_probability. */
  const FACT_COUNT := 28

  const AMOUNT := Fact(14)
  const EXACT_AMOUNT := Fact(15)
  const REQUESTED_DISCOUNT := Fact(18)
  const FOLLOWUP_AT := Fact(20)

  /** commitments, buying_signals, pain_points. */
  const LIST_COUNT := 3

  const COMMITMENTS := ListField(0)

  const FIELD_COUNT := FACT_COUNT + LIST_COUNT + 2

  /** The order in which the fields are validated. */
  function FieldAt(k: nat): Field
    requires k < FIELD_COUNT
  {
    if k < FACT_COUNT then Fact(k)
    else if k < FACT_COUNT + LIST_COUNT then ListField(k - FACT_COUNT)
    else if k == FACT_COUNT + LIST_COUNT then OutcomeField
    else NextActionField
  }

  predicate IsFact(f: Field) {
    f.Fact? && f.n < FACT_COUNT
  }

  predicate IsList(f: Field) {
    f.ListField? && f.n < LIST_COUNT
  }

  /** The fields `FieldAt` enumerates. */
  predicate Validated(f: Field) {
    IsFact(f) || IsList(f) || f.OutcomeField? || f.NextActionField?
  }

  function FieldIndex(f: Field): nat
    requires Validated(f)
  {
    match f
    case Fact(n) => n
    case ListField(n) => FACT_COUNT + n
    case OutcomeField => FACT_COUNT + LIST_COUNT
    case _ => FACT_COUNT + LIST_COUNT + 1
  }

  /** A note of the provider is `flagged` when its text starts with "unsupported_". */
  datatype Limitation =
    | ClaimRemoved(collection: Collection)
    | CustomerFieldUnsupported(field: Field)
    | OutcomeReset
    | NextActionRemoved
    | EvidenceRemoved
    | Note(text: string, flagged: bool)

  predicate Flagged(l: Limitation) {
    l.Note? ==> l.flagged
  }

  datatype Analysis = Analysis(
    roleConfidence: real, outcome: Outcome, outcomeConfidence: real,
    facts: map<Field, string>,        // the customer facts that are not null
    lists: map<Field, seq<string>>,   // the customer lists
    riskFlag: bool,
    claims: map<Collection, seq<Claim>>,
    overallScore: real, keyMoments: seq<Quote>, nextAction: Option<string>,
    fieldEvidence: map<Field, seq<Quote>>, limitations: seq<Limitation>,
    funnelStage: string, drafts: seq<Draft>)

  datatype Draft = Draft(channel: string, content: string)

  /** The shape the schema gives every analysis. */
  ghost predicate WellShaped(a: Analysis) {
    && (forall f :: f in a.facts ==> IsFact(f))
    && (forall f :: IsList(f) <==> f in a.lists)
    && (forall c: Collection :: c in a.claims)
  }

  // ---------- validation, field by field ----------

  function EvidenceFor(a: Analysis, f: Field): seq<Quote> {
    if f in a.fieldEvidence then a.fieldEvidence[f] else []
  }

  /** Whether validation looks at the field at all. */
  predicate Present(a: Analysis, f: Field) {
    if f.OutcomeField? then a.outcome != Unknown
    else if f.NextActionField? then a.nextAction.Some?
    else if IsList(f) then f in a.lists && a.lists[f] != []
    else f in a.facts
  }

  function FieldLimitation(f: Field): Limitation {
    if f.OutcomeField? then OutcomeReset
    else if f.NextActionField? then NextActionRemoved
    else CustomerFieldUnsupported(f)
  }

  function Cap(confidence: real): real {
    if confidence < 0.49 then confidence else 0.49
  }

  function Clear(a: Analysis, f: Field): Analysis {
    if f.OutcomeField? then a.(outcome := Unknown, outcomeConfidence := Cap(a.outcomeConfidence))
    else if f.NextActionField? then a.(nextAction := None)
    else if IsList(f) then a.(lists := a.lists[f := []])
    else a.(facts := a.facts - {f})
  }

  /** Filters one field's evidence and clears the field when nothing is left. */
  function SanitizeField(o: TextOracle, a: Analysis, f: Field, segments: seq<Item>): Analysis {
    if !Present(a, f) then a
    else
      var kept := Kept(o, EvidenceFor(a, f), segments);
      var filtered := a.(fieldEvidence := a.fieldEvidence[f := kept]);
      if kept == [] then Clear(filtered, f).(limitations := a.limitations + [FieldLimitation(f)]) else filtered
  }

  /** The first `count` fields, in order. */
  function SanitizeFields(o: TextOracle, a: Analysis, count: nat, segments: seq<Item>): Analysis
    requires count <= FIELD_COUNT
  {
    if count == 0 then a
    else SanitizeField(o, SanitizeFields(o, a, count - 1, segments), FieldAt(count - 1), segments)
  }

  /** The checks of one field, none when it is not there. */
  function ChecksAt(o: TextOracle, a: Analysis, f: Field, segments: seq<Item>): seq<Check> {
    if Present(a, f) then ChecksOf(o, EvidenceFor(a, f), segments) else []
  }

  function FieldChecks(o: TextOracle, a: Analysis, count: nat, segments: seq<Item>): seq<Check>
    requires count <= FIELD_COUNT
  {
    if count == 0 then []
    else FieldChecks(o, a, count - 1, segments) + ChecksAt(o, a, FieldAt(count - 1), segments)
  }

  // ---------- validation, claim by claim ----------

  function RetainedClaims(o: TextOracle, claims: seq<Claim>, segments: seq<Item>): seq<Claim> {
    if claims == [] then []
    else
      var last := claims[|claims| - 1];
      var kept := Kept(o, last.evidence, segments);
      RetainedClaims(o, claims[..|claims| - 1], segments) + if kept == [] then [] else [last.(evidence := kept)]
  }

  function ClaimChecks(o: TextOracle, claims: seq<Claim>, segments: seq<Item>): seq<Check> {
    if claims == [] then []
    else ClaimChecks(o, claims[..|claims| - 1], segments) + ChecksOf(o, claims[|claims| - 1].evidence, segments)
  }

  function ClaimLimitations(o: TextOracle, claims: seq<Claim>, c: Collection, segments: seq<Item>): seq<Limitation> {
    if claims == [] then []
    else
      ClaimLimitations(o, claims[..|claims| - 1], c, segments) +
      if Kept(o, claims[|claims| - 1].evidence, segments) == [] then [ClaimRemoved(c)] else []
  }

  function ClaimsOf(a: Analysis, c: Collection): seq<Claim> {
    if c in a.claims then a.claims[c] else []
  }

  /** The first `count` collections, in order. */
  function SanitizeCollection(o: TextOracle, a: Analysis, c: Collection, segments: seq<Item>): Analysis {
    a.(claims := a.claims[c := RetainedClaims(o, ClaimsOf(a, c), segments)],
       limitations := a.limitations + ClaimLimitations(o, ClaimsOf(a, c), c, segments))
  }

  function SanitizeClaims(o: TextOracle, a: Analysis, count: nat, segments: seq<Item>): Analysis
    requires count <= COLLECTION_COUNT
  {
    if count == 0 then a else SanitizeCollection(o, SanitizeClaims(o, a, count - 1, segments), CollectionAt(count - 1),
                                                 segments)
  }

  function AllClaimChecks(o: TextOracle, a: Analysis, count: nat, segments: seq<Item>): seq<Check>
    requires count <= COLLECTION_COUNT
  {
    if count == 0 then []
    else
      AllClaimChecks(o, a, count - 1, segments) + ClaimChecks(o, ClaimsOf(a, CollectionAt(count - 1)), segments)
  }

  function ScoreTotal(claims: seq<Claim>): real {
    if claims == [] then 0.0 else ScoreTotal(claims[..|claims| - 1]) + claims[|claims| - 1].weightedScore
  }

  /** Python's `round(x, 2)` on exact reals. */
  function Round2(x: real): real {
    RoundHalfEven(x * 100.0) as real / 100.0
  }

  // ---------- the whole pass ----------

  function Dedupe(s: seq<Limitation>): seq<Limitation> {
    if s == [] then []
    else
      var rest := Dedupe(s[..|s| - 1]);
      if s[|s| - 1] in rest then rest else rest + [s[|s| - 1]]
  }

  /** Claims, the score and the key moments. */
  function SanitizeBody(o: TextOracle, a: Analysis, segments: seq<Item>): Analysis {
    var b := SanitizeClaims(o, a, COLLECTION_COUNT, segments);
    b.(overallScore := Round2(ScoreTotal(ClaimsOf(b, ScoreItems))), keyMoments := Kept(o, a.keyMoments, segments))
  }

  function AllChecks(o: TextOracle, a: Analysis, segments: seq<Item>): seq<Check> {
    AllClaimChecks(o, a, COLLECTION_COUNT, segments) + ChecksOf(o, a.keyMoments, segments)
    + FieldChecks(o, a, FIELD_COUNT, segments)
  }

  predicate AnyUnsupported(checks: seq<Check>) {
    exists k :: 0 <= k < |checks| && !checks[k].supported
  }

  predicate AnyFlagged(limitations: seq<Limitation>) {
    exists k :: 0 <= k < |limitations| && Flagged(limitations[k])
  }

  /** The closing notes, the confidence cap and the removal of repeated notes. */
  function Conclude(a: Analysis, unsupported: bool): Analysis {
    var limitations := if unsupported then a.limitations + [EvidenceRemoved] else a.limitations;
    a.(outcomeConfidence := if AnyFlagged(limitations) then Cap(a.outcomeConfidence) else a.outcomeConfidence,
       limitations := Dedupe(limitations))
  }

  function Sanitize(o: TextOracle, a: Analysis, segments: seq<Item>): Analysis {
    Conclude(SanitizeFields(o, SanitizeBody(o, a, segments), FIELD_COUNT, segments),
             AnyUnsupported(AllChecks(o, a, segments)))
  }

  // ---------- what one pass does to each field ----------

  /** What filtering the fields in `examined` leaves of field `g`. */
  ghost predicate FieldResult(o: TextOracle, a: Analysis, b: Analysis, g: Field, examined: bool, segments: seq<Item>) {
    var kept := Kept(o, EvidenceFor(a, g), segments);
    && (Present(b, g) <==> Present(a, g) && (examined ==> kept != []))
    && EvidenceFor(b, g) == (if examined && Present(a, g) then kept else EvidenceFor(a, g))
    && (g in b.fieldEvidence <==> g in a.fieldEvidence || (examined && Present(a, g)))
  }

  lemma {:induction false} OneField(o: TextOracle, a: Analysis, f: Field, g: Field, segments: seq<Item>)
    requires WellShaped(a) && Validated(f)
    ensures FieldResult(o, a, SanitizeField(o, a, f, segments), g, g == f, segments)
  {
    if Present(a, f) {
      var kept := Kept(o, EvidenceFor(a, f), segments);
      var filtered := a.(fieldEvidence := a.fieldEvidence[f := kept]);
      FilteredField(a, f, kept, g);
      if kept == [] {
        ClearedField(filtered, f, FieldLimitation(f), g);
      }
    }
  }

  lemma {:induction false} FilteredField(a: Analysis, f: Field, kept: seq<Quote>, g: Field)
    ensures var b := a.(fieldEvidence := a.fieldEvidence[f := kept]);
            && (Present(b, g) <==> Present(a, g))
            && EvidenceFor(b, g) == (if g == f then kept else EvidenceFor(a, g))
            && (g in b.fieldEvidence <==> g in a.fieldEvidence || g == f)
  {
  }

  lemma {:induction false} ClearedField(a: Analysis, f: Field, l: Limitation, g: Field)
    requires WellShaped(a) && Validated(f) && Present(a, f)
    ensures var b := Clear(a, f).(limitations := a.limitations + [l]);
            && (Present(b, g) <==> Present(a, g) && g != f)
            && b.fieldEvidence == a.fieldEvidence
  {
    match f
    case Fact(_) =>
    case ListField(_) =>
    case OutcomeField =>
    case NextActionField =>
  }

  lemma {:induction false} OneFieldShape(o: TextOracle, a: Analysis, f: Field, segments: seq<Item>)
    requires WellShaped(a) && Validated(f)
    ensures WellShaped(SanitizeField(o, a, f, segments))
  {
  }

  /** The first `count` fields are filtered, each once, and the others are untouched. */
  lemma {:induction false} FieldPointwise(o: TextOracle, a: Analysis, count: nat, g: Field, segments: seq<Item>)
    requires WellShaped(a) && count <= FIELD_COUNT
    ensures WellShaped(SanitizeFields(o, a, count, segments))
    ensures FieldResult(o, a, SanitizeFields(o, a, count, segments), g, Validated(g) && FieldIndex(g) < count, segments)
  {
    if count == 0 {
    } else {
      FieldPointwise(o, a, count - 1, g, segments);
      var b := SanitizeFields(o, a, count - 1, segments);
      var f := FieldAt(count - 1);
      assert Validated(f) && FieldIndex(f) == count - 1;
      assert Validated(g) && FieldIndex(g) == count - 1 ==> g == f;
      OneField(o, b, f, g, segments);
      OneFieldShape(o, b, f, segments);
    }
  }

  // ---------- what survives, by support alone ----------

  /** The claim with the supported ones of its quotes. */
  ghost predicate ClaimKept(o: TextOracle, claim: Claim, segments: seq<Item>, kept: Claim) {
    kept == claim.(evidence := kept.evidence) && IsKept(o, claim.evidence, segments, kept.evidence)
  }

  /** `kept` holds the claims at these places, in order: exactly those some quote supports. */
  ghost predicate RetainedAt(
      o: TextOracle, claims: seq<Claim>, segments: seq<Item>, kept: seq<Claim>, places: seq<nat>)
  {
    && |places| == |kept|
    && (forall i, j :: 0 <= i < j < |places| ==> places[i] < places[j])
    && (forall j :: 0 <= j < |places| ==> places[j] < |claims| && ClaimKept(o, claims[places[j]], segments, kept[j]))
    && (forall k :: 0 <= k < |claims| ==> (k in places <==> SomeSupported(o, claims[k].evidence, segments)))
  }

  ghost predicate IsRetained(o: TextOracle, claims: seq<Claim>, segments: seq<Item>, kept: seq<Claim>) {
    exists places: seq<nat> :: RetainedAt(o, claims, segments, kept, places)
  }

  lemma {:induction false} RetainedExactly(o: TextOracle, claims: seq<Claim>, segments: seq<Item>)
    ensures IsRetained(o, claims, segments, RetainedClaims(o, claims, segments))
  {
    if claims == [] {
      assert RetainedAt(o, claims, segments, [], []);
    } else {
      var init := claims[..|claims| - 1];
      RetainedExactly(o, init, segments);
      var places: seq<nat> :| RetainedAt(o, init, segments, RetainedClaims(o, init, segments), places);
      RetainedNext(o, claims, segments, places);
    }
  }

  lemma {:induction false} RetainedNext(o: TextOracle, claims: seq<Claim>, segments: seq<Item>, places: seq<nat>)
    requires claims != []
    requires RetainedAt(o, claims[..|claims| - 1], segments, RetainedClaims(o, claims[..|claims| - 1], segments),
                        places)
    ensures IsRetained(o, claims, segments, RetainedClaims(o, claims, segments))
  {
    var last, kept := claims[|claims| - 1], RetainedClaims(o, claims[..|claims| - 1], segments);
    KeepsSome(o, last.evidence, segments);
    KeptExactly(o, last.evidence, segments);
    if SomeSupported(o, last.evidence, segments) {
      OneMoreRetained(o, claims, segments, kept, places, last.(evidence := Kept(o, last.evidence, segments)));
    } else {
      NoneMoreRetained(o, claims, segments, kept, places);
      assert kept + [] == kept;
    }
  }

  lemma {:induction false} OneMoreRetained(
      o: TextOracle, claims: seq<Claim>, segments: seq<Item>, kept: seq<Claim>, places: seq<nat>, claim: Claim)
    requires claims != [] && RetainedAt(o, claims[..|claims| - 1], segments, kept, places)
    requires ClaimKept(o, claims[|claims| - 1], segments, claim)
    requires SomeSupported(o, claims[|claims| - 1].evidence, segments)
    ensures RetainedAt(o, claims, segments, kept + [claim], places + [|claims| - 1])
  {
    var init := claims[..|claims| - 1];
    assert forall k :: 0 <= k < |init| ==> init[k] == claims[k];
    assert |init| !in places;
  }

  lemma {:induction false} NoneMoreRetained(
      o: TextOracle, claims: seq<Claim>, segments: seq<Item>, kept: seq<Claim>, places: seq<nat>)
    requires claims != [] && RetainedAt(o, claims[..|claims| - 1], segments, kept, places)
    requires !SomeSupported(o, claims[|claims| - 1].evidence, segments)
    ensures RetainedAt(o, claims, segments, kept, places)
  {
    var init := claims[..|claims| - 1];
    assert forall k :: 0 <= k < |init| ==> init[k] == claims[k];
    assert |init| !in places;
  }

  /** The value of a field. */
  ghost predicate SameValue(a: Analysis, b: Analysis, f: Field) {
    if f.OutcomeField? then b.outcome == a.outcome
    else if f.NextActionField? then b.nextAction == a.nextAction
    else if IsList(f) then f in a.lists && f in b.lists && b.lists[f] == a.lists[f]
    else f in a.facts && f in b.facts && b.facts[f] == a.facts[f]
  }

  lemma {:induction false} FieldKeepsValues(o: TextOracle, a: Analysis, f: Field, g: Field, segments: seq<Item>)
    requires WellShaped(a) && Validated(f) && Validated(g)
    ensures Present(SanitizeField(o, a, f, segments), g) ==> SameValue(a, SanitizeField(o, a, f, segments), g)
  {
    if Present(a, f) {
      ClearKeepsValues(a.(fieldEvidence := a.fieldEvidence[f := Kept(o, EvidenceFor(a, f), segments)]), f, g);
    }
  }

  lemma {:induction false} ClearKeepsValues(a: Analysis, f: Field, g: Field)
    requires WellShaped(a) && Validated(f) && Validated(g)
    ensures Present(Clear(a, f), g) ==> SameValue(a, Clear(a, f), g)
  {
  }

  lemma {:induction false} FieldsKeepValues(o: TextOracle, a: Analysis, count: nat, g: Field, segments: seq<Item>)
    requires WellShaped(a) && count <= FIELD_COUNT && Validated(g)
    ensures Present(SanitizeFields(o, a, count, segments), g) ==> SameValue(a, SanitizeFields(o, a, count, segments), g)
  {
    if count == 0 {
    } else {
      FieldsKeepValues(o, a, count - 1, g, segments);
      FieldPointwise(o, a, count - 1, g, segments);
      var b, f := SanitizeFields(o, a, count - 1, segments), FieldAt(count - 1);
      OneField(o, b, f, g, segments);
      FieldKeepsValues(o, b, f, g, segments);
    }
  }

  /** The analysis says something for the field. */
  ghost predicate Given(a: Analysis, f: Field) {
    match f
    case OutcomeField => a.outcome.Won? || a.outcome.Lost? || a.outcome.FollowUp?
    case NextActionField => a.nextAction.Some?
    case ListField(n) => n < LIST_COUNT && f in a.lists && |a.lists[f]| > 0
    case Fact(n) => n < FACT_COUNT && f in a.facts
    case _ => false
  }

  /** A fact, a list, the outcome or the next action survives validation exactly when it was there
      and some quote given for it is supported; then it has its value and the supported quotes. One
      that does not is gone. */
  lemma {:induction false} FieldSurvivesExactly(o: TextOracle, raw: Analysis, segments: seq<Item>, f: Field)
    requires WellShaped(raw) && Validated(f)
    ensures var b := Sanitize(o, raw, segments);
            && (Given(b, f) <==> Given(raw, f) && SomeSupported(o, EvidenceFor(raw, f), segments))
            && (Given(b, f) ==> SameValue(raw, b, f) && IsKept(o, EvidenceFor(raw, f), segments, EvidenceFor(b, f)))
  {
    var body, b := SanitizeBody(o, raw, segments), Sanitize(o, raw, segments);
    BodyShape(o, raw, segments);
    BodyKeepsFields(o, raw, segments);
    FieldPointwise(o, body, FIELD_COUNT, f, segments);
    FieldsKeepValues(o, body, FIELD_COUNT, f, segments);
    KeepsSome(o, EvidenceFor(raw, f), segments);
    KeptExactly(o, EvidenceFor(raw, f), segments);
    ValidatedPlace(f);
  }

  lemma {:induction false} ValidatedPlace(f: Field)
    requires Validated(f)
    ensures FieldIndex(f) < FIELD_COUNT
  {
  }

  /** A claim survives exactly when some quote of it is supported, with its supported quotes; and of
      the key moments the supported ones do. */
  lemma {:induction false} ClaimsSurviveExactly(o: TextOracle, raw: Analysis, segments: seq<Item>, c: Collection)
    requires WellShaped(raw)
    ensures IsRetained(o, ClaimsOf(raw, c), segments, ClaimsOf(Sanitize(o, raw, segments), c))
    ensures IsKept(o, raw.keyMoments, segments, Sanitize(o, raw, segments).keyMoments)
  {
    CollectionPointwise(o, raw, COLLECTION_COUNT, c, segments);
    FieldsKeepTheRest(o, SanitizeBody(o, raw, segments), FIELD_COUNT, segments);
    RetainedExactly(o, ClaimsOf(raw, c), segments);
    KeptExactly(o, raw.keyMoments, segments);
  }

  // ---------- the checks, the notes and the confidence ----------

  /** Why a check came out as it did. */
  lemma {:induction false} ReasonExactly(o: TextOracle, e: Quote, segments: seq<Item>)
    ensures var check := CheckEvidence(o, e, segments);
            && check.evidence == e
            && (check.reason == SupportedQuote <==> check.supported)
            && (check.reason == SegmentOutOfRange <==> !(0 <= e.segmentIndex < |segments|))
            && (check.reason == EmptyText <==>
                  0 <= e.segmentIndex < |segments| && (o.fold(e.quote) == ""
                                                       || o.fold(segments[e.segmentIndex].text) == ""))
            && (check.reason == TimestampMismatch <==>
                  OutOfTime(e, segments) && o.fold(e.quote) != "" && o.fold(segments[e.segmentIndex].text) != "")
            && (check.reason == QuoteMismatch ==> check.similarity < 0.72)
            && (check.supported ==> check.similarity >= 0.72)
  {
  }

  /** The reported similarity: none outside a segment or without text, full for a verbatim quote, and
      else the larger one of the fuzzy ratio and the share of the quote's tokens that are there. */
  lemma {:induction false} SimilarityExactly(o: TextOracle, e: Quote, segments: seq<Item>)
    ensures var check := CheckEvidence(o, e, segments);
            if check.reason == SegmentOutOfRange || check.reason == EmptyText then check.similarity == 0.0
            else
              var quote, text := o.fold(e.quote), o.fold(segments[e.segmentIndex].text);
              if OccursIn(quote, text) then check.similarity == 1.0
              else
                && check.similarity >= o.ratio(quote, text)
                && (check.similarity == o.ratio(quote, text) || SharesTokens(o, quote, text, check.similarity))
                && (o.tokens(quote) != {} && o.tokens(quote) <= o.tokens(text) ==> check.similarity >= 1.0)
  {
    if 0 <= e.segmentIndex < |segments| {
      var quote, text := o.fold(e.quote), o.fold(segments[e.segmentIndex].text);
      ContainsExactly(text, quote);
      CoverageShare(o, quote, text);
    }
  }

  ghost predicate OccursIn(quote: string, text: string) {
    exists i: nat :: OccursAt(quote, text, i)
  }

  predicate OccursAt(quote: string, text: string, i: nat) {
    i + |quote| <= |text| && text[i..i + |quote|] == quote
  }

  /** `share` times the number of tokens of the quote is the number of those the text has. */
  ghost predicate SharesTokens(o: TextOracle, quote: string, text: string, share: real) {
    if o.tokens(quote) == {} then share == 0.0
    else share * |o.tokens(quote)| as real == |o.tokens(quote) * o.tokens(text)| as real
  }

  lemma {:induction false} CoverageShare(o: TextOracle, quote: string, text: string)
    ensures SharesTokens(o, quote, text, Coverage(o, quote, text))
    ensures o.tokens(quote) != {} && o.tokens(quote) <= o.tokens(text) ==> Coverage(o, quote, text) == 1.0
  {
    var shared := o.tokens(quote) * o.tokens(text);
    if o.tokens(quote) <= o.tokens(text) {
      assert shared == o.tokens(quote);
    }
    if o.tokens(quote) == {} {
      assert shared == {};
    } else {
      ShareTimes(|shared|, |o.tokens(quote)|);
    }
  }

  lemma {:induction false} ShareTimes(m: nat, n: nat)
    requires n > 0
    ensures m as real / n as real * n as real == m as real
    ensures m == n ==> m as real / n as real == 1.0
  {
  }

  lemma {:induction false} ContainsExactly(t: string, q: string)
    ensures Contains(t, q) <==> OccursIn(q, t)
  {
    if Contains(t, q) {
      var i := ContainedAt(t, q);
    }
    if OccursIn(q, t) {
      var i: nat :| OccursAt(q, t, i);
      OccurrenceFound(t, q, i);
    }
  }

  lemma {:induction false} ContainedAt(t: string, q: string) returns (i: nat)
    requires Contains(t, q)
    ensures OccursAt(q, t, i)
  {
    if q <= t {
      i := 0;
    } else {
      i := ContainedAt(t[1..], q);
      Shifted(t, q, i);
      i := i + 1;
    }
  }

  lemma {:induction false} OccurrenceFound(t: string, q: string, i: nat)
    requires OccursAt(q, t, i)
    ensures Contains(t, q)
    decreases i
  {
    if i == 0 || t == "" {
    } else {
      Shifted(t, q, i - 1);
      OccurrenceFound(t[1..], q, i - 1);
    }
  }

  lemma {:induction false} Shifted(t: string, q: string, i: nat)
    requires t != ""
    ensures OccursAt(q, t[1..], i) <==> OccursAt(q, t, i + 1)
  {
    if i + 1 + |q| <= |t| {
      assert t[1..][i..i + |q|] == t[i + 1..i + 1 + |q|];
    }
  }

  /** More than a second before the segment's start or after its end. */
  ghost predicate OutOfTime(e: Quote, segments: seq<Item>) {
    && 0 <= e.segmentIndex < |segments|
    && var s := segments[e.segmentIndex];
    && e.timestamp.Some? && s.start.Some? && s.end.Some?
    && (e.timestamp.value < s.start.value - 1.0 || e.timestamp.value > s.end.value + 1.0)
  }

  ghost predicate QuotesSupported(o: TextOracle, quotes: seq<Quote>, segments: seq<Item>) {
    forall e :: e in quotes ==> Supported(o, e, segments)
  }

  ghost predicate ClaimsSupported(o: TextOracle, claims: seq<Claim>, segments: seq<Item>) {
    forall k :: 0 <= k < |claims| ==> QuotesSupported(o, claims[k].evidence, segments)
  }

  /** Every quote of a claim, of the key moments and of a field that is there is supported. */
  ghost predicate EverythingSupported(o: TextOracle, a: Analysis, segments: seq<Item>) {
    && (forall c: Collection :: ClaimsSupported(o, ClaimsOf(a, c), segments))
    && QuotesSupported(o, a.keyMoments, segments)
    && (forall f :: Given(a, f) ==> QuotesSupported(o, EvidenceFor(a, f), segments))
  }

  lemma {:induction false} QuotesChecked(o: TextOracle, quotes: seq<Quote>, segments: seq<Item>)
    ensures AllSupported(ChecksOf(o, quotes, segments)) <==> QuotesSupported(o, quotes, segments)
  {
    var checks := ChecksOf(o, quotes, segments);
    if AllSupported(checks) {
      forall e | e in quotes ensures Supported(o, e, segments) {
        var k :| 0 <= k < |quotes| && quotes[k] == e;
        assert checks[k].supported;
      }
    }
    if QuotesSupported(o, quotes, segments) {
      forall k | 0 <= k < |checks| ensures checks[k].supported {
        assert quotes[k] in quotes;
      }
    }
  }

  lemma {:induction false} ClaimsChecked(o: TextOracle, claims: seq<Claim>, segments: seq<Item>)
    ensures AllSupported(ClaimChecks(o, claims, segments)) <==> ClaimsSupported(o, claims, segments)
  {
    if claims == [] {
    } else {
      var init, last := claims[..|claims| - 1], claims[|claims| - 1];
      ClaimsChecked(o, init, segments);
      QuotesChecked(o, last.evidence, segments);
      SupportedConcat(ClaimChecks(o, init, segments), ChecksOf(o, last.evidence, segments));
      assert forall k :: 0 <= k < |init| ==> init[k] == claims[k];
    }
  }

  lemma {:induction false} CollectionsChecked(o: TextOracle, a: Analysis, count: nat, segments: seq<Item>)
    requires count <= COLLECTION_COUNT
    ensures AllSupported(AllClaimChecks(o, a, count, segments)) <==>
            forall k :: 0 <= k < count ==> ClaimsSupported(o, ClaimsOf(a, CollectionAt(k)), segments)
  {
    if count == 0 {
    } else {
      CollectionsChecked(o, a, count - 1, segments);
      var claims := ClaimsOf(a, CollectionAt(count - 1));
      ClaimsChecked(o, claims, segments);
      SupportedConcat(AllClaimChecks(o, a, count - 1, segments), ClaimChecks(o, claims, segments));
    }
  }

  ghost predicate FieldSupported(o: TextOracle, a: Analysis, f: Field, segments: seq<Item>) {
    Present(a, f) ==> QuotesSupported(o, EvidenceFor(a, f), segments)
  }

  lemma {:induction false} FieldsChecked(o: TextOracle, a: Analysis, count: nat, segments: seq<Item>)
    requires count <= FIELD_COUNT
    ensures AllSupported(FieldChecks(o, a, count, segments)) <==>
            forall k :: 0 <= k < count ==> FieldSupported(o, a, FieldAt(k), segments)
  {
    if count == 0 {
    } else {
      FieldsChecked(o, a, count - 1, segments);
      var f := FieldAt(count - 1);
      QuotesChecked(o, EvidenceFor(a, f), segments);
      SupportedConcat(FieldChecks(o, a, count - 1, segments), ChecksAt(o, a, f, segments));
    }
  }

  /** Every check made came out supported exactly when every quote that validation looks at is. */
  lemma {:induction false} ChecksExactly(o: TextOracle, a: Analysis, segments: seq<Item>)
    ensures AllSupported(AllChecks(o, a, segments)) <==> EverythingSupported(o, a, segments)
  {
    var claims, moments := AllClaimChecks(o, a, COLLECTION_COUNT, segments), ChecksOf(o, a.keyMoments, segments);
    SupportedConcat(claims + moments, FieldChecks(o, a, FIELD_COUNT, segments));
    SupportedConcat(claims, moments);
    CollectionsChecked(o, a, COLLECTION_COUNT, segments);
    QuotesChecked(o, a.keyMoments, segments);
    FieldsChecked(o, a, FIELD_COUNT, segments);
    EveryCollection(o, a, segments);
    EveryField(o, a, segments);
  }

  lemma {:induction false} EveryCollection(o: TextOracle, a: Analysis, segments: seq<Item>)
    ensures (forall k :: 0 <= k < COLLECTION_COUNT ==> ClaimsSupported(o, ClaimsOf(a, CollectionAt(k)), segments)) <==>
            forall c: Collection :: ClaimsSupported(o, ClaimsOf(a, c), segments)
  {
    forall c: Collection ensures CollectionIndex(c) < COLLECTION_COUNT && CollectionAt(CollectionIndex(c)) == c {
    }
    if forall k :: 0 <= k < COLLECTION_COUNT ==> ClaimsSupported(o, ClaimsOf(a, CollectionAt(k)), segments) {
      forall c: Collection ensures ClaimsSupported(o, ClaimsOf(a, c), segments) {
        assert ClaimsSupported(o, ClaimsOf(a, CollectionAt(CollectionIndex(c))), segments);
      }
    }
  }

  lemma {:induction false} EveryField(o: TextOracle, a: Analysis, segments: seq<Item>)
    ensures (forall k :: 0 <= k < FIELD_COUNT ==> FieldSupported(o, a, FieldAt(k), segments)) <==>
            forall f :: Validated(f) && Present(a, f) ==> QuotesSupported(o, EvidenceFor(a, f), segments)
  {
    forall f | Validated(f) ensures FieldIndex(f) < FIELD_COUNT && FieldAt(FieldIndex(f)) == f {
    }
    if forall f :: Validated(f) && Present(a, f) ==> QuotesSupported(o, EvidenceFor(a, f), segments) {
      forall k | 0 <= k < FIELD_COUNT ensures FieldSupported(o, a, FieldAt(k), segments) {
        assert Validated(FieldAt(k));
      }
    }
    if forall k :: 0 <= k < FIELD_COUNT ==> FieldSupported(o, a, FieldAt(k), segments) {
      forall f | Validated(f) && Present(a, f) ensures QuotesSupported(o, EvidenceFor(a, f), segments) {
        assert FieldSupported(o, a, FieldAt(FieldIndex(f)), segments);
      }
    }
  }

  /** A note that validation itself adds: of a removed claim, a cleared field, or any removal. */
  ghost predicate Added(o: TextOracle, raw: Analysis, segments: seq<Item>, l: Limitation) {
    match l
    case ClaimRemoved(c) => ClaimLost(o, ClaimsOf(raw, c), segments)
    case CustomerFieldUnsupported(f) => (IsFact(f) || IsList(f)) && FieldLost(o, raw, f, segments)
    case OutcomeReset => FieldLost(o, raw, OutcomeField, segments)
    case NextActionRemoved => FieldLost(o, raw, NextActionField, segments)
    case EvidenceRemoved => !EverythingSupported(o, raw, segments)
    case Note(_, _) => false
  }

  ghost predicate ClaimLost(o: TextOracle, claims: seq<Claim>, segments: seq<Item>) {
    exists k :: 0 <= k < |claims| && !SomeSupported(o, claims[k].evidence, segments)
  }

  ghost predicate FieldLost(o: TextOracle, raw: Analysis, f: Field, segments: seq<Item>) {
    Given(raw, f) && !SomeSupported(o, EvidenceFor(raw, f), segments)
  }

  lemma {:induction false} ClaimNotes(
      o: TextOracle, claims: seq<Claim>, c: Collection, segments: seq<Item>, l: Limitation)
    ensures l in ClaimLimitations(o, claims, c, segments) <==> l == ClaimRemoved(c) && ClaimLost(o, claims, segments)
  {
    if claims == [] {
    } else {
      var init := claims[..|claims| - 1];
      ClaimNotes(o, init, c, segments, l);
      KeepsSome(o, claims[|claims| - 1].evidence, segments);
      assert forall k :: 0 <= k < |init| ==> init[k] == claims[k];
    }
  }

  lemma {:induction false} CollectionNotes(o: TextOracle, a: Analysis, count: nat, segments: seq<Item>, l: Limitation)
    requires WellShaped(a) && count <= COLLECTION_COUNT
    ensures l in SanitizeClaims(o, a, count, segments).limitations <==>
            || l in a.limitations
            || (l.ClaimRemoved? && CollectionIndex(l.collection) < count
                && ClaimLost(o, ClaimsOf(a, l.collection), segments))
  {
    if count == 0 {
    } else {
      CollectionNotes(o, a, count - 1, segments, l);
      var c := CollectionAt(count - 1);
      CollectionUntouched(o, a, count - 1, c, segments);
      ClaimNotes(o, ClaimsOf(a, c), c, segments, l);
      if l.ClaimRemoved? {
        CollectionPlace(l.collection, count - 1);
      }
    }
  }

  lemma {:induction false} FieldNotes(o: TextOracle, a: Analysis, count: nat, segments: seq<Item>, l: Limitation)
    requires WellShaped(a) && count <= FIELD_COUNT
    ensures l in SanitizeFields(o, a, count, segments).limitations <==>
            l in a.limitations || SomeNoteOf(o, a, count, segments, l)
  {
    if count == 0 {
    } else {
      FieldNotes(o, a, count - 1, segments, l);
      NextFieldNote(o, a, count - 1, segments, l);
    }
  }

  lemma {:induction false} NextFieldNote(o: TextOracle, a: Analysis, k: nat, segments: seq<Item>, l: Limitation)
    requires WellShaped(a) && k < FIELD_COUNT
    ensures l in SanitizeFields(o, a, k + 1, segments).limitations <==>
            l in SanitizeFields(o, a, k, segments).limitations || NoteOf(o, a, FieldAt(k), segments, l)
    ensures SomeNoteOf(o, a, k + 1, segments, l) <==>
            SomeNoteOf(o, a, k, segments, l) || NoteOf(o, a, FieldAt(k), segments, l)
  {
    OneFieldNote(o, SanitizeFields(o, a, k, segments), FieldAt(k), segments, l);
    StillLost(o, a, k, segments, l);
  }

  ghost predicate SomeNoteOf(o: TextOracle, a: Analysis, count: nat, segments: seq<Item>, l: Limitation)
    requires count <= FIELD_COUNT
  {
    exists k :: 0 <= k < count && NoteOf(o, a, FieldAt(k), segments, l)
  }

  /** When a field's turn comes it is as it was. */
  lemma {:induction false} StillLost(o: TextOracle, a: Analysis, k: nat, segments: seq<Item>, l: Limitation)
    requires WellShaped(a) && k < FIELD_COUNT
    ensures NoteOf(o, SanitizeFields(o, a, k, segments), FieldAt(k), segments, l) <==>
            NoteOf(o, a, FieldAt(k), segments, l)
  {
    FieldPointwise(o, a, k, FieldAt(k), segments);
    FieldPlace(FieldAt(k), k);
  }

  ghost predicate NoteOf(o: TextOracle, a: Analysis, f: Field, segments: seq<Item>, l: Limitation) {
    FieldLost(o, a, f, segments) && l == FieldLimitation(f)
  }

  lemma {:induction false} OneFieldNote(o: TextOracle, a: Analysis, f: Field, segments: seq<Item>, l: Limitation)
    requires Validated(f)
    ensures l in SanitizeField(o, a, f, segments).limitations <==> l in a.limitations || NoteOf(o, a, f, segments, l)
  {
    KeepsSome(o, EvidenceFor(a, f), segments);
  }

  lemma {:induction false} SomeFieldNote(o: TextOracle, a: Analysis, segments: seq<Item>, l: Limitation)
    ensures SomeNoteOf(o, a, FIELD_COUNT, segments, l) <==>
            !l.ClaimRemoved? && !l.EvidenceRemoved? && !l.Note? && Added(o, a, segments, l)
  {
    if k :| 0 <= k < FIELD_COUNT && NoteOf(o, a, FieldAt(k), segments, l) {
      assert Validated(FieldAt(k));
    }
    if !l.ClaimRemoved? && !l.EvidenceRemoved? && !l.Note? && Added(o, a, segments, l) {
      var f := if l.OutcomeReset? then OutcomeField else if l.NextActionRemoved? then NextActionField else l.field;
      assert FieldAt(FieldIndex(f)) == f;
      assert NoteOf(o, a, FieldAt(FieldIndex(f)), segments, l);
    }
  }

  /** The notes afterwards are the provider's and the added ones. */
  lemma {:induction false} NotesExactly(o: TextOracle, raw: Analysis, segments: seq<Item>, l: Limitation)
    requires WellShaped(raw)
    ensures l in Sanitize(o, raw, segments).limitations <==> l in raw.limitations || Added(o, raw, segments, l)
  {
    NotesBefore(o, raw, segments, l);
    ChecksExactly(o, raw, segments);
    AnyUnsupportedExactly(AllChecks(o, raw, segments));
    var notes := SanitizeFields(o, SanitizeBody(o, raw, segments), FIELD_COUNT, segments).limitations;
    DedupeProperties(if AnyUnsupported(AllChecks(o, raw, segments)) then notes + [EvidenceRemoved] else notes);
  }

  lemma {:induction false} AnyUnsupportedExactly(checks: seq<Check>)
    ensures AnyUnsupported(checks) <==> !AllSupported(checks)
  {
  }

  /** The confidence afterwards: at most 0.49 as soon as any note is a flagged one, given or added;
      the provider's own otherwise. No note is repeated. */
  lemma {:induction false} ConfidenceExactly(o: TextOracle, raw: Analysis, segments: seq<Item>)
    ensures var b := Sanitize(o, raw, segments);
            && b.outcomeConfidence == (if (exists k :: 0 <= k < |b.limitations| && Flagged(b.limitations[k]))
                                          && raw.outcomeConfidence > 0.49 then 0.49 else raw.outcomeConfidence)
            && (forall i, j :: 0 <= i < j < |b.limitations| ==> b.limitations[i] != b.limitations[j])
  {
    var body := SanitizeBody(o, raw, segments);
    var c := SanitizeFields(o, body, FIELD_COUNT, segments);
    var unsupported := AnyUnsupported(AllChecks(o, raw, segments));
    var notes := if unsupported then c.limitations + [EvidenceRemoved] else c.limitations;
    CappedWithNote(o, body, FIELD_COUNT, segments);
    ClaimsLeaveConfidence(o, raw, COLLECTION_COUNT, segments);
    FlaggedSurvives(notes);
    DedupeProperties(notes);
    if OutcomeReset in c.limitations {
      assert OutcomeReset in notes;
      assert AnyFlagged(notes);
    }
  }

  lemma {:induction false} ClaimsLeaveConfidence(o: TextOracle, a: Analysis, count: nat, segments: seq<Item>)
    requires count <= COLLECTION_COUNT
    ensures SanitizeClaims(o, a, count, segments).outcomeConfidence == a.outcomeConfidence
  {
    if count == 0 {
    } else {
      ClaimsLeaveConfidence(o, a, count - 1, segments);
    }
  }

  /** Clearing the outcome caps the confidence and leaves a note. */
  lemma {:induction false} CappedWithNote(o: TextOracle, a: Analysis, count: nat, segments: seq<Item>)
    requires count <= FIELD_COUNT
    ensures var b := SanitizeFields(o, a, count, segments);
            || b.outcomeConfidence == a.outcomeConfidence
            || (b.outcomeConfidence == Cap(a.outcomeConfidence) && OutcomeReset in b.limitations)
  {
    if count == 0 {
    } else {
      CappedWithNote(o, a, count - 1, segments);
      CappedStep(o, SanitizeFields(o, a, count - 1, segments), FieldAt(count - 1), segments);
    }
  }

  lemma {:induction false} CappedStep(o: TextOracle, a: Analysis, f: Field, segments: seq<Item>)
    ensures var b := SanitizeField(o, a, f, segments);
            && (forall l :: l in a.limitations ==> l in b.limitations)
            && (b.outcomeConfidence == a.outcomeConfidence
                || (b.outcomeConfidence == Cap(a.outcomeConfidence) && OutcomeReset in b.limitations))
  {
  }

  lemma {:induction false} NotesBefore(o: TextOracle, raw: Analysis, segments: seq<Item>, l: Limitation)
    requires WellShaped(raw)
    ensures l in SanitizeFields(o, SanitizeBody(o, raw, segments), FIELD_COUNT, segments).limitations <==>
            l in raw.limitations || (!l.EvidenceRemoved? && Added(o, raw, segments, l))
  {
    var body := SanitizeBody(o, raw, segments);
    BodyShape(o, raw, segments);
    BodyKeepsFields(o, raw, segments);
    CollectionNotes(o, raw, COLLECTION_COUNT, segments, l);
    FieldNotes(o, body, FIELD_COUNT, segments, l);
    SomeFieldNote(o, body, segments, l);
    if l.ClaimRemoved? {
      CollectionInRange(l.collection);
    }
    assert !l.ClaimRemoved? && !l.EvidenceRemoved? ==> (Added(o, body, segments, l) <==> Added(o, raw, segments, l));
  }

  lemma {:induction false} CollectionInRange(c: Collection)
    ensures CollectionIndex(c) < COLLECTION_COUNT
  {
  }

  // ---------- analyses that validation leaves alone ----------

  ghost predicate CleanQuotes(o: TextOracle, quotes: seq<Quote>, segments: seq<Item>) {
    quotes != [] && Kept(o, quotes, segments) == quotes
  }

  ghost predicate CleanClaims(o: TextOracle, claims: seq<Claim>, segments: seq<Item>) {
    forall k :: 0 <= k < |claims| ==> CleanQuotes(o, claims[k].evidence, segments)
  }

  ghost predicate CleanField(o: TextOracle, a: Analysis, f: Field, segments: seq<Item>) {
    Present(a, f) ==> f in a.fieldEvidence && CleanQuotes(o, a.fieldEvidence[f], segments)
  }

  /** Every claim and every field has evidence, and all evidence is supported. */
  ghost predicate Clean(o: TextOracle, a: Analysis, segments: seq<Item>) {
    && (forall c: Collection :: CleanClaims(o, ClaimsOf(a, c), segments))
    && Kept(o, a.keyMoments, segments) == a.keyMoments
    && (forall f :: Validated(f) ==> CleanField(o, a, f, segments))
  }

  lemma {:induction false} CleanClaimsFixed(o: TextOracle, claims: seq<Claim>, c: Collection, segments: seq<Item>)
    requires CleanClaims(o, claims, segments)
    ensures RetainedClaims(o, claims, segments) == claims
    ensures ClaimLimitations(o, claims, c, segments) == []
    ensures AllSupported(ClaimChecks(o, claims, segments))
    decreases |claims|
  {
    if claims == [] {
    } else {
      var init, last := claims[..|claims| - 1], claims[|claims| - 1];
      assert claims == init + [last];
      CleanClaimsFixed(o, init, c, segments);
      assert CleanQuotes(o, last.evidence, segments);
      KeptAll(o, last.evidence, segments);
    }
  }

  lemma {:induction false} CleanCollectionsFixed(o: TextOracle, a: Analysis, count: nat, segments: seq<Item>)
    requires WellShaped(a) && Clean(o, a, segments) && count <= COLLECTION_COUNT
    ensures SanitizeClaims(o, a, count, segments) == a
    ensures AllSupported(AllClaimChecks(o, a, count, segments))
  {
    if count == 0 {
    } else {
      CleanCollectionsFixed(o, a, count - 1, segments);
      var c := CollectionAt(count - 1);
      CleanCollectionFixed(o, a, c, segments);
      SupportedConcat(AllClaimChecks(o, a, count - 1, segments), ClaimChecks(o, ClaimsOf(a, c), segments));
    }
  }

  lemma {:induction false} CleanCollectionFixed(o: TextOracle, a: Analysis, c: Collection, segments: seq<Item>)
    requires WellShaped(a) && CleanClaims(o, ClaimsOf(a, c), segments)
    ensures SanitizeCollection(o, a, c, segments) == a
    ensures AllSupported(ClaimChecks(o, ClaimsOf(a, c), segments))
  {
    CleanClaimsFixed(o, ClaimsOf(a, c), c, segments);
    SameAnalysis(a, c);
  }

  lemma {:induction false} SameAnalysis(a: Analysis, c: Collection)
    requires WellShaped(a)
    ensures a.(claims := a.claims[c := ClaimsOf(a, c)], limitations := a.limitations + []) == a
  {
    assert c in a.claims && a.claims[c := a.claims[c]] == a.claims;
  }

  lemma {:induction false} CleanFieldsFixed(o: TextOracle, a: Analysis, count: nat, segments: seq<Item>)
    requires Clean(o, a, segments) && count <= FIELD_COUNT
    ensures SanitizeFields(o, a, count, segments) == a
    ensures AllSupported(FieldChecks(o, a, count, segments))
  {
    if count == 0 {
    } else {
      CleanFieldsFixed(o, a, count - 1, segments);
      CleanFieldFixed(o, a, FieldAt(count - 1), segments);
      SupportedConcat(FieldChecks(o, a, count - 1, segments), ChecksAt(o, a, FieldAt(count - 1), segments));
    }
  }

  lemma {:induction false} CleanFieldFixed(o: TextOracle, a: Analysis, f: Field, segments: seq<Item>)
    requires CleanField(o, a, f, segments)
    ensures SanitizeField(o, a, f, segments) == a && AllSupported(ChecksAt(o, a, f, segments))
  {
    if Present(a, f) {
      KeptAll(o, a.fieldEvidence[f], segments);
      assert a.fieldEvidence[f := a.fieldEvidence[f]] == a.fieldEvidence;
    }
  }

  /** A clean analysis only has its score recomputed and its notes concluded. */
  lemma {:induction false} CleanFixed(o: TextOracle, a: Analysis, segments: seq<Item>)
    requires WellShaped(a) && Clean(o, a, segments)
    ensures AllSupported(AllChecks(o, a, segments))
    ensures Sanitize(o, a, segments)
            == Conclude(a.(overallScore := Round2(ScoreTotal(ClaimsOf(a, ScoreItems)))), false)
  {
    CleanChecks(o, a, segments);
    CleanCollectionsFixed(o, a, COLLECTION_COUNT, segments);
    var b := SanitizeBody(o, a, segments);
    assert b == a.(overallScore := Round2(ScoreTotal(ClaimsOf(a, ScoreItems))));
    CleanTransfers(o, a, b, segments);
    CleanFieldsFixed(o, b, FIELD_COUNT, segments);
  }

  lemma {:induction false} CleanChecks(o: TextOracle, a: Analysis, segments: seq<Item>)
    requires WellShaped(a) && Clean(o, a, segments)
    ensures AllSupported(AllChecks(o, a, segments))
  {
    CleanCollectionsFixed(o, a, COLLECTION_COUNT, segments);
    CleanFieldsFixed(o, a, FIELD_COUNT, segments);
    KeptAll(o, a.keyMoments, segments);
  }

  lemma {:induction false} CleanTransfers(o: TextOracle, a: Analysis, b: Analysis, segments: seq<Item>)
    requires Clean(o, a, segments)
    requires b.claims == a.claims && b.keyMoments == a.keyMoments && b.fieldEvidence == a.fieldEvidence
    requires b.outcome == a.outcome && b.nextAction == a.nextAction && b.facts == a.facts && b.lists == a.lists
    ensures Clean(o, b, segments)
  {
    forall c: Collection ensures CleanClaims(o, ClaimsOf(b, c), segments) {
      assert CleanClaims(o, ClaimsOf(a, c), segments);
    }
    forall f | Validated(f) ensures CleanField(o, b, f, segments) {
      assert CleanField(o, a, f, segments);
    }
  }

  // ---------- one pass makes an analysis clean ----------

  lemma {:induction false} RetainedClean(o: TextOracle, claims: seq<Claim>, segments: seq<Item>)
    ensures CleanClaims(o, RetainedClaims(o, claims, segments), segments)
    decreases |claims|
  {
    if claims == [] {
    } else {
      RetainedClean(o, claims[..|claims| - 1], segments);
      KeptTwice(o, claims[|claims| - 1].evidence, segments);
    }
  }

  lemma {:induction false} CollectionStep(o: TextOracle, a: Analysis, d: Collection, c: Collection, segments: seq<Item>)
    requires WellShaped(a)
    ensures var b := SanitizeCollection(o, a, d, segments);
            && b == a.(claims := b.claims, limitations := b.limitations) && WellShaped(b)
            && ClaimsOf(b, c) == if c == d then RetainedClaims(o, ClaimsOf(a, c), segments) else ClaimsOf(a, c)
  {
  }

  lemma {:induction false} CollectionPlace(c: Collection, k: nat)
    requires k < COLLECTION_COUNT
    ensures CollectionIndex(c) == k <==> c == CollectionAt(k)
  {
  }

  /** `b` is `a` with its first `count` collections validated, seen at collection `c`. */
  ghost predicate CollectionsDone(
      o: TextOracle, a: Analysis, b: Analysis, count: nat, c: Collection, segments: seq<Item>)
  {
    && b == a.(claims := b.claims, limitations := b.limitations)
    && WellShaped(b)
    && ClaimsOf(b, c) == (if CollectionIndex(c) < count then RetainedClaims(o, ClaimsOf(a, c), segments)
                          else ClaimsOf(a, c))
  }

  lemma {:induction false} CollectionNext(
      o: TextOracle, a: Analysis, b: Analysis, k: nat, c: Collection, segments: seq<Item>)
    requires k < COLLECTION_COUNT && CollectionsDone(o, a, b, k, c, segments)
    ensures CollectionsDone(o, a, SanitizeCollection(o, b, CollectionAt(k), segments), k + 1, c, segments)
  {
    CollectionPlace(c, k);
    CollectionStep(o, b, CollectionAt(k), c, segments);
  }

  lemma {:induction false} CollectionPointwise(
      o: TextOracle, a: Analysis, count: nat, c: Collection, segments: seq<Item>)
    requires WellShaped(a) && count <= COLLECTION_COUNT
    ensures CollectionsDone(o, a, SanitizeClaims(o, a, count, segments), count, c, segments)
  {
    if count == 0 {
    } else {
      CollectionPointwise(o, a, count - 1, c, segments);
      CollectionNext(o, a, SanitizeClaims(o, a, count - 1, segments), count - 1, c, segments);
    }
  }

  /** What clearing fields leaves alone; the outcome's confidence can only be capped. */
  ghost predicate SameRest(a: Analysis, b: Analysis) {
    && b.claims == a.claims && b.keyMoments == a.keyMoments && b.overallScore == a.overallScore
    && b.roleConfidence == a.roleConfidence && b.riskFlag == a.riskFlag
    && b.funnelStage == a.funnelStage && b.drafts == a.drafts
    && (b.outcomeConfidence == a.outcomeConfidence || b.outcomeConfidence == Cap(a.outcomeConfidence))
  }

  lemma {:induction false} ClearKeepsTheRest(a: Analysis, f: Field)
    ensures SameRest(a, Clear(a, f))
  {
  }

  lemma {:induction false} FieldKeepsTheRest(o: TextOracle, a: Analysis, f: Field, segments: seq<Item>)
    ensures SameRest(a, SanitizeField(o, a, f, segments))
  {
    if Present(a, f) {
      ClearKeepsTheRest(a.(fieldEvidence := a.fieldEvidence[f := Kept(o, EvidenceFor(a, f), segments)]), f);
    }
  }

  lemma {:induction false} FieldsKeepTheRest(o: TextOracle, a: Analysis, count: nat, segments: seq<Item>)
    requires count <= FIELD_COUNT
    ensures SameRest(a, SanitizeFields(o, a, count, segments))
  {
    if count == 0 {
    } else {
      FieldsKeepTheRest(o, a, count - 1, segments);
      FieldKeepsTheRest(o, SanitizeFields(o, a, count - 1, segments), FieldAt(count - 1), segments);
    }
  }

  lemma {:induction false} ClaimsCleaned(o: TextOracle, a: Analysis, c: Collection, segments: seq<Item>)
    requires WellShaped(a)
    ensures CleanClaims(o, ClaimsOf(SanitizeBody(o, a, segments), c), segments)
  {
    CollectionPointwise(o, a, COLLECTION_COUNT, c, segments);
    RetainedClean(o, ClaimsOf(a, c), segments);
  }

  lemma {:induction false} FieldCleaned(o: TextOracle, a: Analysis, f: Field, segments: seq<Item>)
    requires WellShaped(a) && Validated(f)
    ensures CleanField(o, SanitizeFields(o, a, FIELD_COUNT, segments), f, segments)
  {
    FieldPointwise(o, a, FIELD_COUNT, f, segments);
    KeptTwice(o, EvidenceFor(a, f), segments);
  }

  lemma {:induction false} BodyShape(o: TextOracle, a: Analysis, segments: seq<Item>)
    requires WellShaped(a)
    ensures WellShaped(SanitizeBody(o, a, segments))
    ensures WellShaped(SanitizeFields(o, SanitizeBody(o, a, segments), FIELD_COUNT, segments))
  {
    CollectionPointwise(o, a, COLLECTION_COUNT, ScoreItems, segments);
    FieldPointwise(o, SanitizeBody(o, a, segments), FIELD_COUNT, OutcomeField, segments);
  }

  /** Every claim and every fact that survives has evidence, and all of it is supported. */
  lemma {:induction false} SanitizedIsClean(o: TextOracle, a: Analysis, segments: seq<Item>)
    requires WellShaped(a)
    ensures WellShaped(Sanitize(o, a, segments)) && Clean(o, Sanitize(o, a, segments), segments)
    ensures Sanitize(o, a, segments).overallScore == Round2(ScoreTotal(ClaimsOf(Sanitize(o, a, segments), ScoreItems)))
  {
    var body := SanitizeBody(o, a, segments);
    BodyShape(o, a, segments);
    var b := SanitizeFields(o, body, FIELD_COUNT, segments);
    FieldsKeepTheRest(o, body, FIELD_COUNT, segments);
    KeptTwice(o, a.keyMoments, segments);
    forall c: Collection ensures CleanClaims(o, ClaimsOf(b, c), segments) {
      ClaimsCleaned(o, a, c, segments);
    }
    forall f | Validated(f) ensures CleanField(o, b, f, segments) {
      FieldCleaned(o, body, f, segments);
    }
    assert Clean(o, b, segments);
    CleanTransfers(o, b, Sanitize(o, a, segments), segments);
  }

  // ---------- notes ----------

  lemma {:induction false} DedupeProperties(s: seq<Limitation>)
    ensures forall l :: l in Dedupe(s) <==> l in s
    ensures forall i, j :: 0 <= i < j < |Dedupe(s)| ==> Dedupe(s)[i] != Dedupe(s)[j]
  {
    if s == [] {
    } else {
      assert s == s[..|s| - 1] + [s[|s| - 1]];
      DedupeProperties(s[..|s| - 1]);
    }
  }

  lemma {:induction false} DedupeDistinct(s: seq<Limitation>)
    requires forall i, j :: 0 <= i < j < |s| ==> s[i] != s[j]
    ensures Dedupe(s) == s
  {
    if s == [] {
    } else {
      var init := s[..|s| - 1];
      assert s == init + [s[|s| - 1]];
      DedupeDistinct(init);
    }
  }

  lemma {:induction false} FlaggedSurvives(s: seq<Limitation>)
    ensures AnyFlagged(Dedupe(s)) <==> AnyFlagged(s)
  {
    DedupeProperties(s);
    if AnyFlagged(s) {
      var k :| 0 <= k < |s| && Flagged(s[k]);
      assert s[k] in Dedupe(s);
    }
    if AnyFlagged(Dedupe(s)) {
      var k :| 0 <= k < |Dedupe(s)| && Flagged(Dedupe(s)[k]);
      assert Dedupe(s)[k] in s;
    }
  }

  /** Validating twice is validating once, and the second pass finds nothing unsupported. */
  lemma {:induction false} SanitizeIdempotent(o: TextOracle, a: Analysis, segments: seq<Item>)
    requires WellShaped(a)
    ensures Sanitize(o, Sanitize(o, a, segments), segments) == Sanitize(o, a, segments)
    ensures AllSupported(AllChecks(o, Sanitize(o, a, segments), segments))
  {
    var b := Sanitize(o, a, segments);
    SanitizedIsClean(o, a, segments);
    CleanFixed(o, b, segments);
    var c := SanitizeFields(o, SanitizeBody(o, a, segments), FIELD_COUNT, segments);
    var notes := if AnyUnsupported(AllChecks(o, a, segments)) then c.limitations + [EvidenceRemoved] else c.limitations;
    DedupeProperties(notes);
    DedupeDistinct(b.limitations);
    FlaggedSurvives(notes);
    assert AnyFlagged(b.limitations) ==> Cap(b.outcomeConfidence) == b.outcomeConfidence;
    assert b.(overallScore := Round2(ScoreTotal(ClaimsOf(b, ScoreItems)))) == b;
  }

  // ---------- a confidence above the cap means that nothing was removed ----------

  lemma {:induction false} SupportedConcat(a: seq<Check>, b: seq<Check>)
    ensures AllSupported(a + b) <==> AllSupported(a) && AllSupported(b)
  {
    if AllSupported(a + b) {
      assert forall k :: 0 <= k < |a| ==> a[k] == (a + b)[k];
      assert forall k :: 0 <= k < |b| ==> b[k] == (a + b)[|a| + k];
    }
  }

  lemma {:induction false} FlaggedConcat(a: seq<Limitation>, b: seq<Limitation>)
    ensures AnyFlagged(a + b) <==> AnyFlagged(a) || AnyFlagged(b)
  {
    if AnyFlagged(a) {
      var k :| 0 <= k < |a| && Flagged(a[k]);
      assert (a + b)[k] == a[k];
    }
    if AnyFlagged(b) {
      var k :| 0 <= k < |b| && Flagged(b[k]);
      assert (a + b)[|a| + k] == b[k];
    }
  }

  lemma {:induction false} UnflaggedClaimsClean(o: TextOracle, claims: seq<Claim>, c: Collection, segments: seq<Item>)
    requires !AnyFlagged(ClaimLimitations(o, claims, c, segments))
    requires AllSupported(ClaimChecks(o, claims, segments))
    ensures CleanClaims(o, claims, segments)
    decreases |claims|
  {
    if claims == [] {
    } else {
      var init, last := claims[..|claims| - 1], claims[|claims| - 1];
      var own := if Kept(o, last.evidence, segments) == [] then [ClaimRemoved(c)] else [];
      FlaggedConcat(ClaimLimitations(o, init, c, segments), own);
      SupportedConcat(ClaimChecks(o, init, segments), ChecksOf(o, last.evidence, segments));
      UnflaggedClaimsClean(o, init, c, segments);
      KeptAll(o, last.evidence, segments);
      if own != [] { assert Flagged(own[0]); }
    }
  }

  lemma {:induction false} UnflaggedCollectionClean(
      o: TextOracle, a: Analysis, count: nat, c: Collection, segments: seq<Item>)
    requires WellShaped(a) && count <= COLLECTION_COUNT
    requires !AnyFlagged(SanitizeClaims(o, a, count, segments).limitations)
    requires AllSupported(AllClaimChecks(o, a, count, segments))
    ensures !AnyFlagged(a.limitations)
    ensures CollectionIndex(c) < count ==> CleanClaims(o, ClaimsOf(a, c), segments)
  {
    if count == 0 {
    } else {
      UnflaggedLastCollection(o, a, count, segments);
      UnflaggedCollectionClean(o, a, count - 1, c, segments);
      CollectionPlace(c, count - 1);
    }
  }

  lemma {:induction false} CollectionUntouched(
      o: TextOracle, a: Analysis, count: nat, c: Collection, segments: seq<Item>)
    requires WellShaped(a) && count <= CollectionIndex(c) < COLLECTION_COUNT
    ensures ClaimsOf(SanitizeClaims(o, a, count, segments), c) == ClaimsOf(a, c)
  {
    CollectionPointwise(o, a, count, c, segments);
  }

  lemma {:induction false} UnflaggedLastCollection(o: TextOracle, a: Analysis, count: nat, segments: seq<Item>)
    requires WellShaped(a) && 0 < count <= COLLECTION_COUNT
    requires !AnyFlagged(SanitizeClaims(o, a, count, segments).limitations)
    requires AllSupported(AllClaimChecks(o, a, count, segments))
    ensures !AnyFlagged(SanitizeClaims(o, a, count - 1, segments).limitations)
    ensures AllSupported(AllClaimChecks(o, a, count - 1, segments))
    ensures CleanClaims(o, ClaimsOf(a, CollectionAt(count - 1)), segments)
  {
    var last := CollectionAt(count - 1);
    var b := SanitizeClaims(o, a, count - 1, segments);
    CollectionUntouched(o, a, count - 1, last, segments);
    FlaggedConcat(b.limitations, ClaimLimitations(o, ClaimsOf(a, last), last, segments));
    SupportedConcat(AllClaimChecks(o, a, count - 1, segments), ClaimChecks(o, ClaimsOf(a, last), segments));
    UnflaggedClaimsClean(o, ClaimsOf(a, last), last, segments);
  }

  lemma {:induction false} UnflaggedFieldClean(o: TextOracle, a: Analysis, count: nat, f: Field, segments: seq<Item>)
    requires WellShaped(a) && count <= FIELD_COUNT && Validated(f)
    requires !AnyFlagged(SanitizeFields(o, a, count, segments).limitations)
    requires AllSupported(FieldChecks(o, a, count, segments))
    ensures !AnyFlagged(a.limitations)
    ensures FieldIndex(f) < count ==> CleanField(o, a, f, segments)
  {
    if count == 0 {
    } else {
      UnflaggedFieldBefore(o, a, count, segments);
      UnflaggedFieldClean(o, a, count - 1, f, segments);
      FieldPlace(f, count - 1);
    }
  }

  lemma {:induction false} FieldPlace(f: Field, k: nat)
    requires k < FIELD_COUNT && Validated(f)
    ensures FieldIndex(f) == k <==> f == FieldAt(k)
  {
  }

  lemma {:induction false} UnflaggedFieldBefore(o: TextOracle, a: Analysis, count: nat, segments: seq<Item>)
    requires WellShaped(a) && 0 < count <= FIELD_COUNT
    requires !AnyFlagged(SanitizeFields(o, a, count, segments).limitations)
    requires AllSupported(FieldChecks(o, a, count, segments))
    ensures !AnyFlagged(SanitizeFields(o, a, count - 1, segments).limitations)
    ensures AllSupported(FieldChecks(o, a, count - 1, segments))
    ensures CleanField(o, a, FieldAt(count - 1), segments)
  {
    var last := FieldAt(count - 1);
    FieldPointwise(o, a, count - 1, last, segments);
    SupportedConcat(FieldChecks(o, a, count - 1, segments), ChecksAt(o, a, last, segments));
    UnflaggedLastField(o, SanitizeFields(o, a, count - 1, segments), last, segments);
    KeptAll(o, EvidenceFor(a, last), segments);
  }

  lemma {:induction false} UnflaggedLastField(o: TextOracle, a: Analysis, f: Field, segments: seq<Item>)
    requires !AnyFlagged(SanitizeField(o, a, f, segments).limitations)
    ensures !AnyFlagged(a.limitations)
    ensures Present(a, f) ==> Kept(o, EvidenceFor(a, f), segments) != []
  {
    FlaggedConcat(a.limitations, [FieldLimitation(f)]);
    assert Flagged([FieldLimitation(f)][0]);
  }

  /** Two analyses that validation of fields cannot tell apart. */
  ghost predicate SameFields(a: Analysis, b: Analysis) {
    && b.facts == a.facts && b.lists == a.lists && b.fieldEvidence == a.fieldEvidence
    && b.outcome == a.outcome && b.nextAction == a.nextAction
  }

  lemma {:induction false} SameFieldChecks(o: TextOracle, a: Analysis, b: Analysis, count: nat, segments: seq<Item>)
    requires SameFields(a, b) && count <= FIELD_COUNT
    ensures FieldChecks(o, b, count, segments) == FieldChecks(o, a, count, segments)
  {
    if count == 0 {
    } else {
      SameFieldChecks(o, a, b, count - 1, segments);
    }
  }

  lemma {:induction false} SameCleanField(o: TextOracle, a: Analysis, b: Analysis, f: Field, segments: seq<Item>)
    requires SameFields(a, b)
    ensures CleanField(o, b, f, segments) <==> CleanField(o, a, f, segments)
  {
  }

  lemma {:induction false} BodyKeepsFields(o: TextOracle, a: Analysis, segments: seq<Item>)
    requires WellShaped(a)
    ensures SameFields(a, SanitizeBody(o, a, segments))
  {
    CollectionPointwise(o, a, COLLECTION_COUNT, ScoreItems, segments);
  }

  lemma {:induction false} CapBounds(a: Analysis, unsupported: bool)
    requires Conclude(a, unsupported).outcomeConfidence > 0.49
    ensures !AnyFlagged(a.limitations) && !unsupported
  {
    if unsupported {
      FlaggedConcat(a.limitations, [EvidenceRemoved]);
      assert Flagged([EvidenceRemoved][0]);
    }
  }

  /** The parts of the input that a confidence above 0.49 certifies. */
  lemma {:induction false} ConfidentMeansClean(o: TextOracle, a: Analysis, segments: seq<Item>)
    requires WellShaped(a)
    requires Sanitize(o, a, segments).outcomeConfidence > 0.49
    ensures Clean(o, a, segments) && !AnyFlagged(a.limitations)
  {
    var body := SanitizeBody(o, a, segments);
    var b := SanitizeFields(o, body, FIELD_COUNT, segments);
    var checks := AllChecks(o, a, segments);
    CapBounds(b, AnyUnsupported(checks));
    BodyShape(o, a, segments);
    BodyKeepsFields(o, a, segments);
    SameFieldChecks(o, a, body, FIELD_COUNT, segments);
    SupportedConcat(AllClaimChecks(o, a, COLLECTION_COUNT, segments) + ChecksOf(o, a.keyMoments, segments),
                    FieldChecks(o, a, FIELD_COUNT, segments));
    SupportedConcat(AllClaimChecks(o, a, COLLECTION_COUNT, segments), ChecksOf(o, a.keyMoments, segments));
    KeptAll(o, a.keyMoments, segments);
    UnflaggedFieldClean(o, body, FIELD_COUNT, OutcomeField, segments);
    forall f | Validated(f) ensures CleanField(o, a, f, segments) {
      UnflaggedFieldClean(o, body, FIELD_COUNT, f, segments);
      SameCleanField(o, a, body, f, segments);
    }
    forall c: Collection ensures CleanClaims(o, ClaimsOf(a, c), segments) {
      UnflaggedCollectionClean(o, a, COLLECTION_COUNT, c, segments);
    }
    UnflaggedCollectionClean(o, a, COLLECTION_COUNT, ScoreItems, segments);
  }

  /** Dropping a claim, clearing a field or filtering a quote forces the confidence to 0.49 or
      less: above it, the result is the input with its score recomputed and its repeated
      notes removed. */
  lemma {:induction false} NothingRemovedAboveCap(o: TextOracle, a: Analysis, segments: seq<Item>)
    requires WellShaped(a)
    requires Sanitize(o, a, segments).outcomeConfidence > 0.49
    ensures Sanitize(o, a, segments)
            == a.(overallScore := Round2(ScoreTotal(ClaimsOf(a, ScoreItems))), limitations := Dedupe(a.limitations))
    ensures AllSupported(AllChecks(o, a, segments))
  {
    ConfidentMeansClean(o, a, segments);
    CleanFixed(o, a, segments);
  }

  /** The converse: an analysis that needs no removal keeps its confidence. */
  lemma {:induction false} CleanKeepsConfidence(o: TextOracle, a: Analysis, segments: seq<Item>)
    requires WellShaped(a) && Clean(o, a, segments) && !AnyFlagged(a.limitations)
    ensures Sanitize(o, a, segments).outcomeConfidence == a.outcomeConfidence
  {
    CleanFixed(o, a, segments);
  }

  // ---------- the score ----------

  /** What the schema validator checks before an analysis is accepted. */
  ghost predicate SchemaScore(a: Analysis) {
    && (forall k :: 0 <= k < |ClaimsOf(a, ScoreItems)| ==> ClaimsOf(a, ScoreItems)[k].weightedScore >= 0.0)
    && 0.0 <= a.overallScore <= 100.0
    && Round2(ScoreTotal(ClaimsOf(a, ScoreItems))) - a.overallScore <= 0.5
    && a.overallScore - Round2(ScoreTotal(ClaimsOf(a, ScoreItems))) <= 0.5
  }

  lemma {:induction false} RetainedTotal(o: TextOracle, claims: seq<Claim>, segments: seq<Item>)
    requires forall k :: 0 <= k < |claims| ==> claims[k].weightedScore >= 0.0
    ensures 0.0 <= ScoreTotal(RetainedClaims(o, claims, segments)) <= ScoreTotal(claims)
    decreases |claims|
  {
    if claims == [] {
    } else {
      RetainedTotal(o, claims[..|claims| - 1], segments);
      var kept := RetainedClaims(o, claims[..|claims| - 1], segments);
      var last := claims[|claims| - 1].(evidence := Kept(o, claims[|claims| - 1].evidence, segments));
      assert (kept + [last])[..|kept|] == kept;
      assert kept + [] == kept;
    }
  }

  /** The recomputed score never exceeds the claimed one by more than the validator's tolerance. */
  lemma {:induction false} ScoreBound(o: TextOracle, a: Analysis, segments: seq<Item>)
    requires WellShaped(a) && SchemaScore(a)
    ensures 0.0 <= Sanitize(o, a, segments).overallScore <= a.overallScore + 0.5
    ensures Sanitize(o, a, segments).overallScore <= 100.5
  {
    var items := ClaimsOf(a, ScoreItems);
    CollectionPointwise(o, a, COLLECTION_COUNT, ScoreItems, segments);
    FieldsKeepTheRest(o, SanitizeBody(o, a, segments), FIELD_COUNT, segments);
    var total := ScoreTotal(RetainedClaims(o, items, segments));
    RetainedTotal(o, items, segments);
    Round2Monotone(0.0, total);
    Round2Monotone(total, ScoreTotal(items));
  }

  /** The sum of the weighted scores from the `k`-th claim on. */
  function WeightFrom(claims: seq<Claim>, k: nat): real
    requires k <= |claims|
    decreases |claims| - k
  {
    if k == |claims| then 0.0 else claims[k].weightedScore + WeightFrom(claims, k + 1)
  }

  lemma {:induction false} WeightSplits(claims: seq<Claim>, k: nat)
    requires k <= |claims|
    ensures WeightFrom(claims, 0) == ScoreTotal(claims[..k]) + WeightFrom(claims, k)
  {
    if k == 0 {
    } else {
      WeightSplits(claims, k - 1);
      assert claims[..k][..k - 1] == claims[..k - 1];
    }
  }

  /** The score afterwards is the sum of the retained items' weighted scores, to the nearest
      hundredth. */
  lemma {:induction false} ScoreRecomputed(o: TextOracle, a: Analysis, segments: seq<Item>)
    requires WellShaped(a)
    ensures var b := Sanitize(o, a, segments);
            && -0.005 <= b.overallScore - WeightFrom(ClaimsOf(b, ScoreItems), 0) <= 0.005
            && exists n: int :: IsHundredths(b.overallScore, n)
  {
    var b := Sanitize(o, a, segments);
    var items := ClaimsOf(b, ScoreItems);
    SanitizedIsClean(o, a, segments);
    WeightSplits(items, |items|);
    assert items[..|items|] == items;
    RoundNearest(ScoreTotal(items) * 100.0, 0);
    assert IsHundredths(b.overallScore, RoundHalfEven(ScoreTotal(items) * 100.0));
  }

  ghost predicate IsHundredths(x: real, n: int) {
    x == n as real / 100.0
  }

  lemma {:induction false} Round2Monotone(x: real, y: real)
    requires x <= y
    ensures Round2(x) <= Round2(y)
  {
    RoundMonotone(x * 100.0, y * 100.0);
  }

  // ---------- what is stored as supported evidence ----------

  /** The keys `_persist_extraction` stores evidence under: what the customer object has as an
      attribute that is not null. That is a fact with a value, any list, the risk flag, and any
      other name that `attribute` recognises, such as that of a method of the object. */
  predicate Persisted(a: Analysis, f: Field, attribute: string -> bool) {
    f in a.fieldEvidence && (f in a.facts || IsList(f) || f.RiskFlag? || (f.OtherKey? && attribute(f.key)))
  }

  /** Evidence is stored as supported for these keys without ever having been checked. */
  predicate NeverChecked(a: Analysis, f: Field, attribute: string -> bool) {
    Persisted(a, f, attribute) && (f.RiskFlag? || f.OtherKey? || (IsList(f) && !Present(a, f)))
  }

  /** Every stored row is labelled supported; the label is right for all of them exactly when the
      evidence under the risk flag, the empty lists and the other attributes happens to be
      supported. */
  lemma {:induction false} PersistedEvidenceSupported(
      o: TextOracle, a: Analysis, segments: seq<Item>, attribute: string -> bool)
    requires WellShaped(a) && Clean(o, a, segments)
    ensures (forall f, e :: Persisted(a, f, attribute) && e in a.fieldEvidence[f] ==> Supported(o, e, segments))
            <==> (forall f, e :: NeverChecked(a, f, attribute) && e in a.fieldEvidence[f] ==> Supported(o, e, segments))
  {
    forall f, e | Persisted(a, f, attribute) && !NeverChecked(a, f, attribute) && e in a.fieldEvidence[f]
      ensures Supported(o, e, segments)
    {
      assert Validated(f) && Present(a, f);
      assert CleanField(o, a, f, segments);
      KeptSupported(o, a.fieldEvidence[f], segments);
    }
  }

  /** Evidence of the provider's analysis that reaches the table unchecked: under the risk flag,
      under the name of another attribute, or for a list that is empty. */
  predicate Unchecked(raw: Analysis, f: Field, attribute: string -> bool) {
    f in raw.fieldEvidence &&
    (f.RiskFlag? || (f.OtherKey? && attribute(f.key)) || (IsList(f) && !Present(raw, f)))
  }

  ghost predicate StoredIsSupported(
      o: TextOracle, b: Analysis, segments: seq<Item>, attribute: string -> bool, f: Field)
  {
    Persisted(b, f, attribute) ==> forall e :: e in b.fieldEvidence[f] ==> Supported(o, e, segments)
  }

  ghost predicate UncheckedIsSupported(
      o: TextOracle, raw: Analysis, segments: seq<Item>, attribute: string -> bool, f: Field)
  {
    Unchecked(raw, f, attribute) ==> forall e :: e in raw.fieldEvidence[f] ==> Supported(o, e, segments)
  }

  /** Every evidence row stored of a provider's analysis is rightly labelled supported exactly when
      the evidence it gave under the risk flag, for its empty lists and under other attributes is. */
  lemma {:induction false} StoredEvidenceExactly(
      o: TextOracle, raw: Analysis, segments: seq<Item>, attribute: string -> bool)
    requires WellShaped(raw)
    ensures (forall f :: StoredIsSupported(o, Sanitize(o, raw, segments), segments, attribute, f)) <==>
            (forall f :: UncheckedIsSupported(o, raw, segments, attribute, f))
  {
    forall f
      ensures StoredIsSupported(o, Sanitize(o, raw, segments), segments, attribute, f) <==>
              UncheckedIsSupported(o, raw, segments, attribute, f)
    {
      StoredAtField(o, raw, segments, attribute, f);
    }
  }

  lemma {:induction false} StoredAtField(
      o: TextOracle, raw: Analysis, segments: seq<Item>, attribute: string -> bool, f: Field)
    requires WellShaped(raw)
    ensures StoredIsSupported(o, Sanitize(o, raw, segments), segments, attribute, f) <==>
            UncheckedIsSupported(o, raw, segments, attribute, f)
  {
    var body, b := SanitizeBody(o, raw, segments), Sanitize(o, raw, segments);
    BodyShape(o, raw, segments);
    BodyKeepsFields(o, raw, segments);
    FieldPointwise(o, body, FIELD_COUNT, f, segments);
    if Validated(f) {
      SanitizedIsClean(o, raw, segments);
      KeptSupported(o, EvidenceFor(raw, f), segments);
      ValidatedFieldStored(o, raw, body, b, segments, attribute, f);
    }
  }

  lemma {:induction false} ValidatedFieldStored(
      o: TextOracle, raw: Analysis, body: Analysis, b: Analysis, segments: seq<Item>, attribute: string -> bool,
      f: Field)
    requires Validated(f) && SameFields(raw, body) && WellShaped(b)
    requires b.facts == SanitizeFields(o, body, FIELD_COUNT, segments).facts
    requires b.fieldEvidence == SanitizeFields(o, body, FIELD_COUNT, segments).fieldEvidence
    requires FieldResult(o, body, SanitizeFields(o, body, FIELD_COUNT, segments), f, true, segments)
    requires forall e :: e in Kept(o, EvidenceFor(raw, f), segments) ==> Supported(o, e, segments)
    ensures StoredIsSupported(o, b, segments, attribute, f) <==> UncheckedIsSupported(o, raw, segments, attribute, f)
  {
  }

  /** What is stored under a key, by the provider's analysis alone: the supported quotes of a fact or
      list that is there; all quotes, unchecked, under the risk flag, for an empty list and under the
      name of another attribute; nothing otherwise. */
  ghost predicate StoredFor(
      o: TextOracle, raw: Analysis, segments: seq<Item>, attribute: string -> bool, f: Field, stored: seq<Quote>)
  {
    if IsFact(f) && f !in raw.facts then stored == []
    else if IsFact(f) || (IsList(f) && f in raw.lists && raw.lists[f] != []) then
      IsKept(o, EvidenceFor(raw, f), segments, stored)
    else if IsList(f) || f.RiskFlag? || (f.OtherKey? && attribute(f.key)) then stored == EvidenceFor(raw, f)
    else stored == []
  }

  lemma {:induction false} StoredByKey(
      o: TextOracle, raw: Analysis, segments: seq<Item>, attribute: string -> bool, f: Field)
    requires WellShaped(raw)
    ensures var b := Sanitize(o, raw, segments);
            StoredFor(o, raw, segments, attribute, f, if Persisted(b, f, attribute) then b.fieldEvidence[f] else [])
  {
    var body, b := SanitizeBody(o, raw, segments), Sanitize(o, raw, segments);
    BodyShape(o, raw, segments);
    BodyKeepsFields(o, raw, segments);
    FieldPointwise(o, body, FIELD_COUNT, f, segments);
    KeptExactly(o, EvidenceFor(raw, f), segments);
    KeepsSome(o, EvidenceFor(raw, f), segments);
  }

  /** Validated analyses whose stored evidence is not supported: an out-of-range quote filed under
      the risk flag, or under the name of another attribute, passes through untouched. */
  lemma {:induction false} UncheckedEvidenceStored(
      o: TextOracle, a: Analysis, segments: seq<Item>, attribute: string -> bool, f: Field)
    requires WellShaped(a) && (f.RiskFlag? || (f.OtherKey? && attribute(f.key)))
    ensures var planted := a.(fieldEvidence := a.fieldEvidence[f := [Quote(-1, None, "")]]);
            var b := Sanitize(o, planted, segments);
            && Persisted(b, f, attribute)
            && b.fieldEvidence[f] == [Quote(-1, None, "")]
            && !Supported(o, b.fieldEvidence[f][0], segments)
  {
    var planted := a.(fieldEvidence := a.fieldEvidence[f := [Quote(-1, None, "")]]);
    CollectionPointwise(o, planted, COLLECTION_COUNT, ScoreItems, segments);
    FieldPointwise(o, SanitizeBody(o, planted, segments), FIELD_COUNT, f, segments);
  }

  // ---------- validate_analysis_evidence ----------

  /** One collection: the claims that keep some evidence. */
  method ValidateCollection(o: TextOracle, claims: seq<Claim>, c: Collection, segments: seq<Item>)
    returns (retained: seq<Claim>, limitations: seq<Limitation>, checks: seq<Check>)
    ensures retained == RetainedClaims(o, claims, segments)
    ensures limitations == ClaimLimitations(o, claims, c, segments)
    ensures checks == ClaimChecks(o, claims, segments)
  {
    retained, limitations, checks := [], [], [];
    for k := 0 to |claims|
      invariant retained == RetainedClaims(o, claims[..k], segments)
      invariant limitations == ClaimLimitations(o, claims[..k], c, segments)
      invariant checks == ClaimChecks(o, claims[..k], segments)
    {
      assert claims[..k + 1][..k] == claims[..k];
      var supported, itemChecks := Filter(o, claims[k].evidence, segments);
      checks := checks + itemChecks;
      if supported != [] {
        retained := retained + [claims[k].(evidence := supported)];
      } else {
        limitations := limitations + [ClaimRemoved(c)];
      }
    }
    assert claims[..|claims|] == claims;
  }

  method ValidateClaims(
      o: TextOracle, a: Analysis, segments: seq<Item>) returns (sanitized: Analysis, checks: seq<Check>)
    requires WellShaped(a)
    ensures sanitized == SanitizeClaims(o, a, COLLECTION_COUNT, segments)
    ensures checks == AllClaimChecks(o, a, COLLECTION_COUNT, segments)
  {
    sanitized, checks := a, [];
    for k := 0 to COLLECTION_COUNT
      invariant sanitized == SanitizeClaims(o, a, k, segments)
      invariant checks == AllClaimChecks(o, a, k, segments)
    {
      var c := CollectionAt(k);
      CollectionUntouched(o, a, k, c, segments);
      var retained, limitations, itemChecks := ValidateCollection(o, ClaimsOf(sanitized, c), c, segments);
      sanitized := sanitized.(claims := sanitized.claims[c := retained],
                              limitations := sanitized.limitations + limitations);
      checks := checks + itemChecks;
    }
  }

  method ValidateBody(o: TextOracle, a: Analysis, segments: seq<Item>) returns (sanitized: Analysis, checks: seq<Check>)
    requires WellShaped(a)
    ensures sanitized == SanitizeBody(o, a, segments)
    ensures checks == AllClaimChecks(o, a, COLLECTION_COUNT, segments) + ChecksOf(o, a.keyMoments, segments)
  {
    sanitized, checks := ValidateClaims(o, a, segments);
    var score := Round2(ScoreTotal(ClaimsOf(sanitized, ScoreItems)));
    var moments, momentChecks := Filter(o, a.keyMoments, segments);
    sanitized := sanitized.(overallScore := score, keyMoments := moments);
    checks := checks + momentChecks;
  }

  /** One field of the three loops and two conditionals that follow. */
  method ValidateField(o: TextOracle, a: Analysis, f: Field, segments: seq<Item>)
    returns (sanitized: Analysis, checks: seq<Check>)
    ensures sanitized == SanitizeField(o, a, f, segments)
    ensures checks == ChecksAt(o, a, f, segments)
  {
    sanitized, checks := a, [];
    if Present(a, f) {
      var supported, fieldChecks := Filter(o, EvidenceFor(a, f), segments);
      checks := fieldChecks;
      sanitized := sanitized.(fieldEvidence := sanitized.fieldEvidence[f := supported]);
      if supported == [] {
        sanitized := Clear(sanitized, f).(limitations := a.limitations + [FieldLimitation(f)]);
      }
    }
  }

  method ValidateFields(
      o: TextOracle, a: Analysis, segments: seq<Item>) returns (sanitized: Analysis, checks: seq<Check>)
    requires WellShaped(a)
    ensures sanitized == SanitizeFields(o, a, FIELD_COUNT, segments)
    ensures checks == FieldChecks(o, a, FIELD_COUNT, segments)
  {
    sanitized, checks := a, [];
    for k := 0 to FIELD_COUNT
      invariant sanitized == SanitizeFields(o, a, k, segments)
      invariant checks == FieldChecks(o, a, k, segments)
    {
      FieldPointwise(o, a, k, FieldAt(k), segments);
      var fieldChecks;
      sanitized, fieldChecks := ValidateField(o, sanitized, FieldAt(k), segments);
      checks := checks + fieldChecks;
    }
  }

  method ConcludeValidation(a: Analysis, checks: seq<Check>) returns (sanitized: Analysis)
    ensures sanitized == Conclude(a, AnyUnsupported(checks))
  {
    sanitized := a;
    if AnyUnsupported(checks) {
      sanitized := sanitized.(limitations := sanitized.limitations + [EvidenceRemoved]);
    }
    if AnyFlagged(sanitized.limitations) {
      sanitized := sanitized.(outcomeConfidence := Cap(sanitized.outcomeConfidence));
    }
    sanitized := sanitized.(limitations := Dedupe(sanitized.limitations));
  }

  /** The sanitised analysis and every check made, of the retained evidence and of the rest. */
  method ValidateAnalysisEvidence(o: TextOracle, a: Analysis, segments: seq<Item>)
    returns (sanitized: Analysis, checks: seq<Check>)
    requires WellShaped(a)
    ensures sanitized == Sanitize(o, a, segments)
    ensures checks == AllChecks(o, a, segments)
    ensures Clean(o, sanitized, segments)
  {
    var body, bodyChecks := ValidateBody(o, a, segments);
    BodyShape(o, a, segments);
    var fields, fieldChecks := ValidateFields(o, body, segments);
    BodyKeepsFields(o, a, segments);
    SameFieldChecks(o, a, body, FIELD_COUNT, segments);
    checks := bodyChecks + fieldChecks;
    sanitized := ConcludeValidation(fields, checks);
    SanitizedIsClean(o, a, segments);
  }
}

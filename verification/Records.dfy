/** The rows of one tenant and the transactions on them: each function is what one transaction
    commits (backend/app/tasks.py, backend/app/main.py). The columns and child rows of a call are
    grouped by the service that maintains them. */
module Records {
  import opened Wrappers
  import opened Transcript
  import opened Pipeline
  import opened Processing
  import E = Evidence
  import T = Transcripts
  import R = Reviews
  import F = Followups

  /** A stored evidence row: the quote, and the position of the transcript row it links to. */
  datatype StoredQuote = StoredQuote(quote: E.Quote, source: Option<nat>)

  /** What a worker run copies from the analysis into the extraction row; the evidence rows are
      rebuilt on every run. */
  datatype Extraction = Extraction(
    facts: map<E.Field, string>, confidence: real, validated: bool, evidence: map<E.Field, seq<StoredQuote>>)

  datatype Record = Record(
    seller: Option<string>, text: T.Text, reviews: R.Reviews, progress: Progress, followups: F.Followups,
    extraction: Option<Extraction>, outcome: E.Outcome, score: Option<real>)

  /** All calls of the tenant and its publication log. */
  datatype Store = Store(records: map<nat, Record>, log: seq<R.Publication>)

  /** The deterministic functions the code relies on, the retry settings, and which other names
      the customer object has as an attribute. */
  datatype Env = Env(
    oracle: E.TextOracle, normalize: string -> string, policy: RetryPolicy, closed: string -> bool,
    attribute: string -> bool)

  /** The memory of a worker run: its own copies of columns of the call, which survive its commits
      (`copied` is that of the retry counter), and the transcribed items. */
  datatype Run = Run(
    call: nat, mode: Mode, status: CallStatus, copied: nat, lastSuccessful: Option<CallStatus>,
    outcome: E.Outcome, score: Option<real>, items: seq<Item>)

  const NEW_TEXT := T.Text(map[], [], [], None, false)
  const NEW_REVIEWS := R.Reviews([], [], None, None, None, false)
  const NEW_PROGRESS := Progress(Queued, 0, [], [], None, None, None)

  function NewRecord(seller: Option<string>): Record {
    Record(seller, NEW_TEXT, NEW_REVIEWS, NEW_PROGRESS, F.Followups([], []), None, E.Unknown, None)
  }

  // ---------- _persist_extraction ----------

  /** The row a quote is linked to: the one whose position is the quote's index, if there is one. */
  function Linked(rows: T.Rows, index: int): Option<nat> {
    if index >= 0 && index in rows then Some(index) else None
  }

  function StoredQuotes(rows: T.Rows, quotes: seq<E.Quote>): seq<StoredQuote> {
    seq(|quotes|, k requires 0 <= k < |quotes| => StoredQuote(quotes[k], Linked(rows, quotes[k].segmentIndex)))
  }

  /** `rows` are the transcript rows as the run has just written them. */
  function ExtractionOf(env: Env, rows: T.Rows, a: E.Analysis, checks: seq<E.Check>): Extraction {
    Extraction(a.facts, a.outcomeConfidence, !E.AnyUnsupported(checks),
               map f | f in a.fieldEvidence && E.Persisted(a, f, env.attribute) ::
                   StoredQuotes(rows, a.fieldEvidence[f]))
  }

  /** A quote is checked against the item at its index. This is the row that item was written to. */
  ghost predicate LinkedToItsRow(items: seq<Item>, rows: T.Rows, i: nat)
    requires i < |items|
  {
    Linked(rows, i) == Some(items[i].position)
  }

  lemma {:induction false} LinkRightExactly(rows: T.Rows, items: seq<Item>, normalize: string -> string, i: nat)
    requires i < |items|
    ensures LinkedToItsRow(items, T.Upserted(rows, items, normalize), i) <==> items[i].position == i
  {
    assert items[i].position in T.Positions(items);
  }

  /** Positions count up from zero without a gap. */
  ghost predicate Dense(rows: T.Rows) {
    forall p :: p in rows ==> p < |rows.Keys|
  }

  lemma {:induction false} AscendingAbove(s: set<nat>, k: nat)
    requires k < |T.Ascending(s)|
    ensures T.Ascending(s)[k] >= k
  {
    if k == 0 {
    } else {
      AscendingAbove(s, k - 1);
      T.AscendingDistinct(s);
    }
  }

  lemma {:induction false} AscendingBelow(s: set<nat>, k: nat, n: nat)
    requires k < |T.Ascending(s)| && forall p :: p in s ==> p < n
    ensures T.Ascending(s)[k] + |s| <= n + k
    decreases |s| - k
  {
    assert T.Ascending(s)[k] in T.Ascending(s);
    if k + 1 < |s| {
      AscendingBelow(s, k + 1, n);
      T.AscendingDistinct(s);
    }
  }

  /** In a reanalysis every quote is linked to the row whose text it was checked against exactly
      when the positions of the stored rows have no gap. */
  lemma {:induction false} ReanalysisLinksExactly(rows: T.Rows, normalize: string -> string)
    ensures (forall i :: 0 <= i < |T.StoredItems(rows)| ==>
               LinkedToItsRow(T.StoredItems(rows), T.Upserted(rows, T.StoredItems(rows), normalize), i))
            <==> Dense(rows)
  {
    var items, order := T.StoredItems(rows), T.Ascending(rows.Keys);
    assert forall k :: 0 <= k < |order| ==> order[k] in order;
    forall i: nat | i < |items|
      ensures LinkedToItsRow(items, T.Upserted(rows, items, normalize), i) <==> order[i] == i
    {
      LinkRightExactly(rows, items, normalize, i);
    }
    if forall i :: 0 <= i < |items| ==> order[i] == i {
      forall p | p in rows ensures p < |rows.Keys| {
        assert p in order;
      }
    }
    if Dense(rows) {
      forall i: nat | i < |items| ensures order[i] == i {
        AscendingAbove(rows.Keys, i);
        AscendingBelow(rows.Keys, i, |rows.Keys|);
      }
    }
  }

  /** After transcription every quote is linked to the row of its item: the items are dense. */
  lemma {:induction false} FullRunLinks(
      raw: seq<RawSegment>, refined: RoleAssignment, rows: T.Rows, normalize: string -> string, i: nat)
    requires i < |Normalized(raw)|
    ensures LinkedToItsRow(ApplyRoles(Normalized(raw), refined),
                           T.Upserted(rows, ApplyRoles(Normalized(raw), refined), normalize), i)
  {
    NormalizedDense(raw);
    LinkRightExactly(rows, ApplyRoles(Normalized(raw), refined), normalize, i);
  }

  // ---------- the text behind a link after transcription ----------

  /** The row a quote for index `i` is linked to holds the text the quote was checked against. */
  ghost predicate LinkHoldsText(items: seq<Item>, rows: T.Rows, i: nat)
    requires i < |items|
  {
    var link := Linked(rows, i);
    link.Some? && link.value in rows && rows[link.value].content == items[i].text
  }

  /** So does its copy in the newest transcript version, the one the analysis refers to. */
  ghost predicate VersionHoldsText(items: seq<Item>, t: T.Text, i: nat)
    requires i < |items| && t.versions != []
  {
    var rows := t.versions[|t.versions| - 1].rows;
    i in rows && rows[i].content == items[i].text
  }

  /** Every row that a person corrected already reads as the item at its position. */
  ghost predicate CorrectionsAgree(rows: T.Rows, items: seq<Item>) {
    forall i: nat | i < |items| :: AgreesAt(rows, items, i)
  }

  ghost predicate AgreesAt(rows: T.Rows, items: seq<Item>, i: nat)
    requires i < |items|
  {
    i in rows && rows[i].corrected ==> rows[i].content == items[i].text
  }

  /** Turns as they come from transcription: numbered by their index, with stripped texts. */
  ghost predicate Turns(items: seq<Item>) {
    forall i :: 0 <= i < |items| ==> items[i].position == i && Strip(items[i].text) == items[i].text
  }

  lemma {:induction false} NormalizedTurns(raw: seq<RawSegment>, refined: RoleAssignment)
    ensures Turns(ApplyRoles(Normalized(raw), refined))
  {
    NormalizedDense(raw);
  }

  lemma {:induction false} WrittenContent(
      rows: T.Rows, items: seq<Item>, normalize: string -> string, i: nat)
    requires Turns(items) && i < |items|
    ensures var rows' := T.Upserted(rows, items, normalize);
            && i in rows'
            && rows'[i].content == if i in rows && rows[i].corrected then rows[i].content else items[i].text
  {
    T.ItemAtIndex(items, i);
  }

  lemma {:induction false} WrittenText(
      items: seq<Item>, t: T.Text, source: T.Source, normalize: string -> string, i: nat)
    requires Turns(items) && i < |items|
    ensures var t' := T.WorkerWrite(t, items, source, normalize);
            && (LinkHoldsText(items, t'.segments, i) <==> AgreesAt(t.segments, items, i))
            && (VersionHoldsText(items, t', i) <==> AgreesAt(t.segments, items, i))
  {
    WrittenContent(t.segments, items, normalize, i);
  }

  /** After transcription all quotes are linked to rows that hold the text they were checked
      against, and the transcript version the analysis refers to holds it too, exactly when every
      corrected row at an item's index already did: a corrected row keeps its own text. */
  lemma {:induction false} FullRunTextExactly(
      items: seq<Item>, t: T.Text, source: T.Source, normalize: string -> string)
    requires Turns(items)
    ensures var t' := T.WorkerWrite(t, items, source, normalize);
            && ((forall i: nat | i < |items| :: LinkHoldsText(items, t'.segments, i)) <==>
                CorrectionsAgree(t.segments, items))
            && ((forall i: nat | i < |items| :: VersionHoldsText(items, t', i)) <==>
                CorrectionsAgree(t.segments, items))
  {
    var t' := T.WorkerWrite(t, items, source, normalize);
    forall i: nat | i < |items|
      ensures LinkHoldsText(items, t'.segments, i) <==> AgreesAt(t.segments, items, i)
      ensures VersionHoldsText(items, t', i) <==> AgreesAt(t.segments, items, i)
    {
      WrittenText(items, t, source, normalize, i);
    }
  }

  const EXACT := E.TextOracle(s => s, s => {}, (s, t) => 0.0)

  /** A turn reads "a" while the corrected row at its position reads "b": a quote of "a" is accepted
      and linked to that row, and the rows as stored do not support it. */
  lemma {:induction false} QuoteOfAnotherText(normalize: string -> string, refined: RoleAssignment)
    ensures var rows: T.Rows := map[0 := T.Segment("s", "s", CustomerRole, None, None, None, "b", "b", true)];
            var items := ApplyRoles(Normalized([RawSegment("s", "a", None, None)]), refined);
            var rows' := T.Upserted(rows, items, normalize);
            var e := E.Quote(0, None, "a");
            && E.Supported(EXACT, e, items)
            && |items| == 1 && LinkedToItsRow(items, rows', 0)
            && !E.Supported(EXACT, e, T.StoredItems(rows'))
  {
    var rows: T.Rows := map[0 := T.Segment("s", "s", CustomerRole, None, None, None, "b", "b", true)];
    var raw := [RawSegment("s", "a", None, None)];
    var items := ApplyRoles(Normalized(raw), refined);
    OneTurn("s", "a");
    FullRunLinks(raw, refined, rows, normalize, 0);
    var rows' := T.Upserted(rows, items, normalize);
    assert T.Positions(items) == {0} by {
      assert items[0].position == 0;
    }
    assert rows'.Keys == {0} && rows'[0].content == "b";
    OneStoredRow(rows');
    QuoteNotThere(T.StoredItems(rows'));
  }

  lemma {:induction false} OneTurn(speaker: string, text: string)
    requires text == "a"
    ensures Normalized([RawSegment(speaker, text, None, None)])
            == [Item(0, speaker, UnknownRole, None, None, None, text, "")]
  {
    assert [RawSegment(speaker, text, None, None)][..0] == [];
    assert StripLeft(text) == text && StripRight(text) == text;
  }

  lemma {:induction false} OneStoredRow(rows: T.Rows)
    requires rows.Keys == {0}
    ensures T.StoredItems(rows) == [T.StoredItem(rows, 0)]
  {
    OrderOfOne(rows.Keys);
  }

  lemma {:induction false} OrderOfOne(s: set<nat>)
    requires s == {0}
    ensures T.Ascending(s) == [0]
  {
    var order := T.Ascending(s);
    assert |order| == 1;
    assert order[0] in order;
  }

  lemma {:induction false} QuoteNotThere(segments: seq<Item>)
    requires |segments| == 1 && segments[0].text == "b"
    ensures !E.Supported(EXACT, E.Quote(0, None, "a"), segments)
  {
    var text: string, quote: string := "b", "a";
    assert quote[0] == 'a' && text[0] == 'b';
    assert !E.Contains("", quote);
    assert text[1..] == "";
    assert !E.Contains(text, quote);
  }

  /** Gaps do occur: a full run with a single turn, on four rows of which the last two are
      corrected, leaves the rows 0, 2 and 3. The next reanalysis checks a quote for index 2
      against row 3 and links it to row 2. */
  lemma {:induction false} GapLinksAnotherRow(rows: T.Rows, turn: Item, normalize: string -> string)
    requires rows.Keys == {0, 1, 2, 3} && turn.position == 0
    requires !rows[1].corrected && rows[2].corrected && rows[3].corrected
    ensures var gapped := T.Upserted(rows, [turn], normalize);
            var items := T.StoredItems(gapped);
            && gapped.Keys == {0, 2, 3} && |items| == 3
            && items[2] == T.StoredItem(gapped, 3)
            && Linked(T.Upserted(gapped, items, normalize), 2) == Some(2)
  {
    var gapped := T.Upserted(rows, [turn], normalize);
    assert T.Positions([turn]) == {0} by {
      assert [turn][0].position == 0;
    }
    assert gapped.Keys == {0, 2, 3};
    var items, order := T.StoredItems(gapped), T.Ascending(gapped.Keys);
    OrderOfThree(gapped.Keys);
    assert items[1].position in T.Positions(items);
  }

  lemma {:induction false} OrderOfThree(s: set<nat>)
    requires s == {0, 2, 3}
    ensures T.Ascending(s) == [0, 2, 3]
  {
    var order := T.Ascending(s);
    T.AscendingDistinct(s);
    assert forall k :: 0 <= k < |order| ==> order[k] in order;
    assert |order| == 3;
    assert 0 in order && 2 in order && 3 in order;
  }

  // ---------- a worker run ----------

  /** Up to the first commit. */
  function BeginRecord(rec: Record, mode: Mode): Option<Record> {
    match Begin(rec.progress, mode)
    case None => None
    case Some(p) => Some(rec.(progress := p))
  }

  function StartedRun(rec: Record, call: nat, mode: Mode): Run {
    Run(call, mode, FirstStatus(mode), rec.progress.retryCount, rec.progress.lastSuccessful, rec.outcome, rec.score, [])
  }

  /** The commit before transcription. */
  function TranscribingRecord(rec: Record, run: Run): Record {
    rec.(progress := Enter(rec.progress, run.status, Transcribing, run.copied + 1))
  }

  /** The commit before analysis: the role heuristics ran in between. */
  function AnalyzingRecord(rec: Record, run: Run): Record {
    rec.(progress := Enter(Enter(rec.progress, run.status, AssigningRoles, run.copied + 1),
                           AssigningRoles, Analyzing, run.copied + 1))
  }

  /** The two commits in between record their steps, with the session's copy of the counter, and write
      nothing else. */
  lemma {:induction false} RunEnters(rec: Record, run: Run)
    ensures var rec' := TranscribingRecord(rec, run);
            && rec' == rec.(progress := rec'.progress)
            && Entered(rec.progress, rec'.progress, run.status, Transcribing, run.copied + 1)
    ensures var rec' := AnalyzingRecord(rec, run);
            rec' == rec.(progress := rec'.progress) && TwoEntered(rec.progress, rec'.progress, run)
  {
    EnterExactly(rec.progress, run.status, Transcribing, run.copied + 1);
    var between := Enter(rec.progress, run.status, AssigningRoles, run.copied + 1);
    EnterExactly(rec.progress, run.status, AssigningRoles, run.copied + 1);
    EnterExactly(between, AssigningRoles, Analyzing, run.copied + 1);
    assert EnteredVia(rec.progress, between, AnalyzingRecord(rec, run).progress, run);
  }

  ghost predicate TwoEntered(p: Progress, p': Progress, run: Run) {
    exists between :: EnteredVia(p, between, p', run)
  }

  ghost predicate EnteredVia(p: Progress, between: Progress, p': Progress, run: Run) {
    && Entered(p, between, run.status, AssigningRoles, run.copied + 1)
    && Entered(between, p', AssigningRoles, Analyzing, run.copied + 1)
  }

  /** The segments the analysis is validated against and the rows are written from. */
  function FinalItems(rec: Record, run: Run, refined: RoleAssignment): seq<Item> {
    if run.mode == Reanalyze then T.StoredItems(rec.text.segments) else ApplyRoles(run.items, refined)
  }

  /** Why the last transaction of a run cannot commit. */
  datatype FinishError = NoTranscript | DuplicatePosition | WrongState

  /** What the last transaction writes once the analysis is validated: the rows, a snapshot, the
      analysis version, the follow-ups. The second result lists the publications to add. */
  function Finished(env: Env, rec: Record, human: nat, run: Run, items: seq<Item>, a: E.Analysis, checks: seq<E.Check>)
    : (Record, seq<R.Publication>)
    requires Allowed(run.status, Validating)
  {
    var source := if run.mode == Reanalyze then T.FromReanalysis else T.FromWorker;
    var (reviews, added) := R.CreateVersion(rec.reviews, run.call, |rec.text.versions|, human, a, checks);
    var required := R.Reasons(human, run.call, a, checks) != [];
    var text := T.WorkerWrite(rec.text, items, source, env.normalize);
    (Record(rec.seller, text, reviews, Finish(rec.progress, run.status, run.copied, run.lastSuccessful, required).value,
            F.Followed(rec.followups, run.call, a, env.closed), Some(ExtractionOf(env, text.segments, a, checks)),
            Written(run.outcome, a.outcome, rec.outcome), Written(run.score, Some(a.overallScore), rec.score)),
     added)
  }

  // The same transaction in its three parts.

  /** Into `validating`: the rows, the call's columns, the extraction and the snapshot. */
  function RowsWritten(env: Env, rec: Record, run: Run, items: seq<Item>, a: E.Analysis, checks: seq<E.Check>): Record {
    var source := if run.mode == Reanalyze then T.FromReanalysis else T.FromWorker;
    var text := T.WorkerWrite(rec.text, items, source, env.normalize);
    rec.(progress := Enter(rec.progress, run.status, Validating, run.copied + 1), text := text,
         extraction := Some(ExtractionOf(env, text.segments, a, checks)),
         outcome := Written(run.outcome, a.outcome, rec.outcome),
         score := Written(run.score, Some(a.overallScore), rec.score))
  }

  /** The analysis version and its review case, then into `creating_followups`. */
  function VersionAdded(
      rec: Record, run: Run, transcript: nat, human: nat, a: E.Analysis, checks: seq<E.Check>)
    : (Record, seq<R.Publication>)
  {
    var (reviews, added) := R.CreateVersion(rec.reviews, run.call, transcript, human, a, checks);
    (rec.(reviews := reviews, progress := Enter(rec.progress, Validating, CreatingFollowups, run.copied + 1)), added)
  }

  /** The follow-ups, then the final status. */
  function RunClosed(env: Env, rec: Record, run: Run, a: E.Analysis, required: bool): Record {
    var final := if required then ReviewNeeded else Completed;
    rec.(followups := F.Followed(rec.followups, run.call, a, env.closed),
         progress := Enter(rec.progress, CreatingFollowups, final, run.copied + 1).(
           lastSuccessful := Written(run.lastSuccessful, Some(final), rec.progress.lastSuccessful),
           retryCount := Written(run.copied, 0, rec.progress.retryCount)))
  }

  lemma {:induction false} FinishedInParts(
      env: Env, rec: Record, human: nat, run: Run, items: seq<Item>, a: E.Analysis, checks: seq<E.Check>)
    requires Allowed(run.status, Validating)
    ensures var required := R.Reasons(human, run.call, a, checks) != [];
            var (versioned, added) := VersionAdded(RowsWritten(env, rec, run, items, a, checks), run,
                                                   |rec.text.versions|, human, a, checks);
            Finished(env, rec, human, run, items, a, checks) == (RunClosed(env, versioned, run, a, required), added)
  {
  }

  function Obstacle(rec: Record, run: Run, refined: RoleAssignment): Option<FinishError> {
    if run.mode == Reanalyze && FinalItems(rec, run, refined) == [] then Some(NoTranscript)
    else if !Allowed(run.status, Validating) then Some(WrongState)
    else if DuplicateNew(rec.text.segments, FinalItems(rec, run, refined)) then Some(DuplicatePosition)
    else None
  }

  /** The last transaction of a run. */
  function FinishRecord(
      env: Env, rec: Record, log: seq<R.Publication>, run: Run, refined: RoleAssignment, raw: E.Analysis)
    : Result<(Record, seq<R.Publication>), FinishError>
  {
    match Obstacle(rec, run, refined)
    case Some(why) => Failure(why)
    case None =>
      var items := FinalItems(rec, run, refined);
      Success(Finished(env, rec, |R.HumanPublished(log)|, run, items,
                       E.Sanitize(env.oracle, raw, items), E.AllChecks(env.oracle, raw, items)))
  }

  /** Decides `Clashes`. */
  predicate DuplicateNew(rows: T.Rows, items: seq<Item>)
    ensures DuplicateNew(rows, items) <==> T.Clashes(rows, items)
  {
    exists i | 0 <= i < |items| :: exists j | i < j < |items| ::
        items[i].position == items[j].position && items[i].position !in rows
  }

  /** The exception handler's transaction. */
  function FailedRecord(env: Env, rec: Record, stage: Stage, e: Exception, draw: real): Option<Record> {
    match HandleFailure(rec.progress, stage, Classify(e, stage), env.policy, draw)
    case None => None
    case Some(p) => Some(rec.(progress := p))
  }

  // ---------- the endpoints ----------

  function AfterEdit(rec: Record, text: T.Text, reanalyze: bool): Record {
    rec.(text := text, progress := rec.progress.(status := if reanalyze then Queued else ReviewNeeded))
  }

  function EditRecord(
      env: Env, rec: Record, p: nat, content: string, role: SpeakerRole, reanalyze: bool): Option<Record>
  {
    match T.EditSegment(rec.text, p, content, role, env.normalize)
    case None => None
    case Some(text) => Some(AfterEdit(rec, text, reanalyze))
  }

  function RolesRecord(rec: Record, assignments: map<string, SpeakerRole>, reanalyze: bool): Option<Record> {
    match T.AssignRoles(rec.text, assignments)
    case None => None
    case Some(text) => Some(AfterEdit(rec, text, reanalyze))
  }

  /** A published version that is the call's latest also decides the call. */
  function ReviewedRecord(rec: Record, t: R.Transition): Record {
    if t.completes && t.reviews.published.Some? && t.reviews.published.value < |t.reviews.versions| then
      var a := t.reviews.versions[t.reviews.published.value].analysis;
      rec.(reviews := t.reviews, outcome := a.outcome, score := Some(a.overallScore),
           progress := rec.progress.(status := Completed))
    else rec.(reviews := t.reviews)
  }

  /** What an edit of the transcript leaves of the call: its text is the edited one, it waits for a
      reanalysis or for review, and nothing else changes. A reanalysis can begin in both cases, any
      other run only in the first. */
  lemma {:induction false} EditWrites(
      env: Env, rec: Record, p: nat, content: string, role: SpeakerRole, reanalyze: bool)
    ensures var done := EditRecord(env, rec, p, content, role, reanalyze);
            && (done == None <==> p !in rec.text.segments)
            && (done.Some? ==>
                  && T.EditSegment(rec.text, p, content, role, env.normalize) == Some(done.value.text)
                  && AwaitsAfterEdit(rec, done.value, reanalyze))
  {
  }

  lemma {:induction false} RolesWrite(rec: Record, assignments: map<string, SpeakerRole>, reanalyze: bool)
    ensures var done := RolesRecord(rec, assignments, reanalyze);
            && (done == None <==> T.AssignRoles(rec.text, assignments) == None)
            && (done.Some? ==>
                  && T.AssignRoles(rec.text, assignments) == Some(done.value.text)
                  && AwaitsAfterEdit(rec, done.value, reanalyze))
  {
    if T.AssignRoles(rec.text, assignments).Some? {
      EditAwaits(rec, T.AssignRoles(rec.text, assignments).value, reanalyze);
    }
  }

  lemma {:induction false} EditAwaits(rec: Record, text: T.Text, reanalyze: bool)
    ensures AwaitsAfterEdit(rec, AfterEdit(rec, text, reanalyze), reanalyze)
  {
  }

  ghost predicate AwaitsAfterEdit(rec: Record, rec': Record, reanalyze: bool) {
    && rec' == rec.(text := rec'.text, progress := rec'.progress)
    && rec'.progress == rec.progress.(status := rec'.progress.status)
    && (reanalyze ==> rec'.progress.status == Queued) && (!reanalyze ==> rec'.progress.status == ReviewNeeded)
    && BeginRecord(rec', Reanalyze).Some?
    && (BeginRecord(rec', Resume).Some? <==> reanalyze)
  }

  /** Of the call a review action changes the reviews, and only the publication of the latest version
      changes more: the outcome, the score and the status. */
  lemma {:induction false} ReviewWrites(
      rec: Record, call: nat, k: nat, action: R.Action, actor: string, assignee: Option<string>, eligible: bool,
      note: Option<string>)
    requires R.PerformReviewAction(rec.reviews, call, rec.seller, k, action, actor, assignee, eligible, note).Success?
    ensures var t := R.PerformReviewAction(rec.reviews, call, rec.seller, k, action, actor, assignee, eligible,
                                           note).value;
            var rec', version := ReviewedRecord(rec, t), rec.reviews.cases[k].version;
            && rec' == rec.(reviews := t.reviews, outcome := rec'.outcome, score := rec'.score,
                            progress := rec.progress.(status := rec'.progress.status))
            && if action == R.Publish && version < |rec.reviews.versions| && rec.reviews.latest == Some(version) then
                 && rec'.progress.status == Completed
                 && rec'.outcome == rec.reviews.versions[version].analysis.outcome
                 && rec'.score == Some(rec.reviews.versions[version].analysis.overallScore)
               else
                 rec' == rec.(reviews := t.reviews)
  {
    R.ActionDoes(rec.reviews, call, rec.seller, k, action, actor, assignee, eligible, note);
  }

  // ---------- the invariant of one call ----------

  /** Every analysis version was made of a transcript version that exists. */
  ghost predicate VersionsHaveTranscripts(r: R.Reviews, t: T.Text) {
    forall k :: 0 <= k < |r.versions| ==> r.versions[k].transcript < |t.versions|
  }

  ghost predicate RecordInv(rec: Record, history: seq<R.Publication>) {
    && T.TextInv(rec.text)
    && R.ReviewInv(rec.reviews, rec.seller, history)
    && ProgressInv(rec.progress)
    && F.NoRepeats(rec.followups)
    && VersionsHaveTranscripts(rec.reviews, rec.text)
  }

  /** What no transaction on a call undoes. */
  ghost predicate RecordGrows(rec: Record, rec': Record) {
    && rec'.seller == rec.seller
    && T.TextGrows(rec.text, rec'.text)
    && R.ReviewsGrow(rec.reviews, rec'.reviews)
    && rec.followups.tasks <= rec'.followups.tasks && rec.followups.drafts <= rec'.followups.drafts
  }

  lemma {:induction false} NewRecordInv(seller: Option<string>)
    ensures RecordInv(NewRecord(seller), [])
  {
  }

  lemma {:induction false} GrowsReflexive(rec: Record)
    ensures RecordGrows(rec, rec)
  {
  }

  lemma {:induction false} GrowsTransitive(a: Record, b: Record, c: Record)
    requires RecordGrows(a, b) && RecordGrows(b, c)
    ensures RecordGrows(a, c)
  {
  }

  lemma {:induction false} ProgressOnly(rec: Record, p: Progress, history: seq<R.Publication>)
    requires RecordInv(rec, history) && ProgressInv(p)
    ensures RecordInv(rec.(progress := p), history) && RecordGrows(rec, rec.(progress := p))
  {
  }

  lemma {:induction false} BeginRecordKeeps(rec: Record, mode: Mode, history: seq<R.Publication>)
    requires RecordInv(rec, history) && BeginRecord(rec, mode).Some?
    ensures RecordInv(BeginRecord(rec, mode).value, history) && RecordGrows(rec, BeginRecord(rec, mode).value)
  {
    BeginKeeps(rec.progress, mode);
    ProgressOnly(rec, Begin(rec.progress, mode).value, history);
  }

  lemma {:induction false} TranscribingKeeps(rec: Record, run: Run, history: seq<R.Publication>)
    requires RecordInv(rec, history) && run.status == Preprocessing
    ensures RecordInv(TranscribingRecord(rec, run), history) && RecordGrows(rec, TranscribingRecord(rec, run))
  {
    EnterKeeps(rec.progress, run.status, Transcribing, run.copied + 1);
    ProgressOnly(rec, TranscribingRecord(rec, run).progress, history);
  }

  lemma {:induction false} AnalyzingKeeps(rec: Record, run: Run, history: seq<R.Publication>)
    requires RecordInv(rec, history) && run.status == Transcribing
    ensures RecordInv(AnalyzingRecord(rec, run), history) && RecordGrows(rec, AnalyzingRecord(rec, run))
  {
    TwoStepsKeep(rec.progress, run.copied + 1);
    ProgressOnly(rec, Enter(Enter(rec.progress, Transcribing, AssigningRoles, run.copied + 1),
                            AssigningRoles, Analyzing, run.copied + 1), history);
  }

  lemma {:induction false} TranscribingRecords(rec: Record, run: Run)
    requires run.status == Preprocessing
    ensures Pairs(TranscribingRecord(rec, run).progress.events) == Pairs(rec.progress.events)
            + [(Preprocessing, Transcribing)]
  {
    EnterRecords(rec.progress, Preprocessing, Transcribing, run.copied + 1);
  }

  lemma {:induction false} AnalyzingRecords(rec: Record, run: Run)
    requires run.status == Transcribing
    ensures Pairs(AnalyzingRecord(rec, run).progress.events)
            == Pairs(rec.progress.events) + [(Transcribing, AssigningRoles), (AssigningRoles, Analyzing)]
  {
    var p := rec.progress;
    EnterRecords(p, Transcribing, AssigningRoles, run.copied + 1);
    EnterRecords(Enter(p, Transcribing, AssigningRoles, run.copied + 1), AssigningRoles, Analyzing, run.copied + 1);
  }

  lemma {:induction false} FinishedKeeps(
      env: Env, rec: Record, human: nat, run: Run, items: seq<Item>, a: E.Analysis, checks: seq<E.Check>,
      history: seq<R.Publication>)
    requires RecordInv(rec, history) && Allowed(run.status, Validating)
    ensures var (rec', added) := Finished(env, rec, human, run, items, a, checks);
            && RecordInv(rec', history + added) && RecordGrows(rec, rec')
  {
    var source := if run.mode == Reanalyze then T.FromReanalysis else T.FromWorker;
    T.WorkerWriteKeeps(rec.text, items, source, env.normalize);
    R.CreateVersionKeeps(rec.reviews, rec.seller, history, run.call, |rec.text.versions|, human, a, checks);
    FinishKeeps(rec.progress, run.status, run.copied, run.lastSuccessful, R.Reasons(human, run.call, a, checks) != []);
    F.FollowedKeeps(rec.followups, run.call, a, env.closed);
    RefersToNewTranscript(env, rec, human, run, items, a, checks, history);
  }

  lemma {:induction false} RefersToNewTranscript(
      env: Env, rec: Record, human: nat, run: Run, items: seq<Item>, a: E.Analysis, checks: seq<E.Check>,
      history: seq<R.Publication>)
    requires RecordInv(rec, history) && Allowed(run.status, Validating)
    ensures var rec' := Finished(env, rec, human, run, items, a, checks).0;
            && |rec'.text.versions| == |rec.text.versions| + 1 && |rec'.reviews.versions| == |rec.reviews.versions| + 1
            && rec'.reviews.versions[|rec.reviews.versions|].transcript == |rec.text.versions|
            && VersionsHaveTranscripts(rec'.reviews, rec'.text)
  {
  }

  lemma {:induction false} OnlyPolicyPublishes(
      env: Env, rec: Record, human: nat, run: Run, items: seq<Item>, a: E.Analysis, checks: seq<E.Check>)
    requires Allowed(run.status, Validating)
    ensures var added := Finished(env, rec, human, run, items, a, checks).1;
            && |added| <= 1
            && (added != [] ==> added[0].call == run.call && added[0].kind == R.ByPolicy && 50 <= human)
  {
    R.NoReasonExactly(human, run.call, a, checks);
  }

  lemma {:induction false} FinishRecordKeeps(
      env: Env, rec: Record, log: seq<R.Publication>, run: Run, refined: RoleAssignment, raw: E.Analysis,
      history: seq<R.Publication>)
    requires RecordInv(rec, history) && Obstacle(rec, run, refined).None?
    ensures FinishRecord(env, rec, log, run, refined, raw).Success?
    ensures var (rec', added) := FinishRecord(env, rec, log, run, refined, raw).value;
            && RecordInv(rec', history + added) && RecordGrows(rec, rec')
            && |added| <= 1
            && (added != [] ==>
                  added[0].call == run.call && added[0].kind == R.ByPolicy && 50 <= |R.HumanPublished(log)|)
  {
    var items := FinalItems(rec, run, refined);
    var a, checks := E.Sanitize(env.oracle, raw, items), E.AllChecks(env.oracle, raw, items);
    FinishedKeeps(env, rec, |R.HumanPublished(log)|, run, items, a, checks, history);
    OnlyPolicyPublishes(env, rec, |R.HumanPublished(log)|, run, items, a, checks);
  }

  /** The last transaction records its three steps and ends in one of two statuses. */
  lemma {:induction false} FinishRecordRecords(
      env: Env, rec: Record, log: seq<R.Publication>, run: Run, refined: RoleAssignment, raw: E.Analysis)
    requires run.status == Analyzing && Obstacle(rec, run, refined).None?
    ensures FinishRecord(env, rec, log, run, refined, raw).Success?
    ensures var p := FinishRecord(env, rec, log, run, refined, raw).value.0.progress;
            && p.status in {ReviewNeeded, Completed}
            && Pairs(p.events) == Pairs(rec.progress.events) + LastSteps(p.status)
  {
    var items := FinalItems(rec, run, refined);
    var required := R.Reasons(|R.HumanPublished(log)|, run.call, E.Sanitize(env.oracle, raw, items),
                              E.AllChecks(env.oracle, raw, items)) != [];
    FinishRecords(rec.progress, run.copied, run.lastSuccessful, required);
    assert FinishRecord(env, rec, log, run, refined, raw).value.0.progress
        == Finish(rec.progress, Analyzing, run.copied, run.lastSuccessful, required).value;
  }

  lemma {:induction false} FinishRecordText(
      env: Env, rec: Record, log: seq<R.Publication>, run: Run, refined: RoleAssignment, raw: E.Analysis)
    requires Obstacle(rec, run, refined).None?
    ensures FinishRecord(env, rec, log, run, refined, raw).Success?
    ensures FinishRecord(env, rec, log, run, refined, raw).value.0.text
            == T.WorkerWrite(rec.text, FinalItems(rec, run, refined),
                             if run.mode == Reanalyze then T.FromReanalysis else T.FromWorker, env.normalize)
  {
  }

  /** The new analysis is the call's latest, and what the columns of the call are written with. */
  lemma {:induction false} FinishRecordColumns(
      env: Env, rec: Record, log: seq<R.Publication>, run: Run, refined: RoleAssignment, raw: E.Analysis)
    requires Obstacle(rec, run, refined).None?
    ensures FinishRecord(env, rec, log, run, refined, raw).Success?
    ensures var rec' := FinishRecord(env, rec, log, run, refined, raw).value.0;
            && rec'.reviews.latest == Some(|rec.reviews.versions|)
            && |rec'.reviews.versions| == |rec.reviews.versions| + 1
            && var a := rec'.reviews.versions[|rec.reviews.versions|].analysis;
            && rec'.outcome == Written(run.outcome, a.outcome, rec.outcome)
            && rec'.score == Written(run.score, Some(a.overallScore), rec.score)
  {
  }

  lemma {:induction false} FinishRecordCounter(
      env: Env, rec: Record, log: seq<R.Publication>, run: Run, refined: RoleAssignment, raw: E.Analysis)
    requires Obstacle(rec, run, refined).None?
    ensures FinishRecord(env, rec, log, run, refined, raw).Success?
    ensures var p := FinishRecord(env, rec, log, run, refined, raw).value.0.progress;
            && p.retryCount == (if run.copied == 0 then rec.progress.retryCount else 0)
            && p.lastSuccessful
               == (if run.lastSuccessful == Some(p.status) then rec.progress.lastSuccessful else Some(p.status))
  {
    var items := FinalItems(rec, run, refined);
    var required := R.Reasons(|R.HumanPublished(log)|, run.call, E.Sanitize(env.oracle, raw, items),
                              E.AllChecks(env.oracle, raw, items)) != [];
    AllowedExactly(run.status, Validating);
    FinishExactly(rec.progress, run.status, run.copied, run.lastSuccessful, required);
    assert FinishRecord(env, rec, log, run, refined, raw).value.0.progress
        == Finish(rec.progress, run.status, run.copied, run.lastSuccessful, required).value;
  }

  lemma {:induction false} FinishRecordStatus(
      env: Env, rec: Record, log: seq<R.Publication>, run: Run, refined: RoleAssignment, raw: E.Analysis)
    requires Obstacle(rec, run, refined).None?
    ensures FinishRecord(env, rec, log, run, refined, raw).Success?
    ensures FinishRecord(env, rec, log, run, refined, raw).value.0.progress.status in {ReviewNeeded, Completed}
  {
  }

  // ---------- what the last transaction stores, by the provider's analysis alone ----------

  function StoredUnder(x: Extraction, f: E.Field): seq<StoredQuote> {
    if f in x.evidence then x.evidence[f] else []
  }

  function QuotesIn(stored: seq<StoredQuote>): seq<E.Quote> {
    seq(|stored|, k requires 0 <= k < |stored| => stored[k].quote)
  }

  /** Exactly the provider's facts that some quote supports, with the provider's values. */
  ghost predicate FactsOf(o: E.TextOracle, raw: E.Analysis, items: seq<Item>, facts: map<E.Field, string>) {
    && (forall f :: f in facts <==> E.IsFact(f) && f in raw.facts && E.SomeSupported(o, E.EvidenceFor(raw, f), items))
    && (forall f :: f in facts && f in raw.facts ==> facts[f] == raw.facts[f])
  }

  /** Each quote with the row whose position is the quote's index, where there is such a row. */
  ghost predicate LinkedByIndex(rows: T.Rows, stored: seq<StoredQuote>) {
    forall j, p: nat :: 0 <= j < |stored| ==>
        (stored[j].source == Some(p) <==> p in rows && p == stored[j].quote.segmentIndex)
  }

  ghost predicate EvidenceOf(env: Env, raw: E.Analysis, items: seq<Item>, rows: T.Rows, x: Extraction, f: E.Field) {
    && E.StoredFor(env.oracle, raw, items, env.attribute, f, QuotesIn(StoredUnder(x, f)))
    && LinkedByIndex(rows, StoredUnder(x, f))
  }

  /** The extraction stored for the provider's analysis `raw`. */
  ghost predicate ExtractedFrom(env: Env, raw: E.Analysis, items: seq<Item>, rec: Record) {
    && rec.extraction.Some? && rec.reviews.versions != []
    && var x := rec.extraction.value;
    && FactsOf(env.oracle, raw, items, x.facts)
    && (x.validated <==> E.EverythingSupported(env.oracle, raw, items))
    && x.confidence == rec.reviews.versions[|rec.reviews.versions| - 1].analysis.outcomeConfidence
    && forall f :: EvidenceOf(env, raw, items, rec.text.segments, x, f)
  }

  lemma {:induction false} ExtractionFacts(
      env: Env, rows: T.Rows, raw: E.Analysis, items: seq<Item>, checks: seq<E.Check>)
    requires E.WellShaped(raw)
    ensures FactsOf(env.oracle, raw, items, ExtractionOf(env, rows, E.Sanitize(env.oracle, raw, items), checks).facts)
  {
    var o, b := env.oracle, E.Sanitize(env.oracle, raw, items);
    E.SanitizedIsClean(o, raw, items);
    forall f
      ensures f in b.facts <==> E.IsFact(f) && f in raw.facts && E.SomeSupported(o, E.EvidenceFor(raw, f), items)
      ensures f in b.facts && f in raw.facts ==> b.facts[f] == raw.facts[f]
    {
      if E.IsFact(f) { E.FieldSurvivesExactly(o, raw, items, f); }
    }
  }

  lemma {:induction false} ExtractionEvidence(
      env: Env, rows: T.Rows, raw: E.Analysis, items: seq<Item>, checks: seq<E.Check>, f: E.Field)
    requires E.WellShaped(raw)
    ensures EvidenceOf(env, raw, items, rows, ExtractionOf(env, rows, E.Sanitize(env.oracle, raw, items), checks), f)
  {
    var b := E.Sanitize(env.oracle, raw, items);
    var quotes := if E.Persisted(b, f, env.attribute) then b.fieldEvidence[f] else [];
    E.StoredByKey(env.oracle, raw, items, env.attribute, f);
    assert QuotesIn(StoredUnder(ExtractionOf(env, rows, b, checks), f)) == quotes;
  }

  lemma {:induction false} FinishRecordStores(
      env: Env, rec: Record, log: seq<R.Publication>, run: Run, refined: RoleAssignment, raw: E.Analysis)
    requires E.WellShaped(raw) && Obstacle(rec, run, refined).None?
    ensures FinishRecord(env, rec, log, run, refined, raw).Success?
    ensures ExtractedFrom(env, raw, FinalItems(rec, run, refined),
                          FinishRecord(env, rec, log, run, refined, raw).value.0)
  {
    var items := FinalItems(rec, run, refined);
    var rec' := FinishRecord(env, rec, log, run, refined, raw).value.0;
    var checks := E.AllChecks(env.oracle, raw, items);
    FinishRecordColumns(env, rec, log, run, refined, raw);
    ExtractionFacts(env, rec'.text.segments, raw, items, checks);
    E.ChecksExactly(env.oracle, raw, items);
    E.AnyUnsupportedExactly(checks);
    forall f ensures EvidenceOf(env, raw, items, rec'.text.segments, rec'.extraction.value, f) {
      ExtractionEvidence(env, rec'.text.segments, raw, items, checks, f);
    }
  }

  lemma {:induction false} FinishRecordCloses(
      env: Env, rec: Record, log: seq<R.Publication>, run: Run, refined: RoleAssignment, raw: E.Analysis)
    requires ProgressInv(rec.progress) && Obstacle(rec, run, refined).None?
    ensures FinishRecord(env, rec, log, run, refined, raw).Success?
    ensures !HasOpen(FinishRecord(env, rec, log, run, refined, raw).value.0.progress.events)
  {
    var items := FinalItems(rec, run, refined);
    var required := R.Reasons(|R.HumanPublished(log)|, run.call, E.Sanitize(env.oracle, raw, items),
                              E.AllChecks(env.oracle, raw, items)) != [];
    FinishKeeps(rec.progress, run.status, run.copied, run.lastSuccessful, required);
    assert FinishRecord(env, rec, log, run, refined, raw).value.0.progress
        == Finish(rec.progress, run.status, run.copied, run.lastSuccessful, required).value;
  }

  lemma {:induction false} FailedRecordKeeps(
      env: Env, rec: Record, stage: Stage, e: Exception, draw: real, history: seq<R.Publication>)
    requires RecordInv(rec, history) && FailedRecord(env, rec, stage, e, draw).Some?
    ensures RecordInv(FailedRecord(env, rec, stage, e, draw).value, history)
    ensures RecordGrows(rec, FailedRecord(env, rec, stage, e, draw).value)
  {
    FailureKeeps(rec.progress, stage, Classify(e, stage), env.policy, draw);
    ProgressOnly(rec, FailedRecord(env, rec, stage, e, draw).value.progress, history);
  }

  lemma {:induction false} TextOnly(rec: Record, text: T.Text, p: Progress, history: seq<R.Publication>)
    requires RecordInv(rec, history) && ProgressInv(p)
    requires T.TextInv(text) && T.TextGrows(rec.text, text)
    ensures RecordInv(rec.(text := text, progress := p), history)
    ensures RecordGrows(rec, rec.(text := text, progress := p))
  {
  }

  lemma {:induction false} EditRecordKeeps(
      env: Env, rec: Record, p: nat, content: string, role: SpeakerRole, reanalyze: bool, history: seq<R.Publication>)
    requires RecordInv(rec, history) && EditRecord(env, rec, p, content, role, reanalyze).Some?
    ensures var rec' := EditRecord(env, rec, p, content, role, reanalyze).value;
            RecordInv(rec', history) && RecordGrows(rec, rec')
  {
    T.EditKeeps(rec.text, p, content, role, env.normalize);
    var text := T.EditSegment(rec.text, p, content, role, env.normalize).value;
    TextOnly(rec, text, AfterEdit(rec, text, reanalyze).progress, history);
  }

  lemma {:induction false} RolesRecordKeeps(
      rec: Record, assignments: map<string, SpeakerRole>, reanalyze: bool, history: seq<R.Publication>)
    requires RecordInv(rec, history) && RolesRecord(rec, assignments, reanalyze).Some?
    ensures var rec' := RolesRecord(rec, assignments, reanalyze).value;
            RecordInv(rec', history) && RecordGrows(rec, rec')
  {
    T.AssignRolesKeeps(rec.text, assignments);
    var text := T.AssignRoles(rec.text, assignments).value;
    TextOnly(rec, text, AfterEdit(rec, text, reanalyze).progress, history);
  }

  lemma {:induction false} SnapshotRecordKeeps(rec: Record, history: seq<R.Publication>)
    requires RecordInv(rec, history)
    ensures var rec' := rec.(text := T.Snapshot(rec.text, T.HumanSnapshot));
            RecordInv(rec', history) && RecordGrows(rec, rec')
  {
    T.SnapshotKeeps(rec.text, T.HumanSnapshot);
    TextOnly(rec, T.Snapshot(rec.text, T.HumanSnapshot), rec.progress, history);
  }

  /** Only the analysis and its version may change in a review, with what it decides of the call. */
  lemma {:induction false} ReviewsOnly(
      rec: Record, rec': Record, history: seq<R.Publication>, history': seq<R.Publication>)
    requires RecordInv(rec, history) && R.ReviewInv(rec'.reviews, rec.seller, history')
             && R.ReviewsGrow(rec.reviews, rec'.reviews)
    requires |rec'.reviews.versions| == |rec.reviews.versions| && ProgressInv(rec'.progress)
    requires rec' == rec.(reviews := rec'.reviews, progress := rec'.progress, outcome := rec'.outcome,
                          score := rec'.score)
    ensures RecordInv(rec', history') && RecordGrows(rec, rec')
  {
  }

  lemma {:induction false} ReviewedRecordKeeps(
      rec: Record, call: nat, k: nat, action: R.Action, actor: string, assignee: Option<string>, eligible: bool,
      note: Option<string>, history: seq<R.Publication>)
    requires RecordInv(rec, history)
    requires R.PerformReviewAction(rec.reviews, call, rec.seller, k, action, actor, assignee, eligible, note).Success?
    ensures var t := R.PerformReviewAction(rec.reviews, call, rec.seller, k, action, actor, assignee, eligible,
                                           note).value;
            && RecordInv(ReviewedRecord(rec, t), history + t.added) && RecordGrows(rec, ReviewedRecord(rec, t))
            && |t.added| <= 1
            && (t.added != [] ==> t.added[0].call == call && t.added[0].kind == R.ByHuman)
  {
    R.ReviewActionKeeps(rec.reviews, rec.seller, history, call, k, action, actor, assignee, eligible, note);
    var t := R.PerformReviewAction(rec.reviews, call, rec.seller, k, action, actor, assignee, eligible, note).value;
    ReviewsOnly(rec, ReviewedRecord(rec, t), history, history + t.added);
  }
}

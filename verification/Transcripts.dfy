/** The live transcript rows of one call, the human corrections made to them and the immutable
    versions copied from them (backend/app/tasks.py, backend/app/services/versioning.py,
    backend/app/main.py). Rows are keyed by their position, which is unique per call. */
module Transcripts {
  import opened Wrappers
  import opened Transcript

  datatype Segment = Segment(
    speakerLabel: string, speakerId: string, role: SpeakerRole, roleConfidence: Option<real>,
    start: Option<real>, end: Option<real>, content: string, normalizedText: string, corrected: bool)

  /** What a human edit left behind: the content and the role it set. */
  datatype Correction = Correction(position: nat, content: string, role: SpeakerRole)

  datatype VersionRow = VersionRow(
    speakerId: string, speakerLabel: string, role: SpeakerRole, roleConfidence: Option<real>,
    start: Option<real>, end: Option<real>, content: string, normalizedText: string)

  datatype Source = FromWorker | FromReanalysis | HumanCorrection | HumanSnapshot

  datatype Version = Version(number: nat, source: Source, rows: map<nat, VersionRow>)

  type Rows = map<nat, Segment>

  datatype Text = Text(
    segments: Rows, corrections: seq<Correction>, versions: seq<Version>,
    latest: Option<nat>, manuallyCorrected: bool)

  // ---------- rows in position order ----------

  predicate IsLeast(m: nat, s: set<nat>) {
    m in s && forall x | x in s :: m <= x
  }

  lemma {:induction false} LeastExists(s: set<nat>) returns (m: nat)
    requires s != {}
    ensures IsLeast(m, s)
    decreases |s|
  {
    var y :| y in s;
    var rest := s - {y};
    assert forall x :: x in s ==> x == y || x in rest;
    m := y;
    if rest == {} {
    } else {
      var least := LeastExists(rest);
      m := if y < least then y else least;
    }
  }

  function Least(s: set<nat>): (m: nat)
    requires s != {}
    ensures IsLeast(m, s)
  {
    assert exists m :: IsLeast(m, s) by { var m := LeastExists(s); }
    var m :| IsLeast(m, s);
    m
  }

  /** The elements in ascending order. */
  function Ascending(s: set<nat>): (order: seq<nat>)
    ensures |order| == |s|
    ensures forall p :: p in order <==> p in s
    decreases |s|
  {
    if s == {} then [] else [Least(s)] + Ascending(s - {Least(s)})
  }

  // ---------- snapshots ----------

  /** The columns a snapshot copies; an empty speaker id falls back to the label. */
  function CopyRow(s: Segment): VersionRow {
    VersionRow(if s.speakerId != "" then s.speakerId else s.speakerLabel, s.speakerLabel, s.role, s.roleConfidence,
               s.start, s.end, s.content, s.normalizedText)
  }

  function CopyRows(segments: Rows): map<nat, VersionRow> {
    map p | p in segments :: CopyRow(segments[p])
  }

  function MaxNumber(versions: seq<Version>): nat {
    if versions == [] then 0
    else
      var rest := MaxNumber(versions[..|versions| - 1]);
      if versions[|versions| - 1].number > rest then versions[|versions| - 1].number else rest
  }

  /** A new version, numbered one above the highest; its identifier is its place in the list. */
  function Snapshot(t: Text, source: Source): Text {
    t.(versions := t.versions + [Version(MaxNumber(t.versions) + 1, source, CopyRows(t.segments))],
       latest := Some(|t.versions|))
  }

  /** The rows at the first `count` listed positions, copied. */
  function CopyListed(segments: Rows, order: seq<nat>, count: nat): (rows: map<nat, VersionRow>)
    requires count <= |order| && forall k :: 0 <= k < |order| ==> order[k] in segments
    ensures forall k :: 0 <= k < count ==> order[k] in rows
    ensures forall p :: p in rows ==> p in segments && rows[p] == CopyRow(segments[p])
  {
    if count == 0 then map[]
    else CopyListed(segments, order, count - 1)[order[count - 1] := CopyRow(segments[order[count - 1]])]
  }

  lemma {:induction false} AllCopied(segments: Rows, order: seq<nat>)
    requires (forall k :: 0 <= k < |order| ==> order[k] in segments) && forall p :: p in segments ==> p in order
    ensures CopyListed(segments, order, |order|) == CopyRows(segments)
  {
    SameMap(CopyListed(segments, order, |order|), CopyRows(segments));
  }

  method SnapshotTranscript(t: Text, source: Source) returns (r: Text)
    ensures r == Snapshot(t, source)
  {
    var number := MaxNumber(t.versions) + 1;
    var rows: map<nat, VersionRow> := map[];
    var order := Ascending(t.segments.Keys);
    assert forall k :: 0 <= k < |order| ==> order[k] in order;
    for k := 0 to |order|
      invariant rows == CopyListed(t.segments, order, k)
    {
      rows := rows[order[k] := CopyRow(t.segments[order[k]])];
    }
    AllCopied(t.segments, order);
    r := t.(versions := t.versions + [Version(number, source, rows)], latest := Some(|t.versions|));
  }

  lemma {:induction false} SameMap<V>(a: map<nat, V>, b: map<nat, V>)
    requires forall p :: p in a <==> p in b
    requires forall p :: p in a ==> a[p] == b[p]
    ensures a == b
  {
  }

  // ---------- _upsert_segments ----------

  function Positions(items: seq<Item>): set<nat> {
    set k | 0 <= k < |items| :: items[k].position
  }

  /** The last item for a position. */
  function ItemAt(items: seq<Item>, p: nat): Item
    requires p in Positions(items)
  {
    var last := items[|items| - 1];
    if last.position == p then last else ItemAt(items[..|items| - 1], p)
  }

  /** A row after an item was written to it: all but the content and the role of a corrected one. */
  function WriteRow(before: Option<Segment>, item: Item, normalize: string -> string): Segment {
    var keep := before.Some? && before.value.corrected;
    Segment(item.speaker, item.speaker, if keep then before.value.role else item.role, item.roleConfidence,
            item.start, item.end, if keep then before.value.content else Strip(item.text),
            if item.normalizedText != "" then item.normalizedText else normalize(item.text), keep)
  }

  function RowAt(rows: Rows, p: nat): Option<Segment> {
    if p in rows then Some(rows[p]) else None
  }

  function CorrectedPositions(rows: Rows): set<nat> {
    set p | p in rows && rows[p].corrected
  }

  /** Two items for a position that has no row yet break the unique index. */
  ghost predicate Clashes(rows: Rows, items: seq<Item>) {
    exists i, j :: 0 <= i < j < |items| && items[i].position == items[j].position && items[i].position !in rows
  }

  /** The rows afterwards: the written ones and the corrected ones. */
  function Upserted(rows: Rows, items: seq<Item>, normalize: string -> string): Rows {
    map p | p in Positions(items) + CorrectedPositions(rows) ::
      if p in Positions(items) then WriteRow(RowAt(rows, p), ItemAt(items, p), normalize) else rows[p]
  }

  lemma {:induction false} PositionsNext(items: seq<Item>, k: nat)
    requires k < |items|
    ensures forall p :: p in Positions(items[..k + 1]) <==> p in Positions(items[..k]) || p == items[k].position
  {
    var all, init := items[..k + 1], items[..k];
    forall p | p in Positions(all) ensures p in Positions(init) || p == items[k].position {
      var i :| 0 <= i < |all| && all[i].position == p;
      if i < k { assert init[i].position == p; }
    }
    forall p | p in Positions(init) ensures p in Positions(all) {
      var i :| 0 <= i < |init| && init[i].position == p;
      assert all[i].position == p;
    }
    assert all[k].position in Positions(all);
  }

  lemma {:induction false} ItemAtNext(items: seq<Item>, k: nat, p: nat)
    requires k < |items| && p in Positions(items[..k + 1])
    requires p != items[k].position ==> p in Positions(items[..k])
    ensures ItemAt(items[..k + 1], p) == if p == items[k].position then items[k] else ItemAt(items[..k], p)
  {
    assert items[..k + 1][..k] == items[..k];
  }

  function Overwritten(existing: Rows, done: seq<Item>, p: nat, normalize: string -> string): Segment
    requires p in existing || p in Positions(done)
  {
    if p in Positions(done) then WriteRow(RowAt(existing, p), ItemAt(done, p), normalize) else existing[p]
  }

  /** What the first loop has done after the items in `done`. */
  ghost predicate Written(existing: Rows, rows: Rows, done: seq<Item>, normalize: string -> string) {
    && (forall p :: p in rows <==> p in existing || p in Positions(done))
    && (forall p :: p in rows ==> rows[p] == Overwritten(existing, done, p, normalize))
  }

  lemma {:induction false} WriteNext(existing: Rows, rows: Rows, items: seq<Item>, k: nat, normalize: string -> string)
    requires k < |items| && Written(existing, rows, items[..k], normalize)
    requires items[k].position in existing || items[k].position !in Positions(items[..k])
    ensures Written(existing, rows[items[k].position := WriteRow(RowAt(rows, items[k].position), items[k], normalize)],
                    items[..k + 1], normalize)
  {
    PositionsNext(items, k);
    var rows' := rows[items[k].position := WriteRow(RowAt(rows, items[k].position), items[k], normalize)];
    forall p | p in rows' ensures rows'[p] == Overwritten(existing, items[..k + 1], p, normalize) {
      if p in Positions(items[..k + 1]) { ItemAtNext(items, k, p); }
    }
  }

  /** The first loop: writes every item over the row at its position. */
  method WriteItems(existing: Rows, items: seq<Item>, normalize: string -> string)
    returns (ok: bool, rows: Rows, seen: set<nat>)
    ensures ok <==> !Clashes(existing, items)
    ensures ok ==> seen == Positions(items) && Written(existing, rows, items, normalize)
  {
    rows, seen := existing, {};
    for k := 0 to |items|
      invariant seen == Positions(items[..k])
      invariant !Clashes(existing, items[..k])
      invariant Written(existing, rows, items[..k], normalize)
    {
      var position := items[k].position;
      PositionsNext(items, k);
      if position in seen && position !in existing {
        ClashFound(existing, items, k);
        ok := false;
        return;
      }
      NoClashYet(existing, items, k);
      WriteNext(existing, rows, items, k, normalize);
      rows := rows[position := WriteRow(RowAt(rows, position), items[k], normalize)];
      seen := seen + {position};
    }
    assert items[..|items|] == items;
    ok := true;
  }

  /** Deleted by the second loop after the first `count` positions. */
  ghost predicate Deleted(existing: Rows, seen: set<nat>, positions: seq<nat>, count: nat, p: nat)
    requires count <= |positions|
  {
    p in existing && p !in seen && !existing[p].corrected && exists i | 0 <= i < count :: positions[i] == p
  }

  /** The second loop: deletes the uncorrected rows that no item named, and nothing else. */
  method DeleteUnnamed(existing: Rows, written: Rows, seen: set<nat>) returns (rows: Rows)
    ensures forall p :: p in rows <==> p in written && !(p in existing && p !in seen && !existing[p].corrected)
    ensures forall p :: p in rows ==> rows[p] == written[p]
  {
    rows := written;
    var positions := Ascending(existing.Keys);
    assert forall k :: 0 <= k < |positions| ==> positions[k] in positions;
    for k := 0 to |positions|
      invariant forall p :: p in rows <==> p in written && !Deleted(existing, seen, positions, k, p)
      invariant forall p :: p in rows ==> rows[p] == written[p]
    {
      var position := positions[k];
      if position !in seen && !existing[position].corrected {
        rows := rows - {position};
      }
    }
    assert forall p :: p in existing.Keys ==> p in positions;
  }

  /** Writes every item, then deletes the uncorrected rows that no item named. Fails when the
      database would. */
  method UpsertSegments(existing: Rows, items: seq<Item>, normalize: string -> string) returns (r: Option<Rows>)
    ensures r.None? <==> Clashes(existing, items)
    ensures r.Some? ==> r.value == Upserted(existing, items, normalize)
  {
    var ok, written, seen := WriteItems(existing, items, normalize);
    if !ok {
      return None;
    }
    var rows := DeleteUnnamed(existing, written, seen);
    SameMap(rows, Upserted(existing, items, normalize));
    r := Some(rows);
  }

  lemma {:induction false} ClashFound(existing: Rows, items: seq<Item>, k: nat)
    requires k < |items| && items[k].position in Positions(items[..k]) && items[k].position !in existing
    ensures Clashes(existing, items)
  {
    var i :| 0 <= i < k && items[..k][i].position == items[k].position;
    assert items[i].position == items[k].position;
  }

  lemma {:induction false} NoClashYet(existing: Rows, items: seq<Item>, k: nat)
    requires k < |items| && !Clashes(existing, items[..k])
    requires items[k].position in existing || items[k].position !in Positions(items[..k])
    ensures !Clashes(existing, items[..k + 1])
  {
    var all, init := items[..k + 1], items[..k];
    forall i, j | 0 <= i < j < |all| && all[i].position == all[j].position ensures all[i].position in existing {
      assert init[i] == all[i];
      if j < k {
        assert init[j] == all[j];
      } else {
        assert init[i].position in Positions(init);
      }
    }
  }

  // ---------- human edits ----------

  /** The endpoint that corrects one segment: no result when there is no such segment. */
  function EditSegment(t: Text, p: nat, content: string, role: SpeakerRole, normalize: string -> string): Option<Text> {
    if p !in t.segments then None
    else
      var text := Strip(content);
      var row := t.segments[p].(content := text, normalizedText := normalize(text), role := Canonical(role),
                                corrected := true);
      Some(Snapshot(t.(segments := t.segments[p := row],
                       corrections := t.corrections + [Correction(p, text, Canonical(role))],
                       manuallyCorrected := true),
                    HumanCorrection))
  }

  function Identity(s: Segment): string {
    if s.speakerId != "" then s.speakerId else s.speakerLabel
  }

  /** The speaker-role endpoint at one row: it is touched only when its role changes. */
  function AssignRow(t: Text, assignments: map<string, SpeakerRole>, p: nat): Text
    requires p in t.segments
  {
    var s := t.segments[p];
    if Identity(s) !in assignments || Canonical(assignments[Identity(s)]) == s.role then t
    else
      var role := Canonical(assignments[Identity(s)]);
      t.(segments := t.segments[p := s.(role := role, roleConfidence := Some(1.0), corrected := true)],
         corrections := t.corrections + [Correction(p, s.content, role)])
  }

  /** The first `count` listed rows. */
  function AssignListed(t: Text, assignments: map<string, SpeakerRole>, order: seq<nat>, count: nat): (r: Text)
    requires count <= |order| && forall k :: 0 <= k < |order| ==> order[k] in t.segments
    ensures forall p :: p in r.segments <==> p in t.segments
    ensures |t.corrections| <= |r.corrections|
  {
    if count == 0 then t else AssignRow(AssignListed(t, assignments, order, count - 1), assignments, order[count - 1])
  }

  function AssignedRows(t: Text, assignments: map<string, SpeakerRole>): Text {
    AssignListed(t, assignments, Ascending(t.segments.Keys), |t.segments.Keys|)
  }

  /** No result when no row changed: the endpoint answers 422 and commits nothing. */
  function AssignRoles(t: Text, assignments: map<string, SpeakerRole>): Option<Text> {
    var updated := AssignedRows(t, assignments);
    if |updated.corrections| == |t.corrections| then None
    else Some(Snapshot(updated.(manuallyCorrected := true), HumanCorrection))
  }

  method UpdateSpeakerRoles(t: Text, assignments: map<string, SpeakerRole>) returns (r: Option<Text>)
    ensures r == AssignRoles(t, assignments)
  {
    var order := Ascending(t.segments.Keys);
    assert forall k :: 0 <= k < |order| ==> order[k] in order;
    var changed, text := 0, t;
    for k := 0 to |order|
      invariant text == AssignListed(t, assignments, order, k)
      invariant |text.corrections| == |t.corrections| + changed
    {
      var p := order[k];
      var s := text.segments[p];
      if Identity(s) !in assignments || Canonical(assignments[Identity(s)]) == s.role {
        continue;
      }
      var role := Canonical(assignments[Identity(s)]);
      text := text.(segments := text.segments[p := s.(role := role, roleConfidence := Some(1.0), corrected := true)],
                    corrections := text.corrections + [Correction(p, s.content, role)]);
      changed := changed + 1;
    }
    if changed == 0 {
      return None;
    }
    text := text.(manuallyCorrected := true);
    text := SnapshotTranscript(text, HumanCorrection);
    r := Some(text);
  }

  // ---------- worker passes ----------

  /** What a worker run writes: the rows, then a version copied from them. */
  function WorkerWrite(t: Text, items: seq<Item>, source: Source, normalize: string -> string): Text {
    Snapshot(t.(segments := Upserted(t.segments, items, normalize)), source)
  }

  function StoredItem(rows: Rows, p: nat): Item
    requires p in rows
  {
    var s := rows[p];
    Item(p, s.speakerLabel, s.role, None, s.start, s.end, s.content, s.normalizedText)
  }

  /** The items a reanalysis builds from the stored rows. */
  function StoredItems(rows: Rows): seq<Item> {
    var order := Ascending(rows.Keys);
    assert forall k :: 0 <= k < |order| ==> order[k] in order;
    seq(|order|, k requires 0 <= k < |order| => StoredItem(rows, order[k]))
  }

  // ---------- the invariant ----------

  function LastCorrection(corrections: seq<Correction>, p: nat): Option<Correction> {
    if corrections == [] then None
    else if corrections[|corrections| - 1].position == p then Some(corrections[|corrections| - 1])
    else LastCorrection(corrections[..|corrections| - 1], p)
  }

  /** A row is marked corrected exactly when a correction names it, and it then holds what the
      last one set. */
  predicate Follows(row: Segment, last: Option<Correction>) {
    row.corrected == last.Some? && (last.Some? ==> row.content == last.value.content && row.role == last.value.role)
  }

  ghost predicate RowsFollowCorrections(rows: Rows, corrections: seq<Correction>) {
    && (forall p :: p in rows ==> Follows(rows[p], LastCorrection(corrections, p)))
    && (forall p: nat :: LastCorrection(corrections, p).Some? ==> p in rows)
  }

  ghost predicate ContentStripped(rows: Rows) {
    forall p :: p in rows ==> Strip(rows[p].content) == rows[p].content
  }

  ghost predicate Numbered(versions: seq<Version>) {
    forall k :: 0 <= k < |versions| ==> versions[k].number == k + 1
  }

  /** The copy holds every column of the live row it was made from. */
  ghost predicate SameColumns(copy: VersionRow, s: Segment) {
    && copy.content == s.content && copy.normalizedText == s.normalizedText
    && copy.role == s.role && copy.roleConfidence == s.roleConfidence
    && copy.start == s.start && copy.end == s.end
    && copy.speakerLabel == s.speakerLabel
    && copy.speakerId == (if s.speakerId == "" then s.speakerLabel else s.speakerId)
  }

  /** One copy for every live row and no other. */
  ghost predicate Mirrors(rows: map<nat, VersionRow>, segments: Rows) {
    && (forall p :: p in rows <==> p in segments)
    && (forall p :: p in rows ==> SameColumns(rows[p], segments[p]))
  }

  /** The latest version is the last one and holds the live rows. */
  ghost predicate LatestIsLive(t: Text) {
    if t.versions == [] then t.latest == None
    else
      && t.latest == Some(|t.versions| - 1)
      && Mirrors(t.versions[|t.versions| - 1].rows, t.segments)
  }

  ghost predicate TextInv(t: Text) {
    RowsFollowCorrections(t.segments, t.corrections) && ContentStripped(t.segments)
    && Numbered(t.versions) && LatestIsLive(t)
  }

  /** What no step undoes: versions and corrections are only added, and a corrected row stays. */
  ghost predicate TextGrows(t: Text, t': Text) {
    && t.versions <= t'.versions
    && t.corrections <= t'.corrections
    && (forall p :: p in t.segments && t.segments[p].corrected ==> p in t'.segments && t'.segments[p].corrected)
  }

  lemma {:induction false} MaxOfNumbered(versions: seq<Version>)
    requires Numbered(versions)
    ensures MaxNumber(versions) == |versions|
  {
    if versions == [] {
    } else {
      MaxOfNumbered(versions[..|versions| - 1]);
    }
  }

  /** One version more, of this origin, that holds the rows as they are afterwards. */
  ghost predicate AddsVersion(t: Text, t': Text, source: Source) {
    && |t'.versions| == |t.versions| + 1 && t.versions <= t'.versions
    && var version := t'.versions[|t.versions|];
    && version.source == source && version.number == |t.versions| + 1
    && Mirrors(version.rows, t'.segments) && t'.latest == Some(|t.versions|)
  }

  lemma {:induction false} SnapshotKeeps(t: Text, source: Source)
    requires RowsFollowCorrections(t.segments, t.corrections) && ContentStripped(t.segments) && Numbered(t.versions)
    ensures TextInv(Snapshot(t, source))
    ensures AddsVersion(t, Snapshot(t, source), source)
    ensures Snapshot(t, source).segments == t.segments && Snapshot(t, source).corrections == t.corrections
    ensures Snapshot(t, source).manuallyCorrected == t.manuallyCorrected
  {
    SnapshotAdds(t, source);
    SnapshotInv(t, source);
  }

  lemma {:induction false} SnapshotAdds(t: Text, source: Source)
    requires Numbered(t.versions)
    ensures AddsVersion(t, Snapshot(t, source), source)
  {
    MaxOfNumbered(t.versions);
  }

  lemma {:induction false} SnapshotInv(t: Text, source: Source)
    requires RowsFollowCorrections(t.segments, t.corrections) && ContentStripped(t.segments) && Numbered(t.versions)
    ensures TextInv(Snapshot(t, source))
  {
    MaxOfNumbered(t.versions);
  }

  lemma {:induction false} CorrectionAdded(corrections: seq<Correction>, c: Correction, p: nat)
    ensures LastCorrection(corrections + [c], p) == if p == c.position then Some(c) else LastCorrection(corrections, p)
  {
    assert (corrections + [c])[..|corrections|] == corrections;
  }

  lemma {:induction false} RowCorrected(rows: Rows, corrections: seq<Correction>, p: nat, row: Segment)
    requires RowsFollowCorrections(rows, corrections) && p in rows && row.corrected
    ensures RowsFollowCorrections(rows[p := row], corrections + [Correction(p, row.content, row.role)])
  {
    var c := Correction(p, row.content, row.role);
    forall q: nat ensures LastCorrection(corrections + [c], q) == if q == p then Some(c)
        else LastCorrection(corrections, q) {
      CorrectionAdded(corrections, c, q);
    }
  }

  lemma {:induction false} EditKeeps(t: Text, p: nat, content: string, role: SpeakerRole, normalize: string -> string)
    requires TextInv(t) && p in t.segments
    ensures var t' := EditSegment(t, p, content, role, normalize).value;
            TextInv(t') && TextGrows(t, t') && AddsVersion(t, t', HumanCorrection)
    ensures var rows' := EditSegment(t, p, content, role, normalize).value.segments;
            && p in rows' && rows'[p].corrected && rows'[p].content == Strip(content)
               && rows'[p].role == Canonical(role)
            && (forall q :: q in rows' <==> q in t.segments)
            && (forall q :: q in rows' && q != p ==> rows'[q] == t.segments[q])
  {
    var text := Strip(content);
    StripIdempotent(content);
    var row := t.segments[p].(content := text, normalizedText := normalize(text), role := Canonical(role),
                              corrected := true);
    RowCorrected(t.segments, t.corrections, p, row);
    SnapshotKeeps(t.(segments := t.segments[p := row],
                     corrections := t.corrections + [Correction(p, text, Canonical(role))],
                     manuallyCorrected := true), HumanCorrection);
  }

  /** What an edit writes: content, normalised text and role of the row, a correction, and a version;
      it is refused exactly when there is no such row. */
  lemma {:induction false} EditExactly(
      t: Text, p: nat, content: string, role: SpeakerRole, normalize: string -> string)
    requires TextInv(t)
    ensures EditSegment(t, p, content, role, normalize) == None <==> p !in t.segments
    ensures p in t.segments ==>
              var t' := EditSegment(t, p, content, role, normalize).value;
              var stored := if role == SellerRole then AgentRole else role;
              && p in t'.segments && EditedTo(t.segments[p], t'.segments[p], Strip(content), stored, normalize)
              && t'.corrections == t.corrections + [Correction(p, Strip(content), stored)]
              && t'.manuallyCorrected && AddsVersion(t, t', HumanCorrection)
  {
    if p in t.segments {
      EditKeeps(t, p, content, role, normalize);
    }
  }

  /** The times, the speaker and the confidence of the role are left alone. */
  ghost predicate EditedTo(
      s: Segment, s': Segment, content: string, role: SpeakerRole, normalize: string -> string)
  {
    && s'.content == content && s'.normalizedText == normalize(content) && s'.role == role && s'.corrected
    && s'.start == s.start && s'.end == s.end && s'.roleConfidence == s.roleConfidence
    && s'.speakerLabel == s.speakerLabel && s'.speakerId == s.speakerId
  }

  ghost predicate BeforeSnapshot(t: Text, t': Text) {
    && RowsFollowCorrections(t'.segments, t'.corrections) && ContentStripped(t'.segments)
    && t'.versions == t.versions && t.corrections <= t'.corrections
    && (forall p :: p in t.segments && t.segments[p].corrected ==> p in t'.segments && t'.segments[p].corrected)
  }

  lemma {:induction false} AssignListedKeeps(
      t: Text, assignments: map<string, SpeakerRole>, order: seq<nat>, count: nat)
    requires BeforeSnapshot(t, t)
    requires count <= |order| && forall k :: 0 <= k < |order| ==> order[k] in t.segments
    ensures BeforeSnapshot(t, AssignListed(t, assignments, order, count))
  {
    if count == 0 {
    } else {
      AssignListedKeeps(t, assignments, order, count - 1);
      AssignRowKeeps(t, AssignListed(t, assignments, order, count - 1), assignments, order[count - 1]);
    }
  }

  lemma {:induction false} AssignRowKeeps(t: Text, b: Text, assignments: map<string, SpeakerRole>, p: nat)
    requires BeforeSnapshot(t, b) && p in b.segments
    ensures BeforeSnapshot(t, AssignRow(b, assignments, p))
  {
    var s := b.segments[p];
    if Identity(s) in assignments && Canonical(assignments[Identity(s)]) != s.role {
      var row := s.(role := Canonical(assignments[Identity(s)]), roleConfidence := Some(1.0), corrected := true);
      RowCorrected(b.segments, b.corrections, p, row);
    }
  }

  /** The role edit at one row, on its own. */
  predicate Reassigns(s: Segment, assignments: map<string, SpeakerRole>) {
    var speaker := if s.speakerId == "" then s.speakerLabel else s.speakerId;
    speaker in assignments && RoleFor(assignments, speaker) != s.role
  }

  /** A seller is stored as an agent. */
  function RoleFor(assignments: map<string, SpeakerRole>, speaker: string): SpeakerRole
    requires speaker in assignments
  {
    if assignments[speaker] == SellerRole then AgentRole else assignments[speaker]
  }

  function Reassigned(s: Segment, assignments: map<string, SpeakerRole>): Segment {
    if !Reassigns(s, assignments) then s
    else
      var speaker := if s.speakerId == "" then s.speakerLabel else s.speakerId;
      s.(role := RoleFor(assignments, speaker), roleConfidence := Some(1.0), corrected := true)
  }

  predicate ListedBefore(order: seq<nat>, count: nat, p: nat)
    requires count <= |order|
  {
    exists k | 0 <= k < count :: order[k] == p
  }

  lemma {:induction false} AssignListedRow(
      t: Text, assignments: map<string, SpeakerRole>, order: seq<nat>, count: nat, p: nat)
    requires count <= |order| && (forall k :: 0 <= k < |order| ==> order[k] in t.segments) && p in t.segments
    ensures AssignListed(t, assignments, order, count).segments[p] ==
            if ListedBefore(order, count, p) then Reassigned(t.segments[p], assignments) else t.segments[p]
  {
    if count == 0 {
    } else {
      AssignListedRow(t, assignments, order, count - 1, p);
      if order[count - 1] == p {
        ReassignedTwice(t.segments[p], assignments);
        assert ListedBefore(order, count, p);
      } else {
        assert ListedBefore(order, count, p) <==> ListedBefore(order, count - 1, p);
      }
    }
  }

  lemma {:induction false} ReassignedTwice(s: Segment, assignments: map<string, SpeakerRole>)
    ensures Reassigned(Reassigned(s, assignments), assignments) == Reassigned(s, assignments)
  {
  }

  lemma {:induction false} AssignListedCorrections(
      t: Text, assignments: map<string, SpeakerRole>, order: seq<nat>, count: nat)
    requires count <= |order| && (forall k :: 0 <= k < |order| ==> order[k] in t.segments)
    ensures |AssignListed(t, assignments, order, count).corrections| == |t.corrections|
            <==> forall k :: 0 <= k < count ==> !Reassigns(t.segments[order[k]], assignments)
  {
    if count == 0 {
    } else {
      AssignListedCorrections(t, assignments, order, count - 1);
      AssignListedRow(t, assignments, order, count - 1, order[count - 1]);
      if forall k :: 0 <= k < count - 1 ==> !Reassigns(t.segments[order[k]], assignments) {
        assert Reassigned(t.segments[order[count - 1]], assignments) == t.segments[order[count - 1]]
            || !ListedBefore(order, count - 1, order[count - 1]);
      }
    }
  }

  /** A role edit changes exactly the rows whose speaker is given another role, in these columns,
      and is refused exactly when there is none. */
  lemma {:induction false} AssignedExactly(t: Text, assignments: map<string, SpeakerRole>)
    ensures AssignRoles(t, assignments).None?
            <==> forall p :: p in t.segments ==> !Reassigns(t.segments[p], assignments)
    ensures AssignRoles(t, assignments).Some? ==>
              var rows' := AssignRoles(t, assignments).value.segments;
              && (forall p :: p in rows' <==> p in t.segments)
              && (forall p :: p in rows' ==> rows'[p] == Reassigned(t.segments[p], assignments))
  {
    var order := Ascending(t.segments.Keys);
    assert forall k :: 0 <= k < |order| ==> order[k] in order;
    AssignListedCorrections(t, assignments, order, |order|);
    forall p | p in t.segments
      ensures AssignedRows(t, assignments).segments[p] == Reassigned(t.segments[p], assignments)
      ensures exists k :: 0 <= k < |order| && order[k] == p
    {
      AssignListedRow(t, assignments, order, |order|, p);
      assert p in order;
    }
  }

  lemma {:induction false} AssignRolesKeeps(t: Text, assignments: map<string, SpeakerRole>)
    requires TextInv(t) && AssignRoles(t, assignments).Some?
    ensures var t' := AssignRoles(t, assignments).value;
            TextInv(t') && TextGrows(t, t') && AddsVersion(t, t', HumanCorrection) && t'.manuallyCorrected
  {
    var order := Ascending(t.segments.Keys);
    assert forall k :: 0 <= k < |order| ==> order[k] in order;
    AssignListedKeeps(t, assignments, order, |order|);
    SnapshotKeeps(AssignedRows(t, assignments).(manuallyCorrected := true), HumanCorrection);
  }

  /** A worker pass, whatever the provider returned, keeps every human correction. */
  lemma {:induction false} WorkerWriteKeeps(t: Text, items: seq<Item>, source: Source, normalize: string -> string)
    requires TextInv(t)
    ensures var t' := WorkerWrite(t, items, source, normalize);
            && TextInv(t') && TextGrows(t, t') && t'.corrections == t.corrections && AddsVersion(t, t', source)
            && t'.manuallyCorrected == t.manuallyCorrected
  {
    UpsertedKeeps(t, items, normalize);
    SnapshotKeeps(t.(segments := Upserted(t.segments, items, normalize)), source);
  }

  lemma {:induction false} UpsertedKeeps(t: Text, items: seq<Item>, normalize: string -> string)
    requires TextInv(t)
    ensures var rows := Upserted(t.segments, items, normalize);
            RowsFollowCorrections(rows, t.corrections) && ContentStripped(rows)
  {
    var rows := Upserted(t.segments, items, normalize);
    forall p | p in rows ensures Strip(rows[p].content) == rows[p].content {
      if p in Positions(items) { StripIdempotent(ItemAt(items, p).text); }
    }
  }

  /** The columns that every item overwrites, on a corrected row too. */
  ghost predicate TakesOver(row: Segment, item: Item, normalize: string -> string) {
    && row.speakerLabel == row.speakerId == item.speaker
    && row.start == item.start && row.end == item.end && row.roleConfidence == item.roleConfidence
    && row.normalizedText == (if item.normalizedText != "" then item.normalizedText else normalize(item.text))
  }

  /** One row of `rows'`, by the row it replaces and the item at its position. */
  ghost predicate RowMirrors(rows: Rows, rows': Rows, items: seq<Item>, p: nat, normalize: string -> string) {
    if p in rows && rows[p].corrected then
      && p in rows' && rows'[p].corrected && rows'[p].content == rows[p].content && rows'[p].role == rows[p].role
      && (if p in Positions(items) then TakesOver(rows'[p], ItemAt(items, p), normalize) else rows'[p] == rows[p])
    else
      && (p in rows' <==> p in Positions(items))
      && (p in rows' ==>
            var item := ItemAt(items, p);
            !rows'[p].corrected && rows'[p].content == Strip(item.text) && rows'[p].role == item.role
                && TakesOver(rows'[p], item, normalize))
  }

  /** Row by row: a corrected row keeps its content and its role, an uncorrected one exists
      exactly where an item does and mirrors it; all other columns follow the item on both. */
  lemma {:induction false} WorkerWriteMirrors(
      t: Text, items: seq<Item>, source: Source, normalize: string -> string, p: nat)
    requires TextInv(t)
    ensures RowMirrors(t.segments, WorkerWrite(t, items, source, normalize).segments, items, p, normalize)
  {
  }

  /** Of several items for a position the last one counts. */
  lemma {:induction false} LastItemCounts(items: seq<Item>, k: nat)
    requires k < |items| && forall j :: k < j < |items| ==> items[j].position != items[k].position
    ensures items[k].position in Positions(items) && ItemAt(items, items[k].position) == items[k]
  {
    if k < |items| - 1 {
      var init := items[..|items| - 1];
      assert init[k] == items[k];
      LastItemCounts(init, k);
    }
  }

  lemma {:induction false} ItemAtIndex(items: seq<Item>, k: nat)
    requires k < |items|
    requires forall i, j :: 0 <= i < j < |items| ==> items[i].position != items[j].position
    ensures items[k].position in Positions(items) && ItemAt(items, items[k].position) == items[k]
  {
    if k < |items| - 1 {
      var init := items[..|items| - 1];
      assert init[k] == items[k];
      ItemAtIndex(init, k);
    }
  }

  lemma {:induction false} AscendingDistinct(s: set<nat>)
    ensures forall i, j :: 0 <= i < j < |Ascending(s)| ==> Ascending(s)[i] < Ascending(s)[j]
    decreases |s|
  {
    if s == {} {
    } else {
      AscendingDistinct(s - {Least(s)});
      var rest := Ascending(s - {Least(s)});
      forall k | 0 <= k < |rest| ensures Least(s) < rest[k] {
        assert rest[k] in rest;
      }
    }
  }

  lemma {:induction false} StoredItemsCover(rows: Rows, p: nat)
    ensures p in Positions(StoredItems(rows)) <==> p in rows
    ensures p in rows ==> ItemAt(StoredItems(rows), p) == StoredItem(rows, p)
  {
    var items, order := StoredItems(rows), Ascending(rows.Keys);
    AscendingDistinct(rows.Keys);
    assert forall k :: 0 <= k < |order| ==> order[k] in order;
    if p in rows {
      assert p in order;
      var k :| 0 <= k < |order| && order[k] == p;
      ItemAtIndex(items, k);
    }
  }

  lemma {:induction false} StoredItemsFit(rows: Rows)
    ensures !Clashes(rows, StoredItems(rows))
  {
    var items, order := StoredItems(rows), Ascending(rows.Keys);
    assert forall k :: 0 <= k < |order| ==> order[k] in order;
  }

  /** The identifier becomes the label, and the confidence of the role is forgotten. */
  predicate KeepsRow(row: Segment, row': Segment) {
    && row'.content == row.content && row'.role == row.role && row'.corrected == row.corrected
    && row'.start == row.start && row'.end == row.end && row'.speakerLabel == row.speakerLabel
    && (row.normalizedText != "" ==> row'.normalizedText == row.normalizedText)
    && row'.speakerId == row.speakerLabel && row'.roleConfidence == None
  }

  /** A reanalysis writes back what it read: the same rows, with the same content, role, times
      and correction marks. */
  lemma {:induction false} ReanalysisKeepsText(t: Text, normalize: string -> string)
    requires TextInv(t)
    ensures var rows' := WorkerWrite(t, StoredItems(t.segments), FromReanalysis, normalize).segments;
            && (forall p :: p in rows' <==> p in t.segments)
            && (forall p :: p in rows' ==> KeepsRow(t.segments[p], rows'[p]))
  {
    var rows' := WorkerWrite(t, StoredItems(t.segments), FromReanalysis, normalize).segments;
    forall p ensures p in rows' <==> p in t.segments {
      StoredItemsCover(t.segments, p);
    }
    forall p | p in rows' ensures KeepsRow(t.segments[p], rows'[p]) {
      StoredItemsCover(t.segments, p);
    }
  }
}

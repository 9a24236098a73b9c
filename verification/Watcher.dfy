/** The recording watchers: how long a file must stay unchanged before it is read, and how its
    content and path are imported at most once (backend/app/services/watcher.py). Times are in
    microseconds, the resolution of the stored ones. */
module Watcher {
  import opened Wrappers

  datatype ImportStatus = WaitingForFile | Discovered | Imported | Quarantined

  datatype SourceImport = SourceImport(
    observedSize: int, observedMtime: int, stableSince: Option<int>, status: ImportStatus,
    detectedAt: int, sha256: Option<string>, call: Option<nat>)

  datatype ImportedCall = ImportedCall(externalId: string, sourcePath: string, sourceHash: string)

  datatype Observation = Observation(size: int, mtime: int, at: int)

  datatype Answer = Answer(stable: bool, detectedAt: int)

  const MICROSECONDS := 1_000_000

  predicate Processed(row: SourceImport) {
    row.status in {Imported, Quarantined}
  }

  predicate Same(a: Observation, b: Observation) {
    a.size == b.size && a.mtime == b.mtime
  }

  // ---------- observe_source ----------

  /** The row after one observation, and what the observer is told. */
  function Observed(row: Option<SourceImport>, o: Observation, window: int): (SourceImport, Answer) {
    match row
    case None =>
      (SourceImport(o.size, o.mtime, Some(o.at), WaitingForFile, o.at, None, None), Answer(false, o.at))
    case Some(r) =>
      if Processed(r) then (r, Answer(true, r.detectedAt))
      else if r.observedSize != o.size || r.observedMtime != o.mtime then
        (r.(observedSize := o.size, observedMtime := o.mtime, stableSince := Some(o.at), status := WaitingForFile),
         Answer(false, r.detectedAt))
      else
        var since := if r.stableSince.Some? then r.stableSince.value else o.at;
        var stable := o.at - since >= window * MICROSECONDS;
        (r.(status := if stable then Discovered else WaitingForFile), Answer(stable, r.detectedAt))
  }

  /** The first observation of the last stretch that saw the same size and time. */
  function QuietSince(h: seq<Observation>): (j: nat)
    requires h != []
    ensures j < |h|
  {
    var n := |h| - 1;
    if n == 0 || !Same(h[n - 1], h[n]) then n else QuietSince(h[..n])
  }

  /** What the row of an unprocessed path says about the observations made of it. */
  ghost predicate Follows(row: SourceImport, h: seq<Observation>) {
    && h != [] && !Processed(row) && row.sha256.None? && row.call.None?
    && row.observedSize == h[|h| - 1].size && row.observedMtime == h[|h| - 1].mtime
    && row.stableSince == Some(h[QuietSince(h)].at)
    && row.detectedAt == h[0].at
  }

  /** Observed before without a change for the whole window: from some observation on, which
      follows a different one or none, everything was the same, and it is old enough. */
  ghost predicate QuietLongEnough(h: seq<Observation>, o: Observation, window: int) {
    exists j | 0 <= j < |h| :: WindowFrom(h, o, j, window)
  }

  ghost predicate WindowFrom(h: seq<Observation>, o: Observation, j: nat, window: int)
    requires j < |h|
  {
    QuietFrom(h, o, j) && (j == 0 || !Same(h[j - 1], o)) && o.at - h[j].at >= window * 1_000_000
  }

  ghost predicate QuietFrom(h: seq<Observation>, o: Observation, j: nat) {
    forall k :: j <= k < |h| ==> h[k].size == o.size && h[k].mtime == o.mtime
  }

  lemma {:induction false} QuietSinceMeaning(h: seq<Observation>)
    requires h != []
    ensures QuietFrom(h, h[|h| - 1], QuietSince(h))
    ensures QuietSince(h) > 0 ==> !Same(h[QuietSince(h) - 1], h[|h| - 1])
  {
    var n := |h| - 1;
    if n > 0 && Same(h[n - 1], h[n]) {
      QuietSinceMeaning(h[..n]);
    }
  }

  /** One observation more. */
  lemma {:induction false} ObservationFollows(row: SourceImport, h: seq<Observation>, o: Observation, window: int)
    requires Follows(row, h)
    ensures Follows(Observed(Some(row), o, window).0, h + [o])
  {
    assert (h + [o])[..|h|] == h;
  }

  lemma {:induction false} FirstFollows(o: Observation, window: int)
    ensures Follows(Observed(None, o, window).0, [o])
  {
  }

  lemma {:induction false} QuietLast(h: seq<Observation>, o: Observation, i: nat)
    requires i < |h| && QuietFrom(h, o, i)
    ensures Same(h[|h| - 1], o)
  {
  }

  lemma {:induction false} OneStart(h: seq<Observation>, o: Observation, i: nat, j: nat)
    requires i < |h| && QuietFrom(h, o, i) && (i == 0 || !Same(h[i - 1], o))
    requires j < |h| && QuietFrom(h, o, j) && (j == 0 || !Same(h[j - 1], o))
    ensures i == j
  {
  }

  /** The stability rule: a file not yet processed is called stable exactly when it was observed
      before and nothing changed for the whole window; and the time of detection is always the
      first observation's. */
  lemma {:induction false} StableExactly(row: SourceImport, h: seq<Observation>, o: Observation, window: int)
    requires Follows(row, h)
    ensures Observed(Some(row), o, window).1.stable <==> QuietLongEnough(h, o, window)
    ensures Observed(Some(row), o, window).1.detectedAt == h[0].at
  {
    var j := QuietSince(h);
    QuietSinceMeaning(h);
    if Same(h[|h| - 1], o) {
      assert WindowFrom(h, o, j, window) <==> o.at - h[j].at >= window * MICROSECONDS;
    }
    forall i | 0 <= i < |h| && WindowFrom(h, o, i, window) ensures i == j && Same(h[|h| - 1], o) {
      QuietLast(h, o, i);
      OneStart(h, o, i, j);
    }
  }

  // ---------- the tables ----------

  /** `seen` holds, for the statements only, the observations made of each path while it was not
      processed. */
  datatype Tables = Tables(
    rows: map<string, SourceImport>, calls: seq<ImportedCall>, seen: map<string, seq<Observation>>)

  const NO_FILES := Tables(map[], [], map[])

  /** What validating and importing a file run into. `Gone` already fails the observation, and
      `elsewhere` says that a call from another source has the same external id. */
  datatype Check = Gone | Crash | Invalid | Valid(externalId: string, elsewhere: bool)

  /** A file as a scan meets it; without a digest it could not be read. */
  datatype Sighting = Sighting(path: string, size: int, mtime: int, at: int, digest: Option<string>, check: Check)

  /** What one file adds to a scan: one counter, or an exception that ends it. */
  datatype Verdict = StillWaiting | Duplicate | ImportedNow | QuarantinedNow | Raised

  function RowAt(rows: map<string, SourceImport>, path: string): Option<SourceImport> {
    if path in rows then Some(rows[path]) else None
  }

  function HistoryAt(seen: map<string, seq<Observation>>, path: string): seq<Observation> {
    if path in seen then seen[path] else []
  }

  predicate IsProcessed(rows: map<string, SourceImport>, path: string) {
    path in rows && Processed(rows[path])
  }

  /** `is_duplicate`. */
  predicate IsDuplicate(rows: map<string, SourceImport>, path: string, digest: string) {
    IsProcessed(rows, path) || exists p | p in rows :: Processed(rows[p]) && rows[p].sha256 == Some(digest)
  }

  /** Another row has the hash: writing it breaks `uq_source_import_hash`. */
  predicate HashTaken(rows: map<string, SourceImport>, path: string, digest: string) {
    exists p | p in rows :: p != path && rows[p].sha256 == Some(digest)
  }

  /** A call has the external id: adding another one breaks `uq_call_external`. */
  predicate ExternalTaken(calls: seq<ImportedCall>, x: string) {
    exists k | 0 <= k < |calls| :: calls[k].externalId == x
  }

  function ObservationOf(f: Sighting): Observation {
    Observation(f.size, f.mtime, f.at)
  }

  function AfterObserving(t: Tables, f: Sighting, window: int): Tables {
    if IsProcessed(t.rows, f.path) then t
    else t.(rows := t.rows[f.path := Observed(RowAt(t.rows, f.path), ObservationOf(f), window).0],
            seen := t.seen[f.path := HistoryAt(t.seen, f.path) + [ObservationOf(f)]])
  }

  function AnswerFor(t: Tables, f: Sighting, window: int): Answer {
    Observed(RowAt(t.rows, f.path), ObservationOf(f), window).1
  }

  function BlankRow(f: Sighting): SourceImport {
    SourceImport(f.size, f.mtime, None, WaitingForFile, f.at, None, None)
  }

  /** The row an import or a quarantine updates, or the new one it adds. */
  function TargetRow(t: Tables, f: Sighting): SourceImport {
    if f.path in t.rows then t.rows[f.path] else BlankRow(f)
  }

  function QuarantinedRow(t: Tables, f: Sighting, digest: string): SourceImport {
    TargetRow(t, f).(observedSize := f.size, sha256 := Some(digest), status := Quarantined)
  }

  function ImportedRow(t: Tables, f: Sighting, digest: string): SourceImport {
    TargetRow(t, f).(call := Some(|t.calls|), observedSize := f.size, observedMtime := f.mtime, sha256 := Some(digest),
                     status := Imported)
  }

  /** Validation, then import or quarantine. A refused import is rolled back and counts as a
      duplicate; a refused quarantine raises. */
  function Settled(t: Tables, f: Sighting, digest: string): (Tables, Verdict) {
    match f.check
    case Gone => (t, Raised)
    case Crash => (t, Raised)
    case Invalid =>
      if HashTaken(t.rows, f.path, digest) then (t, Raised)
      else (t.(rows := t.rows[f.path := QuarantinedRow(t, f, digest)]), QuarantinedNow)
    case Valid(x, elsewhere) =>
      if elsewhere || ExternalTaken(t.calls, x) || HashTaken(t.rows, f.path, digest) then (t, Duplicate)
      else (t.(rows := t.rows[f.path := ImportedRow(t, f, digest)],
               calls := t.calls + [ImportedCall(x, f.path, digest)]), ImportedNow)
  }

  /** A file of the mounted folder. */
  function ProcessLocal(t: Tables, f: Sighting, window: int): (Tables, Verdict) {
    if f.check.Gone? then (t, Raised)
    else
      var t1 := AfterObserving(t, f, window);
      if !AnswerFor(t, f, window).stable then (t1, StillWaiting)
      else if f.digest.None? then (t1, Raised)
      else if IsDuplicate(t1.rows, f.path, f.digest.value) then (t1, Duplicate)
      else Settled(t1, f, f.digest.value)
  }

  /** `mark_duplicate`: the row takes the hash and becomes imported, with the call of the
      imported row that has the hash. The commit succeeds only if no other row has it. */
  function Marked(t: Tables, f: Sighting, digest: string): (Tables, Verdict) {
    if f.path !in t.rows then (t, Duplicate)
    else if HashTaken(t.rows, f.path, digest) then (t, Raised)
    else
      var row := t.rows[f.path];
      var call := if row.status == Imported && row.sha256 == Some(digest) then row.call else None;
      (t.(rows := t.rows[f.path := row.(sha256 := Some(digest), status := Imported, call := call)]), Duplicate)
  }

  /** A file of the remote server: a processed path is not even observed, and a known content is
      marked on the path's own row. */
  function ProcessRemote(t: Tables, f: Sighting, window: int): (Tables, Verdict) {
    if IsProcessed(t.rows, f.path) then (t, Duplicate)
    else
      var t1 := AfterObserving(t, f, window);
      if !AnswerFor(t, f, window).stable then (t1, StillWaiting)
      else if f.digest.None? then (t1, Raised)
      else if IsDuplicate(t1.rows, f.path, f.digest.value) then Marked(t1, f, f.digest.value)
      else Settled(t1, f, f.digest.value)
  }

  datatype Kind = Local | Remote

  function Process(kind: Kind, t: Tables, f: Sighting, window: int): (Tables, Verdict) {
    if kind == Local then ProcessLocal(t, f, window) else ProcessRemote(t, f, window)
  }

  // ---------- scans ----------

  predicate Stopped(verdicts: seq<Verdict>) {
    verdicts != [] && verdicts[|verdicts| - 1] == Raised
  }

  /** A scan over the first `count` files: the first exception ends it. */
  function Scanned(kind: Kind, t: Tables, files: seq<Sighting>, window: int, count: nat): (r: (Tables, seq<Verdict>))
    requires count <= |files|
    ensures |r.1| <= count && (!Stopped(r.1) ==> |r.1| == count)
    ensures forall i :: 0 <= i < |r.1| - 1 ==> r.1[i] != Raised
  {
    if count == 0 then (t, [])
    else
      var (b, verdicts) := Scanned(kind, t, files, window, count - 1);
      if Stopped(verdicts) then (b, verdicts)
      else
        var (t', v) := Process(kind, b, files[count - 1], window);
        (t', verdicts + [v])
  }

  datatype Scan = Scan(kind: Kind, files: seq<Sighting>, window: int)

  function AfterScan(t: Tables, scan: Scan): (Tables, seq<Verdict>) {
    Scanned(scan.kind, t, scan.files, scan.window, |scan.files|)
  }

  /** The tables after any scans, of both kinds. */
  function AfterScans(t: Tables, scans: seq<Scan>): Tables {
    if scans == [] then t else AfterScan(AfterScans(t, scans[..|scans| - 1]), scans[|scans| - 1]).0
  }

  // ---------- the invariant ----------

  /** A row has a hash once it is processed, and a call once it is imported: the call made of it. */
  ghost predicate RowInv(row: SourceImport, path: string, calls: seq<ImportedCall>, h: seq<Observation>) {
    if Processed(row) then
      && row.sha256.Some?
      && (row.status == Imported <==> row.call.Some?)
      && (row.call.Some? ==>
            && row.call.value < |calls| && calls[row.call.value].sourcePath == path
            && calls[row.call.value].sourceHash == row.sha256.value)
      && h != [] && row.detectedAt == h[0].at
    else Follows(row, h)
  }

  ghost predicate RowsInv(t: Tables) {
    && (forall p :: p in t.rows ==> RowInv(t.rows[p], p, t.calls, HistoryAt(t.seen, p)))
    && (forall p :: p in t.seen ==> p in t.rows)
  }

  ghost predicate HashesDistinct(rows: map<string, SourceImport>) {
    forall p, q :: p in rows && q in rows && p != q && rows[p].sha256.Some? ==> rows[p].sha256 != rows[q].sha256
  }

  ghost predicate CallOfRow(rows: map<string, SourceImport>, calls: seq<ImportedCall>, k: nat)
    requires k < |calls|
  {
    var p := calls[k].sourcePath;
    p in rows && rows[p].status == Imported && rows[p].call == Some(k)
  }

  ghost predicate CallsInv(t: Tables) {
    && (forall k :: 0 <= k < |t.calls| ==> CallOfRow(t.rows, t.calls, k))
    && (forall i, j :: 0 <= i < j < |t.calls| ==> t.calls[i].externalId != t.calls[j].externalId)
  }

  ghost predicate Inv(t: Tables) {
    RowsInv(t) && HashesDistinct(t.rows) && CallsInv(t)
  }

  /** What no scan undoes: a processed row, and a call. */
  ghost predicate Grows(t: Tables, t': Tables) {
    && t.calls <= t'.calls
    && (forall p :: p in t.rows ==> p in t'.rows)
    && (forall p :: p in t.rows && Processed(t.rows[p]) ==> t'.rows[p] == t.rows[p])
  }

  lemma {:induction false} ObservingKeeps(t: Tables, f: Sighting, window: int)
    requires Inv(t)
    ensures Inv(AfterObserving(t, f, window)) && Grows(t, AfterObserving(t, f, window))
    ensures f.path in AfterObserving(t, f, window).rows
  {
    var t' := AfterObserving(t, f, window);
    if !IsProcessed(t.rows, f.path) {
      RowObserved(t, f, window);
      assert RowsInv(t');
      forall k | 0 <= k < |t'.calls| ensures CallOfRow(t'.rows, t'.calls, k) {
        assert CallOfRow(t.rows, t.calls, k);
      }
    }
  }

  lemma {:induction false} RowObserved(t: Tables, f: Sighting, window: int)
    requires RowsInv(t) && !IsProcessed(t.rows, f.path)
    ensures var t' := AfterObserving(t, f, window);
            f.path in t'.rows && Follows(t'.rows[f.path], HistoryAt(t'.seen, f.path))
  {
    var o := ObservationOf(f);
    if f.path in t.rows {
      assert RowInv(t.rows[f.path], f.path, t.calls, HistoryAt(t.seen, f.path));
      ObservationFollows(t.rows[f.path], HistoryAt(t.seen, f.path), o, window);
    } else {
      FirstFollows(o, window);
    }
  }

  /** Without a processed row of the path or the content, no row has the hash. */
  lemma {:induction false} FreshHashIsFree(t: Tables, path: string, digest: string)
    requires Inv(t) && !IsDuplicate(t.rows, path, digest)
    ensures !HashTaken(t.rows, path, digest)
  {
    forall p | p in t.rows && p != path ensures t.rows[p].sha256 != Some(digest) {
      assert RowInv(t.rows[p], p, t.calls, HistoryAt(t.seen, p));
    }
  }

  lemma {:induction false} OtherRowsInv(t: Tables, path: string, added: seq<ImportedCall>)
    requires RowsInv(t)
    ensures forall p :: p in t.rows && p != path ==> RowInv(t.rows[p], p, t.calls + added, HistoryAt(t.seen, p))
  {
    forall p | p in t.rows && p != path ensures RowInv(t.rows[p], p, t.calls + added, HistoryAt(t.seen, p)) {
      assert RowInv(t.rows[p], p, t.calls, HistoryAt(t.seen, p));
    }
  }

  lemma {:induction false} QuarantineKeeps(t: Tables, f: Sighting, digest: string)
    requires Inv(t) && f.path in t.rows && !Processed(t.rows[f.path]) && !HashTaken(t.rows, f.path, digest)
    ensures var t' := t.(rows := t.rows[f.path := QuarantinedRow(t, f, digest)]);
            Inv(t') && Grows(t, t')
  {
    var t' := t.(rows := t.rows[f.path := QuarantinedRow(t, f, digest)]);
    assert RowInv(t.rows[f.path], f.path, t.calls, HistoryAt(t.seen, f.path));
    OtherRowsInv(t, f.path, []);
    assert t.calls + [] == t.calls;
    forall k | 0 <= k < |t'.calls| ensures CallOfRow(t'.rows, t'.calls, k) {
      assert CallOfRow(t.rows, t.calls, k);
    }
  }

  lemma {:induction false} ImportKeeps(t: Tables, f: Sighting, digest: string, x: string)
    requires Inv(t) && f.path in t.rows && !Processed(t.rows[f.path]) && !HashTaken(t.rows, f.path, digest)
    requires !ExternalTaken(t.calls, x)
    ensures var t' := t.(rows := t.rows[f.path := ImportedRow(t, f, digest)],
                         calls := t.calls + [ImportedCall(x, f.path, digest)]);
            Inv(t') && Grows(t, t')
  {
    var t' := t.(rows := t.rows[f.path := ImportedRow(t, f, digest)],
                 calls := t.calls + [ImportedCall(x, f.path, digest)]);
    assert t'.calls[|t.calls|] == ImportedCall(x, f.path, digest);
    assert RowInv(t.rows[f.path], f.path, t.calls, HistoryAt(t.seen, f.path));
    OtherRowsInv(t, f.path, [ImportedCall(x, f.path, digest)]);
    forall k | 0 <= k < |t'.calls| ensures CallOfRow(t'.rows, t'.calls, k) {
      if k < |t.calls| {
        assert CallOfRow(t.rows, t.calls, k);
      }
    }
  }

  lemma {:induction false} SettledKeeps(t: Tables, f: Sighting, digest: string)
    requires Inv(t) && f.path in t.rows && !IsDuplicate(t.rows, f.path, digest)
    ensures Inv(Settled(t, f, digest).0) && Grows(t, Settled(t, f, digest).0)
  {
    FreshHashIsFree(t, f.path, digest);
    if f.check.Invalid? {
      QuarantineKeeps(t, f, digest);
    } else if f.check.Valid? && !f.check.elsewhere && !ExternalTaken(t.calls, f.check.externalId) {
      ImportKeeps(t, f, digest, f.check.externalId);
    }
  }

  /** A content that another file already brought in can never be marked on a path of its own:
      the other row has the hash, so the commit is refused. */
  lemma {:induction false} MarkNeverCommits(t: Tables, f: Sighting, digest: string)
    requires Inv(t) && f.path in t.rows && !IsProcessed(t.rows, f.path) && IsDuplicate(t.rows, f.path, digest)
    ensures Marked(t, f, digest) == (t, Raised)
  {
    var p :| p in t.rows && Processed(t.rows[p]) && t.rows[p].sha256 == Some(digest);
    assert p != f.path;
  }

  /** Where the commit succeeds the row becomes an imported one with the hash; it has a call only if it
      was imported with that hash before. */
  lemma {:induction false} MarkedExactly(t: Tables, f: Sighting, digest: string)
    ensures var (t', v) := Marked(t, f, digest);
            && (v == Raised <==> f.path in t.rows && exists p :: p in t.rows && p != f.path
                                                                 && t.rows[p].sha256 == Some(digest))
            && (v != Raised ==> v == Duplicate) && (v == Raised || f.path !in t.rows ==> t' == t)
            && (v == Duplicate && f.path in t.rows ==>
                  && t' == t.(rows := t'.rows) && t'.rows.Keys == t.rows.Keys
                  && (forall p :: p in t.rows && p != f.path ==> t'.rows[p] == t.rows[p])
                  && MarkedRow(t.rows[f.path], t'.rows[f.path], digest))
  {
  }

  ghost predicate MarkedRow(row: SourceImport, row': SourceImport, digest: string) {
    && row' == row.(sha256 := Some(digest), status := Imported, call := row'.call)
    && (row.status == Imported && row.sha256 == Some(digest) ==> row'.call == row.call)
    && (row.status != Imported || row.sha256 != Some(digest) ==> row'.call == None)
  }

  lemma {:induction false} GrowsTransitive(a: Tables, b: Tables, c: Tables)
    requires Grows(a, b) && Grows(b, c)
    ensures Grows(a, c)
  {
  }

  lemma {:induction false} SettledAfterObserving(t: Tables, f: Sighting, window: int, digest: string)
    requires Inv(t) && !IsDuplicate(AfterObserving(t, f, window).rows, f.path, digest)
    ensures var t' := Settled(AfterObserving(t, f, window), f, digest).0; Inv(t') && Grows(t, t')
  {
    var t1 := AfterObserving(t, f, window);
    ObservingKeeps(t, f, window);
    SettledKeeps(t1, f, digest);
    GrowsTransitive(t, t1, Settled(t1, f, digest).0);
  }

  lemma {:induction false} LocalKeeps(t: Tables, f: Sighting, window: int)
    requires Inv(t)
    ensures Inv(ProcessLocal(t, f, window).0) && Grows(t, ProcessLocal(t, f, window).0)
  {
    var t1, t' := AfterObserving(t, f, window), ProcessLocal(t, f, window).0;
    if f.digest.Some? && !IsDuplicate(t1.rows, f.path, f.digest.value) {
      SettledAfterObserving(t, f, window, f.digest.value);
    }
    ObservingKeeps(t, f, window);
  }

  lemma {:induction false} RemoteKeeps(t: Tables, f: Sighting, window: int)
    requires Inv(t)
    ensures Inv(ProcessRemote(t, f, window).0) && Grows(t, ProcessRemote(t, f, window).0)
  {
    var t1 := AfterObserving(t, f, window);
    ObservingKeeps(t, f, window);
    if f.digest.Some? && !IsProcessed(t.rows, f.path) {
      if IsDuplicate(t1.rows, f.path, f.digest.value) {
        MarkNeverCommits(t1, f, f.digest.value);
      } else {
        SettledAfterObserving(t, f, window, f.digest.value);
      }
    }
  }

  lemma {:induction false} ProcessKeeps(kind: Kind, t: Tables, f: Sighting, window: int)
    requires Inv(t)
    ensures Inv(Process(kind, t, f, window).0) && Grows(t, Process(kind, t, f, window).0)
  {
    match kind
    case Local => LocalKeeps(t, f, window);
    case Remote => RemoteKeeps(t, f, window);
  }

  lemma {:induction false} ScannedKeeps(kind: Kind, t: Tables, files: seq<Sighting>, window: int, count: nat)
    requires Inv(t) && count <= |files|
    ensures Inv(Scanned(kind, t, files, window, count).0) && Grows(t, Scanned(kind, t, files, window, count).0)
  {
    if count == 0 {
    } else {
      ScannedKeeps(kind, t, files, window, count - 1);
      var (b, verdicts) := Scanned(kind, t, files, window, count - 1);
      if !Stopped(verdicts) {
        ProcessKeeps(kind, b, files[count - 1], window);
        GrowsTransitive(t, b, Process(kind, b, files[count - 1], window).0);
      }
    }
  }

  lemma {:induction false} ScansKeep(t: Tables, scans: seq<Scan>)
    requires Inv(t)
    ensures Inv(AfterScans(t, scans)) && Grows(t, AfterScans(t, scans))
  {
    if scans == [] {
    } else {
      var b := AfterScans(t, scans[..|scans| - 1]);
      ScansKeep(t, scans[..|scans| - 1]);
      var last := scans[|scans| - 1];
      ScannedKeeps(last.kind, b, last.files, last.window, |last.files|);
      GrowsTransitive(t, b, AfterScans(t, scans));
    }
  }

  // ---------- over any scans of either kind, from empty tables ----------

  ghost function Reach(scans: seq<Scan>): Tables {
    AfterScans(NO_FILES, scans)
  }

  lemma {:induction false} ReachInv(scans: seq<Scan>)
    ensures Inv(Reach(scans))
  {
    assert Inv(NO_FILES);
    ScansKeep(NO_FILES, scans);
  }

  /** At most one call per path and per content, and each with the row it came from. */
  lemma {:induction false} ImportedOnce(scans: seq<Scan>, i: nat, j: nat)
    requires i < j < |Reach(scans).calls|
    ensures var calls := Reach(scans).calls;
            calls[i].sourcePath != calls[j].sourcePath && calls[i].sourceHash != calls[j].sourceHash
                && calls[i].externalId != calls[j].externalId
  {
    ReachInv(scans);
    var t := Reach(scans);
    assert CallOfRow(t.rows, t.calls, i) && CallOfRow(t.rows, t.calls, j);
    var p, q := t.calls[i].sourcePath, t.calls[j].sourcePath;
    assert RowInv(t.rows[p], p, t.calls, HistoryAt(t.seen, p));
    assert RowInv(t.rows[q], q, t.calls, HistoryAt(t.seen, q));
  }

  /** A processed row is never touched again, its status included. */
  lemma {:induction false} ProcessedForever(before: seq<Scan>, more: seq<Scan>, p: string)
    requires IsProcessed(Reach(before).rows, p)
    ensures IsProcessed(AfterScans(Reach(before), more).rows, p)
    ensures AfterScans(Reach(before), more).rows[p] == Reach(before).rows[p]
  {
    ReachInv(before);
    ScansKeep(Reach(before), more);
  }

  /** The stability rule over any scans: what an observer of an unprocessed path is told. */
  lemma {:induction false} StableAfterAnyScans(scans: seq<Scan>, f: Sighting, window: int)
    requires !IsProcessed(Reach(scans).rows, f.path)
    ensures var h := HistoryAt(Reach(scans).seen, f.path);
            var answer := AnswerFor(Reach(scans), f, window);
            && (answer.stable <==> QuietLongEnough(h, ObservationOf(f), window))
            && answer.detectedAt == (if h == [] then f.at else h[0].at)
  {
    ReachInv(scans);
    var t := Reach(scans);
    if f.path in t.rows {
      assert RowInv(t.rows[f.path], f.path, t.calls, HistoryAt(t.seen, f.path));
      StableExactly(t.rows[f.path], HistoryAt(t.seen, f.path), ObservationOf(f), window);
    }
  }

  /** Only a file that stayed unchanged for the window is imported or quarantined, with its own
      content, and the row keeps the time it was first seen. */
  lemma {:induction false} ImportedAfterTheWindow(scans: seq<Scan>, kind: Kind, f: Sighting, window: int)
    requires Process(kind, Reach(scans), f, window).1 in {ImportedNow, QuarantinedNow}
    ensures var t, h := Reach(scans), HistoryAt(Reach(scans).seen, f.path);
            var t' := Process(kind, t, f, window).0;
            && !IsProcessed(t.rows, f.path) && IsProcessed(t'.rows, f.path)
            && QuietLongEnough(h, ObservationOf(f), window)
            && t'.rows[f.path].sha256 == f.digest && t'.rows[f.path].detectedAt == h[0].at
  {
    ReachInv(scans);
    var t := Reach(scans);
    StableBecauseSettled(kind, t, f, window);
    StableAfterAnyScans(scans, f, window);
    DetectionKept(t, f, window);
  }

  lemma {:induction false} StableBecauseSettled(kind: Kind, t: Tables, f: Sighting, window: int)
    requires Process(kind, t, f, window).1 in {ImportedNow, QuarantinedNow}
    ensures !IsProcessed(t.rows, f.path) && AnswerFor(t, f, window).stable && f.digest.Some?
    ensures Process(kind, t, f, window) == Settled(AfterObserving(t, f, window), f, f.digest.value)
  {
  }

  lemma {:induction false} DetectionKept(t: Tables, f: Sighting, window: int)
    requires Inv(t) && !IsProcessed(t.rows, f.path) && AnswerFor(t, f, window).stable
    ensures f.path in AfterObserving(t, f, window).rows
    ensures AfterObserving(t, f, window).rows[f.path].detectedAt == AnswerFor(t, f, window).detectedAt
    ensures HistoryAt(t.seen, f.path) != []
  {
    assert f.path in t.rows;
    assert RowInv(t.rows[f.path], f.path, t.calls, HistoryAt(t.seen, f.path));
  }

  // ---------- what a verdict means ----------

  /** Processed before, or unchanged for the whole window. */
  ghost predicate Ready(t: Tables, f: Sighting, window: int) {
    IsProcessed(t.rows, f.path) || QuietLongEnough(HistoryAt(t.seen, f.path), ObservationOf(f), window)
  }

  /** Another row has the content. */
  ghost predicate ContentTaken(t: Tables, f: Sighting) {
    f.digest.Some? && HashTaken(t.rows, f.path, f.digest.value)
  }

  /** The import would break a constraint on calls. */
  ghost predicate NameTaken(t: Tables, f: Sighting) {
    f.check.Valid? && (f.check.elsewhere || ExternalTaken(t.calls, f.check.externalId))
  }

  lemma {:induction false} ReadyExactly(t: Tables, f: Sighting, window: int)
    requires Inv(t)
    ensures AnswerFor(t, f, window).stable <==> Ready(t, f, window)
  {
    if f.path in t.rows {
      assert RowInv(t.rows[f.path], f.path, t.calls, HistoryAt(t.seen, f.path));
      if !IsProcessed(t.rows, f.path) {
        StableExactly(t.rows[f.path], HistoryAt(t.seen, f.path), ObservationOf(f), window);
      }
    }
  }

  /** A file of the folder: one that is gone raises, and one that changed within the window waits.
      Of the others an unreadable one raises, what is known already is a duplicate, and everything
      else is imported, quarantined, refused or raises by its check. */
  lemma {:induction false} LocalVerdict(t: Tables, f: Sighting, window: int)
    requires Inv(t)
    ensures var v := ProcessLocal(t, f, window).1;
            var fit := !f.check.Gone? && Ready(t, f, window);
            var known := IsProcessed(t.rows, f.path) || ContentTaken(t, f);
            && (v == StillWaiting <==> !f.check.Gone? && !Ready(t, f, window))
            && (v == Raised <==> f.check.Gone? || (fit && (f.digest == None || (!known && f.check.Crash?))))
            && (v == Duplicate <==> fit && f.digest.Some? && (known || NameTaken(t, f)))
            && (v == QuarantinedNow <==> fit && f.digest.Some? && !known && f.check.Invalid?)
            && (v == ImportedNow <==> fit && f.digest.Some? && !known && f.check.Valid? && !NameTaken(t, f))
  {
    ReadyExactly(t, f, window);
    if f.digest.Some? { KnownExactly(t, f, window); }
  }

  /** A content that is imported or quarantined under a path without a row gets a new one, which knows
      of no observation. */
  lemma {:induction false} NewRowWritten(t: Tables, f: Sighting, digest: string)
    requires f.path !in t.rows
    ensures var (t', v) := Settled(t, f, digest);
            match v
            case ImportedNow =>
              RowAt(t'.rows, f.path)
              == Some(SourceImport(f.size, f.mtime, None, Imported, f.at, Some(digest), Some(|t.calls|)))
            case QuarantinedNow =>
              RowAt(t'.rows, f.path) == Some(SourceImport(f.size, f.mtime, None, Quarantined, f.at, Some(digest), None))
            case _ => t' == t
  {
  }

  lemma {:induction false} RemoteContent(t: Tables, f: Sighting, window: int)
    requires Inv(t) && f.digest.Some? && !IsProcessed(t.rows, f.path) && AnswerFor(t, f, window).stable
    ensures var v := ProcessRemote(t, f, window).1;
            if ContentTaken(t, f) then v == Raised
            else match f.check
                 case Gone => v == Raised
                 case Crash => v == Raised
                 case Invalid => v == QuarantinedNow
                 case Valid(_, _) => v == if NameTaken(t, f) then Duplicate else ImportedNow
  {
    var t1 := AfterObserving(t, f, window);
    ObservingKeeps(t, f, window);
    KnownExactly(t, f, window);
    if IsDuplicate(t1.rows, f.path, f.digest.value) {
      MarkNeverCommits(t1, f, f.digest.value);
    }
  }

  /** A file of the server: a processed path is a duplicate unread, and a content that another file
      brought in raises, where the folder skips it. */
  lemma {:induction false} RemoteVerdict(t: Tables, f: Sighting, window: int)
    requires Inv(t)
    ensures var v := ProcessRemote(t, f, window).1;
            var old' := IsProcessed(t.rows, f.path);
            var fit := !old' && Ready(t, f, window);
            && (v == StillWaiting <==> !Ready(t, f, window))
            && (v == Raised <==>
                  fit && (f.digest == None || ContentTaken(t, f) || f.check.Crash? || f.check.Gone?))
            && (v == Duplicate <==> old' || (fit && f.digest.Some? && !ContentTaken(t, f) && NameTaken(t, f)))
            && (v == QuarantinedNow <==> fit && f.digest.Some? && !ContentTaken(t, f) && f.check.Invalid?)
            && (v == ImportedNow <==>
                  fit && f.digest.Some? && !ContentTaken(t, f) && f.check.Valid? && !NameTaken(t, f))
  {
    ReadyExactly(t, f, window);
    if f.digest.Some? && !IsProcessed(t.rows, f.path) && AnswerFor(t, f, window).stable {
      RemoteContent(t, f, window);
    }
  }

  /** The row of the file, written as the scan met it. */
  ghost predicate RowIs(t: Tables, f: Sighting, status: ImportStatus, sha256: Option<string>, call: Option<nat>) {
    && f.path in t.rows
    && var row := t.rows[f.path];
    && row.observedSize == f.size && row.observedMtime == f.mtime
    && row.status == status && row.sha256 == sha256 && row.call == call
  }

  /** The first detection stays, and unless the file waits also when it was last seen to change. */
  ghost predicate KeepsTimes(row: SourceImport, row': Option<SourceImport>, v: Verdict) {
    && row'.Some? && row'.value.detectedAt == row.detectedAt
    && (v != StillWaiting ==> row'.value.stableSince == row.stableSince)
  }

  /** What each verdict leaves in the tables: nothing of another path, a call only for an import, and
      of a path not processed yet the row as it was just met. */
  ghost predicate Leaves(t: Tables, f: Sighting, t': Tables, v: Verdict) {
    && (forall p :: p != f.path ==> RowAt(t'.rows, p) == RowAt(t.rows, p))
    && (v != ImportedNow ==> t'.calls == t.calls)
    && (IsProcessed(t.rows, f.path) ==> t' == t)
    && (f.path in t.rows ==> KeepsTimes(t.rows[f.path], RowAt(t'.rows, f.path), v))
    && match v
       case StillWaiting => RowIs(t', f, WaitingForFile, None, None)
       case ImportedNow =>
         && f.check.Valid? && f.digest.Some? && RowIs(t', f, Imported, f.digest, Some(|t.calls|))
         && t'.calls == t.calls + [ImportedCall(f.check.externalId, f.path, f.digest.value)]
       case QuarantinedNow => f.digest.Some? && RowIs(t', f, Quarantined, f.digest, None)
       case _ => !IsProcessed(t.rows, f.path) && t' != t ==> RowIs(t', f, Discovered, None, None)
  }

  /** A stable file that was not processed is met as it was before. */
  lemma {:induction false} ObservedStable(t: Tables, f: Sighting, window: int)
    requires Inv(t) && !IsProcessed(t.rows, f.path)
    ensures var status := if AnswerFor(t, f, window).stable then Discovered else WaitingForFile;
            && RowIs(AfterObserving(t, f, window), f, status, None, None)
            && (f.path in t.rows ==>
                  KeepsTimes(t.rows[f.path], Some(AfterObserving(t, f, window).rows[f.path]),
                             if AnswerFor(t, f, window).stable then Duplicate else StillWaiting))
  {
    if f.path in t.rows {
      assert RowInv(t.rows[f.path], f.path, t.calls, HistoryAt(t.seen, f.path));
    }
  }

  lemma {:induction false} SettledLeaves(t: Tables, t1: Tables, f: Sighting, digest: string)
    requires RowIs(t1, f, Discovered, None, None) && t1.calls == t.calls && !IsProcessed(t.rows, f.path)
    requires f.path in t.rows ==> KeepsTimes(t.rows[f.path], Some(t1.rows[f.path]), Duplicate)
    requires f.digest == Some(digest) && forall p :: p != f.path ==> RowAt(t1.rows, p) == RowAt(t.rows, p)
    ensures Leaves(t, f, Settled(t1, f, digest).0, Settled(t1, f, digest).1)
  {
  }

  lemma {:induction false} ObservedLeaves(t: Tables, f: Sighting, window: int)
    requires Inv(t) && !IsProcessed(t.rows, f.path)
    ensures var t1, stable := AfterObserving(t, f, window), AnswerFor(t, f, window).stable;
            && (!stable ==> Leaves(t, f, t1, StillWaiting))
            && (stable ==> Leaves(t, f, t1, Raised) && Leaves(t, f, t1, Duplicate))
            && (stable && f.digest.Some? ==>
                  Leaves(t, f, Settled(t1, f, f.digest.value).0, Settled(t1, f, f.digest.value).1))
  {
    ObservedStable(t, f, window);
    if f.digest.Some? && AnswerFor(t, f, window).stable {
      SettledLeaves(t, AfterObserving(t, f, window), f, f.digest.value);
    }
  }

  lemma {:induction false} LocalLeaves(t: Tables, f: Sighting, window: int)
    requires Inv(t)
    ensures Leaves(t, f, ProcessLocal(t, f, window).0, ProcessLocal(t, f, window).1)
  {
    if !IsProcessed(t.rows, f.path) {
      ObservedLeaves(t, f, window);
    }
  }

  lemma {:induction false} RemoteLeaves(t: Tables, f: Sighting, window: int)
    requires Inv(t)
    ensures Leaves(t, f, ProcessRemote(t, f, window).0, ProcessRemote(t, f, window).1)
  {
    if !IsProcessed(t.rows, f.path) {
      ObservedLeaves(t, f, window);
      ObservingKeeps(t, f, window);
      var t1 := AfterObserving(t, f, window);
      if f.digest.Some? && IsDuplicate(t1.rows, f.path, f.digest.value) {
        MarkNeverCommits(t1, f, f.digest.value);
      }
    }
  }

  lemma {:induction false} VerdictLeaves(kind: Kind, t: Tables, f: Sighting, window: int)
    requires Inv(t)
    ensures Leaves(t, f, Process(kind, t, f, window).0, Process(kind, t, f, window).1)
  {
    match kind
    case Local => LocalLeaves(t, f, window);
    case Remote => RemoteLeaves(t, f, window);
  }

  /** A row without a hash is the only one an observation changes. */
  lemma {:induction false} ObservingLeavesHashes(t: Tables, f: Sighting, window: int, p: string)
    requires Inv(t)
    ensures var rows, rows' := t.rows, AfterObserving(t, f, window).rows;
            && (p in rows' && rows'[p].sha256.Some? <==> p in rows && rows[p].sha256.Some?)
            && (p in rows && rows[p].sha256.Some? ==> rows'[p] == rows[p] && Processed(rows[p]))
            && (p in rows && Processed(rows[p]) ==> rows[p].sha256.Some?)
  {
    if p in t.rows {
      assert RowInv(t.rows[p], p, t.calls, HistoryAt(t.seen, p));
    }
    if p == f.path && !IsProcessed(t.rows, p) {
      RowObserved(t, f, window);
    }
  }

  lemma {:induction false} KnownExactly(t: Tables, f: Sighting, window: int)
    requires Inv(t) && f.digest.Some?
    ensures var t1 := AfterObserving(t, f, window);
            && (IsDuplicate(t1.rows, f.path, f.digest.value)
                <==> IsProcessed(t.rows, f.path) || HashTaken(t.rows, f.path, f.digest.value))
            && (HashTaken(t1.rows, f.path, f.digest.value) <==> HashTaken(t.rows, f.path, f.digest.value))
            && t1.calls == t.calls
  {
    HashesUntouched(t, f, window);
    SameHashes(t.rows, AfterObserving(t, f, window).rows, f.path, f.digest.value);
  }

  lemma {:induction false} HashesUntouched(t: Tables, f: Sighting, window: int)
    requires Inv(t)
    ensures KeepsHashes(t.rows, AfterObserving(t, f, window).rows)
  {
    var rows, rows' := t.rows, AfterObserving(t, f, window).rows;
    forall p
      ensures p in rows' && rows'[p].sha256.Some? <==> p in rows && rows[p].sha256.Some?
      ensures p in rows && rows[p].sha256.Some? ==> rows'[p] == rows[p] && Processed(rows[p])
      ensures p in rows && Processed(rows[p]) ==> rows[p].sha256.Some?
    {
      ObservingLeavesHashes(t, f, window, p);
    }
  }

  ghost predicate KeepsHashes(rows: map<string, SourceImport>, rows': map<string, SourceImport>) {
    && (forall p :: p in rows' && rows'[p].sha256.Some? <==> p in rows && rows[p].sha256.Some?)
    && (forall p :: p in rows && rows[p].sha256.Some? ==> rows'[p] == rows[p] && Processed(rows[p]))
    && (forall p :: p in rows && Processed(rows[p]) ==> rows[p].sha256.Some?)
  }

  lemma {:induction false} SameHashes(
      rows: map<string, SourceImport>, rows': map<string, SourceImport>, path: string, digest: string)
    requires KeepsHashes(rows, rows')
    requires path in rows' && (IsProcessed(rows', path) <==> IsProcessed(rows, path))
    ensures HashTaken(rows', path, digest) <==> HashTaken(rows, path, digest)
    ensures IsDuplicate(rows', path, digest) <==> IsProcessed(rows, path) || HashTaken(rows, path, digest)
  {
  }

  // ---------- the counters of a scan ----------

  function Count(verdicts: seq<Verdict>, v: Verdict): nat {
    multiset(verdicts)[v]
  }

  lemma {:induction false} CountNext(verdicts: seq<Verdict>, v: Verdict, w: Verdict)
    ensures Count(verdicts + [v], w) == Count(verdicts, w) + if v == w then 1 else 0
  {
    assert multiset(verdicts + [v]) == multiset(verdicts) + multiset{v};
  }

  lemma {:induction false} CountsAddUp(verdicts: seq<Verdict>)
    ensures |verdicts| == Count(verdicts, StillWaiting) + Count(verdicts, Duplicate) + Count(verdicts, ImportedNow)
                          + Count(verdicts, QuarantinedNow) + Count(verdicts, Raised)
  {
    if verdicts == [] {
    } else {
      var init, v := verdicts[..|verdicts| - 1], verdicts[|verdicts| - 1];
      assert verdicts == init + [v];
      CountsAddUp(init);
      forall w ensures Count(verdicts, w) == Count(init, w) + if v == w then 1 else 0 {
        CountNext(init, v, w);
      }
    }
  }

  /** An exception can only be the last verdict. */
  lemma {:induction false} RaisedOnce(verdicts: seq<Verdict>)
    requires forall i :: 0 <= i < |verdicts| - 1 ==> verdicts[i] != Raised
    ensures Count(verdicts, Raised) == if Stopped(verdicts) then 1 else 0
  {
    if verdicts != [] {
      var init, v := verdicts[..|verdicts| - 1], verdicts[|verdicts| - 1];
      assert verdicts == init + [v];
      CountNext(init, v, Raised);
      assert Raised !in multiset(init);
    }
  }

  datatype Metrics = Metrics(discovered: nat, imported: nat, duplicates: nat, quarantined: nat, waiting: nat,
                             errors: nat)

  /** The counters after the files with the given verdicts; `waiting` restarts with each scan. */
  function Tallied(m: Metrics, verdicts: seq<Verdict>): Metrics {
    Metrics(m.discovered + |verdicts|, m.imported + Count(verdicts, ImportedNow),
            m.duplicates + Count(verdicts, Duplicate),
            m.quarantined + Count(verdicts, QuarantinedNow), Count(verdicts, StillWaiting),
            m.errors + if Stopped(verdicts) then 1 else 0)
  }

  /** A scan that completes counts every discovered file exactly once, as waiting, duplicate,
      imported or quarantined; one that raises has one file more discovered than counted. */
  lemma {:induction false} EveryFileAccounted(m: Metrics, t: Tables, scan: Scan)
    ensures var verdicts := AfterScan(t, scan).1;
            var m' := Tallied(m, verdicts);
            var accounted := m'.waiting + (m'.duplicates - m.duplicates) + (m'.imported - m.imported)
                + (m'.quarantined - m.quarantined);
            && m'.discovered - m.discovered == accounted + (m'.errors - m.errors)
            && (!Stopped(verdicts) ==> m'.errors == m.errors && m'.discovered - m.discovered == |scan.files|)
  {
    CountsAddUp(AfterScan(t, scan).1);
    RaisedOnce(AfterScan(t, scan).1);
  }

  /** The places of a verdict in a scan. */
  function PlacesOf(verdicts: seq<Verdict>, v: Verdict): set<nat> {
    set k: nat | k < |verdicts| && verdicts[k] == v
  }

  lemma {:induction false} CountIsPlaces(verdicts: seq<Verdict>, v: Verdict)
    ensures Count(verdicts, v) == |PlacesOf(verdicts, v)|
  {
    if verdicts == [] {
    } else {
      var n := |verdicts| - 1;
      var init := verdicts[..n];
      assert verdicts == init + [verdicts[n]];
      CountIsPlaces(init, v);
      CountNext(init, verdicts[n], v);
      if verdicts[n] == v {
        assert PlacesOf(verdicts, v) == PlacesOf(init, v) + {n};
      } else {
        assert PlacesOf(verdicts, v) == PlacesOf(init, v);
      }
    }
  }

  /** Which verdicts each counter counts, and that every import it counts is a new call. */
  lemma {:induction false} CountersExactly(m: Metrics, t: Tables, scan: Scan)
    ensures var (t', verdicts) := AfterScan(t, scan);
            var m' := Tallied(m, verdicts);
            && m'.discovered == m.discovered + |verdicts| && m'.waiting == |PlacesOf(verdicts, StillWaiting)|
            && m'.duplicates == m.duplicates + |PlacesOf(verdicts, Duplicate)|
            && m'.quarantined == m.quarantined + |PlacesOf(verdicts, QuarantinedNow)|
            && m'.errors == m.errors + |PlacesOf(verdicts, Raised)|
            && m'.imported == m.imported + (|t'.calls| - |t.calls|)
  {
    var verdicts := AfterScan(t, scan).1;
    CountIsPlaces(verdicts, StillWaiting);
    CountIsPlaces(verdicts, Duplicate);
    CountIsPlaces(verdicts, QuarantinedNow);
    CountIsPlaces(verdicts, Raised);
    RaisedOnce(verdicts);
    ImportsAreCalls(scan.kind, t, scan.files, scan.window, |scan.files|);
  }

  /** As many calls were added as the scan imported so far. */
  ghost predicate CallsCounted(t: Tables, state: (Tables, seq<Verdict>)) {
    |state.0.calls| == |t.calls| + Count(state.1, ImportedNow)
  }

  lemma {:induction false} ImportsAreCalls(kind: Kind, t: Tables, files: seq<Sighting>, window: int, count: nat)
    requires count <= |files|
    ensures CallsCounted(t, Scanned(kind, t, files, window, count))
  {
    assert Scanned(kind, t, files, window, 0) == (t, []);
    for k := 0 to count
      invariant CallsCounted(t, Scanned(kind, t, files, window, k))
    {
      CallsNext(kind, t, files, window, k);
    }
  }

  lemma {:induction false} CallsNext(kind: Kind, t: Tables, files: seq<Sighting>, window: int, k: nat)
    requires k < |files| && CallsCounted(t, Scanned(kind, t, files, window, k))
    ensures CallsCounted(t, Scanned(kind, t, files, window, k + 1))
  {
    var (b, verdicts) := Scanned(kind, t, files, window, k);
    if Stopped(verdicts) {
      StoppedStays(kind, t, files, window, k, k + 1);
    } else {
      ScannedNext(kind, t, files, window, k, b, verdicts, Process(kind, b, files[k], window));
      OneMoreCall(kind, b, verdicts, files[k], window);
    }
  }

  lemma {:induction false} OneMoreCall(kind: Kind, t: Tables, verdicts: seq<Verdict>, f: Sighting, window: int)
    ensures var (t', v) := Process(kind, t, f, window);
            |t'.calls| + Count(verdicts, ImportedNow) == |t.calls| + Count(verdicts + [v], ImportedNow)
  {
    CountNext(verdicts, Process(kind, t, f, window).1, ImportedNow);
  }

  // ---------- downloads ----------

  /** A file of the server is fetched when it is stable, not processed yet, and the download works. */
  predicate Fetched(t: Tables, f: Sighting, window: int) {
    !IsProcessed(t.rows, f.path) && AnswerFor(t, f, window).stable && f.digest.Some?
  }

  /** The downloads of a scan of the server, over its first `count` files. */
  function Downloads(t: Tables, files: seq<Sighting>, window: int, count: nat): nat
    requires count <= |files|
  {
    if count == 0 then 0
    else
      var (b, verdicts) := Scanned(Remote, t, files, window, count - 1);
      Downloads(t, files, window, count - 1)
      + if !Stopped(verdicts) && Fetched(b, files[count - 1], window) then 1 else 0
  }

  lemma {:induction false} DownloadsNext(
      t: Tables, files: seq<Sighting>, window: int, k: nat, b: Tables, verdicts: seq<Verdict>)
    requires k < |files| && Scanned(Remote, t, files, window, k) == (b, verdicts) && !Stopped(verdicts)
    ensures Downloads(t, files, window, k + 1) == Downloads(t, files, window, k)
            + if Fetched(b, files[k], window) then 1 else 0
  {
  }

  lemma {:induction false} NothingMore(t: Tables, files: seq<Sighting>, window: int, k: nat, count: nat)
    requires k <= count <= |files|
    requires k == count || Stopped(Scanned(Remote, t, files, window, k).1)
    ensures Downloads(t, files, window, count) == Downloads(t, files, window, k)
  {
    if k == count {
    } else {
      NothingMore(t, files, window, k, count - 1);
      StoppedStays(Remote, t, files, window, k, count - 1);
    }
  }

  /** Everything a scan of the server imports or quarantines was downloaded in it, each for its
      own; and nothing that waits was. */
  lemma {:induction false} DownloadsBetween(t: Tables, files: seq<Sighting>, window: int, count: nat)
    requires count <= |files|
    ensures Between(Scanned(Remote, t, files, window, count).1, Downloads(t, files, window, count))
  {
    if count == 0 {
      assert Scanned(Remote, t, files, window, 0) == (t, []);
    } else {
      var k := count - 1;
      DownloadsBetween(t, files, window, k);
      BetweenStep(t, files, window, k);
      assert k + 1 == count;
    }
  }

  lemma {:induction false} BetweenStep(t: Tables, files: seq<Sighting>, window: int, k: nat)
    requires k < |files| && Between(Scanned(Remote, t, files, window, k).1, Downloads(t, files, window, k))
    ensures Between(Scanned(Remote, t, files, window, k + 1).1, Downloads(t, files, window, k + 1))
  {
    var (b, verdicts) := Scanned(Remote, t, files, window, k);
    if Stopped(verdicts) {
      NothingMore(t, files, window, k, k + 1);
      StoppedStays(Remote, t, files, window, k, k + 1);
    } else {
      BetweenAfter(t, files, window, k, b, verdicts);
    }
  }

  lemma {:induction false} BetweenAfter(
      t: Tables, files: seq<Sighting>, window: int, k: nat, b: Tables, verdicts: seq<Verdict>)
    requires k < |files| && Scanned(Remote, t, files, window, k) == (b, verdicts) && !Stopped(verdicts)
    requires Between(verdicts, Downloads(t, files, window, k))
    ensures Between(Scanned(Remote, t, files, window, k + 1).1, Downloads(t, files, window, k + 1))
  {
    var next := Process(Remote, b, files[k], window);
    DownloadsNext(t, files, window, k, b, verdicts);
    ScannedNext(Remote, t, files, window, k, b, verdicts, next);
    FetchedFirst(b, files[k], window);
    BetweenNext(verdicts, Downloads(t, files, window, k), next.1, Fetched(b, files[k], window));
  }

  ghost predicate Between(verdicts: seq<Verdict>, downloads: nat) {
    Count(verdicts, ImportedNow) + Count(verdicts, QuarantinedNow) <= downloads
    <= |verdicts| - Count(verdicts, StillWaiting)
  }

  lemma {:induction false} BetweenNext(verdicts: seq<Verdict>, downloads: nat, v: Verdict, fetched: bool)
    requires Between(verdicts, downloads)
    requires v in {ImportedNow, QuarantinedNow} ==> fetched
    requires v == StillWaiting ==> !fetched
    ensures Between(verdicts + [v], downloads + if fetched then 1 else 0)
  {
    CountNext(verdicts, v, ImportedNow);
    CountNext(verdicts, v, QuarantinedNow);
    CountNext(verdicts, v, StillWaiting);
  }

  /** A file is downloaded exactly when it is not processed, waited long enough and can be read. */
  lemma {:induction false} FetchedExactly(t: Tables, f: Sighting, window: int)
    requires Inv(t)
    ensures Fetched(t, f, window) <==> !IsProcessed(t.rows, f.path) && Ready(t, f, window) && f.digest != None
  {
    ReadyExactly(t, f, window);
  }

  lemma {:induction false} FetchedFirst(t: Tables, f: Sighting, window: int)
    ensures ProcessRemote(t, f, window).1 in {ImportedNow, QuarantinedNow} ==> Fetched(t, f, window)
    ensures ProcessRemote(t, f, window).1 == StillWaiting ==> !Fetched(t, f, window)
  {
  }

  // ---------- a known content on the server ----------

  /** A recording at a path of the server, with its content. */
  datatype Recording = Recording(path: string, size: int, mtime: int, digest: string)

  /** Its path is waiting, unchanged since `since`, while another row has its content. */
  ghost predicate Blocks(t: Tables, r: Recording, since: int) {
    && r.path in t.rows && !Processed(t.rows[r.path]) && HashTaken(t.rows, r.path, r.digest)
    && t.rows[r.path].observedSize == r.size && t.rows[r.path].observedMtime == r.mtime
    && t.rows[r.path].stableSince == Some(since)
  }

  /** A server scan that lists the recording at index `k`, once, at least the window after `since`. */
  ghost predicate Lists(scan: Scan, r: Recording, since: int, k: nat) {
    && scan.kind == Remote && k < |scan.files|
    && IsSighting(scan.files[k], r) && scan.files[k].at - since >= scan.window * MICROSECONDS
    && forall i :: 0 <= i < |scan.files| && i != k ==> scan.files[i].path != r.path
  }

  predicate IsSighting(f: Sighting, r: Recording) {
    f.path == r.path && f.size == r.size && f.mtime == r.mtime && f.digest == Some(r.digest)
  }

  lemma {:induction false} TakenStays(t: Tables, t': Tables, r: Recording)
    requires Inv(t) && Grows(t, t') && HashTaken(t.rows, r.path, r.digest)
    ensures HashTaken(t'.rows, r.path, r.digest)
  {
    var p :| p in t.rows && p != r.path && t.rows[p].sha256 == Some(r.digest);
    assert RowInv(t.rows[p], p, t.calls, HistoryAt(t.seen, p));
    assert t'.rows[p] == t.rows[p];
  }

  lemma {:induction false} OtherRowsStay(kind: Kind, t: Tables, f: Sighting, window: int, p: string)
    requires p != f.path
    ensures RowAt(Process(kind, t, f, window).0.rows, p) == RowAt(t.rows, p)
  {
  }

  /** The recording itself raises, and stays as it was. */
  lemma {:induction false} BlockedRaises(t: Tables, f: Sighting, window: int, r: Recording, since: int)
    requires Inv(t) && Blocks(t, r, since) && IsSighting(f, r) && f.at - since >= window * MICROSECONDS
    ensures ProcessRemote(t, f, window).1 == Raised && Blocks(ProcessRemote(t, f, window).0, r, since)
  {
    RemoteVerdict(t, f, window);
    var t1 := AfterObserving(t, f, window);
    ObservingKeeps(t, f, window);
    KnownExactly(t, f, window);
    MarkNeverCommits(t1, f, r.digest);
  }

  lemma {:induction false} OthersLeaveBlocked(t: Tables, f: Sighting, window: int, r: Recording, since: int)
    requires Inv(t) && Blocks(t, r, since) && f.path != r.path
    ensures Blocks(Process(Remote, t, f, window).0, r, since)
  {
    ProcessKeeps(Remote, t, f, window);
    OtherRowsStay(Remote, t, f, window, r.path);
    TakenStays(t, Process(Remote, t, f, window).0, r);
  }

  /** After `count` files of a scan that lists the recording at index `k`. */
  ghost predicate BlockedSoFar(state: (Tables, seq<Verdict>), r: Recording, since: int, k: nat, count: nat) {
    Inv(state.0) && Blocks(state.0, r, since) && |state.1| <= k + 1 && (count > k ==> Stopped(state.1))
  }

  lemma {:induction false} BlockedNext(
      t: Tables, verdicts: seq<Verdict>, scan: Scan, r: Recording, since: int, k: nat, i: nat, next: (Tables, Verdict))
    requires BlockedSoFar((t, verdicts), r, since, k, i) && !Stopped(verdicts) && |verdicts| == i
    requires Lists(scan, r, since, k) && i < |scan.files| && next == Process(Remote, t, scan.files[i], scan.window)
    ensures BlockedSoFar((next.0, verdicts + [next.1]), r, since, k, i + 1)
  {
    ProcessKeeps(Remote, t, scan.files[i], scan.window);
    if i == k {
      BlockedRaises(t, scan.files[i], scan.window, r, since);
    } else {
      OthersLeaveBlocked(t, scan.files[i], scan.window, r, since);
    }
  }

  lemma {:induction false} BlockedScanned(t: Tables, scan: Scan, r: Recording, since: int, k: nat, count: nat)
    requires Inv(t) && Blocks(t, r, since) && Lists(scan, r, since, k) && count <= |scan.files|
    ensures BlockedUpTo(t, scan, r, since, k, count)
  {
    BlockedAtFirst(t, scan, r, since, k);
    for i := 0 to count
      invariant BlockedUpTo(t, scan, r, since, k, i)
    {
      BlockedStep(t, scan, r, since, k, i);
    }
  }

  ghost predicate BlockedUpTo(t: Tables, scan: Scan, r: Recording, since: int, k: nat, count: nat)
    requires count <= |scan.files|
  {
    BlockedSoFar(Scanned(Remote, t, scan.files, scan.window, count), r, since, k, count)
  }

  lemma {:induction false} BlockedAtFirst(t: Tables, scan: Scan, r: Recording, since: int, k: nat)
    requires Inv(t) && Blocks(t, r, since)
    ensures BlockedUpTo(t, scan, r, since, k, 0)
  {
    assert Scanned(Remote, t, scan.files, scan.window, 0) == (t, []);
  }

  lemma {:induction false} BlockedStep(t: Tables, scan: Scan, r: Recording, since: int, k: nat, i: nat)
    requires Lists(scan, r, since, k) && i < |scan.files|
    requires BlockedUpTo(t, scan, r, since, k, i)
    ensures BlockedUpTo(t, scan, r, since, k, i + 1)
  {
    var (b, verdicts) := Scanned(Remote, t, scan.files, scan.window, i);
    if Stopped(verdicts) {
      StoppedStays(Remote, t, scan.files, scan.window, i, i + 1);
    } else {
      var next := Process(Remote, b, scan.files[i], scan.window);
      BlockedNext(b, verdicts, scan, r, since, k, i, next);
      ScannedNext(Remote, t, scan.files, scan.window, i, b, verdicts, next);
    }
  }

  /** The scan raises, at the latest at its `place`-th file. */
  ghost predicate StopsBy(t: Tables, scan: Scan, place: nat) {
    Stopped(AfterScan(t, scan).1) && |AfterScan(t, scan).1| <= place + 1
  }

  /** A recording whose content another path brought in stops every later scan that lists it, at
      the latest when it is reached: the files sorted behind it are not even observed, and it is
      never marked as a duplicate. */
  lemma {:induction false} KnownContentStopsEveryScan(
      t: Tables, scans: seq<Scan>, r: Recording, since: int, places: seq<nat>)
    requires Inv(t) && Blocks(t, r, since) && |places| == |scans|
    requires EachLists(scans, r, since, places)
    ensures Blocks(AfterScans(t, scans), r, since)
    ensures EachStops(t, scans, places, |scans|)
  {
    StillBlocked(t, scans, r, since, places, |scans|);
    assert scans[..|scans|] == scans;
    forall i | 0 <= i < |scans| ensures StopsBy(AfterScans(t, scans[..i]), scans[i], places[i]) {
      StopsAt(t, scans, r, since, places, i);
    }
  }

  ghost predicate EachLists(scans: seq<Scan>, r: Recording, since: int, places: seq<nat>)
    requires |places| == |scans|
  {
    forall i :: 0 <= i < |scans| ==> Lists(scans[i], r, since, places[i])
  }

  /** Each of the first `count` scans raises, in the tables that the ones before it left. */
  ghost predicate EachStops(t: Tables, scans: seq<Scan>, places: seq<nat>, count: nat)
    requires count <= |scans| == |places|
  {
    forall i :: 0 <= i < count ==> StopsBy(AfterScans(t, scans[..i]), scans[i], places[i])
  }

  lemma {:induction false} StillBlocked(
      t: Tables, scans: seq<Scan>, r: Recording, since: int, places: seq<nat>, n: nat)
    requires Inv(t) && Blocks(t, r, since) && n <= |scans| == |places| && EachLists(scans, r, since, places)
    ensures Blocks(AfterScans(t, scans[..n]), r, since)
  {
    if n == 0 {
      assert AfterScans(t, scans[..0]) == t;
    } else {
      StillBlocked(t, scans, r, since, places, n - 1);
      NextScanBlocked(t, scans, r, since, places[n - 1], n - 1);
    }
  }

  lemma {:induction false} StopsAt(
      t: Tables, scans: seq<Scan>, r: Recording, since: int, places: seq<nat>, i: nat)
    requires Inv(t) && Blocks(t, r, since) && i < |scans| == |places| && EachLists(scans, r, since, places)
    ensures StopsBy(AfterScans(t, scans[..i]), scans[i], places[i])
  {
    StillBlocked(t, scans, r, since, places, i);
    NextScanBlocked(t, scans, r, since, places[i], i);
  }

  lemma {:induction false} NextScanBlocked(
      t: Tables, scans: seq<Scan>, r: Recording, since: int, k: nat, n: nat)
    requires Inv(t) && n < |scans| && Blocks(AfterScans(t, scans[..n]), r, since) && Lists(scans[n], r, since, k)
    ensures Blocks(AfterScans(t, scans[..n + 1]), r, since)
    ensures StopsBy(AfterScans(t, scans[..n]), scans[n], k)
  {
    assert scans[..n + 1][..n] == scans[..n];
    LastScanBlocked(t, scans[..n + 1], r, since, k);
  }

  lemma {:induction false} LastScanBlocked(t: Tables, scans: seq<Scan>, r: Recording, since: int, k: nat)
    requires Inv(t) && scans != []
    requires Blocks(AfterScans(t, scans[..|scans| - 1]), r, since) && Lists(scans[|scans| - 1], r, since, k)
    ensures Blocks(AfterScans(t, scans), r, since)
    ensures StopsBy(AfterScans(t, scans[..|scans| - 1]), scans[|scans| - 1], k)
  {
    var init, last := scans[..|scans| - 1], scans[|scans| - 1];
    ScansKeep(t, init);
    BlockedScanned(AfterScans(t, init), last, r, since, k, |last.files|);
  }

  lemma {:induction false} ScannedNext(
      kind: Kind, t: Tables, files: seq<Sighting>, window: int, k: nat, b: Tables, verdicts: seq<Verdict>,
      next: (Tables, Verdict))
    requires k < |files| && Scanned(kind, t, files, window, k) == (b, verdicts) && !Stopped(verdicts)
    requires next == Process(kind, b, files[k], window)
    ensures Scanned(kind, t, files, window, k + 1) == (next.0, verdicts + [next.1])
  {
  }

  lemma {:induction false} ScanOfTwo(
      t: Tables, f: Sighting, g: Sighting, window: int, b: (Tables, Verdict), c: (Tables, Verdict))
    requires b == ProcessRemote(t, f, window) && b.1 != Raised && c == ProcessRemote(b.0, g, window)
    ensures AfterScan(t, Scan(Remote, [f, g], window)) == (c.0, [b.1, c.1])
  {
    ScannedNext(Remote, t, [f, g], window, 0, t, [], b);
    assert [] + [b.1] == [b.1];
    ScannedNext(Remote, t, [f, g], window, 1, b.0, [b.1], c);
    assert [b.1] + [c.1] == [b.1, c.1];
  }

  /** A path seen for the first time waits. */
  lemma {:induction false} FirstSeen(t: Tables, f: Sighting, window: int)
    requires f.path !in t.rows && f.path !in t.seen
    ensures ProcessRemote(t, f, window) == (Tables(t.rows[f.path := WaitingRow(f)], t.calls,
                                                   t.seen[f.path := [ObservationOf(f)]]), StillWaiting)
  {
    assert [] + [ObservationOf(f)] == [ObservationOf(f)];
  }

  function WaitingRow(f: Sighting): SourceImport {
    SourceImport(f.size, f.mtime, Some(f.at), WaitingForFile, f.at, None, None)
  }

  /** A path that waited long enough, with a content and a name nobody has, is imported. */
  lemma {:induction false} Imports(t: Tables, f: Sighting, f0: Sighting, window: int)
    requires f.path in t.rows && t.rows[f.path] == WaitingRow(f0) && f == f0.(at := f.at)
             && f.at - f0.at >= window * MICROSECONDS
    requires f.digest.Some? && (forall p :: p in t.rows ==> t.rows[p].sha256.None? && !Processed(t.rows[p]))
    requires f.check.Valid? && !f.check.elsewhere && t.calls == []
    ensures var (t', v) := ProcessRemote(t, f, window);
            && v == ImportedNow && f.path in t'.rows && Processed(t'.rows[f.path]) && t'.rows[f.path].sha256 == f.digest
            && forall p :: p != f.path && p in t.rows ==> p in t'.rows && t'.rows[p] == t.rows[p]
  {
  }

  /** A path that waited long enough while another row has its content raises. */
  lemma {:induction false} SecondRaises(t: Tables, f: Sighting, f0: Sighting, window: int, p: string)
    requires f.path in t.rows && t.rows[f.path] == WaitingRow(f0) && f == f0.(at := f.at)
             && f.at - f0.at >= window * MICROSECONDS
    requires p in t.rows && p != f.path && Processed(t.rows[p]) && t.rows[p].sha256 == f.digest && f.digest.Some?
    ensures var (t', v) := ProcessRemote(t, f, window);
            v == Raised && Blocks(t', Recording(f.path, f.size, f.mtime, f.digest.value), f0.at)
  {
    var t1 := AfterObserving(t, f, window);
    assert t1.rows[p] == t.rows[p];
    assert IsDuplicate(t1.rows, f.path, f.digest.value) && HashTaken(t1.rows, f.path, f.digest.value);
    assert ProcessRemote(t, f, window) == (t1, Raised);
    assert t1.rows[f.path] == WaitingRow(f0).(status := Discovered);
  }

  /** Such a recording comes about in two scans: two copies of one content, both unchanged for
      the window. The first is imported, the second raises and blocks from then on. */
  lemma {:induction false} SecondCopyBlocks(f: Sighting, g: Sighting)
    requires f.path != g.path && f.digest.Some? && g.digest == f.digest && f.check.Valid? && !f.check.elsewhere
             && f.at == g.at
    ensures var f', g' := f.(at := f.at + MICROSECONDS), g.(at := g.at + MICROSECONDS);
            var first := AfterScan(NO_FILES, Scan(Remote, [f, g], 1));
            var second := AfterScan(first.0, Scan(Remote, [f', g'], 1));
            first.1 == [StillWaiting, StillWaiting] && second.1 == [ImportedNow, Raised]
            && Blocks(second.0, Recording(g.path, g.size, g.mtime, g.digest.value), g.at)
  {
    var f', g' := f.(at := f.at + MICROSECONDS), g.(at := g.at + MICROSECONDS);
    FirstSeen(NO_FILES, f, 1);
    var b := ProcessRemote(NO_FILES, f, 1);
    FirstSeen(b.0, g, 1);
    var c := ProcessRemote(b.0, g, 1);
    ScanOfTwo(NO_FILES, f, g, 1, b, c);
    Imports(c.0, f', f, 1);
    var d := ProcessRemote(c.0, f', 1);
    SecondRaises(d.0, g', g, 1, f.path);
    ScanOfTwo(c.0, f', g', 1, d, ProcessRemote(d.0, g', 1));
  }

  // ---------- the repository and the watchers ----------

  class Repository {
    var rows: map<string, SourceImport>
    var calls: seq<ImportedCall>
    ghost var seen: map<string, seq<Observation>>

    ghost function Contents(): Tables
      reads this
    {
      Tables(rows, calls, seen)
    }

    constructor ()
      ensures Contents() == NO_FILES
    {
      rows, calls, seen := map[], [], map[];
    }

    method ObserveSource(f: Sighting, window: int) returns (answer: Answer)
      modifies this
      ensures Contents() == AfterObserving(old(Contents()), f, window)
              && answer == AnswerFor(old(Contents()), f, window)
    {
      if f.path !in rows {
        rows := rows[f.path := SourceImport(f.size, f.mtime, Some(f.at), WaitingForFile, f.at, None, None)];
        seen := seen[f.path := HistoryAt(seen, f.path) + [ObservationOf(f)]];
        return Answer(false, f.at);
      }
      var row := rows[f.path];
      if Processed(row) {
        return Answer(true, row.detectedAt);
      }
      seen := seen[f.path := HistoryAt(seen, f.path) + [ObservationOf(f)]];
      if row.observedSize != f.size || row.observedMtime != f.mtime {
        row := row.(observedSize := f.size, observedMtime := f.mtime);
        row := row.(stableSince := Some(f.at), status := WaitingForFile);
        rows := rows[f.path := row];
        return Answer(false, row.detectedAt);
      }
      var since := if row.stableSince.Some? then row.stableSince.value else f.at;
      var stable := f.at - since >= window * MICROSECONDS;
      rows := rows[f.path := row.(status := if stable then Discovered else WaitingForFile)];
      answer := Answer(stable, row.detectedAt);
    }

    /** A broken constraint rolls back and answers a duplicate. */
    method ImportFile(f: Sighting, digest: string) returns (v: Verdict)
      requires f.check.Valid?
      modifies this
      ensures (Contents(), v) == Settled(old(Contents()), f, digest)
    {
      if f.check.elsewhere || ExternalTaken(calls, f.check.externalId) {
        return Duplicate;
      }
      var row := if f.path in rows then rows[f.path] else BlankRow(f);
      row := row.(call := Some(|calls|), observedSize := f.size, observedMtime := f.mtime);
      row := row.(sha256 := Some(digest), status := Imported);
      if HashTaken(rows, f.path, digest) {
        return Duplicate;
      }
      calls := calls + [ImportedCall(f.check.externalId, f.path, digest)];
      rows := rows[f.path := row];
      v := ImportedNow;
    }

    /** A broken constraint raises. */
    method QuarantineFile(f: Sighting, digest: string) returns (v: Verdict)
      requires f.check.Invalid?
      modifies this
      ensures (Contents(), v) == Settled(old(Contents()), f, digest)
    {
      if HashTaken(rows, f.path, digest) {
        return Raised;
      }
      var row := if f.path in rows then rows[f.path] else BlankRow(f);
      rows := rows[f.path := row.(observedSize := f.size, sha256 := Some(digest), status := Quarantined)];
      v := QuarantinedNow;
    }

    method MarkDuplicate(f: Sighting, digest: string) returns (v: Verdict)
      modifies this
      ensures (Contents(), v) == Marked(old(Contents()), f, digest)
    {
      if f.path !in rows {
        return Duplicate;
      }
      if HashTaken(rows, f.path, digest) {
        return Raised;
      }
      var row := rows[f.path];
      var call := if row.status == Imported && row.sha256 == Some(digest) then row.call else None;
      rows := rows[f.path := row.(sha256 := Some(digest), status := Imported, call := call)];
      v := Duplicate;
    }

    /** Validation, then the import or the quarantine of a new content. */
    method Settle(f: Sighting, digest: string) returns (v: Verdict)
      modifies this
      ensures (Contents(), v) == Settled(old(Contents()), f, digest)
    {
      match f.check
      case Gone => v := Raised;
      case Crash => v := Raised;
      case Invalid => v := QuarantineFile(f, digest);
      case Valid(_, _) => v := ImportFile(f, digest);
    }
  }

  /** One file more in the counters, an exception aside. */
  function Bumped(m: Metrics, v: Verdict): Metrics {
    match v
    case StillWaiting => m.(discovered := m.discovered + 1, waiting := m.waiting + 1)
    case Duplicate => m.(discovered := m.discovered + 1, duplicates := m.duplicates + 1)
    case ImportedNow => m.(discovered := m.discovered + 1, imported := m.imported + 1)
    case QuarantinedNow => m.(discovered := m.discovered + 1, quarantined := m.quarantined + 1)
    case Raised => m.(discovered := m.discovered + 1, errors := m.errors + 1)
  }

  lemma {:induction false} TallyNext(m: Metrics, verdicts: seq<Verdict>, v: Verdict)
    requires !Stopped(verdicts)
    ensures Tallied(m, verdicts + [v]) == Bumped(Tallied(m, verdicts), v)
  {
    forall w ensures Count(verdicts + [v], w) == Count(verdicts, w) + if v == w then 1 else 0 {
      CountNext(verdicts, v, w);
    }
  }

  lemma {:induction false} ScanNext(
      kind: Kind, t: Tables, files: seq<Sighting>, window: int, k: nat, b: Tables, verdicts: seq<Verdict>,
      next: (Tables, Verdict), m: Metrics)
    requires k < |files| && Scanned(kind, t, files, window, k) == (b, verdicts) && !Stopped(verdicts)
    requires next == Process(kind, b, files[k], window)
    ensures Scanned(kind, t, files, window, k + 1) == (next.0, verdicts + [next.1])
    ensures Tallied(m, verdicts + [next.1]) == Bumped(Tallied(m, verdicts), next.1)
    ensures Stopped(verdicts + [next.1]) <==> next.1 == Raised
  {
    ScannedNext(kind, t, files, window, k, b, verdicts, next);
    TallyNext(m, verdicts, next.1);
  }

  /** A scan of the folder after its first `k` files. */
  ghost predicate LocalSoFar(
      t: Tables, files: seq<Sighting>, window: int, k: nat, b: Tables, verdicts: seq<Verdict>, m: Metrics, m': Metrics)
    requires k <= |files|
  {
    Scanned(Local, t, files, window, k) == (b, verdicts) && m' == Tallied(m, verdicts)
  }

  lemma {:induction false} LocalNext(
      t: Tables, files: seq<Sighting>, window: int, k: nat, b: Tables, verdicts: seq<Verdict>, m: Metrics,
      m': Metrics, next: (Tables, Verdict))
    requires k < |files| && LocalSoFar(t, files, window, k, b, verdicts, m, m')
    requires !Stopped(verdicts) && next == ProcessLocal(b, files[k], window)
    ensures LocalSoFar(t, files, window, k + 1, next.0, verdicts + [next.1], m, Bumped(m', next.1))
    ensures Stopped(verdicts + [next.1]) <==> next.1 == Raised
  {
    ScanNext(Local, t, files, window, k, b, verdicts, next, m);
  }

  lemma {:induction false} LocalEnd(
      t: Tables, files: seq<Sighting>, window: int, k: nat, b: Tables, verdicts: seq<Verdict>, m: Metrics,
      m': Metrics)
    requires k <= |files| && LocalSoFar(t, files, window, k, b, verdicts, m, m')
    requires k == |files| || Stopped(verdicts)
    ensures AfterScan(t, Scan(Local, files, window)) == (b, verdicts) && m' == Tallied(m, verdicts)
  {
    StoppedStays(Local, t, files, window, k, |files|);
  }

  class LocalRecordingWatcher {
    const repository: Repository
    var metrics: Metrics

    constructor (repository: Repository)
      ensures this.repository == repository && metrics == Metrics(0, 0, 0, 0, 0, 0)
    {
      this.repository := repository;
      metrics := Metrics(0, 0, 0, 0, 0, 0);
    }

    /** One scan of the folder; without a listing the folder is missing. */
    method ScanOnce(listing: Option<seq<Sighting>>, window: int) returns (raised: bool)
      modifies this, repository
      ensures match listing
              case None => raised && repository.Contents() == old(repository.Contents())
                  && metrics == old(metrics).(waiting := 0, errors := old(metrics).errors + 1)
              case Some(files) =>
                var done := AfterScan(old(repository.Contents()), Scan(Local, files, window));
                repository.Contents() == done.0 && metrics == Tallied(old(metrics), done.1)
                    && (raised <==> Stopped(done.1))
    {
      metrics := metrics.(waiting := 0);
      if listing.None? {
        metrics := metrics.(errors := metrics.errors + 1);
        return true;
      }
      raised := ScanFiles(listing.value, window);
    }

    method ScanFiles(files: seq<Sighting>, window: int) returns (raised: bool)
      requires metrics.waiting == 0
      modifies this, repository
      ensures var done := AfterScan(old(repository.Contents()), Scan(Local, files, window));
              repository.Contents() == done.0 && metrics == Tallied(old(metrics), done.1)
                  && (raised <==> Stopped(done.1))
    {
      ghost var start, verdicts := repository.Contents(), [];
      raised := false;
      var k := 0;
      while k < |files| && !raised
        invariant k <= |files| && (raised <==> Stopped(verdicts))
        invariant LocalSoFar(start, files, window, k, repository.Contents(), verdicts, old(metrics), metrics)
        decreases |files| - k
      {
        ghost var before, m := repository.Contents(), metrics;
        var v := ScanFile(files[k], window);
        LocalNext(start, files, window, k, before, verdicts, old(metrics), m, (repository.Contents(), v));
        verdicts := verdicts + [v];
        raised := v == Raised;
        k := k + 1;
      }
      LocalEnd(start, files, window, k, repository.Contents(), verdicts, old(metrics), metrics);
    }

    method ScanFile(f: Sighting, window: int) returns (v: Verdict)
      modifies this, repository
      ensures (repository.Contents(), v) == ProcessLocal(old(repository.Contents()), f, window)
      ensures metrics == Bumped(old(metrics), v)
    {
      metrics := metrics.(discovered := metrics.discovered + 1);
      v := Raised;
      if !f.check.Gone? {
        v := Classify(f, window);
      }
      match v
      case StillWaiting => metrics := metrics.(waiting := metrics.waiting + 1);
      case Duplicate => metrics := metrics.(duplicates := metrics.duplicates + 1);
      case ImportedNow => metrics := metrics.(imported := metrics.imported + 1);
      case QuarantinedNow => metrics := metrics.(quarantined := metrics.quarantined + 1);
      case Raised => metrics := metrics.(errors := metrics.errors + 1);
    }

    method Classify(f: Sighting, window: int) returns (v: Verdict)
      requires !f.check.Gone?
      modifies repository
      ensures (repository.Contents(), v) == ProcessLocal(old(repository.Contents()), f, window)
    {
      var answer := repository.ObserveSource(f, window);
      if !answer.stable {
        return StillWaiting;
      }
      if f.digest.None? {
        return Raised;
      }
      if IsDuplicate(repository.rows, f.path, f.digest.value) {
        return Duplicate;
      }
      v := repository.Settle(f, f.digest.value);
    }
  }

  lemma {:induction false} StoppedStays(kind: Kind, t: Tables, files: seq<Sighting>, window: int, k: nat, count: nat)
    requires k <= count <= |files|
    requires k == count || Stopped(Scanned(kind, t, files, window, k).1)
    ensures Scanned(kind, t, files, window, count) == Scanned(kind, t, files, window, k)
  {
    if k == count {
    } else {
      StoppedStays(kind, t, files, window, k, count - 1);
    }
  }

  /** A completed or stopped scan of the server: tables, counters and downloads afterwards. */
  ghost predicate RemoteScan(
      t: Tables, files: seq<Sighting>, window: int, m: Metrics, downloaded: nat,
      t': Tables, m': Metrics, downloaded': nat, raised: bool)
  {
    var done := AfterScan(t, Scan(Remote, files, window));
    && t' == done.0 && m' == Tallied(m, done.1) && (raised <==> Stopped(done.1))
    && downloaded' == downloaded + Downloads(t, files, window, |files|)
  }

  /** The same after the first `k` files. */
  ghost predicate RemoteSoFar(
      t: Tables, files: seq<Sighting>, window: int, k: nat, b: Tables, verdicts: seq<Verdict>,
      m: Metrics, m': Metrics, downloaded: nat, downloaded': nat)
    requires k <= |files|
  {
    && Scanned(Remote, t, files, window, k) == (b, verdicts)
    && m' == Tallied(m, verdicts) && downloaded' == downloaded + Downloads(t, files, window, k)
  }

  lemma {:induction false} RemoteNext(
      t: Tables, files: seq<Sighting>, window: int, k: nat, b: Tables, verdicts: seq<Verdict>,
      m: Metrics, m': Metrics, downloaded: nat, downloaded': nat, next: (Tables, Verdict))
    requires k < |files| && RemoteSoFar(t, files, window, k, b, verdicts, m, m', downloaded, downloaded')
    requires !Stopped(verdicts) && next == ProcessRemote(b, files[k], window)
    ensures RemoteSoFar(t, files, window, k + 1, next.0, verdicts + [next.1], m, Bumped(m', next.1),
                        downloaded, downloaded' + if Fetched(b, files[k], window) then 1 else 0)
    ensures Stopped(verdicts + [next.1]) <==> next.1 == Raised
  {
    ScanNext(Remote, t, files, window, k, b, verdicts, next, m);
    DownloadsNext(t, files, window, k, b, verdicts);
  }

  lemma {:induction false} RemoteEnd(
      t: Tables, files: seq<Sighting>, window: int, k: nat, b: Tables, verdicts: seq<Verdict>,
      m: Metrics, m': Metrics, downloaded: nat, downloaded': nat)
    requires k <= |files| && RemoteSoFar(t, files, window, k, b, verdicts, m, m', downloaded, downloaded')
    requires k == |files| || Stopped(verdicts)
    ensures RemoteScan(t, files, window, m, downloaded, b, m', downloaded', Stopped(verdicts))
  {
    StoppedStays(Remote, t, files, window, k, |files|);
    NothingMore(t, files, window, k, |files|);
  }

  lemma {:induction false} WaitingRestarts(m: Metrics, verdicts: seq<Verdict>)
    ensures Tallied(m.(waiting := 0), verdicts) == Tallied(m, verdicts)
  {
  }

  class SftpRecordingWatcher {
    const repository: Repository
    var metrics: Metrics
    var downloaded: nat

    constructor (repository: Repository)
      ensures this.repository == repository && metrics == Metrics(0, 0, 0, 0, 0, 0) && downloaded == 0
    {
      this.repository := repository;
      metrics := Metrics(0, 0, 0, 0, 0, 0);
      downloaded := 0;
    }

    /** One scan of the server; without a listing the connection or the traversal failed. */
    method ScanOnce(listing: Option<seq<Sighting>>, window: int) returns (raised: bool)
      modifies this, repository
      ensures match listing
              case None =>
                && raised && repository.Contents() == old(repository.Contents()) && downloaded == old(downloaded)
                && metrics == old(metrics).(waiting := 0, errors := old(metrics).errors + 1)
              case Some(files) =>
                RemoteScan(old(repository.Contents()), files, window, old(metrics), old(downloaded),
                           repository.Contents(), metrics, downloaded, raised)
    {
      metrics := metrics.(waiting := 0);
      if listing.None? {
        metrics := metrics.(errors := metrics.errors + 1);
        return true;
      }
      raised := ScanFiles(listing.value, window);
      WaitingRestarts(old(metrics), AfterScan(old(repository.Contents()), Scan(Remote, listing.value, window)).1);
    }

    method ScanFiles(files: seq<Sighting>, window: int) returns (raised: bool)
      requires metrics.waiting == 0
      modifies this, repository
      ensures RemoteScan(old(repository.Contents()), files, window, old(metrics), old(downloaded),
                         repository.Contents(), metrics, downloaded, raised)
    {
      ghost var start, verdicts := repository.Contents(), [];
      raised := false;
      var k := 0;
      while k < |files| && !raised
        invariant k <= |files| && (raised <==> Stopped(verdicts))
        invariant RemoteSoFar(start, files, window, k, repository.Contents(), verdicts,
                              old(metrics), metrics, old(downloaded), downloaded)
        decreases |files| - k
      {
        ghost var before, m, d := repository.Contents(), metrics, downloaded;
        var v := ScanRemote(files[k], window);
        RemoteNext(start, files, window, k, before, verdicts, old(metrics), m, old(downloaded), d,
                   (repository.Contents(), v));
        verdicts := verdicts + [v];
        raised := v == Raised;
        k := k + 1;
      }
      RemoteEnd(start, files, window, k, repository.Contents(), verdicts,
                old(metrics), metrics, old(downloaded), downloaded);
    }

    method ScanRemote(f: Sighting, window: int) returns (v: Verdict)
      modifies this, repository
      ensures (repository.Contents(), v) == ProcessRemote(old(repository.Contents()), f, window)
      ensures metrics == Bumped(old(metrics), v)
      ensures downloaded == old(downloaded) + if Fetched(old(repository.Contents()), f, window) then 1 else 0
    {
      metrics := metrics.(discovered := metrics.discovered + 1);
      v := Classify(f, window);
      match v
      case StillWaiting => metrics := metrics.(waiting := metrics.waiting + 1);
      case Duplicate => metrics := metrics.(duplicates := metrics.duplicates + 1);
      case ImportedNow => metrics := metrics.(imported := metrics.imported + 1);
      case QuarantinedNow => metrics := metrics.(quarantined := metrics.quarantined + 1);
      case Raised => metrics := metrics.(errors := metrics.errors + 1);
    }

    method Classify(f: Sighting, window: int) returns (v: Verdict)
      modifies this`downloaded, repository
      ensures (repository.Contents(), v) == ProcessRemote(old(repository.Contents()), f, window)
      ensures downloaded == old(downloaded) + if Fetched(old(repository.Contents()), f, window) then 1 else 0
    {
      if f.path in repository.rows && Processed(repository.rows[f.path]) {
        return Duplicate;
      }
      var answer := repository.ObserveSource(f, window);
      if !answer.stable {
        return StillWaiting;
      }
      if f.digest.None? {
        return Raised;
      }
      downloaded := downloaded + 1;
      if IsDuplicate(repository.rows, f.path, f.digest.value) {
        v := repository.MarkDuplicate(f, f.digest.value);
      } else {
        v := repository.Settle(f, f.digest.value);
      }
    }
  }
}

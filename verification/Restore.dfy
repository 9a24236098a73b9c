/** Restoring the files of a backup into a target directory (scripts/restore.py). Paths in the
    target are relative to it. */
module Restore {
  import opened Basics
  import opened Wrappers
  import opened Paths
  import opened Backup

  /** Inside the root, or refused. */
  function SafeDestination(absolute: bool, p: Path): Option<Path> {
    if p == [] || absolute || ".." in p then None else Some(p)
  }

  predicate IsPayload(m: Member) {
    m.content.Regular? && !m.absolute && |m.path| >= 2 && m.path[0] == PAYLOAD
  }

  /** The regular members under `payload/`, in the archive's order. */
  function PayloadOf(archive: Archive, count: nat): seq<FileAt>
    requires count <= |archive|
  {
    if count == 0 then []
    else
      var m := archive[count - 1];
      PayloadOf(archive, count - 1) + if IsPayload(m) then [FileAt(m.path, m.content.data)] else []
  }

  /** The temporary directory after the extraction, if it succeeds. */
  function Extracted(archive: Archive): Option<FileSystem> {
    var items := PayloadOf(archive, |archive|);
    var (fs, ok) := PutAll(Onto, EMPTY, items, |items|);
    if ok then Some(fs) else None
  }

  /** What is copied where: every extracted file to its path below `payload`. */
  function CopiesOf(files: map<Path, Bytes>, order: seq<Path>, count: nat): seq<FileAt>
    requires InOrder(files, order) && count <= |order|
  {
    if count == 0 then []
    else CopiesOf(files, order, count - 1) + if order[count - 1] != []
        then [FileAt(order[count - 1][1..], files[order[count - 1]])] else []
  }

  function Copies(files: map<Path, Bytes>): seq<FileAt> {
    SortedInOrder(files);
    CopiesOf(files, Sorted(files.Keys), |Sorted(files.Keys)|)
  }

  predicate Conflict(fs: FileSystem, copies: seq<FileAt>) {
    exists k | 0 <= k < |copies| :: Exists(fs, copies[k].path)
  }

  /** The copies in turn. Without `overwrite` an existing destination ends them. */
  function CopiedOut(fs: FileSystem, copies: seq<FileAt>, overwrite: bool, count: nat): (FileSystem, bool)
    requires count <= |copies|
  {
    if count == 0 then (fs, true)
    else
      var (before, ok) := CopiedOut(fs, copies, overwrite, count - 1);
      var next := copies[count - 1];
      if !ok || (Exists(before, next.path) && !overwrite) then (before, false)
      else
        match Copy(before, next.path, next.content)
        case None => (before, false)
        case Some(after) => (after, true)
  }

  datatype RestoreError =
    | ChecksumMismatch | NotVerified(why: VerifyError) | ExtractionFailed | TargetExists | CopyFailed

  datatype Report = Report(dryRun: bool, payloadFiles: nat, labels: seq<string>)

  function PayloadEntries(files: seq<Entry>, count: nat): nat
    requires count <= |files|
  {
    if count == 0 then 0
    else PayloadEntries(files, count - 1) + if |files[count - 1].path| >= 2
        && files[count - 1].path[0] == PAYLOAD then 1 else 0
  }

  /** The target afterwards, and the answer. `checksumOk`: the sidecar matches, or is ignored. */
  function Restored(env: Env, archive: Archive, fs: FileSystem, apply: bool, overwrite: bool, checksumOk: bool)
    : (FileSystem, Result<Report, RestoreError>)
  {
    if !checksumOk then (fs, Failure(ChecksumMismatch))
    else
      match Verified(env, archive)
      case Failure(why) => (fs, Failure(NotVerified(why)))
      case Success(manifest) =>
        var summary := Report(!apply, PayloadEntries(manifest.files, |manifest.files|), manifest.labels);
        if !apply then (fs, Success(summary))
        else
          match Extracted(archive)
          case None => (fs, Failure(ExtractionFailed))
          case Some(extracted) => CopiedInto(fs, Copies(extracted.files), overwrite, summary)
  }

  /** Conflicts are looked for before anything is copied. */
  function CopiedInto(
      fs: FileSystem, copies: seq<FileAt>, overwrite: bool, summary: Report)
    : (FileSystem, Result<Report, RestoreError>)
  {
    if Conflict(fs, copies) && !overwrite then (fs, Failure(TargetExists))
    else
      var (fs', ok) := CopiedOut(fs, copies, overwrite, |copies|);
      (fs', if ok then Success(summary) else Failure(CopyFailed))
  }

  // ---------- the scripts' loops ----------

  /** The first `count` members. */
  function ExtractedUpTo(archive: Archive, count: nat): (FileSystem, bool)
    requires count <= |archive|
  {
    PutAll(Onto, EMPTY, PayloadOf(archive, count), |PayloadOf(archive, count)|)
  }

  lemma {:induction false} ExtractNext(archive: Archive, k: nat)
    requires k < |archive| && ExtractedUpTo(archive, k).1
    ensures var m := archive[k];
            ExtractedUpTo(archive, k + 1) ==
            if !IsPayload(m) then ExtractedUpTo(archive, k)
            else
              match Write(ExtractedUpTo(archive, k).0, m.path, m.content.data)
              case None => (ExtractedUpTo(archive, k).0, false)
              case Some(fs) => (fs, true)
  {
    var m, before := archive[k], PayloadOf(archive, k);
    if IsPayload(m) {
      PutAllSnoc(Onto, EMPTY, before, FileAt(m.path, m.content.data));
    } else {
      assert before + [] == before;
    }
  }

  lemma {:induction false} ExtractionStuck(archive: Archive, k: nat)
    requires k <= |archive| && !ExtractedUpTo(archive, k).1
    ensures Extracted(archive).None?
  {
    var items := PayloadOf(archive, |archive|);
    PayloadPrefix(archive, k);
    StuckStays(Onto, EMPTY, items, |PayloadOf(archive, k)|, |items|);
    PutAllPrefix(Onto, EMPTY, PayloadOf(archive, k), items, |PayloadOf(archive, k)|);
  }

  method ExtractPayload(archive: Archive) returns (r: Option<FileSystem>)
    requires forall k :: 0 <= k < |archive| ==> !Unsafe(archive[k])
    ensures r == Extracted(archive)
  {
    var fs := EMPTY;
    for k := 0 to |archive|
      invariant ExtractedUpTo(archive, k) == (fs, true)
    {
      var m := archive[k];
      ExtractNext(archive, k);
      if !m.content.Regular? || m.absolute || |m.path| < 2 || m.path[0] != PAYLOAD {
        continue;
      }
      assert SafeDestination(m.absolute, m.path) == Some(m.path);
      var next := Write(fs, m.path, m.content.data);
      if next.None? {
        ExtractionStuck(archive, k + 1);
        return None;
      }
      fs := next.value;
    }
    r := Some(fs);
  }

  lemma {:induction false} PutAllPrefix(mode: Mode, fs: FileSystem, a: seq<FileAt>, b: seq<FileAt>, count: nat)
    requires count <= |a| <= |b| && b[..|a|] == a
    ensures PutAll(mode, fs, a, count) == PutAll(mode, fs, b, count)
  {
    if count == 0 {
    } else {
      assert a[count - 1] == b[..|a|][count - 1] == b[count - 1];
      PutAllPrefix(mode, fs, a, b, count - 1);
    }
  }

  lemma {:induction false} PutAllSnoc(mode: Mode, fs: FileSystem, items: seq<FileAt>, last: FileAt)
    ensures var (before, ok) := PutAll(mode, fs, items, |items|);
            PutAll(mode, fs, items + [last], |items| + 1) ==
            if !ok then (before, false)
            else if Put(mode, before, last.path, last.content).None? then (before, false)
            else (Put(mode, before, last.path, last.content).value, true)
  {
    assert (items + [last])[..|items|] == items;
    PutAllPrefix(mode, fs, items, items + [last], |items|);
  }

  lemma {:induction false} StuckStays(mode: Mode, fs: FileSystem, items: seq<FileAt>, k: nat, count: nat)
    requires k <= count <= |items|
    ensures !PutAll(mode, fs, items, k).1 ==> !PutAll(mode, fs, items, count).1
  {
    if k == count {
    } else {
      StuckStays(mode, fs, items, k, count - 1);
    }
  }

  lemma {:induction false} PayloadPrefix(archive: Archive, count: nat)
    requires count <= |archive|
    ensures |PayloadOf(archive, count)| <= |PayloadOf(archive, |archive|)|
    ensures PayloadOf(archive, |archive|)[..|PayloadOf(archive, count)|] == PayloadOf(archive, count)
    decreases |archive| - count
  {
    if count == |archive| {
    } else {
      PayloadPrefix(archive, count + 1);
      var a, b, c := PayloadOf(archive, count), PayloadOf(archive, count + 1), PayloadOf(archive, |archive|);
      assert b[..|a|] == a;
      assert c[..|a|] == c[..|b|][..|a|];
    }
  }

  /** Sorted copies of what was extracted. */
  method PlanCopies(files: map<Path, Bytes>) returns (copies: seq<FileAt>)
    ensures copies == Copies(files)
  {
    var order := Sorted(files.Keys);
    SortedInOrder(files);
    copies := [];
    for k := 0 to |order|
      invariant copies == CopiesOf(files, order, k)
    {
      var destination := if order[k] == [] then [] else order[k][1..];
      if order[k] != [] {
        copies := copies + [FileAt(destination, files[order[k]])];
      }
    }
  }

  method CopyOut(fs: FileSystem, copies: seq<FileAt>, overwrite: bool) returns (target: FileSystem, ok: bool)
    ensures (target, ok) == CopiedOut(fs, copies, overwrite, |copies|)
  {
    target, ok := fs, true;
    var k := 0;
    while k < |copies| && ok
      invariant k <= |copies| && (target, ok) == CopiedOut(fs, copies, overwrite, k)
      decreases |copies| - k
    {
      var copy := copies[k];
      if Exists(target, copy.path) && !overwrite {
        ok := false;
      } else {
        var next := Copy(target, copy.path, copy.content);
        if next.None? {
          ok := false;
        } else {
          target := next.value;
        }
      }
      k := k + 1;
    }
    StoppedCopyStays(fs, copies, overwrite, k, |copies|);
  }

  lemma {:induction false} StoppedCopyStays(fs: FileSystem, copies: seq<FileAt>, overwrite: bool, k: nat, count: nat)
    requires k <= count <= |copies|
    requires k == count || !CopiedOut(fs, copies, overwrite, k).1
    ensures CopiedOut(fs, copies, overwrite, count) == CopiedOut(fs, copies, overwrite, k)
  {
    if k == count {
    } else {
      StoppedCopyStays(fs, copies, overwrite, k, count - 1);
    }
  }

  method RestoreBackup(env: Env, archive: Archive, fs: FileSystem, apply: bool, overwrite: bool, checksumOk: bool)
    returns (target: FileSystem, r: Result<Report, RestoreError>)
    ensures (target, r) == Restored(env, archive, fs, apply, overwrite, checksumOk)
  {
    if !checksumOk {
      return fs, Failure(ChecksumMismatch);
    }
    var verified := VerifyArchive(env, archive);
    if verified.Failure? {
      return fs, Failure(NotVerified(verified.error));
    }
    AcceptedExactly(env, archive);
    var manifest := verified.value;
    var payload := 0;
    for k := 0 to |manifest.files|
      invariant payload == PayloadEntries(manifest.files, k)
    {
      if |manifest.files[k].path| >= 2 && manifest.files[k].path[0] == PAYLOAD {
        payload := payload + 1;
      }
    }
    var report := Report(!apply, payload, manifest.labels);
    if !apply {
      return fs, Success(report);
    }
    var extracted := ExtractPayload(archive);
    if extracted.None? {
      return fs, Failure(ExtractionFailed);
    }
    var copies := PlanCopies(extracted.value.files);
    if Conflict(fs, copies) && !overwrite {
      return fs, Failure(TargetExists);
    }
    var ok;
    target, ok := CopyOut(fs, copies, overwrite);
    r := if ok then Success(report) else Failure(CopyFailed);
  }

  // ---------- what was extracted ----------

  /** Every file lies in directories, and is none itself. */
  ghost predicate Sound(fs: FileSystem) {
    forall p :: p in fs.files ==> p !in fs.dirs && forall i :: 0 <= i < |p| ==> p[..i] in fs.dirs
  }

  lemma {:induction false} WriteSound(fs: FileSystem, p: Path, content: Bytes)
    requires Sound(fs) && Write(fs, p, content).Some?
    ensures Sound(Write(fs, p, content).value)
  {
    var fs' := Write(fs, p, content).value;
    forall q | q in fs'.files ensures q !in fs'.dirs && forall i :: 0 <= i < |q| ==> q[..i] in fs'.dirs {
      if q == p {
        assert forall i :: 0 <= i < |p| ==> p[..i] in Above(p);
      } else {
        assert q !in Above(p);
      }
    }
  }

  lemma {:induction false} ExtractionSound(items: seq<FileAt>, count: nat)
    requires count <= |items|
    ensures Sound(PutAll(Onto, EMPTY, items, count).0)
  {
    if count == 0 {
    } else {
      ExtractionSound(items, count - 1);
      var (before, ok) := PutAll(Onto, EMPTY, items, count - 1);
      if ok && Write(before, items[count - 1].path, items[count - 1].content).Some? {
        WriteSound(before, items[count - 1].path, items[count - 1].content);
      }
    }
  }

  /** Extracted paths all start with `payload`. */
  lemma {:induction false} ExtractedUnderPayload(archive: Archive, count: nat, p: Path)
    requires count <= |archive|
    requires p in PutAll(Onto, EMPTY, PayloadOf(archive, count), |PayloadOf(archive, count)|).0.files
    ensures |p| >= 2 && p[0] == PAYLOAD
  {
    if count == 0 {
    } else {
      var before, items := PayloadOf(archive, count - 1), PayloadOf(archive, count);
      if IsPayload(archive[count - 1]) {
        PutAllSnoc(Onto, EMPTY, before, FileAt(archive[count - 1].path, archive[count - 1].content.data));
      } else {
        assert items == before;
      }
      if p in PutAll(Onto, EMPTY, before, |before|).0.files {
        ExtractedUnderPayload(archive, count - 1, p);
      }
    }
  }

  /** The copies are the given files, each once, at the path without its first name. */
  ghost predicate AllUnder(files: map<Path, Bytes>) {
    forall p :: p in files ==> |p| >= 2 && p[0] == PAYLOAD
  }

  lemma {:induction false} CopyAt(files: map<Path, Bytes>, order: seq<Path>, count: nat, k: nat)
    requires InOrder(files, order) && AllUnder(files) && k < count <= |order|
    ensures |CopiesOf(files, order, count)| == count
    ensures CopiesOf(files, order, count)[k] == FileAt(order[k][1..], files[order[k]])
  {
    if k < count - 1 {
      CopyAt(files, order, count - 1, k);
    } else if count > 1 {
      CopyAt(files, order, count - 1, 0);
    }
  }

  lemma {:induction false} CopiesExactly(files: map<Path, Bytes>, q: Path, content: Bytes)
    requires AllUnder(files)
    ensures FileAt(q, content) in Copies(files) <==> [PAYLOAD] + q in files && files[[PAYLOAD] + q] == content
  {
    var order := Sorted(files.Keys);
    SortedInOrder(files);
    forall k | 0 <= k < |order|
      ensures |Copies(files)| == |order| && Copies(files)[k] == FileAt(order[k][1..], files[order[k]])
              && order[k] == [PAYLOAD] + order[k][1..]
    {
      CopyAt(files, order, |order|, k);
    }
    if [PAYLOAD] + q in files {
      var k := SortedFinds(files.Keys, [PAYLOAD] + q);
      assert ([PAYLOAD] + q)[1..] == q;
      assert Copies(files)[k] == FileAt(q, files[[PAYLOAD] + q]);
    }
    if order == [] {
      assert Copies(files) == [];
    }
  }

  /** No copy lies below another one, and equal destinations have equal content. */
  lemma {:induction false} CopiesScattered(extracted: FileSystem)
    requires Sound(extracted) && AllUnder(extracted.files)
    ensures Scattered(Copies(extracted.files))
    ensures var copies := Copies(extracted.files);
            forall i, j :: 0 <= i < |copies| && 0 <= j < |copies| && copies[i].path == copies[j].path ==>
              copies[i].content == copies[j].content
  {
    var copies := Copies(extracted.files);
    forall i | 0 <= i < |copies|
      ensures [PAYLOAD] + copies[i].path in extracted.files
              && extracted.files[[PAYLOAD] + copies[i].path] == copies[i].content
    {
      assert copies[i] in copies;
      CopiesExactly(extracted.files, copies[i].path, copies[i].content);
    }
    forall i, j | 0 <= i < |copies| && 0 <= j < |copies| ensures !Ancestor(copies[i].path, copies[j].path) {
      NotAbove(extracted, copies[i].path, copies[j].path);
    }
  }

  lemma {:induction false} NotAbove(extracted: FileSystem, p: Path, q: Path)
    requires Sound(extracted) && [PAYLOAD] + p in extracted.files && [PAYLOAD] + q in extracted.files
    ensures !Ancestor(p, q)
  {
    if |p| < |q| {
      assert ([PAYLOAD] + q)[..|p| + 1] == [PAYLOAD] + q[..|p|];
    }
  }

  ghost predicate Distinct(copies: seq<FileAt>) {
    forall i, j :: 0 <= i < j < |copies| ==> copies[i].path != copies[j].path
  }

  lemma {:induction false} CopiesDistinct(files: map<Path, Bytes>)
    requires AllUnder(files)
    ensures Distinct(Copies(files))
  {
    var order := Sorted(files.Keys);
    SortedInOrder(files);
    forall i, j | 0 <= i < j < |Copies(files)| ensures Copies(files)[i].path != Copies(files)[j].path {
      if order != [] {
        CopyAt(files, order, |order|, 0);
        CopyAt(files, order, |order|, i);
        CopyAt(files, order, |order|, j);
        SortedDistinct(files.Keys, i, j);
        assert order[i] == [PAYLOAD] + order[i][1..] && order[j] == [PAYLOAD] + order[j][1..];
      }
    }
  }

  // ---------- copying into the target ----------

  ghost predicate NoneBlocked(fs: FileSystem, copies: seq<FileAt>) {
    forall k :: 0 <= k < |copies| ==> !Blocked(fs, copies[k].path)
  }

  /** Without a conflict and with no file above a destination, every copy is made. */
  lemma {:induction false} CopiesAllMade(fs: FileSystem, copies: seq<FileAt>, overwrite: bool, count: nat)
    requires Scattered(copies) && Distinct(copies) && Fits(fs, copies) && count <= |copies|
    requires overwrite || !Conflict(fs, copies)
    ensures CopiedOut(fs, copies, overwrite, count).1
            && Added(fs, copies, count, CopiedOut(fs, copies, overwrite, count).0)
  {
    if count == 0 {
      assert fs.files + map[] == fs.files;
    } else {
      CopiesAllMade(fs, copies, overwrite, count - 1);
      var before := CopiedOut(fs, copies, overwrite, count - 1).0;
      PutNext(Into, fs, copies, count - 1, before);
      if !overwrite {
        NotThereYet(fs, copies, count - 1, before);
      }
    }
  }

  lemma {:induction false} NotThereYet(fs: FileSystem, copies: seq<FileAt>, k: nat, before: FileSystem)
    requires Scattered(copies) && Distinct(copies) && Fits(fs, copies) && !Conflict(fs, copies)
    requires k < |copies| && Added(fs, copies, k, before)
    ensures !Exists(before, copies[k].path)
  {
    StillRoom(fs, copies, k, before, k);
    MapOfKeys(copies, k, copies[k].path);
    assert !Exists(fs, copies[k].path);
  }

  /** Copying only adds files. */
  lemma {:induction false} FilesStay(fs: FileSystem, copies: seq<FileAt>, overwrite: bool, count: nat, p: Path)
    requires count <= |copies| && p in fs.files
    ensures p in CopiedOut(fs, copies, overwrite, count).0.files
  {
    if count == 0 {
    } else {
      FilesStay(fs, copies, overwrite, count - 1, p);
    }
  }

  lemma {:induction false} BlockedIsNotMade(fs: FileSystem, copies: seq<FileAt>, overwrite: bool, k: nat, count: nat)
    requires k < count <= |copies| && Blocked(fs, copies[k].path)
    ensures !CopiedOut(fs, copies, overwrite, count).1
  {
    if k < count - 1 {
      BlockedIsNotMade(fs, copies, overwrite, k, count - 1);
    } else {
      var p := copies[k].path;
      var i: nat :| i < |p| && p[..i] in fs.files;
      FilesStay(fs, copies, overwrite, k, p[..i]);
      assert Blocked(CopiedOut(fs, copies, overwrite, k).0, p);
    }
  }

  // ---------- the main statements ----------

  /** The files of the archive by their path below `payload`. */
  ghost predicate Holds(extracted: FileSystem, q: Path, content: Bytes) {
    [PAYLOAD] + q in extracted.files && extracted.files[[PAYLOAD] + q] == content
  }

  /** After the copies: the extracted files are there, and everything else is as it was. */
  ghost predicate Overlaid(fs: FileSystem, extracted: FileSystem, fs': FileSystem) {
    forall q, content ::
      (q in fs'.files && fs'.files[q] == content) <==>
      (Holds(extracted, q, content) || ([PAYLOAD] + q !in extracted.files && q in fs.files && fs.files[q] == content))
  }

  lemma {:induction false} ExtractedShape(archive: Archive)
    requires Extracted(archive).Some?
    ensures Sound(Extracted(archive).value) && AllUnder(Extracted(archive).value.files)
  {
    var items := PayloadOf(archive, |archive|);
    ExtractionSound(items, |items|);
    forall p | p in Extracted(archive).value.files ensures |p| >= 2 && p[0] == PAYLOAD {
      ExtractedUnderPayload(archive, |archive|, p);
    }
  }

  lemma {:induction false} AddedIsOverlaid(fs: FileSystem, extracted: FileSystem, fs': FileSystem)
    requires Sound(extracted) && AllUnder(extracted.files)
    requires Added(fs, Copies(extracted.files), |Copies(extracted.files)|, fs')
    ensures Overlaid(fs, extracted, fs')
  {
    var copies := Copies(extracted.files);
    CopiesScattered(extracted);
    forall q, content
      ensures (q in fs'.files && fs'.files[q] == content) <==>
              (Holds(extracted, q, content) || ([PAYLOAD] + q !in extracted.files && q in fs.files
                                                && fs.files[q] == content))
    {
      OverlaidAt(fs, extracted, fs', q, content);
    }
  }

  lemma {:induction false} OverlaidAt(fs: FileSystem, extracted: FileSystem, fs': FileSystem, q: Path, content: Bytes)
    requires Sound(extracted) && AllUnder(extracted.files)
    requires fs'.files == fs.files + MapOf(Copies(extracted.files), |Copies(extracted.files)|)
    ensures (q in fs'.files && fs'.files[q] == content) <==>
            (Holds(extracted, q, content) || ([PAYLOAD] + q !in extracted.files && q in fs.files
                                              && fs.files[q] == content))
  {
    var copies := Copies(extracted.files);
    CopiesScattered(extracted);
    MapOfContent(copies, |copies|, q, content);
    CopiesExactly(extracted.files, q, content);
    MapOfKeys(copies, |copies|, q);
    if [PAYLOAD] + q in extracted.files {
      CopiesExactly(extracted.files, q, extracted.files[[PAYLOAD] + q]);
    } else {
      forall i | 0 <= i < |copies| ensures copies[i].path != q {
        assert copies[i] in copies;
        CopiesExactly(extracted.files, copies[i].path, copies[i].content);
      }
    }
  }

  /** Applying an accepted archive without overwriting: one existing destination leaves the whole
      target as it was; otherwise it succeeds exactly when no file stands where a directory above
      a destination is needed, and then adds the archive's files and changes nothing else. */
  lemma {:induction false} RestoredExactly(env: Env, archive: Archive, fs: FileSystem)
    requires Verified(env, archive).Success? && Extracted(archive).Some?
    ensures var copies := Copies(Extracted(archive).value.files);
            var (fs', r) := Restored(env, archive, fs, true, false, true);
            && (Conflict(fs, copies) <==> r == Failure(TargetExists))
            && (Conflict(fs, copies) ==> fs' == fs)
            && (r.Success? <==> !Conflict(fs, copies) && NoneBlocked(fs, copies))
            && (r.Success? ==> Overlaid(fs, Extracted(archive).value, fs'))
  {
    var extracted := Extracted(archive).value;
    var copies := Copies(extracted.files);
    ExtractedShape(archive);
    CopiesScattered(extracted);
    CopiesDistinct(extracted.files);
    if !Conflict(fs, copies) {
      forall k | 0 <= k < |copies| ensures copies[k].path !in fs.dirs {
        assert !Exists(fs, copies[k].path);
      }
      if NoneBlocked(fs, copies) {
        CopiesAllMade(fs, copies, false, |copies|);
        AddedIsOverlaid(fs, extracted, CopiedOut(fs, copies, false, |copies|).0);
      } else {
        var k: nat :| k < |copies| && Blocked(fs, copies[k].path);
        BlockedIsNotMade(fs, copies, false, k, |copies|);
      }
    }
  }

  // ---------- the answers, and what they leave of the target ----------

  /** The positions of the entries under `payload/`. */
  ghost function PayloadPositions(files: seq<Entry>, count: nat): set<nat>
    requires count <= |files|
  {
    set k: nat | k < count && |files[k].path| >= 2 && files[k].path[0] == "payload"
  }

  lemma {:induction false} PayloadCounted(files: seq<Entry>, count: nat)
    requires count <= |files|
    ensures PayloadEntries(files, count) == |PayloadPositions(files, count)|
  {
    if count == 0 {
    } else {
      PayloadCounted(files, count - 1);
      NextPosition(files, count - 1);
    }
  }

  lemma {:induction false} NextPosition(files: seq<Entry>, n: nat)
    requires n < |files|
    ensures var more := if |files[n].path| >= 2 && files[n].path[0] == "payload" then {n} else {};
            PayloadPositions(files, n + 1) == PayloadPositions(files, n) + more && n !in PayloadPositions(files, n)
  {
  }

  /** Which answer is given: the checksum, the archive, the dry run, the extraction and the target
      are looked at in this order. A dry run needs no more than the checksum and the archive. Without
      `apply`, and for every answer but success and a failed copy, the target is as it was. */
  lemma {:induction false} AnswersExactly(
      env: Env, archive: Archive, fs: FileSystem, apply: bool, overwrite: bool, checksumOk: bool)
    ensures var (fs', r) := Restored(env, archive, fs, apply, overwrite, checksumOk);
            var accepted := checksumOk && Verified(env, archive).Success?;
            && (r == Failure(ChecksumMismatch) <==> !checksumOk)
            && (forall why :: r == Failure(NotVerified(why)) <==> checksumOk && Verified(env, archive) == Failure(why))
            && (accepted && !apply ==> r.Success?)
            && (r == Failure(ExtractionFailed) <==> accepted && apply && Extracted(archive) == None)
            && (r == Failure(TargetExists) || r == Failure(CopyFailed) ==>
                accepted && apply && Extracted(archive).Some?)
            && (r == Failure(TargetExists) ==> !overwrite)
            && (r.Success? ==> accepted && Reports(Verified(env, archive).value, !apply, r.value))
            && (!apply || (r.Failure? && r.error != CopyFailed) ==> fs' == fs)
  {
    if Verified(env, archive).Success? {
      var files := Verified(env, archive).value.files;
      PayloadCounted(files, |files|);
    }
  }

  /** The report counts the payload files of the manifest and gives its labels. */
  ghost predicate Reports(manifest: Manifest, dryRun: bool, report: Report) {
    && report.dryRun == dryRun && report.labels == manifest.labels
    && report.payloadFiles == |PayloadPositions(manifest.files, |manifest.files|)|
  }

  /** The dry run of a created archive: the target stays as it was, and the report counts the files
      that were selected, those named like the manifest aside, and gives the labels. */
  lemma {:induction false} DryRunOfCreated(
      env: Env, sources: seq<Source>, fs: FileSystem, overwrite: bool, selected: set<Path>)
    requires Proper(sources) && RoundTrips(env)
    requires forall p :: p in selected <==> exists content :: Stored(env, sources, p, content)
    ensures var (fs', r) := Restored(env, ArchiveFor(env, sources), fs, false, overwrite, true);
            && fs' == fs && r.Success? && r.value.dryRun
            && r.value.payloadFiles == |set p | p in selected && p != [] && p[|p| - 1] != "manifest.json"|
            && |r.value.labels| == |sources|
            && forall i :: 0 <= i < |sources| ==> r.value.labels[i] == sources[i].tag
  {
    CreatedIsAccepted(env, sources);
    AnswersExactly(env, ArchiveFor(env, sources), fs, false, overwrite, true);
    CreatedCount(env, sources, selected);
  }

  lemma {:induction false} CreatedCount(env: Env, sources: seq<Source>, selected: set<Path>)
    requires Proper(sources)
    requires forall p :: p in selected <==> exists content :: Stored(env, sources, p, content)
    ensures var manifest := ManifestFor(env, sources);
            |PayloadPositions(manifest.files, |manifest.files|)|
            == |set p | p in selected && p != [] && p[|p| - 1] != "manifest.json"|
  {
    var files := ManifestFor(env, sources).files;
    var listed := set p | p in selected && p != [] && p[|p| - 1] != "manifest.json";
    ListedIsSelected(env, sources, selected);
    EntriesCounted(files, listed);
  }

  lemma {:induction false} EntryIsSelected(env: Env, sources: seq<Source>, selected: set<Path>, e: Entry)
    requires Proper(sources) && e in ManifestFor(env, sources).files
    requires forall p :: p in selected <==> exists content :: Stored(env, sources, p, content)
    ensures e.path in selected && |e.path| >= 2 && e.path[0] == "payload" && e.path[|e.path| - 1] != "manifest.json"
  {
    var staged := Staged(env, sources).files;
    InventoryHolds(env, staged, e);
    StagedExactly(env, sources, e.path, staged[e.path]);
  }

  lemma {:induction false} SelectedHasEntry(env: Env, sources: seq<Source>, p: Path, content: Bytes) returns (k: nat)
    requires Proper(sources) && Stored(env, sources, p, content) && p != [] && p[|p| - 1] != "manifest.json"
    ensures k < |ManifestFor(env, sources).files| && ManifestFor(env, sources).files[k].path == p
  {
    var files, staged := ManifestFor(env, sources).files, Staged(env, sources).files;
    StagedExactly(env, sources, p, content);
    InventoryHolds(env, staged, EntryFor(env, staged, p));
    k :| 0 <= k < |files| && files[k] == EntryFor(env, staged, p);
  }

  lemma {:induction false} ListedIsSelected(env: Env, sources: seq<Source>, selected: set<Path>)
    requires Proper(sources)
    requires forall p :: p in selected <==> exists content :: Stored(env, sources, p, content)
    ensures var files := ManifestFor(env, sources).files;
            && (forall i, j :: 0 <= i < j < |files| ==> files[i].path != files[j].path)
            && (forall k :: 0 <= k < |files| ==> |files[k].path| >= 2 && files[k].path[0] == "payload")
            && forall p :: p in selected && p != [] && p[|p| - 1] != "manifest.json" <==>
                   exists k :: 0 <= k < |files| && files[k].path == p
  {
    var files := ManifestFor(env, sources).files;
    ListedOnce(env, Staged(env, sources).files);
    forall k | 0 <= k < |files|
      ensures var p := files[k].path; p in selected && |p| >= 2 && p[0] == "payload" && p[|p| - 1] != "manifest.json"
    {
      EntryIsSelected(env, sources, selected, files[k]);
    }
    forall p | p in selected && p != [] && p[|p| - 1] != "manifest.json"
      ensures exists k :: 0 <= k < |files| && files[k].path == p
    {
      var content :| Stored(env, sources, p, content);
      var k := SelectedHasEntry(env, sources, p, content);
    }
  }

  function PathsIn(files: seq<Entry>): set<Path> {
    if files == [] then {} else PathsIn(files[..|files| - 1]) + {files[|files| - 1].path}
  }

  lemma {:induction false} PathsInExactly(files: seq<Entry>, p: Path)
    ensures p in PathsIn(files) <==> exists k :: 0 <= k < |files| && files[k].path == p
  {
    if files == [] {
    } else {
      PathsInExactly(files[..|files| - 1], p);
    }
  }

  lemma {:induction false} DistinctPaths(files: seq<Entry>)
    requires forall i, j :: 0 <= i < j < |files| ==> files[i].path != files[j].path
    ensures |PathsIn(files)| == |files|
  {
    if files == [] {
    } else {
      DistinctPaths(files[..|files| - 1]);
      PathsInExactly(files[..|files| - 1], files[|files| - 1].path);
    }
  }

  /** Entries for distinct paths under `payload/`, counted by their paths. */
  lemma {:induction false} EntriesCounted(files: seq<Entry>, paths: set<Path>)
    requires forall i, j :: 0 <= i < j < |files| ==> files[i].path != files[j].path
    requires forall k :: 0 <= k < |files| ==> |files[k].path| >= 2 && files[k].path[0] == "payload"
    requires forall p :: p in paths <==> exists k :: 0 <= k < |files| && files[k].path == p
    ensures |PayloadPositions(files, |files|)| == |paths|
  {
    AllPayload(files, |files|);
    PayloadCounted(files, |files|);
    DistinctPaths(files);
    forall p ensures p in paths <==> p in PathsIn(files) {
      PathsInExactly(files, p);
    }
    assert paths == PathsIn(files);
  }

  lemma {:induction false} AllPayload(files: seq<Entry>, count: nat)
    requires forall k :: 0 <= k < |files| ==> |files[k].path| >= 2 && files[k].path[0] == "payload"
    requires count <= |files|
    ensures PayloadEntries(files, count) == count
  {
    if count == 0 {
    } else {
      AllPayload(files, count - 1);
    }
  }

  /** A directory stays one: no copy puts a file in its place. */
  lemma {:induction false} DirectoryStays(fs: FileSystem, copies: seq<FileAt>, overwrite: bool, count: nat, p: Path)
    requires count <= |copies| && p in fs.dirs && p !in fs.files
    ensures p in CopiedOut(fs, copies, overwrite, count).0.dirs && p !in CopiedOut(fs, copies, overwrite, count).0.files
  {
    if count == 0 {
    } else {
      DirectoryStays(fs, copies, overwrite, count - 1, p);
    }
  }

  /** A destination without room cannot end up holding its file. */
  lemma {:induction false} NoRoom(fs: FileSystem, extracted: FileSystem, overwrite: bool, k: nat)
    requires Sound(fs) && AllUnder(extracted.files) && k < |Copies(extracted.files)|
    requires Copies(extracted.files)[k].path in fs.dirs || Blocked(fs, Copies(extracted.files)[k].path)
    ensures var (fs', ok) := CopiedOut(fs, Copies(extracted.files), overwrite, |Copies(extracted.files)|);
            !(ok && Overlaid(fs, extracted, fs'))
  {
    var copies := Copies(extracted.files);
    var p := copies[k].path;
    if Blocked(fs, p) {
      BlockedIsNotMade(fs, copies, overwrite, k, |copies|);
    } else {
      DirectoryStays(fs, copies, overwrite, |copies|, p);
      assert copies[k] in copies;
      CopiesExactly(extracted.files, p, copies[k].content);
      assert Holds(extracted, p, copies[k].content);
    }
  }

  /** With overwriting: existing files are replaced, missing ones added and nothing else changes,
      exactly when no destination is a directory and no file stands above one. */
  lemma {:induction false} OverwrittenExactly(env: Env, archive: Archive, fs: FileSystem)
    requires Sound(fs) && Verified(env, archive).Success? && Extracted(archive).Some?
    ensures var (fs', r) := Restored(env, archive, fs, true, true, true);
            r.Success? && Overlaid(fs, Extracted(archive).value, fs') <==>
            Fits(fs, Copies(Extracted(archive).value.files))
  {
    var extracted := Extracted(archive).value;
    var copies := Copies(extracted.files);
    ExtractedShape(archive);
    if Fits(fs, copies) {
      CopiesScattered(extracted);
      CopiesDistinct(extracted.files);
      CopiesAllMade(fs, copies, true, |copies|);
      AddedIsOverlaid(fs, extracted, CopiedOut(fs, copies, true, |copies|).0);
    } else {
      var k: nat :| k < |copies| && (copies[k].path in fs.dirs || Blocked(fs, copies[k].path));
      NoRoom(fs, extracted, true, k);
    }
  }

  lemma {:induction false} FilesStayFrom(
      fs: FileSystem, copies: seq<FileAt>, overwrite: bool, k: nat, count: nat, p: Path)
    requires k <= count <= |copies| && p in CopiedOut(fs, copies, overwrite, k).0.files
    ensures p in CopiedOut(fs, copies, overwrite, count).0.files
  {
    if k == count {
    } else {
      FilesStayFrom(fs, copies, overwrite, k, count - 1, p);
    }
  }

  /** The conflict check does not see a file above a destination, so a restore can fail half way.
      When it does, the target is unchanged exactly if already the first destination is blocked. */
  lemma {:induction false} FailedCopyUnchangedExactly(env: Env, archive: Archive, fs: FileSystem)
    requires Verified(env, archive).Success? && Extracted(archive).Some?
    requires var copies := Copies(Extracted(archive).value.files);
             !Conflict(fs, copies) && !NoneBlocked(fs, copies)
    ensures Restored(env, archive, fs, true, false, true).1 == Failure(CopyFailed)
    ensures var copies := Copies(Extracted(archive).value.files);
            copies != [] && (Restored(env, archive, fs, true, false, true).0 == fs <==> Blocked(fs, copies[0].path))
  {
    var copies := Copies(Extracted(archive).value.files);
    RestoredExactly(env, archive, fs);
    FirstCopy(fs, copies);
    if copies != [] {
      if Blocked(fs, copies[0].path) {
        StoppedCopyStays(fs, copies, false, 1, |copies|);
      } else {
        FilesStayFrom(fs, copies, false, 1, |copies|, copies[0].path);
      }
    }
  }

  lemma {:induction false} FirstCopy(fs: FileSystem, copies: seq<FileAt>)
    requires !Conflict(fs, copies)
    ensures CopiedOut(fs, copies, false, 0) == (fs, true)
    ensures copies != [] ==>
              && !Exists(fs, copies[0].path)
              && (Blocked(fs, copies[0].path) ==> CopiedOut(fs, copies, false, 1) == (fs, false))
              && (!Blocked(fs, copies[0].path) ==> copies[0].path in CopiedOut(fs, copies, false, 1).0.files)
  {
    if copies != [] {
      assert CopiedOut(fs, copies, false, 0) == (fs, true);
    }
  }

  // ---------- the round trip ----------

  lemma {:induction false} PayloadHolds(archive: Archive, count: nat, f: FileAt)
    requires count <= |archive|
    ensures f in PayloadOf(archive, count) <==>
            exists k | 0 <= k < count :: IsPayload(archive[k]) && f == FileAt(archive[k].path, archive[k].content.data)
  {
    if count == 0 {
    } else {
      PayloadHolds(archive, count - 1, f);
    }
  }

  lemma {:induction false} PackedPayload(files: map<Path, Bytes>, f: FileAt)
    ensures f in PayloadOf(Packed(files), |Packed(files)|) <==>
            f.path in files && files[f.path] == f.content && |f.path| >= 2 && f.path[0] == PAYLOAD
  {
    var order, archive := Sorted(files.Keys), Packed(files);
    SortedInOrder(files);
    PayloadHolds(archive, |archive|, f);
    forall k | 0 <= k < |order|
      ensures |archive| == |order| && archive[k] == Member(false, order[k], Regular(files[order[k]]))
    {
      PackedMember(files, order, |order|, k);
    }
    if f.path in files {
      var k := SortedFinds(files.Keys, f.path);
    }
    if order == [] {
      assert archive == [];
    }
  }

  lemma {:induction false} CreatedPayload(env: Env, sources: seq<Source>, f: FileAt)
    requires Proper(sources)
    ensures f in PayloadOf(ArchiveFor(env, sources), |ArchiveFor(env, sources)|)
            <==> Stored(env, sources, f.path, f.content)
  {
    PackedPayload(Archived(env, sources), f);
    StagedExactly(env, sources, f.path, f.content);
  }

  lemma {:induction false} CreatedHasRoom(env: Env, sources: seq<Source>)
    requires Proper(sources)
    ensures var items := PayloadOf(ArchiveFor(env, sources), |ArchiveFor(env, sources)|);
            && Scattered(items) && Fits(EMPTY, items)
            && forall i, j :: 0 <= i < |items| && 0 <= j < |items| && items[i].path == items[j].path
                 ==> items[i].content == items[j].content
  {
    var archive := ArchiveFor(env, sources);
    var items := PayloadOf(archive, |archive|);
    forall i | 0 <= i < |items| ensures Stored(env, sources, items[i].path, items[i].content) && items[i].path != [] {
      assert items[i] in items;
      CreatedPayload(env, sources, items[i]);
    }
    forall i, j | 0 <= i < |items| && 0 <= j < |items|
      ensures !Ancestor(items[i].path, items[j].path)
      ensures items[i].path == items[j].path ==> items[i].content == items[j].content
    {
      StoredApart(env, sources, items[i], items[j]);
    }
  }

  /** The payload of a created archive is extracted whole. */
  lemma {:induction false} CreatedExtracted(env: Env, sources: seq<Source>, p: Path, content: Bytes)
    requires Proper(sources)
    ensures Extracted(ArchiveFor(env, sources)).Some?
    ensures var fs := Extracted(ArchiveFor(env, sources)).value;
            p in fs.files && fs.files[p] == content <==> Stored(env, sources, p, content)
  {
    var archive := ArchiveFor(env, sources);
    var items := PayloadOf(archive, |archive|);
    CreatedHasRoom(env, sources);
    PutAllAdds(Onto, EMPTY, items, |items|);
    MapOfContent(items, |items|, p, content);
    assert map[] + MapOf(items, |items|) == MapOf(items, |items|);
    CreatedPayload(env, sources, FileAt(p, content));
  }

  lemma {:induction false} StoredApart(env: Env, sources: seq<Source>, f: FileAt, g: FileAt)
    requires Proper(sources) && Stored(env, sources, f.path, f.content) && Stored(env, sources, g.path, g.content)
    ensures !Ancestor(f.path, g.path) && (f.path == g.path ==> f.content == g.content)
  {
    if |f.path| <= |g.path| && g.path[..|f.path|] == f.path {
      StoredOne(env, sources, f.path, g.path, f.content, g.content);
    }
  }

  /** Backing up and restoring into an empty target gives exactly the selected files, each under
      its label at its path in the source, with the same bytes. */
  lemma {:induction false} RoundTrip(env: Env, sources: seq<Source>, overwrite: bool, q: Path, content: Bytes)
    requires Proper(sources) && RoundTrips(env)
    ensures var (fs', r) := Restored(env, ArchiveFor(env, sources), EMPTY, true, overwrite, true);
            r.Success? && (q in fs'.files && fs'.files[q] == content <==> Stored(env, sources, [PAYLOAD] + q, content))
  {
    var archive := ArchiveFor(env, sources);
    CreatedIsAccepted(env, sources);
    CreatedExtracted(env, sources, [PAYLOAD] + q, content);
    EmptyHasRoom(archive);
    if overwrite {
      OverwrittenExactly(env, archive, EMPTY);
    } else {
      RestoredExactly(env, archive, EMPTY);
    }
    var fs' := Restored(env, archive, EMPTY, true, overwrite, true).0;
    assert Overlaid(EMPTY, Extracted(archive).value, fs');
    assert Holds(Extracted(archive).value, q, content) <==> Stored(env, sources, [PAYLOAD] + q, content);
  }

  lemma {:induction false} EmptyHasRoom(archive: Archive)
    requires Extracted(archive).Some?
    ensures var copies := Copies(Extracted(archive).value.files);
            Fits(EMPTY, copies) && NoneBlocked(EMPTY, copies) && !Conflict(EMPTY, copies)
  {
    var extracted := Extracted(archive).value;
    var copies := Copies(extracted.files);
    ExtractedShape(archive);
    forall k | 0 <= k < |copies| ensures copies[k].path != [] {
      assert copies[k] in copies;
      CopiesExactly(extracted.files, copies[k].path, copies[k].content);
    }
  }

  // ---------- two restores that do not do what they should ----------

  /** One file under a label. */
  function OneFile(tag: string, location: Path, name: string, content: Bytes): Source {
    Source(tag, location, File(name, content))
  }

  /** A label and a file that a backup takes. */
  predicate Takes(env: Env, tag: string, name: string, content: Bytes) {
    ValidLabel(tag) && GoodName(name) && env.secret(name, content).None?
  }

  lemma {:induction false} OneFileStored(
      env: Env, tag: string, location: Path, name: string, content: Bytes, p: Path, c: Bytes)
    requires Takes(env, tag, name, content)
    ensures StoredFrom(env, OneFile(tag, location, name, content), p, c) <==> p == [PAYLOAD, tag, name] && c == content
  {
    if |p| == 3 {
      assert p == [p[0], p[1], p[2]] && p[2..] == [p[2]];
    }
  }

  /** The copies of a backup of single files. */
  lemma {:induction false} CopyOfSources(env: Env, sources: seq<Source>, q: Path, content: Bytes)
    requires Proper(sources)
    ensures Extracted(ArchiveFor(env, sources)).Some?
    ensures FileAt(q, content) in Copies(Extracted(ArchiveFor(env, sources)).value.files)
            <==> Stored(env, sources, [PAYLOAD] + q, content)
  {
    CreatedExtracted(env, sources, [PAYLOAD] + q, content);
    ExtractedShape(ArchiveFor(env, sources));
    CopiesExactly(Extracted(ArchiveFor(env, sources)).value.files, q, content);
  }

  /** The first copy is the least of the paths. */
  lemma {:induction false} FirstIsLeast(files: map<Path, Bytes>, k: nat)
    requires AllUnder(files) && k < |Copies(files)|
    ensures AtMost(Copies(files)[0].path, Copies(files)[k].path)
  {
    var order := Sorted(files.Keys);
    SortedInOrder(files);
    assert order != [];
    CopyAt(files, order, |order|, 0);
    CopyAt(files, order, |order|, k);
    assert order[0] == Least(files.Keys) && order[k] in files.Keys;
    assert AtMost(order[0], order[k]);
  }

  lemma {:induction false} TwoFilesCopied(
      env: Env, a: string, n: string, x: Bytes, b: string, m: string, y: Bytes, place: Path)
    requires Takes(env, a, n, x) && Takes(env, b, m, y) && a != b && NameAtMost(a, b)
    ensures var sources := [OneFile(a, place, n, x), OneFile(b, place, m, y)];
            && Proper(sources) && Extracted(ArchiveFor(env, sources)).Some?
            && var copies := Copies(Extracted(ArchiveFor(env, sources)).value.files);
            && (forall f :: f in copies <==> f == FileAt([a, n], x) || f == FileAt([b, m], y))
            && copies != [] && copies[0] == FileAt([a, n], x)
  {
    var sources := [OneFile(a, place, n, x), OneFile(b, place, m, y)];
    TwoFilesCopy(env, a, n, x, b, m, y, place, FileAt([a, n], x));
    var files := Extracted(ArchiveFor(env, sources)).value.files;
    forall f ensures f in Copies(files) <==> f == FileAt([a, n], x) || f == FileAt([b, m], y) {
      TwoFilesCopy(env, a, n, x, b, m, y, place, f);
    }
    ExtractedShape(ArchiveFor(env, sources));
    LesserFirst(files, FileAt([a, n], x), FileAt([b, m], y)) by {
      NotBefore(a, n, b, m);
    }
  }

  lemma {:induction false} LesserFirst(files: map<Path, Bytes>, f: FileAt, g: FileAt)
    requires AllUnder(files) && (forall h :: h in Copies(files) <==> h == f || h == g) && !AtMost(g.path, f.path)
    ensures Copies(files) != [] && Copies(files)[0] == f
  {
    assert f in Copies(files);
    var k: nat :| k < |Copies(files)| && Copies(files)[k] == f;
    FirstIsLeast(files, k);
    assert Copies(files)[0] in Copies(files);
  }

  lemma {:induction false} TwoFilesCopy(
      env: Env, a: string, n: string, x: Bytes, b: string, m: string, y: Bytes, place: Path, f: FileAt)
    requires Takes(env, a, n, x) && Takes(env, b, m, y) && a != b
    ensures var sources := [OneFile(a, place, n, x), OneFile(b, place, m, y)];
            && Proper(sources) && Extracted(ArchiveFor(env, sources)).Some?
            && (f in Copies(Extracted(ArchiveFor(env, sources)).value.files)
                <==> f == FileAt([a, n], x) || f == FileAt([b, m], y))
  {
    var sources := [OneFile(a, place, n, x), OneFile(b, place, m, y)];
    TwoProper(env, a, n, x, b, m, y, place);
    CopyOfSources(env, sources, f.path, f.content);
    TwoFilesStored(env, a, n, x, b, m, y, place, f);
  }

  lemma {:induction false} TwoProper(
      env: Env, a: string, n: string, x: Bytes, b: string, m: string, y: Bytes, place: Path)
    requires Takes(env, a, n, x) && Takes(env, b, m, y) && a != b
    ensures Proper([OneFile(a, place, n, x), OneFile(b, place, m, y)])
  {
    var sources := [OneFile(a, place, n, x), OneFile(b, place, m, y)];
    assert WellFormed(sources[0].node) && WellFormed(sources[1].node);
  }

  lemma {:induction false} TwoFilesStored(
      env: Env, a: string, n: string, x: Bytes, b: string, m: string, y: Bytes, place: Path, f: FileAt)
    requires Takes(env, a, n, x) && Takes(env, b, m, y)
    ensures Stored(env, [OneFile(a, place, n, x), OneFile(b, place, m, y)], [PAYLOAD] + f.path, f.content)
            <==> f == FileAt([a, n], x) || f == FileAt([b, m], y)
  {
    OneFileStored(env, a, place, n, x, [PAYLOAD] + f.path, f.content);
    OneFileStored(env, b, place, m, y, [PAYLOAD] + f.path, f.content);
    TwoStored(env, [OneFile(a, place, n, x), OneFile(b, place, m, y)], [PAYLOAD] + f.path, f.content);
    Prefixed(f.path, [a, n]);
    Prefixed(f.path, [b, m]);
  }

  lemma {:induction false} Prefixed(p: Path, q: Path)
    ensures [PAYLOAD] + p == [PAYLOAD] + q <==> p == q
  {
    assert ([PAYLOAD] + p)[1..] == p && ([PAYLOAD] + q)[1..] == q;
  }

  lemma {:induction false} TwoStored(env: Env, sources: seq<Source>, p: Path, content: Bytes)
    requires |sources| == 2
    ensures Stored(env, sources, p, content) <==>
            StoredFrom(env, sources[0], p, content) || StoredFrom(env, sources[1], p, content)
  {
  }

  lemma {:induction false} NotBefore(a: string, n: string, b: string, m: string)
    requires a != b && NameAtMost(a, b)
    ensures !AtMost([b, m], [a, n])
  {
    if NameAtMost(b, a) {
      NamesAntisymmetric(a, b);
    }
  }

  /** Two sources of one file each are backed up and restored, without overwriting, into a target
      that holds a single file, named like the second label. The check finds no conflict, the first
      file is written, and the restore fails at the second. */
  lemma {:induction false} HalfRestored(
      env: Env, a: string, n: string, x: Bytes, b: string, m: string, y: Bytes, z: Bytes, place: Path)
    requires RoundTrips(env) && Takes(env, a, n, x) && Takes(env, b, m, y) && a != b && NameAtMost(a, b)
    ensures var archive := ArchiveFor(env, [OneFile(a, place, n, x), OneFile(b, place, m, y)]);
            var (fs', r) := Restored(env, archive, FileSystem(map[[b] := z], {[]}), true, false, true);
            && r == Failure(CopyFailed)
            && [a, n] in fs'.files && [b, m] !in fs'.files && [b] in fs'.files
  {
    var sources := [OneFile(a, place, n, x), OneFile(b, place, m, y)];
    var fs: FileSystem := FileSystem(map[[b] := z], {[]});
    var archive := ArchiveFor(env, sources);
    TwoFilesCopied(env, a, n, x, b, m, y, place);
    CreatedIsAccepted(env, sources);
    var copies := Copies(Extracted(archive).value.files);
    NoneOfTwoExists(fs, copies, a, n, x, b, m, y);
    RestoredExactly(env, archive, fs);
    FirstCopy(fs, copies);
    FilesStayFrom(fs, copies, false, 1, |copies|, [a, n]);
    FilesStay(fs, copies, false, |copies|, [b]);
    BelowFileNotMade(fs, copies, |copies|, [b, m], 1);
  }

  lemma {:induction false} NoneOfTwoExists(
      fs: FileSystem, copies: seq<FileAt>, a: string, n: string, x: Bytes, b: string, m: string, y: Bytes)
    requires fs.files.Keys == {[b]} && fs.dirs == {[]} && a != b
    requires forall f :: f in copies <==> f == FileAt([a, n], x) || f == FileAt([b, m], y)
    requires copies != [] && copies[0] == FileAt([a, n], x)
    ensures !Conflict(fs, copies) && !NoneBlocked(fs, copies) && !Blocked(fs, [a, n])
    ensures [b, m] !in fs.files && [b, m][..1] in fs.files
  {
    var p, q: Path := [a, n], [b, m];
    assert |p| == 2 && |q| == 2 && p[..0] == [] && p[..1] == [a] && q[..1] == [b];
    forall k | 0 <= k < |copies| ensures !Exists(fs, copies[k].path) {
      assert copies[k] in copies;
    }
    assert [a][0] != [b][0];
    assert FileAt([b, m], y) in copies;
    var k: nat :| k < |copies| && copies[k] == FileAt([b, m], y);
    assert Blocked(fs, copies[k].path);
  }

  /** Nothing is written below a file. */
  lemma {:induction false} BelowFileNotMade(fs: FileSystem, copies: seq<FileAt>, count: nat, p: Path, i: nat)
    requires count <= |copies| && p !in fs.files && i < |p| && p[..i] in fs.files
    ensures p !in CopiedOut(fs, copies, false, count).0.files
  {
    if count == 0 {
    } else {
      BelowFileNotMade(fs, copies, count - 1, p, i);
      FilesStay(fs, copies, false, count - 1, p[..i]);
      assert Blocked(CopiedOut(fs, copies, false, count - 1).0, p);
      NotWrittenBelow(CopiedOut(fs, copies, false, count - 1).0, copies[count - 1], p);
    }
  }

  lemma {:induction false} NotWrittenBelow(fs: FileSystem, f: FileAt, p: Path)
    requires p !in fs.files && Blocked(fs, p)
    ensures Copy(fs, f.path, f.content).Some? ==> p !in Copy(fs, f.path, f.content).value.files
  {
  }

  lemma {:induction false} OneFileCopied(env: Env, a: string, n: string, x: Bytes, place: Path)
    requires Takes(env, a, n, x)
    ensures var sources := [OneFile(a, place, n, x)];
            && Proper(sources) && Extracted(ArchiveFor(env, sources)).Some?
            && Copies(Extracted(ArchiveFor(env, sources)).value.files) == [FileAt([a, n], x)]
  {
    var sources := [OneFile(a, place, n, x)];
    OneFileCopies(env, a, n, x, place, FileAt([a, n], x));
    var files := Extracted(ArchiveFor(env, sources)).value.files;
    forall f ensures f in Copies(files) <==> f == FileAt([a, n], x) {
      OneFileCopies(env, a, n, x, place, f);
    }
    ExtractedShape(ArchiveFor(env, sources));
    CopiesDistinct(files);
    OnlyOne(Copies(files), FileAt([a, n], x));
  }

  lemma {:induction false} OneFileCopies(env: Env, a: string, n: string, x: Bytes, place: Path, f: FileAt)
    requires Takes(env, a, n, x)
    ensures var sources := [OneFile(a, place, n, x)];
            && Proper(sources) && Extracted(ArchiveFor(env, sources)).Some?
            && (f in Copies(Extracted(ArchiveFor(env, sources)).value.files) <==> f == FileAt([a, n], x))
  {
    var sources := [OneFile(a, place, n, x)];
    assert WellFormed(sources[0].node);
    CopyOfSources(env, sources, f.path, f.content);
    OneFileStored(env, a, place, n, x, [PAYLOAD] + f.path, f.content);
    OneStored(env, sources, [PAYLOAD] + f.path, f.content);
    Prefixed(f.path, [a, n]);
  }

  lemma {:induction false} OneStored(env: Env, sources: seq<Source>, p: Path, content: Bytes)
    requires |sources| == 1
    ensures Stored(env, sources, p, content) <==> StoredFrom(env, sources[0], p, content)
  {
  }

  lemma {:induction false} OnlyOne(copies: seq<FileAt>, f: FileAt)
    requires Distinct(copies) && forall g :: g in copies <==> g == f
    ensures copies == [f]
  {
    assert f in copies;
    assert forall k :: 0 <= k < |copies| ==> copies[k] in copies;
    if |copies| > 1 {
      FirstTwoDiffer(copies);
    }
  }

  lemma {:induction false} FirstTwoDiffer(copies: seq<FileAt>)
    requires Distinct(copies) && |copies| > 1
    ensures copies[0] != copies[1]
  {
    assert copies[0].path != copies[1].path;
  }

  /** A backup of one file is restored, with overwriting, into a target that has a directory at its
      destination: the restore succeeds, but the directory takes the file under its own name. */
  lemma {:induction false} OverwriteIntoDirectory(
      env: Env, a: string, n: string, x: Bytes, place: Path, fs: FileSystem)
    requires RoundTrips(env) && Takes(env, a, n, x)
    requires Sound(fs) && [a, n] in fs.dirs && !Blocked(fs, [a, n]) && [a, n, n] !in fs.dirs
    ensures var (fs', r) := Restored(env, ArchiveFor(env, [OneFile(a, place, n, x)]), fs, true, true, true);
            r.Success? && [a, n] !in fs'.files && [a, n, n] in fs'.files && fs'.files[[a, n, n]] == x
  {
    OneFileCopied(env, a, n, x, place);
    CreatedIsAccepted(env, [OneFile(a, place, n, x)]);
    var p: Path := [a, n];
    assert p + [n] == [a, n, n];
    TakenIntoDirectory(fs, p, x);
  }

  lemma {:induction false} TakenIntoDirectory(fs: FileSystem, p: Path, content: Bytes)
    requires Sound(fs) && p != [] && p in fs.dirs && !Blocked(fs, p) && p + [p[|p| - 1]] !in fs.dirs
    ensures var (fs', ok) := CopiedOut(fs, [FileAt(p, content)], true, 1);
            && ok && p !in fs'.files
            && p + [p[|p| - 1]] in fs'.files && fs'.files[p + [p[|p| - 1]]] == content
  {
    var inside := p + [p[|p| - 1]];
    forall i | 0 <= i < |inside| ensures inside[..i] !in fs.files {
      if i < |p| {
        assert inside[..i] == p[..i];
      } else {
        assert inside[..i] == p;
      }
    }
    assert CopiedOut(fs, [FileAt(p, content)], true, 0) == (fs, true);
  }
}

/** Creating and verifying a backup archive (scripts/backup.py). */
module Backup {
  import opened Wrappers
  import opened Paths

  /** An entry of a directory; a link leads to a directory or to anything else. */
  datatype Node =
    | File(name: string, content: Bytes)
    | Dir(name: string, entries: seq<Node>)
    | Link(name: string, toDirectory: bool)

  /** A labelled source with the place it was read from. */
  datatype Source = Source(tag: string, location: Path, node: Node)

  datatype Exclusion = Exclusion(path: Path, reason: string)

  datatype Entry = Entry(path: Path, size: nat, sha256: string)

  datatype Manifest = Manifest(schemaVersion: string, labels: seq<string>, excluded: seq<Exclusion>, files: seq<Entry>)

  /** The digest, the two directions of JSON, and why a file counts as a secret. */
  datatype Env = Env(
    sha256: Bytes -> string, render: Manifest -> Bytes, parse: Bytes -> Option<Manifest>,
    secret: (string, Bytes) -> Option<string>)

  /** A manifest is read as it was written. */
  ghost predicate RoundTrips(env: Env) {
    forall m :: env.parse(env.render(m)) == Some(m)
  }

  const SCHEMA_VERSION := "1.0"
  const MANIFEST := "manifest.json"
  const PAYLOAD := "payload"
  const MANIFEST_PATH: Path := [MANIFEST]

  const IGNORED_DIRECTORIES := {
    ".git", ".next", ".pytest_cache", ".ruff_cache", ".venv", ".wrangler", "__pycache__", "dist", "node_modules"
  }

  predicate Ignored(name: string) {
    name in IGNORED_DIRECTORIES
  }

  // ---------- parse_sources ----------

  predicate Alphanumeric(c: char) {
    'A' <= c <= 'Z' || 'a' <= c <= 'z' || '0' <= c <= '9'
  }

  predicate ValidLabel(s: string) {
    && 1 <= |s| <= 64 && Alphanumeric(s[0])
    && forall i :: 1 <= i < |s| ==> Alphanumeric(s[i]) || s[i] in "_.-"
  }

  /** The index of the first equals sign at or after `i`. */
  function EqualsFrom(spec: string, i: nat): (k: nat)
    requires i <= |spec|
    ensures i <= k <= |spec| && '=' !in spec[i..k] && (k < |spec| ==> spec[k] == '=')
    decreases |spec| - i
  {
    if i == |spec| || spec[i] == '=' then i
    else
      var k := EqualsFrom(spec, i + 1);
      assert spec[i..k] == [spec[i]] + spec[i + 1..k];
      k
  }

  function LabelOf(spec: string): string {
    spec[..EqualsFrom(spec, 0)]
  }

  function PathTextOf(spec: string): string {
    var k := EqualsFrom(spec, 0);
    if k < |spec| then spec[k + 1..] else ""
  }

  /** A specification is its label, the first equals sign and its path. */
  lemma {:induction false} SpecSplits(spec: string)
    ensures '=' !in LabelOf(spec)
    ensures spec == LabelOf(spec) + (if '=' in spec then "=" + PathTextOf(spec) else "")
  {
    var k := EqualsFrom(spec, 0);
    assert spec[0..k] == spec[..k];
    if k < |spec| {
      assert spec == spec[..k] + [spec[k]] + spec[k + 1..];
    } else {
      assert spec[..k] == spec;
    }
  }

  /** A label names a directory of the archive, and no other place. */
  lemma {:induction false} LabelIsGoodName(s: string)
    requires ValidLabel(s)
    ensures GoodName(s)
  {
  }

  datatype SourceError = NotLabelled | BadLabel | NoSuchSource | NothingToBackUp

  /** `LABEL=PATH`, a label of the allowed form, and a path that exists. */
  predicate GoodSpec(spec: string, resolve: string -> Option<(Path, Node)>) {
    EqualsFrom(spec, 0) < |spec| && ValidLabel(LabelOf(spec)) && resolve(PathTextOf(spec)).Some?
  }

  function SourceOf(spec: string, resolve: string -> Option<(Path, Node)>): Source
    requires GoodSpec(spec, resolve)
  {
    var found := resolve(PathTextOf(spec)).value;
    Source(LabelOf(spec), found.0, found.1)
  }

  ghost predicate LabelsDistinct(sources: seq<Source>) {
    forall i, j :: 0 <= i < j < |sources| ==> sources[i].tag != sources[j].tag
  }

  ghost predicate SpecsDistinct(specs: seq<string>, count: nat)
    requires count <= |specs|
  {
    forall i, j :: 0 <= i < j < count ==> LabelOf(specs[i]) != LabelOf(specs[j])
  }

  ghost predicate UsedBefore(specs: seq<string>, count: nat, tag: string)
    requires count <= |specs|
  {
    exists i | 0 <= i < count :: IsLabelOf(specs[i], tag)
  }

  ghost predicate IsLabelOf(spec: string, tag: string) {
    LabelOf(spec) == tag
  }

  ghost predicate SourcesOf(
      specs: seq<string>, count: nat, resolve: string -> Option<(Path, Node)>, sources: seq<Source>)
    requires count <= |specs|
  {
    |sources| == count && forall i :: 0 <= i < count ==>
        GoodSpec(specs[i], resolve) && sources[i] == SourceOf(specs[i], resolve)
  }

  /** The first specification that is refused, and what for. */
  ghost predicate RefusedAt(
      specs: seq<string>, k: nat, resolve: string -> Option<(Path, Node)>, why: SourceError)
  {
    && k < |specs| && SpecsDistinct(specs, k) && (forall i :: 0 <= i < k ==> GoodSpec(specs[i], resolve))
    && match why
       case NotLabelled => '=' !in specs[k]
       case BadLabel => '=' in specs[k] && (!ValidLabel(LabelOf(specs[k])) || UsedBefore(specs, k, LabelOf(specs[k])))
       case NoSuchSource => ValidLabel(LabelOf(specs[k])) && resolve(PathTextOf(specs[k])).None?
       case NothingToBackUp => false
  }

  /** Accepted exactly when there is a specification, all are good and no label is repeated; then
      every source is its specification's, in order. */
  method ParseSources(
      specs: seq<string>, resolve: string -> Option<(Path, Node)>) returns (r: Result<seq<Source>, SourceError>)
    ensures r.Success? <==>
            && specs != [] && (forall i :: 0 <= i < |specs| ==> GoodSpec(specs[i], resolve))
            && SpecsDistinct(specs, |specs|)
    ensures r.Success? ==> SourcesOf(specs, |specs|, resolve, r.value)
    ensures r.Success? ==> LabelsDistinct(r.value) && forall i :: 0 <= i < |r.value| ==> ValidLabel(r.value[i].tag)
    ensures r == Failure(NothingToBackUp) <==> specs == []
    ensures r.Failure? && specs != [] ==> exists k: nat :: RefusedAt(specs, k, resolve, r.error)
  {
    var sources: seq<Source>, used: set<string> := [], {};
    for k := 0 to |specs|
      invariant Parsed(specs, k, resolve, sources, used)
    {
      var spec := specs[k];
      if EqualsFrom(spec, 0) == |spec| {
        assert spec[0..|spec|] == spec;
        assert RefusedAt(specs, k, resolve, NotLabelled);
        return Failure(NotLabelled);
      }
      var tag := LabelOf(spec);
      if tag in used {
        RepeatedLabel(specs, k);
        assert RefusedAt(specs, k, resolve, BadLabel);
        return Failure(BadLabel);
      }
      if !ValidLabel(tag) {
        assert RefusedAt(specs, k, resolve, BadLabel);
        return Failure(BadLabel);
      }
      var found := resolve(PathTextOf(spec));
      if found.None? {
        assert RefusedAt(specs, k, resolve, NoSuchSource);
        return Failure(NoSuchSource);
      }
      ParsedNext(specs, k, resolve, sources, used);
      sources := sources + [Source(tag, found.value.0, found.value.1)];
      used := used + {tag};
    }
    if sources == [] {
      return Failure(NothingToBackUp);
    }
    r := Success(sources);
  }

  /** After `count` specifications. */
  ghost predicate Parsed(
      specs: seq<string>, count: nat, resolve: string -> Option<(Path, Node)>, sources: seq<Source>, used: set<string>)
    requires count <= |specs|
  {
    && SourcesOf(specs, count, resolve, sources) && SpecsDistinct(specs, count)
    && forall tag :: tag in used <==> UsedBefore(specs, count, tag)
  }

  lemma {:induction false} RepeatedLabel(specs: seq<string>, k: nat)
    requires k < |specs| && UsedBefore(specs, k, LabelOf(specs[k]))
    ensures !SpecsDistinct(specs, |specs|)
  {
    var i: nat :| i < k && IsLabelOf(specs[i], LabelOf(specs[k]));
    assert LabelOf(specs[i]) == LabelOf(specs[k]);
  }

  lemma {:induction false} ParsedNext(
      specs: seq<string>, k: nat, resolve: string -> Option<(Path, Node)>, sources: seq<Source>, used: set<string>)
    requires k < |specs| && Parsed(specs, k, resolve, sources, used) && GoodSpec(specs[k], resolve)
             && LabelOf(specs[k]) !in used
    ensures Parsed(specs, k + 1, resolve, sources + [SourceOf(specs[k], resolve)], used + {LabelOf(specs[k])})
  {
    UsedNext(specs, k);
    forall i | 0 <= i < k ensures LabelOf(specs[i]) != LabelOf(specs[k]) {
      assert IsLabelOf(specs[i], LabelOf(specs[i]));
      assert UsedBefore(specs, k, LabelOf(specs[i]));
    }
  }

  lemma {:induction false} UsedNext(specs: seq<string>, count: nat)
    requires count < |specs|
    ensures forall tag ::
              UsedBefore(specs, count + 1, tag) <==> UsedBefore(specs, count, tag) || tag == LabelOf(specs[count])
  {
    forall tag
      ensures UsedBefore(specs, count + 1, tag) <==> UsedBefore(specs, count, tag) || tag == LabelOf(specs[count])
    {
      assert IsLabelOf(specs[count], tag) <==> tag == LabelOf(specs[count]);
    }
  }

  // ---------- iter_source_files ----------

  /** A file met in a source, with the reason to leave it out, if there is one. */
  datatype Found = Found(path: Path, content: Bytes, reason: Option<string>)

  function FoundAt(env: Env, path: Path, node: Node): seq<Found> {
    match node
    case File(name, content) => [Found(path + [name], content, env.secret(name, content))]
    case Link(name, toDirectory) => if toDirectory then [] else [Found(path + [name], [], Some("symlink"))]
    case Dir(_, _) => []
  }

  /** The files of one directory. */
  function FilesIn(env: Env, path: Path, entries: seq<Node>, count: nat): seq<Found>
    requires count <= |entries|
  {
    if count == 0 then [] else FilesIn(env, path, entries, count - 1) + FoundAt(env, path, entries[count - 1])
  }

  function Descent(env: Env, path: Path, node: Node): seq<Found>
    decreases node, 0
  {
    if node.Dir? && !Ignored(node.name) then Walk(env, path + [node.name], node.entries) else []
  }

  /** What its directories contain, ignored and linked ones pruned. */
  function DirsIn(env: Env, path: Path, entries: seq<Node>, count: nat): seq<Found>
    requires count <= |entries|
    decreases entries, count
  {
    if count == 0 then [] else DirsIn(env, path, entries, count - 1) + Descent(env, path, entries[count - 1])
  }

  /** A directory's own files come before those of its directories. */
  function Walk(env: Env, path: Path, entries: seq<Node>): seq<Found>
    decreases entries, |entries| + 1
  {
    FilesIn(env, path, entries, |entries|) + DirsIn(env, path, entries, |entries|)
  }

  function SourceFiles(env: Env, source: Source): seq<Found> {
    match source.node
    case Dir(_, entries) => Walk(env, [PAYLOAD, source.tag], entries)
    case Link(name, _) => [Found([PAYLOAD, source.tag, name], [], Some("symlink"))]
    case File(name, content) => [Found([PAYLOAD, source.tag, name], content, env.secret(name, content))]
  }

  method WalkDirectory(env: Env, path: Path, entries: seq<Node>) returns (found: seq<Found>)
    ensures found == Walk(env, path, entries)
    decreases entries
  {
    var files := ListFiles(env, path, entries);
    found := files;
    for k := 0 to |entries|
      invariant found == files + DirsIn(env, path, entries, k)
    {
      var below := [];
      if entries[k].Dir? && !Ignored(entries[k].name) {
        below := WalkDirectory(env, path + [entries[k].name], entries[k].entries);
      }
      Joins(files, DirsIn(env, path, entries, k), below);
      found := found + below;
    }
  }

  lemma {:induction false} Joins(a: seq<Found>, b: seq<Found>, c: seq<Found>)
    ensures (a + b) + c == a + (b + c)
  {
  }

  method ListFiles(env: Env, path: Path, entries: seq<Node>) returns (files: seq<Found>)
    ensures files == FilesIn(env, path, entries, |entries|)
  {
    files := [];
    for k := 0 to |entries|
      invariant files == FilesIn(env, path, entries, k)
    {
      files := files + FoundAt(env, path, entries[k]);
    }
  }

  method IterSourceFiles(env: Env, source: Source) returns (found: seq<Found>)
    ensures found == SourceFiles(env, source)
  {
    match source.node
    case Dir(_, entries) => found := WalkDirectory(env, [PAYLOAD, source.tag], entries);
    case Link(name, _) => found := [Found([PAYLOAD, source.tag, name], [], Some("symlink"))];
    case File(name, content) => found := [Found([PAYLOAD, source.tag, name], content, env.secret(name, content))];
  }

  /** What each source yields, and all of it in order. */
  function Yields(env: Env, sources: seq<Source>): seq<seq<Found>> {
    seq(|sources|, i requires 0 <= i < |sources| => SourceFiles(env, sources[i]))
  }

  function Joined(lists: seq<seq<Found>>, count: nat): seq<Found>
    requires count <= |lists|
  {
    if count == 0 then [] else Joined(lists, count - 1) + lists[count - 1]
  }

  function AllFound(env: Env, sources: seq<Source>): seq<Found> {
    Joined(Yields(env, sources), |sources|)
  }

  function Chosen(found: seq<Found>, count: nat): seq<FileAt>
    requires count <= |found|
  {
    if count == 0 then []
    else Chosen(found, count - 1) + if found[count - 1].reason.None?
        then [FileAt(found[count - 1].path, found[count - 1].content)] else []
  }

  function LeftOut(found: seq<Found>, count: nat): seq<Exclusion>
    requires count <= |found|
  {
    if count == 0 then []
    else LeftOut(found, count - 1) + if found[count - 1].reason.Some?
        then [Exclusion(found[count - 1].path, found[count - 1].reason.value)] else []
  }

  /** Every file met is either chosen or listed with the reason it was left out. */
  lemma {:induction false} LeftOutExactly(found: seq<Found>, count: nat, x: Exclusion)
    requires count <= |found|
    ensures |Chosen(found, count)| + |LeftOut(found, count)| == count
    ensures x in LeftOut(found, count) <==> exists i | 0 <= i < count :: IsExcluded(found[i], x)
  {
    EachOnOneSide(found, count);
    LeftOutHolds(found, count, x);
  }

  lemma {:induction false} EachOnOneSide(found: seq<Found>, count: nat)
    requires count <= |found|
    ensures |Chosen(found, count)| + |LeftOut(found, count)| == count
  {
    if count == 0 {
    } else {
      EachOnOneSide(found, count - 1);
    }
  }

  lemma {:induction false} LeftOutHolds(found: seq<Found>, count: nat, x: Exclusion)
    requires count <= |found|
    ensures x in LeftOut(found, count) <==> exists i | 0 <= i < count :: IsExcluded(found[i], x)
  {
    if count == 0 {
    } else {
      LeftOutHolds(found, count - 1, x);
    }
  }

  predicate IsExcluded(f: Found, x: Exclusion) {
    f.path == x.path && f.reason == Some(x.reason)
  }

  // ---------- which files are met, and which of them chosen ----------

  /** The names lead from the entries, through directories that are not ignored, to a file, or to a
      link that does not lead to a directory; the reason is what a file is left out for, if anything. */
  ghost predicate Leads(env: Env, entries: seq<Node>, names: Path, content: Bytes, reason: Option<string>)
    decreases |names|, 1
  {
    exists k | 0 <= k < |entries| :: LeadsVia(env, entries[k], names, content, reason)
  }

  ghost predicate LeadsVia(env: Env, node: Node, names: Path, content: Bytes, reason: Option<string>)
    decreases |names|, 0
  {
    names != [] && node.name == names[0] &&
    match node
    case File(name, c) => |names| == 1 && c == content && reason == env.secret(name, c)
    case Dir(name, entries) =>
      |names| > 1 && name !in IGNORED_DIRECTORIES && Leads(env, entries, names[1..], content, reason)
    case Link(_, toDirectory) => |names| == 1 && !toDirectory && content == [] && reason == Some("symlink")
  }

  /** What is at these names of the source. */
  ghost predicate Contains(env: Env, source: Source, names: Path, content: Bytes, reason: Option<string>) {
    match source.node
    case Dir(_, entries) => Leads(env, entries, names, content, reason)
    case File(name, c) => names == [name] && c == content && reason == env.secret(name, c)
    case Link(name, _) => names == [name] && content == [] && reason == Some("symlink")
  }

  ghost predicate Picks(found: seq<Found>, p: Path, content: Bytes, reason: Option<string>) {
    Found(p, content, reason) in found
  }

  lemma {:induction false} FilesPick(
      env: Env, path: Path, entries: seq<Node>, count: nat, p: Path, content: Bytes, reason: Option<string>)
    requires count <= |entries|
    ensures Picks(FilesIn(env, path, entries, count), p, content, reason) <==>
            exists k | 0 <= k < count :: Picks(FoundAt(env, path, entries[k]), p, content, reason)
  {
    if count == 0 {
    } else {
      FilesPick(env, path, entries, count - 1, p, content, reason);
    }
  }

  lemma {:induction false} DirsPick(
      env: Env, path: Path, entries: seq<Node>, count: nat, p: Path, content: Bytes, reason: Option<string>)
    requires count <= |entries|
    ensures Picks(DirsIn(env, path, entries, count), p, content, reason) <==>
            exists k | 0 <= k < count :: Picks(Descent(env, path, entries[k]), p, content, reason)
  {
    if count == 0 {
    } else {
      DirsPick(env, path, entries, count - 1, p, content, reason);
    }
  }

  /** `p` lies below `path`. */
  ghost predicate Below(path: Path, p: Path) {
    |p| > |path| && p[..|path|] == path
  }

  lemma {:induction false} NodePicks(
      env: Env, path: Path, node: Node, p: Path, content: Bytes, reason: Option<string>)
    ensures Picks(FoundAt(env, path, node), p, content, reason) || Picks(Descent(env, path, node), p, content, reason)
            <==> Below(path, p) && LeadsVia(env, node, p[|path|..], content, reason)
    decreases node, 0
  {
    match node
    case File(name, c) =>
      if |p| > |path| && p[..|path|] == path {
        assert p == path + p[|path|..];
        if |p| == |path| + 1 { assert p[|path|..] == [p[|path|]]; }
      }
    case Link(name, _) =>
      if |p| > |path| && p[..|path|] == path {
        assert p == path + p[|path|..];
        if |p| == |path| + 1 { assert p[|path|..] == [p[|path|]]; }
      }
    case Dir(name, entries) =>
      if !Ignored(name) {
        WalkPicks(env, path + [name], entries, p, content, reason);
        if |p| > |path| {
          assert p[..|path| + 1] == p[..|path|] + [p[|path|]];
          assert p[|path|..][1..] == p[|path| + 1..];
        }
      }
  }

  /** A walk meets exactly what names lead to, at the path of those names. */
  lemma {:induction false} WalkPicks(
      env: Env, path: Path, entries: seq<Node>, p: Path, content: Bytes, reason: Option<string>)
    ensures Picks(Walk(env, path, entries), p, content, reason)
            <==> Below(path, p) && Leads(env, entries, p[|path|..], content, reason)
    decreases entries, 1
  {
    FilesPick(env, path, entries, |entries|, p, content, reason);
    DirsPick(env, path, entries, |entries|, p, content, reason);
    forall k | 0 <= k < |entries|
      ensures Picks(FoundAt(env, path, entries[k]), p, content, reason)
              || Picks(Descent(env, path, entries[k]), p, content, reason) <==>
              Below(path, p) && LeadsVia(env, entries[k], p[|path|..], content, reason)
    {
      NodePicks(env, path, entries[k], p, content, reason);
    }
  }

  ghost predicate MetFrom(env: Env, source: Source, p: Path, content: Bytes, reason: Option<string>) {
    |p| > 2 && p[0] == PAYLOAD && p[1] == source.tag && Contains(env, source, p[2..], content, reason)
  }

  /** What a source contributes: exactly what it contains, under its label. */
  lemma {:induction false} SourcePicks(env: Env, source: Source, p: Path, content: Bytes, reason: Option<string>)
    ensures Picks(SourceFiles(env, source), p, content, reason) <==> MetFrom(env, source, p, content, reason)
  {
    if |p| >= 2 {
      assert p[..2] == [p[0], p[1]];
    }
    if |p| == 3 { assert p == [p[0], p[1], p[2]] && p[2..] == [p[2]]; }
    match source.node
    case Dir(_, entries) => WalkPicks(env, [PAYLOAD, source.tag], entries, p, content, reason);
    case File(_, _) =>
    case Link(_, _) =>
  }

  ghost predicate Met(env: Env, sources: seq<Source>, p: Path, content: Bytes, reason: Option<string>) {
    exists i | 0 <= i < |sources| :: MetFrom(env, sources[i], p, content, reason)
  }

  ghost predicate StoredFrom(env: Env, source: Source, p: Path, content: Bytes) {
    MetFrom(env, source, p, content, None)
  }

  /** The file at `p` of the archive, by what the sources contain. */
  ghost predicate Stored(env: Env, sources: seq<Source>, p: Path, content: Bytes) {
    exists i | 0 <= i < |sources| :: StoredFrom(env, sources[i], p, content)
  }

  lemma {:induction false} JoinedPicks(
      lists: seq<seq<Found>>, count: nat, p: Path, content: Bytes, reason: Option<string>)
    requires count <= |lists|
    ensures Picks(Joined(lists, count), p, content, reason) <==>
            exists i | 0 <= i < count :: Picks(lists[i], p, content, reason)
  {
    if count == 0 {
    } else {
      JoinedPicks(lists, count - 1, p, content, reason);
    }
  }

  lemma {:induction false} AllPicks(
      env: Env, sources: seq<Source>, p: Path, content: Bytes, reason: Option<string>)
    ensures Picks(AllFound(env, sources), p, content, reason) <==> Met(env, sources, p, content, reason)
  {
    var lists := Yields(env, sources);
    JoinedPicks(lists, |sources|, p, content, reason);
    forall i | 0 <= i < |sources|
      ensures Picks(lists[i], p, content, reason) <==> MetFrom(env, sources[i], p, content, reason)
    {
      SourcePicks(env, sources[i], p, content, reason);
    }
  }

  lemma {:induction false} ChosenPicks(found: seq<Found>, count: nat, f: FileAt)
    requires count <= |found|
    ensures f in Chosen(found, count) <==> Picks(found[..count], f.path, f.content, None)
  {
    if count == 0 {
    } else {
      ChosenPicks(found, count - 1, f);
      assert found[..count] == found[..count - 1] + [found[count - 1]];
    }
  }

  /** Exactly the links and the secrets that names lead to are listed as left out, each with its
      reason. */
  lemma {:induction false} ExcludedExactly(env: Env, sources: seq<Source>, x: Exclusion)
    ensures x in LeftOut(AllFound(env, sources), |AllFound(env, sources)|) <==>
            exists content :: Met(env, sources, x.path, content, Some(x.reason))
  {
    var found := AllFound(env, sources);
    LeftOutExactly(found, |found|, x);
    if x in LeftOut(found, |found|) {
      var i :| 0 <= i < |found| && IsExcluded(found[i], x);
      AllPicks(env, sources, x.path, found[i].content, Some(x.reason));
      assert Met(env, sources, x.path, found[i].content, Some(x.reason));
    }
    if content :| Met(env, sources, x.path, content, Some(x.reason)) {
      AllPicks(env, sources, x.path, content, Some(x.reason));
      var i :| 0 <= i < |found| && found[i] == Found(x.path, content, Some(x.reason));
      assert IsExcluded(found[i], x);
    }
  }

  // ---------- names in a directory are distinct ----------

  predicate GoodName(name: string) {
    name != "" && name != "." && name != ".." && '/' !in name
  }

  ghost predicate WellFormed(node: Node)
    decreases node, 0
  {
    GoodName(node.name) && (node.Dir? ==> WellFormedIn(node.entries))
  }

  ghost predicate WellFormedIn(entries: seq<Node>)
    decreases entries, 1
  {
    && (forall k | 0 <= k < |entries| :: WellFormed(entries[k]))
    && (forall i, j | 0 <= i < j < |entries| :: entries[i].name != entries[j].name)
  }

  /** What a file system and `ParseSources` guarantee. */
  ghost predicate Proper(sources: seq<Source>) {
    && sources != [] && LabelsDistinct(sources)
    && forall i :: 0 <= i < |sources| ==> ValidLabel(sources[i].tag) && WellFormed(sources[i].node)
  }

  /** Names lead to one file or link, and nothing lies below it. */
  lemma {:induction false} LeadsToOne(
      env: Env, entries: seq<Node>, names: Path, more: Path, a: Bytes, b: Bytes, x: Option<string>, y: Option<string>)
    requires WellFormedIn(entries) && Leads(env, entries, names, a, x) && Leads(env, entries, names + more, b, y)
    ensures more == [] && a == b && x == y
    decreases |names|
  {
    var i: nat :| i < |entries| && LeadsVia(env, entries[i], names, a, x);
    var j: nat :| j < |entries| && LeadsVia(env, entries[j], names + more, b, y);
    assert (names + more)[0] == names[0];
    assert i == j;
    assert WellFormed(entries[i]);
    if entries[i].Dir? {
      assert (names + more)[1..] == names[1..] + more;
      LeadsToOne(env, entries[i].entries, names[1..], more, a, b, x, y);
    }
  }

  lemma {:induction false} ContainsOne(env: Env, source: Source, names: Path, more: Path, a: Bytes, b: Bytes)
    requires WellFormed(source.node)
    requires Contains(env, source, names, a, None) && Contains(env, source, names + more, b, None)
    ensures more == [] && a == b
  {
    if source.node.Dir? {
      LeadsToOne(env, source.node.entries, names, more, a, b, None, None);
    }
  }

  lemma {:induction false} StoredOne(env: Env, sources: seq<Source>, p: Path, q: Path, a: Bytes, b: Bytes)
    requires Proper(sources) && Stored(env, sources, p, a) && Stored(env, sources, q, b)
    requires |p| <= |q| && q[..|p|] == p
    ensures p == q && a == b
  {
    var i: nat :| i < |sources| && StoredFrom(env, sources[i], p, a);
    var j: nat :| j < |sources| && StoredFrom(env, sources[j], q, b);
    assert p[1] == q[1];
    assert i == j;
    assert q[2..] == p[2..] + q[|p|..];
    ContainsOne(env, sources[i], p[2..], q[|p|..], a, b);
    assert q == p + q[|p|..];
  }

  lemma {:induction false} NamesGood(
      env: Env, entries: seq<Node>, names: Path, content: Bytes, reason: Option<string>, i: nat)
    requires WellFormedIn(entries) && Leads(env, entries, names, content, reason) && i < |names|
    ensures GoodName(names[i])
    decreases |names|
  {
    var k: nat :| k < |entries| && LeadsVia(env, entries[k], names, content, reason);
    assert WellFormed(entries[k]);
    if i == 0 {
    } else {
      NamesGood(env, entries[k].entries, names[1..], content, reason, i - 1);
    }
  }

  lemma {:induction false} StoredNames(env: Env, sources: seq<Source>, p: Path, content: Bytes)
    requires Proper(sources) && Stored(env, sources, p, content)
    ensures ".." !in p
  {
    var i: nat :| i < |sources| && StoredFrom(env, sources[i], p, content);
    forall k | 0 <= k < |p| ensures p[k] != ".." {
      if k == 1 {
        assert ValidLabel(p[1]) && Alphanumeric(p[1][0]);
      } else if k > 1 {
        assert p[2..][k - 2] == p[k];
        if sources[i].node.Dir? {
          NamesGood(env, sources[i].node.entries, p[2..], content, None, k - 2);
        }
      }
    }
  }

  // ---------- nothing is met twice ----------

  ghost predicate PathsDistinct(found: seq<Found>) {
    forall i, j :: 0 <= i < j < |found| ==> found[i].path != found[j].path
  }

  ghost predicate PathsApart(a: seq<Found>, b: seq<Found>) {
    forall f, g :: f in a && g in b ==> f.path != g.path
  }

  lemma {:induction false} DistinctJoin(a: seq<Found>, b: seq<Found>)
    requires PathsDistinct(a) && PathsDistinct(b) && PathsApart(a, b)
    ensures PathsDistinct(a + b)
  {
    forall i, j | 0 <= i < |a| && 0 <= j < |b| ensures a[i].path != b[j].path {
      assert a[i] in a && b[j] in b;
    }
  }

  /** A node's own entry has its name, and everything in it lies below that. */
  lemma {:induction false} FoundUnder(env: Env, path: Path, node: Node, f: Found)
    ensures f in FoundAt(env, path, node) ==> f.path == path + [node.name]
    ensures f in Descent(env, path, node) ==> Below(path + [node.name], f.path)
  {
    if f in Descent(env, path, node) {
      WalkPicks(env, path + [node.name], node.entries, f.path, f.content, f.reason);
    }
  }

  lemma {:induction false} FilesNamed(env: Env, path: Path, entries: seq<Node>, count: nat, f: Found) returns (k: nat)
    requires count <= |entries| && f in FilesIn(env, path, entries, count)
    ensures k < count && f.path == path + [entries[k].name]
  {
    FilesPick(env, path, entries, count, f.path, f.content, f.reason);
    k :| k < count && Picks(FoundAt(env, path, entries[k]), f.path, f.content, f.reason);
    FoundUnder(env, path, entries[k], f);
  }

  lemma {:induction false} DirsNamed(env: Env, path: Path, entries: seq<Node>, count: nat, f: Found) returns (k: nat)
    requires count <= |entries| && f in DirsIn(env, path, entries, count)
    ensures k < count && Below(path + [entries[k].name], f.path)
  {
    DirsPick(env, path, entries, count, f.path, f.content, f.reason);
    k :| k < count && Picks(Descent(env, path, entries[k]), f.path, f.content, f.reason);
    FoundUnder(env, path, entries[k], f);
  }

  lemma {:induction false} FilesDistinct(env: Env, path: Path, entries: seq<Node>, count: nat)
    requires WellFormedIn(entries) && count <= |entries|
    ensures PathsDistinct(FilesIn(env, path, entries, count))
  {
    if count == 0 {
    } else {
      var before, last := FilesIn(env, path, entries, count - 1), FoundAt(env, path, entries[count - 1]);
      FilesDistinct(env, path, entries, count - 1);
      forall f: Found, g: Found | f in before && g in last ensures f.path != g.path {
        var k := FilesNamed(env, path, entries, count - 1, f);
        FoundUnder(env, path, entries[count - 1], g);
        assert (path + [entries[k].name])[|path|] != (path + [entries[count - 1].name])[|path|];
      }
      DistinctJoin(before, last);
    }
  }

  lemma {:induction false} DirsDistinct(env: Env, path: Path, entries: seq<Node>, count: nat)
    requires WellFormedIn(entries) && count <= |entries|
    ensures PathsDistinct(DirsIn(env, path, entries, count))
    decreases entries, count
  {
    if count == 0 {
    } else {
      var node := entries[count - 1];
      var before, last := DirsIn(env, path, entries, count - 1), Descent(env, path, node);
      DirsDistinct(env, path, entries, count - 1);
      assert WellFormed(node);
      if node.Dir? {
        WalkDistinct(env, path + [node.name], node.entries);
      }
      forall f: Found, g: Found | f in before && g in last ensures f.path != g.path {
        var k := DirsNamed(env, path, entries, count - 1, f);
        FoundUnder(env, path, node, g);
        assert f.path[..|path| + 1][|path|] != g.path[..|path| + 1][|path|];
      }
      DistinctJoin(before, last);
    }
  }

  lemma {:induction false} WalkDistinct(env: Env, path: Path, entries: seq<Node>)
    requires WellFormedIn(entries)
    ensures PathsDistinct(Walk(env, path, entries))
    decreases entries, |entries| + 1
  {
    var files, dirs := FilesIn(env, path, entries, |entries|), DirsIn(env, path, entries, |entries|);
    FilesDistinct(env, path, entries, |entries|);
    DirsDistinct(env, path, entries, |entries|);
    forall f: Found, g: Found | f in files && g in dirs ensures f.path != g.path {
      var k := FilesNamed(env, path, entries, |entries|, f);
      var j := DirsNamed(env, path, entries, |entries|, g);
      assert |f.path| == |path| + 1 < |g.path|;
    }
    DistinctJoin(files, dirs);
  }

  lemma {:induction false} SourcesApart(env: Env, sources: seq<Source>, n: nat, f: Found, g: Found)
    requires LabelsDistinct(sources) && n < |sources|
    requires f in Joined(Yields(env, sources), n) && g in SourceFiles(env, sources[n])
    ensures f.path != g.path
  {
    var lists := Yields(env, sources);
    JoinedPicks(lists, n, f.path, f.content, f.reason);
    var i: nat :| i < n && Picks(lists[i], f.path, f.content, f.reason);
    SourcePicks(env, sources[i], f.path, f.content, f.reason);
    SourcePicks(env, sources[n], g.path, g.content, g.reason);
  }

  lemma {:induction false} NextSourceApart(env: Env, sources: seq<Source>, n: nat)
    requires LabelsDistinct(sources) && n < |sources|
    ensures PathsApart(Joined(Yields(env, sources), n), SourceFiles(env, sources[n]))
  {
    var before, last := Joined(Yields(env, sources), n), SourceFiles(env, sources[n]);
    forall f: Found, g: Found | f in before && g in last ensures f.path != g.path {
      SourcesApart(env, sources, n, f, g);
    }
  }

  lemma {:induction false} OneSourceDistinct(env: Env, source: Source)
    requires WellFormed(source.node)
    ensures PathsDistinct(SourceFiles(env, source))
  {
    if source.node.Dir? {
      WalkDistinct(env, [PAYLOAD, source.tag], source.node.entries);
    }
  }

  lemma {:induction false} JoinedDistinct(env: Env, sources: seq<Source>, count: nat)
    requires LabelsDistinct(sources) && count <= |sources|
    requires forall i :: 0 <= i < |sources| ==> WellFormed(sources[i].node)
    ensures PathsDistinct(Joined(Yields(env, sources), count))
  {
    if count == 0 {
    } else {
      JoinedDistinct(env, sources, count - 1);
      DistinctNext(env, sources, count - 1);
    }
  }

  lemma {:induction false} DistinctNext(env: Env, sources: seq<Source>, n: nat)
    requires LabelsDistinct(sources) && n < |sources| && WellFormed(sources[n].node)
    requires PathsDistinct(Joined(Yields(env, sources), n))
    ensures PathsDistinct(Joined(Yields(env, sources), n + 1))
  {
    YieldsNext(env, sources, n);
    OneSourceDistinct(env, sources[n]);
    NextSourceApart(env, sources, n);
    DistinctJoin(Joined(Yields(env, sources), n), SourceFiles(env, sources[n]));
  }

  /** No path is met twice, so that nothing is counted, archived or listed as left out twice. */
  lemma {:induction false} MetOnce(env: Env, sources: seq<Source>)
    requires Proper(sources)
    ensures PathsDistinct(AllFound(env, sources))
  {
    JoinedDistinct(env, sources, |sources|);
  }

  // ---------- staging ----------

  function Items(env: Env, sources: seq<Source>): seq<FileAt> {
    Chosen(AllFound(env, sources), |AllFound(env, sources)|)
  }

  lemma {:induction false} ItemsExactly(env: Env, sources: seq<Source>, f: FileAt)
    ensures f in Items(env, sources) <==> Stored(env, sources, f.path, f.content)
  {
    var found := AllFound(env, sources);
    ChosenPicks(found, |found|, f);
    assert found[..|found|] == found;
    AllPicks(env, sources, f.path, f.content, None);
  }

  lemma {:induction false} ItemsScattered(env: Env, sources: seq<Source>)
    requires Proper(sources)
    ensures Scattered(Items(env, sources)) && Fits(EMPTY, Items(env, sources))
  {
    var items := Items(env, sources);
    forall i, j | 0 <= i < |items| && 0 <= j < |items| ensures !Ancestor(items[i].path, items[j].path) {
      ItemsExactly(env, sources, items[i]);
      ItemsExactly(env, sources, items[j]);
      if Ancestor(items[i].path, items[j].path) {
        StoredOne(env, sources, items[i].path, items[j].path, items[i].content, items[j].content);
      }
    }
    forall i | 0 <= i < |items| ensures items[i].path !in EMPTY.dirs && !Blocked(EMPTY, items[i].path) {
      ItemsExactly(env, sources, items[i]);
    }
  }

  /** The files copied into the staging directory, before the manifest. */
  function Staged(env: Env, sources: seq<Source>): FileSystem {
    PutAll(Into, EMPTY, Items(env, sources), |Items(env, sources)|).0
  }

  lemma {:induction false} MapOfContent(items: seq<FileAt>, count: nat, p: Path, content: Bytes)
    requires count <= |items|
    requires forall i, j :: 0 <= i < |items| && 0 <= j < |items| && items[i].path == items[j].path ==>
             items[i].content == items[j].content
    ensures p in MapOf(items, count) && MapOf(items, count)[p] == content
            <==> exists i | 0 <= i < count :: items[i] == FileAt(p, content)
  {
    if count == 0 {
    } else {
      MapOfContent(items, count - 1, p, content);
      MapOfKeys(items, count - 1, p);
    }
  }

  /** Staging never fails, and holds exactly the chosen files under their labels. */
  lemma {:induction false} StagedExactly(env: Env, sources: seq<Source>, p: Path, content: Bytes)
    requires Proper(sources)
    ensures PutAll(Into, EMPTY, Items(env, sources), |Items(env, sources)|).1
    ensures p in Staged(env, sources).files && Staged(env, sources).files[p] == content
            <==> Stored(env, sources, p, content)
  {
    var items := Items(env, sources);
    ItemsScattered(env, sources);
    PutAllAdds(Into, EMPTY, items, |items|);
    forall i, j | 0 <= i < |items| && 0 <= j < |items| && items[i].path == items[j].path
      ensures items[i].content == items[j].content
    {
      ItemsExactly(env, sources, items[i]);
      ItemsExactly(env, sources, items[j]);
      StoredOne(env, sources, items[i].path, items[j].path, items[i].content, items[j].content);
    }
    MapOfContent(items, |items|, p, content);
    assert map[] + MapOf(items, |items|) == MapOf(items, |items|);
    ItemsExactly(env, sources, FileAt(p, content));
  }

  // ---------- inventory ----------

  /** Files named like the manifest are archived but not listed, wherever they are. */
  predicate Listed(p: Path) {
    p == [] || p[|p| - 1] != MANIFEST
  }

  function EntryFor(env: Env, files: map<Path, Bytes>, p: Path): Entry
    requires p in files
  {
    Entry(p, |files[p]|, env.sha256(files[p]))
  }

  predicate InOrder(files: map<Path, Bytes>, order: seq<Path>) {
    forall k :: 0 <= k < |order| ==> order[k] in files
  }

  lemma {:induction false} SortedInOrder(files: map<Path, Bytes>)
    ensures InOrder(files, Sorted(files.Keys))
  {
    forall k | 0 <= k < |Sorted(files.Keys)| ensures Sorted(files.Keys)[k] in files {
      SortedHolds(files.Keys, k);
    }
  }

  function EntriesOf(env: Env, files: map<Path, Bytes>, order: seq<Path>, count: nat): seq<Entry>
    requires InOrder(files, order) && count <= |order|
  {
    if count == 0 then []
    else
      EntriesOf(env, files, order, count - 1)
      + if Listed(order[count - 1]) then [EntryFor(env, files, order[count - 1])] else []
  }

  function InventoryOf(env: Env, files: map<Path, Bytes>): seq<Entry> {
    SortedInOrder(files);
    EntriesOf(env, files, Sorted(files.Keys), |Sorted(files.Keys)|)
  }

  method Inventory(env: Env, files: map<Path, Bytes>) returns (entries: seq<Entry>)
    ensures entries == InventoryOf(env, files)
  {
    var order := Sorted(files.Keys);
    SortedInOrder(files);
    entries := [];
    for k := 0 to |order|
      invariant entries == EntriesOf(env, files, order, k)
    {
      var p := order[k];
      if p == [] || p[|p| - 1] != MANIFEST {
        entries := entries + [Entry(p, |files[p]|, env.sha256(files[p]))];
      }
    }
  }

  lemma {:induction false} EntriesExactly(env: Env, files: map<Path, Bytes>, order: seq<Path>, count: nat, e: Entry)
    requires InOrder(files, order) && count <= |order|
    ensures e in EntriesOf(env, files, order, count)
            <==> exists k | 0 <= k < count :: Listed(order[k]) && e == EntryFor(env, files, order[k])
  {
    if count == 0 {
    } else {
      EntriesExactly(env, files, order, count - 1, e);
    }
  }

  lemma {:induction false} EntriesDistinct(env: Env, files: map<Path, Bytes>, order: seq<Path>, count: nat)
    requires InOrder(files, order) && count <= |order| && forall i, j :: 0 <= i < j < |order| ==> order[i] != order[j]
    ensures forall i, j :: 0 <= i < j < |EntriesOf(env, files, order, count)| ==>
              EntriesOf(env, files, order, count)[i].path != EntriesOf(env, files, order, count)[j].path
  {
    if count == 0 {
    } else {
      EntriesDistinct(env, files, order, count - 1);
      var before := EntriesOf(env, files, order, count - 1);
      forall i | 0 <= i < |before| ensures before[i].path != order[count - 1] {
        assert before[i] in before;
        EntriesExactly(env, files, order, count - 1, before[i]);
      }
    }
  }

  /** The inventory lists every file by size and digest, except those named like the manifest, none
      twice, in the order of the paths. */
  lemma {:induction false} InventoryExactly(env: Env, files: map<Path, Bytes>, e: Entry)
    ensures e in InventoryOf(env, files) <==>
            && e.path in files && (e.path == [] || e.path[|e.path| - 1] != "manifest.json")
            && e.size == |files[e.path]| && e.sha256 == env.sha256(files[e.path])
    ensures forall i, j :: 0 <= i < j < |InventoryOf(env, files)| ==>
            && InventoryOf(env, files)[i].path != InventoryOf(env, files)[j].path
            && AtMost(InventoryOf(env, files)[i].path, InventoryOf(env, files)[j].path)
  {
    ListedOnce(env, files);
    ListedInOrder(env, files);
    InventoryHolds(env, files, e);
  }

  lemma {:induction false} EntriesAscend(env: Env, files: map<Path, Bytes>, order: seq<Path>, count: nat)
    requires InOrder(files, order) && count <= |order|
    requires forall i, j :: 0 <= i < j < |order| ==> AtMost(order[i], order[j])
    ensures forall i, j :: 0 <= i < j < |EntriesOf(env, files, order, count)| ==>
              AtMost(EntriesOf(env, files, order, count)[i].path, EntriesOf(env, files, order, count)[j].path)
  {
    if count == 0 {
    } else {
      EntriesAscend(env, files, order, count - 1);
      var before := EntriesOf(env, files, order, count - 1);
      forall i | 0 <= i < |before| ensures AtMost(before[i].path, order[count - 1]) {
        assert before[i] in before;
        EntriesExactly(env, files, order, count - 1, before[i]);
      }
    }
  }

  lemma {:induction false} ListedInOrder(env: Env, files: map<Path, Bytes>)
    ensures forall i, j :: 0 <= i < j < |InventoryOf(env, files)| ==>
            AtMost(InventoryOf(env, files)[i].path, InventoryOf(env, files)[j].path)
  {
    var order := Sorted(files.Keys);
    SortedInOrder(files);
    forall i, j | 0 <= i < j < |order| ensures AtMost(order[i], order[j]) {
      SortedAscends(files.Keys, i, j);
    }
    EntriesAscend(env, files, order, |order|);
  }

  lemma {:induction false} ListedOnce(env: Env, files: map<Path, Bytes>)
    ensures forall i, j :: 0 <= i < j < |InventoryOf(env, files)| ==>
            InventoryOf(env, files)[i].path != InventoryOf(env, files)[j].path
  {
    var order := Sorted(files.Keys);
    SortedInOrder(files);
    forall i, j | 0 <= i < j < |order| ensures order[i] != order[j] {
      SortedDistinct(files.Keys, i, j);
    }
    EntriesDistinct(env, files, order, |order|);
  }

  lemma {:induction false} InventoryHolds(env: Env, files: map<Path, Bytes>, e: Entry)
    ensures e in InventoryOf(env, files) <==> e.path in files && Listed(e.path) && e == EntryFor(env, files, e.path)
  {
    var order := Sorted(files.Keys);
    SortedInOrder(files);
    EntriesExactly(env, files, order, |order|, e);
    if e.path in files {
      var k := SortedFinds(files.Keys, e.path);
    }
  }

  // ---------- the archive ----------

  datatype Content = Regular(data: Bytes) | Directory | SymbolicLink | HardLink | Special

  datatype Member = Member(absolute: bool, path: Path, content: Content)

  type Archive = seq<Member>

  function MembersOf(files: map<Path, Bytes>, order: seq<Path>, count: nat): Archive
    requires InOrder(files, order) && count <= |order|
  {
    if count == 0 then []
    else
      MembersOf(files, order, count - 1)
      + [Member(false, order[count - 1], Regular(files[order[count - 1]]))]
  }

  function Packed(files: map<Path, Bytes>): Archive {
    SortedInOrder(files);
    MembersOf(files, Sorted(files.Keys), |Sorted(files.Keys)|)
  }

  // ---------- verify_archive ----------

  predicate Unsafe(m: Member) {
    m.absolute || ".." in m.path || m.content.SymbolicLink? || m.content.HardLink?
  }

  datatype VerifyError =
    | UnsafeMember | ManifestMissing | ManifestUnreadable | UnsupportedSchema
    | MissingFile(path: Path) | IntegrityFailure(path: Path)

  /** The last member of that name. */
  function LastNamed(archive: Archive, p: Path, count: nat): Option<Content>
    requires count <= |archive|
  {
    if count == 0 then None
    else if !archive[count - 1].absolute && archive[count - 1].path == p then Some(archive[count - 1].content)
    else LastNamed(archive, p, count - 1)
  }

  /** The last regular file of that name. */
  function LastRegular(archive: Archive, p: Path, count: nat): Option<Bytes>
    requires count <= |archive|
  {
    if count == 0 then None
    else if !archive[count - 1].absolute && archive[count - 1].path == p && archive[count - 1].content.Regular? then
      Some(archive[count - 1].content.data)
    else LastRegular(archive, p, count - 1)
  }

  predicate EntryHolds(env: Env, data: Option<Bytes>, e: Entry) {
    data.Some? && env.sha256(data.value) == e.sha256 && |data.value| == e.size
  }

  function FirstBad(env: Env, archive: Archive, files: seq<Entry>, count: nat): Option<VerifyError>
    requires count <= |files|
  {
    if count == 0 then None
    else
      var earlier := FirstBad(env, archive, files, count - 1);
      if earlier.Some? then earlier
      else
        var e := files[count - 1];
        var data := LastRegular(archive, e.path, |archive|);
        if EntryHolds(env, data, e) then None
        else Some(if data.None? then MissingFile(e.path) else IntegrityFailure(e.path))
  }

  function ReadManifest(env: Env, archive: Archive): Result<Manifest, VerifyError> {
    match LastNamed(archive, MANIFEST_PATH, |archive|)
    case None => Failure(ManifestMissing)
    case Some(content) =>
      if !content.Regular? || env.parse(content.data).None? then Failure(ManifestUnreadable)
      else if env.parse(content.data).value.schemaVersion != SCHEMA_VERSION then Failure(UnsupportedSchema)
      else Success(env.parse(content.data).value)
  }

  predicate AnyUnsafe(archive: Archive) {
    exists k | 0 <= k < |archive| :: Unsafe(archive[k])
  }

  function Verified(env: Env, archive: Archive): Result<Manifest, VerifyError> {
    if AnyUnsafe(archive) then Failure(UnsafeMember)
    else
      match ReadManifest(env, archive)
      case Failure(e) => Failure(e)
      case Success(manifest) =>
        var bad := FirstBad(env, archive, manifest.files, |manifest.files|);
        if bad.Some? then Failure(bad.value) else Success(manifest)
  }

  lemma {:induction false} NoneBad(env: Env, archive: Archive, files: seq<Entry>, count: nat)
    requires count <= |files|
    ensures FirstBad(env, archive, files, count).None? <==>
            forall k | 0 <= k < count :: EntryHolds(env, LastRegular(archive, files[k].path, |archive|), files[k])
  {
    if count == 0 {
    } else {
      NoneBad(env, archive, files, count - 1);
    }
  }

  /** An archive is accepted exactly when every member is safe, its manifest can be read, and each
      file the manifest lists is there with its size and digest. */
  lemma {:induction false} AcceptedExactly(env: Env, archive: Archive)
    ensures Verified(env, archive).Success? <==>
            && (forall k | 0 <= k < |archive| :: !Unsafe(archive[k]))
            && ReadManifest(env, archive).Success?
            && (forall k | 0 <= k < |ReadManifest(env, archive).value.files| ::
                  EntryHolds(env, LastRegular(archive, ReadManifest(env, archive).value.files[k].path, |archive|),
                             ReadManifest(env, archive).value.files[k]))
    ensures Verified(env, archive).Success? ==> ReadManifest(env, archive) == Verified(env, archive)
  {
    if ReadManifest(env, archive).Success? {
      var files := ReadManifest(env, archive).value.files;
      NoneBad(env, archive, files, |files|);
    }
  }

  ghost predicate Named(m: Member, p: Path) {
    !m.absolute && m.path == p
  }

  /** Of several members of one name the last one counts. */
  lemma {:induction false} LastNamedExactly(archive: Archive, p: Path, count: nat)
    requires count <= |archive|
    ensures LastNamed(archive, p, count) == None <==> forall k :: 0 <= k < count ==> !Named(archive[k], p)
    ensures forall k | 0 <= k < count :: Named(archive[k], p) && (forall j :: k < j < count ==> !Named(archive[j], p))
                                         ==> LastNamed(archive, p, count) == Some(archive[k].content)
  {
    if count == 0 {
    } else {
      LastNamedExactly(archive, p, count - 1);
    }
  }

  ghost predicate RegularNamed(m: Member, p: Path) {
    Named(m, p) && m.content.Regular?
  }

  lemma {:induction false} LastRegularExactly(archive: Archive, p: Path, count: nat)
    requires count <= |archive|
    ensures LastRegular(archive, p, count) == None <==> forall k :: 0 <= k < count ==> !RegularNamed(archive[k], p)
    ensures forall k :: 0 <= k < count && RegularNamed(archive[k], p)
                        && (forall j :: k < j < count ==> !RegularNamed(archive[j], p)) ==>
              LastRegular(archive, p, count) == Some(archive[k].content.data)
  {
    if count == 0 {
    } else {
      LastRegularExactly(archive, p, count - 1);
    }
  }

  /** The first entry of the manifest that does not hold, and whether its file is missing. */
  ghost predicate FailsFirst(env: Env, archive: Archive, files: seq<Entry>, k: nat, missing: bool) {
    && k < |files|
    && (forall i | 0 <= i < k :: EntryHolds(env, LastRegular(archive, files[i].path, |archive|), files[i]))
    && !EntryHolds(env, LastRegular(archive, files[k].path, |archive|), files[k])
    && (missing <==> LastRegular(archive, files[k].path, |archive|) == None)
  }

  ghost predicate EntryFails(env: Env, archive: Archive, files: seq<Entry>, p: Path, missing: bool) {
    exists k: nat :: FailsFirst(env, archive, files, k, missing) && files[k].path == p
  }

  lemma {:induction false} FirstBadExactly(env: Env, archive: Archive, files: seq<Entry>, count: nat)
    requires count <= |files|
    ensures match FirstBad(env, archive, files, count)
            case None => true
            case Some(MissingFile(p)) => EntryFails(env, archive, files, p, true)
            case Some(IntegrityFailure(p)) => EntryFails(env, archive, files, p, false)
            case Some(_) => false
  {
    if count == 0 {
    } else {
      FirstBadExactly(env, archive, files, count - 1);
      NoneBad(env, archive, files, count - 1);
      var missing := LastRegular(archive, files[count - 1].path, |archive|).None?;
      if FirstBad(env, archive, files, count - 1).None? && FirstBad(env, archive, files, count).Some? {
        assert FailsFirst(env, archive, files, count - 1, missing);
      }
    }
  }

  /** What an archive is refused for, looked at in this order: an unsafe member, the manifest, and the
      first entry of the manifest that does not hold. */
  lemma {:induction false} RefusedExactly(env: Env, archive: Archive)
    requires Verified(env, archive).Failure?
    ensures var manifest := LastNamed(archive, ["manifest.json"], |archive|);
            var parsed := if manifest.Some? && manifest.value.Regular? then env.parse(manifest.value.data) else None;
            match Verified(env, archive).error
            case UnsafeMember => exists m :: m in archive && Suspicious(m)
            case ManifestMissing => NothingUnsafe(archive) && manifest == None
            case ManifestUnreadable => NothingUnsafe(archive) && manifest.Some? && parsed == None
            case UnsupportedSchema => NothingUnsafe(archive) && parsed.Some? && parsed.value.schemaVersion != "1.0"
            case MissingFile(p) =>
              && NothingUnsafe(archive) && parsed.Some? && parsed.value.schemaVersion == "1.0"
              && EntryFails(env, archive, parsed.value.files, p, true)
            case IntegrityFailure(p) =>
              && NothingUnsafe(archive) && parsed.Some? && parsed.value.schemaVersion == "1.0"
              && EntryFails(env, archive, parsed.value.files, p, false)
  {
    if AnyUnsafe(archive) {
      var k :| 0 <= k < |archive| && Unsafe(archive[k]);
      assert archive[k] in archive && Suspicious(archive[k]);
    } else {
      forall m | m in archive ensures !Suspicious(m) {
        var k :| 0 <= k < |archive| && archive[k] == m;
        assert !Unsafe(archive[k]);
      }
      if ReadManifest(env, archive).Success? {
        FirstBadExactly(env, archive, ReadManifest(env, archive).value.files,
                        |ReadManifest(env, archive).value.files|);
      }
    }
  }

  /** Outside the target directory, or a link. */
  ghost predicate Suspicious(m: Member) {
    || m.absolute || m.content == SymbolicLink || m.content == HardLink
    || exists k :: 0 <= k < |m.path| && m.path[k] == ".."
  }

  ghost predicate NothingUnsafe(archive: Archive) {
    forall m :: m in archive ==> !Suspicious(m)
  }

  method VerifyArchive(env: Env, archive: Archive) returns (r: Result<Manifest, VerifyError>)
    ensures r == Verified(env, archive)
  {
    for k := 0 to |archive|
      invariant forall i :: 0 <= i < k ==> !Unsafe(archive[i])
    {
      var m := archive[k];
      if m.absolute || ".." in m.path || m.content.SymbolicLink? || m.content.HardLink? {
        assert Unsafe(archive[k]);
        return Failure(UnsafeMember);
      }
    }
    var read := ReadManifest(env, archive);
    if read.Failure? {
      return Failure(read.error);
    }
    var memberMap := RegularMembers(archive);
    r := CheckEntries(env, archive, read.value, memberMap);
  }

  ghost predicate MapsRegular(archive: Archive, count: nat, memberMap: map<Path, Bytes>)
    requires count <= |archive|
  {
    forall p :: LastRegular(archive, p, count) == if p in memberMap then Some(memberMap[p]) else None
  }

  /** `member_map`: regular files by name, the last one of a name. */
  method RegularMembers(archive: Archive) returns (memberMap: map<Path, Bytes>)
    requires forall k :: 0 <= k < |archive| ==> !archive[k].absolute
    ensures MapsRegular(archive, |archive|, memberMap)
  {
    memberMap := map[];
    for k := 0 to |archive|
      invariant MapsRegular(archive, k, memberMap)
    {
      if archive[k].content.Regular? {
        memberMap := memberMap[archive[k].path := archive[k].content.data];
      }
    }
  }

  method CheckEntries(
      env: Env, archive: Archive, manifest: Manifest, memberMap: map<Path, Bytes>)
    returns (r: Result<Manifest, VerifyError>)
    requires MapsRegular(archive, |archive|, memberMap)
    ensures var bad := FirstBad(env, archive, manifest.files, |manifest.files|);
            r == if bad.Some? then Failure(bad.value) else Success(manifest)
  {
    for k := 0 to |manifest.files|
      invariant FirstBad(env, archive, manifest.files, k) == None
    {
      var e := manifest.files[k];
      if e.path !in memberMap {
        FirstBadStays(env, archive, manifest.files, k + 1, |manifest.files|);
        return Failure(MissingFile(e.path));
      }
      var data := memberMap[e.path];
      if env.sha256(data) != e.sha256 || |data| != e.size {
        FirstBadStays(env, archive, manifest.files, k + 1, |manifest.files|);
        return Failure(IntegrityFailure(e.path));
      }
    }
    r := Success(manifest);
  }

  lemma {:induction false} FirstBadStays(env: Env, archive: Archive, files: seq<Entry>, k: nat, count: nat)
    requires k <= count <= |files| && FirstBad(env, archive, files, k).Some?
    ensures FirstBad(env, archive, files, count) == FirstBad(env, archive, files, k)
  {
    if k == count {
    } else {
      FirstBadStays(env, archive, files, k, count - 1);
    }
  }

  // ---------- create_backup ----------

  function Tags(sources: seq<Source>): seq<string> {
    seq(|sources|, i requires 0 <= i < |sources| => sources[i].tag)
  }

  function ManifestFor(env: Env, sources: seq<Source>): Manifest {
    Manifest(SCHEMA_VERSION, Tags(sources), LeftOut(AllFound(env, sources), |AllFound(env, sources)|),
             InventoryOf(env, Staged(env, sources).files))
  }

  /** Everything in the staging directory when it is archived. */
  function Archived(env: Env, sources: seq<Source>): map<Path, Bytes> {
    Staged(env, sources).files[MANIFEST_PATH := env.render(ManifestFor(env, sources))]
  }

  function ArchiveFor(env: Env, sources: seq<Source>): Archive {
    Packed(Archived(env, sources))
  }

  lemma {:induction false} MembersFound(files: map<Path, Bytes>, order: seq<Path>, count: nat, p: Path)
    requires InOrder(files, order) && count <= |order|
    ensures var archive := MembersOf(files, order, count);
            && |archive| == count
            && LastRegular(archive, p, count) == (if p in order[..count] then Some(files[p]) else None)
            && LastNamed(archive, p, count) == (if p in order[..count] then Some(Regular(files[p])) else None)
  {
    if count == 0 {
    } else {
      MembersFound(files, order, count - 1, p);
      assert order[..count] == order[..count - 1] + [order[count - 1]];
      var before := MembersOf(files, order, count - 1);
      PrefixFound(before, MembersOf(files, order, count), count - 1, p);
    }
  }

  lemma {:induction false} PrefixFound(before: Archive, archive: Archive, count: nat, p: Path)
    requires count <= |before| <= |archive| && before[..count] == archive[..count]
    ensures LastRegular(before, p, count) == LastRegular(archive, p, count)
            && LastNamed(before, p, count) == LastNamed(archive, p, count)
  {
    if count == 0 {
    } else {
      assert before[count - 1] == before[..count][count - 1] == archive[..count][count - 1];
      assert before[..count - 1] == before[..count][..count - 1] == archive[..count][..count - 1]
          == archive[..count - 1];
      PrefixFound(before, archive, count - 1, p);
    }
  }

  /** A packed directory has one member for each file, with its content. */
  lemma {:induction false} PackedFound(files: map<Path, Bytes>, p: Path)
    ensures var archive := Packed(files);
            && LastRegular(archive, p, |archive|) == (if p in files then Some(files[p]) else None)
            && LastNamed(archive, p, |archive|) == (if p in files then Some(Regular(files[p])) else None)
  {
    var order := Sorted(files.Keys);
    SortedInOrder(files);
    MembersFound(files, order, |order|, p);
    assert order[..|order|] == order;
    if p in files {
      var k := SortedFinds(files.Keys, p);
    }
  }

  lemma {:induction false} PackedMember(files: map<Path, Bytes>, order: seq<Path>, count: nat, k: nat)
    requires InOrder(files, order) && k < count <= |order|
    ensures |MembersOf(files, order, count)| == count
    ensures MembersOf(files, order, count)[k] == Member(false, order[k], Regular(files[order[k]]))
  {
    if k < count - 1 {
      PackedMember(files, order, count - 1, k);
    } else if count > 1 {
      PackedMember(files, order, count - 1, 0);
    }
  }

  lemma {:induction false} ArchivedSafe(env: Env, sources: seq<Source>)
    requires Proper(sources)
    ensures forall k :: 0 <= k < |ArchiveFor(env, sources)| ==> !Unsafe(ArchiveFor(env, sources)[k])
  {
    var files := Archived(env, sources);
    var order := Sorted(files.Keys);
    SortedInOrder(files);
    forall k | 0 <= k < |ArchiveFor(env, sources)| ensures !Unsafe(ArchiveFor(env, sources)[k]) {
      if order != [] {
        PackedMember(files, order, |order|, 0);
        PackedMember(files, order, |order|, k);
        ArchivedName(env, sources, order[k]);
      }
    }
  }

  lemma {:induction false} ArchivedName(env: Env, sources: seq<Source>, p: Path)
    requires Proper(sources) && p in Archived(env, sources)
    ensures ".." !in p
  {
    if p != MANIFEST_PATH {
      StagedExactly(env, sources, p, Staged(env, sources).files[p]);
      StoredNames(env, sources, p, Staged(env, sources).files[p]);
    }
  }

  lemma {:induction false} ManifestNotStaged(env: Env, sources: seq<Source>)
    requires Proper(sources)
    ensures MANIFEST_PATH !in Staged(env, sources).files
  {
    if MANIFEST_PATH in Staged(env, sources).files {
      StagedExactly(env, sources, MANIFEST_PATH, Staged(env, sources).files[MANIFEST_PATH]);
    }
  }

  /** `verify_archive` accepts every archive `create_backup` writes, and reads its manifest. */
  lemma {:induction false} CreatedIsAccepted(env: Env, sources: seq<Source>)
    requires Proper(sources) && RoundTrips(env)
    ensures Verified(env, ArchiveFor(env, sources)) == Success(ManifestFor(env, sources))
  {
    var archive, manifest := ArchiveFor(env, sources), ManifestFor(env, sources);
    var staged, files := Staged(env, sources).files, Archived(env, sources);
    ArchivedSafe(env, sources);
    PackedFound(files, MANIFEST_PATH);
    assert env.parse(env.render(manifest)) == Some(manifest);
    assert ReadManifest(env, archive) == Success(manifest);
    ManifestNotStaged(env, sources);
    forall k | 0 <= k < |manifest.files|
      ensures EntryHolds(env, LastRegular(archive, manifest.files[k].path, |archive|), manifest.files[k])
    {
      var e := manifest.files[k];
      assert e in manifest.files;
      InventoryExactly(env, staged, e);
      PackedFound(files, e.path);
    }
    NoneBad(env, archive, manifest.files, |manifest.files|);
  }

  // ---------- alterations of an archive ----------

  ghost predicate NamesDistinct(archive: Archive) {
    && (forall i :: 0 <= i < |archive| ==> !archive[i].absolute)
    && (forall i, j :: 0 <= i < j < |archive| ==> archive[i].path != archive[j].path)
  }

  /** One member gets another content. */
  function Altered(archive: Archive, k: nat, content: Content): Archive
    requires k < |archive|
  {
    archive[k := archive[k].(content := content)]
  }

  function DataOf(content: Content): Option<Bytes> {
    if content.Regular? then Some(content.data) else None
  }

  lemma {:induction false} AlteredFound(archive: Archive, k: nat, content: Content, p: Path, count: nat)
    requires NamesDistinct(archive) && k < |archive| && count <= |archive|
    ensures LastRegular(Altered(archive, k, content), p, count) ==
            if k < count && p == archive[k].path then DataOf(content) else LastRegular(archive, p, count)
    ensures p != archive[k].path ==> LastNamed(Altered(archive, k, content), p, count) == LastNamed(archive, p, count)
  {
    if count == 0 {
    } else {
      AlteredFound(archive, k, content, p, count - 1);
      if k == count - 1 && p == archive[k].path {
        NotNamedBefore(archive, k, k);
        AlteredFound(archive, k, content, p, k);
      }
    }
  }

  lemma {:induction false} NotNamedBefore(archive: Archive, k: nat, count: nat)
    requires NamesDistinct(archive) && count <= k < |archive|
    ensures LastRegular(archive, archive[k].path, count) == None
  {
    if count == 0 {
    } else {
      NotNamedBefore(archive, k, count - 1);
      assert archive[count - 1].path != archive[k].path;
    }
  }

  lemma {:induction false} PackedDistinct(files: map<Path, Bytes>)
    ensures |Packed(files)| == |files.Keys| && NamesDistinct(Packed(files))
    ensures forall k :: 0 <= k < |Packed(files)| ==>
              var m := Packed(files)[k];
              m.path in files && m.content == Regular(files[m.path])
  {
    var order := Sorted(files.Keys);
    SortedInOrder(files);
    if order != [] {
      forall k | 0 <= k < |order|
        ensures |Packed(files)| == |order| && Packed(files)[k] == Member(false, order[k], Regular(files[order[k]]))
      {
        PackedMember(files, order, |order|, k);
      }
      forall i, j | 0 <= i < j < |order| ensures order[i] != order[j] {
        SortedDistinct(files.Keys, i, j);
      }
    }
  }

  /** Nothing but the altered member decides. */
  lemma {:induction false} AlteredEntries(
      env: Env, archive: Archive, files: seq<Entry>, k: nat, content: Content, count: nat)
    requires NamesDistinct(archive) && k < |archive| && count <= |files| && FirstBad(env, archive, files, count).None?
    ensures FirstBad(env, Altered(archive, k, content), files, count).None? <==>
            forall i | 0 <= i < count :: files[i].path == archive[k].path ==> EntryHolds(env, DataOf(content), files[i])
  {
    if count == 0 {
    } else {
      AlteredEntries(env, archive, files, k, content, count - 1);
      AlteredFound(archive, k, content, files[count - 1].path, |archive|);
    }
  }

  lemma {:induction false} AlteredUnsafe(archive: Archive, k: nat, content: Content)
    requires k < |archive| && !AnyUnsafe(archive)
    ensures AnyUnsafe(Altered(archive, k, content)) <==> content.SymbolicLink? || content.HardLink?
  {
    var altered := Altered(archive, k, content);
    assert Unsafe(altered[k]) <==> content.SymbolicLink? || content.HardLink? by {
      assert !Unsafe(archive[k]);
    }
    forall i | 0 <= i < |archive| && i != k ensures !Unsafe(altered[i]) {
      assert altered[i] == archive[i] && !Unsafe(archive[i]);
    }
  }

  lemma {:induction false} AlteredAccepted(env: Env, archive: Archive, k: nat, content: Content)
    requires NamesDistinct(archive) && Verified(env, archive).Success?
    requires k < |archive| && archive[k].path != MANIFEST_PATH
    ensures var files := Verified(env, archive).value.files;
            Verified(env, Altered(archive, k, content)).Success? <==>
            && !content.SymbolicLink? && !content.HardLink?
            && (forall i | 0 <= i < |files| :: files[i].path == archive[k].path ==>
                EntryHolds(env, DataOf(content), files[i]))
  {
    var files := Verified(env, archive).value.files;
    AlteredUnsafe(archive, k, content);
    AlteredFound(archive, k, content, MANIFEST_PATH, |archive|);
    assert ReadManifest(env, Altered(archive, k, content)) == ReadManifest(env, archive);
    AlteredEntries(env, archive, files, k, content, |files|);
  }

  /** An archive that was written is still accepted after one of its members other than the
      manifest got another content exactly when the member is no link now and either is not listed
      in the manifest or is a file of the same size and digest. */
  lemma {:induction false} AlterationAcceptedExactly(env: Env, sources: seq<Source>, k: nat, content: Content)
    requires Proper(sources) && RoundTrips(env)
    requires k < |ArchiveFor(env, sources)| && ArchiveFor(env, sources)[k].path != MANIFEST_PATH
    ensures var archive := ArchiveFor(env, sources);
            var m := archive[k];
            && m.content.Regular?
            && (Verified(env, Altered(archive, k, content)).Success? <==>
                  && !content.SymbolicLink? && !content.HardLink?
                  && (m.path == [] || m.path[|m.path| - 1] != "manifest.json" ==>
                        SameFile(env, m.content.data, content)))
  {
    var archive := ArchiveFor(env, sources);
    CreatedIsAccepted(env, sources);
    PackedDistinct(Archived(env, sources));
    AlteredAccepted(env, archive, k, content);
    EntriesNamed(env, sources, archive[k].path, DataOf(content));
    EntryOf(env, Archived(env, sources), archive[k].path, content);
  }

  /** A file of the same size and digest. */
  ghost predicate SameFile(env: Env, data: Bytes, content: Content) {
    content.Regular? && |content.data| == |data| && env.sha256(content.data) == env.sha256(data)
  }

  lemma {:induction false} EntryOf(env: Env, files: map<Path, Bytes>, p: Path, content: Content)
    requires p in files
    ensures EntryHolds(env, DataOf(content), EntryFor(env, files, p)) <==> SameFile(env, files[p], content)
  {
  }

  /** The manifest's entries for one path, all of them met by the same data. */
  lemma {:induction false} EntriesNamed(env: Env, sources: seq<Source>, p: Path, data: Option<Bytes>)
    requires p != MANIFEST_PATH && p in Archived(env, sources)
    ensures var files := ManifestFor(env, sources).files;
            (forall i | 0 <= i < |files| :: files[i].path == p ==> EntryHolds(env, data, files[i])) <==>
            (Listed(p) ==> EntryHolds(env, data, EntryFor(env, Archived(env, sources), p)))
  {
    var files, staged := ManifestFor(env, sources).files, Staged(env, sources).files;
    forall i | 0 <= i < |files| && files[i].path == p ensures Listed(p) && files[i] == EntryFor(env, staged, p) {
      assert files[i] in files;
      InventoryHolds(env, staged, files[i]);
    }
    if Listed(p) {
      InventoryHolds(env, staged, EntryFor(env, staged, p));
      assert EntryFor(env, staged, p) in files;
    }
  }

  datatype BackupError = OutputInsideSource | RetentionNotPositive | BackupExists

  /** A dry run has no archive. */
  datatype Summary = Summary(selected: nat, excluded: seq<Exclusion>, archive: Option<Archive>, archivedFiles: nat)

  predicate InsideSource(output: Path, source: Source) {
    source.node.Dir? && (output == source.location || Ancestor(source.location, output))
  }

  /** Backups are never written into a directory that is backed up, at any depth. */
  lemma {:induction false} InsideExactly(output: Path, source: Source)
    ensures InsideSource(output, source) <==> source.node.Dir? && source.location <= output
  {
  }

  /** `taken`: an archive of this second exists already. */
  method CreateBackup(env: Env, output: Path, sources: seq<Source>, retentionDays: int, dryRun: bool, taken: bool)
    returns (r: Result<Summary, BackupError>)
    requires Proper(sources) && RoundTrips(env)
    ensures r == Failure(OutputInsideSource) <==> exists i | 0 <= i < |sources| :: InsideSource(output, sources[i])
    ensures r == Failure(RetentionNotPositive)
            <==> retentionDays < 1 && forall i :: 0 <= i < |sources| ==> !InsideSource(output, sources[i])
    ensures r == Failure(BackupExists) <==>
            retentionDays >= 1 && !dryRun && taken && forall i :: 0 <= i < |sources| ==>
                !InsideSource(output, sources[i])
    ensures r.Success? ==>
              && r.value.selected == |Items(env, sources)|
              && r.value.excluded == LeftOut(AllFound(env, sources), |AllFound(env, sources)|)
              && r.value.archive == (if dryRun then None else Some(ArchiveFor(env, sources)))
              && r.value.archivedFiles == (if dryRun then 0 else |ManifestFor(env, sources).files|)
    ensures r.Success? && !dryRun ==> Verified(env, r.value.archive.value) == Success(ManifestFor(env, sources))
  {
    for k := 0 to |sources|
      invariant forall i :: 0 <= i < k ==> !InsideSource(output, sources[i])
    {
      if InsideSource(output, sources[k]) {
        return Failure(OutputInsideSource);
      }
    }
    if retentionDays < 1 {
      return Failure(RetentionNotPositive);
    }
    var selected, exclusions := SelectFiles(env, sources);
    if dryRun {
      return Success(Summary(|selected|, exclusions, None, 0));
    }
    if taken {
      return Failure(BackupExists);
    }
    var staging := StageFiles(env, sources, selected);
    var files := Inventory(env, staging.files);
    var manifest := Manifest(SCHEMA_VERSION, Tags(sources), exclusions, files);
    var archive := PackArchive(staging.files[MANIFEST_PATH := env.render(manifest)]);
    CreatedIsAccepted(env, sources);
    var checked := VerifyArchive(env, archive);
    r := Success(Summary(|selected|, exclusions, Some(archive), |files|));
  }

  method SelectFiles(env: Env, sources: seq<Source>) returns (selected: seq<FileAt>, exclusions: seq<Exclusion>)
    ensures selected == Items(env, sources)
    ensures exclusions == LeftOut(AllFound(env, sources), |AllFound(env, sources)|)
  {
    var found := FindFiles(env, sources);
    selected, exclusions := [], [];
    for k := 0 to |found|
      invariant selected == Chosen(found, k) && exclusions == LeftOut(found, k)
    {
      if found[k].reason.Some? {
        exclusions := exclusions + [Exclusion(found[k].path, found[k].reason.value)];
      } else {
        selected := selected + [FileAt(found[k].path, found[k].content)];
      }
    }
  }

  method FindFiles(env: Env, sources: seq<Source>) returns (found: seq<Found>)
    ensures found == AllFound(env, sources)
  {
    found := [];
    for k := 0 to |sources|
      invariant found == Joined(Yields(env, sources), k)
    {
      var next := IterSourceFiles(env, sources[k]);
      YieldsNext(env, sources, k);
      found := found + next;
    }
  }

  lemma {:induction false} YieldsNext(env: Env, sources: seq<Source>, k: nat)
    requires k < |sources|
    ensures Joined(Yields(env, sources), k + 1) == Joined(Yields(env, sources), k) + SourceFiles(env, sources[k])
  {
  }

  /** Every copy into the staging directory succeeds. */
  method StageFiles(env: Env, sources: seq<Source>, selected: seq<FileAt>) returns (staging: FileSystem)
    requires Proper(sources) && selected == Items(env, sources)
    ensures staging == Staged(env, sources)
  {
    ItemsScattered(env, sources);
    staging := EMPTY;
    for k := 0 to |selected|
      invariant PutAll(Into, EMPTY, selected, k) == (staging, true)
    {
      PutAllAdds(Into, EMPTY, selected, k);
      PutNext(Into, EMPTY, selected, k, staging);
      staging := Copy(staging, selected[k].path, selected[k].content).value;
    }
  }

  method PackArchive(files: map<Path, Bytes>) returns (archive: Archive)
    ensures archive == Packed(files)
  {
    var order := Sorted(files.Keys);
    SortedInOrder(files);
    archive := [];
    for k := 0 to |order|
      invariant archive == MembersOf(files, order, k)
    {
      archive := archive + [Member(false, order[k], Regular(files[order[k]]))];
    }
  }
}

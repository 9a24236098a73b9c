/** File paths as lists of names, their order, and a file system of regular files and directories.

    This is what the backup and restore scripts write to (scripts/backup.py,
    scripts/restore.py). */
module Paths {
  import opened Basics
  import opened Wrappers

  type Path = seq<string>
  type Bytes = seq<bv8>

  predicate Ancestor(q: Path, p: Path) {
    |q| < |p| && p[..|q|] == q
  }

  // ---------- the order of paths ----------

  /** Name by name, as `sorted` compares paths. */
  predicate AtMost(p: Path, q: Path) {
    p == [] || (q != [] && if p[0] == q[0] then AtMost(p[1..], q[1..]) else NameAtMost(p[0], q[0]))
  }

  /** A path comes before what lies below it, and otherwise the first name that differs decides. */
  lemma {:induction false} PathOrder(p: Path, q: Path, n: nat)
    requires n <= |p| && n <= |q| && p[..n] == q[..n]
    ensures n == |p| ==> AtMost(p, q)
    ensures n == |q| < |p| ==> !AtMost(p, q)
    ensures n < |p| && n < |q| && p[n] != q[n] ==> (AtMost(p, q) <==> NameAtMost(p[n], q[n]))
  {
    if n > 0 {
      assert p[0] == p[..n][0] == q[..n][0] == q[0];
      assert p[1..][..n - 1] == p[..n][1..] == q[..n][1..] == q[1..][..n - 1];
      PathOrder(p[1..], q[1..], n - 1);
    }
  }

  lemma {:induction false} Total(p: Path, q: Path)
    ensures AtMost(p, q) || AtMost(q, p)
  {
    if p != [] && q != [] {
      if p[0] == q[0] {
        Total(p[1..], q[1..]);
      } else {
        NameTotal(p[0], q[0]);
      }
    }
  }

  lemma {:induction false} Antisymmetric(p: Path, q: Path)
    requires AtMost(p, q) && AtMost(q, p)
    ensures p == q
  {
    if p == [] {
    } else {
      if p[0] != q[0] {
        NamesAntisymmetric(p[0], q[0]);
      } else {
        Antisymmetric(p[1..], q[1..]);
        assert p == [p[0]] + p[1..] && q == [q[0]] + q[1..];
      }
    }
  }

  lemma {:induction false} Transitive(p: Path, q: Path, r: Path)
    requires AtMost(p, q) && AtMost(q, r)
    ensures AtMost(p, r)
  {
    if p == [] {
    } else {
      if p[0] == q[0] && q[0] == r[0] {
        Transitive(p[1..], q[1..], r[1..]);
      } else if p[0] != q[0] && q[0] != r[0] {
        NameTransitive(p[0], q[0], r[0]);
        if p[0] == r[0] {
          NamesAntisymmetric(p[0], q[0]);
        }
      }
    }
  }

  predicate IsLeast(m: Path, s: set<Path>) {
    m in s && forall p :: p in s ==> AtMost(m, p)
  }

  lemma {:induction false} LeastExists(s: set<Path>)
    requires s != {}
    ensures exists m :: IsLeast(m, s)
    decreases |s|
  {
    var p :| p in s;
    var rest := s - {p};
    Total(p, p);
    if rest == {} {
      assert s == {p};
      assert IsLeast(p, s);
    } else {
      LeastExists(rest);
      var m :| IsLeast(m, rest);
      Total(p, m);
      if AtMost(m, p) {
        assert IsLeast(m, s);
      } else {
        forall q | q in s ensures AtMost(p, q) {
          if q != p {
            Transitive(p, m, q);
          }
        }
        assert IsLeast(p, s);
      }
    }
  }

  function Least(s: set<Path>): (m: Path)
    requires s != {}
    ensures IsLeast(m, s)
  {
    LeastExists(s);
    assert forall m, n :: IsLeast(m, s) && IsLeast(n, s) ==> m == n by {
      forall m, n | IsLeast(m, s) && IsLeast(n, s) ensures m == n { Antisymmetric(m, n); }
    }
    var m :| IsLeast(m, s);
    m
  }

  /** The paths in ascending order. */
  function Sorted(s: set<Path>): (order: seq<Path>)
    ensures |order| == |s|
    decreases |s|
  {
    if s == {} then []
    else
      var m := Least(s);
      [m] + Sorted(s - {m})
  }

  lemma {:induction false} SortedHolds(s: set<Path>, k: nat)
    requires k < |s|
    ensures Sorted(s)[k] in s
    decreases k
  {
    if k == 0 {
    } else {
      SortedHolds(s - {Least(s)}, k - 1);
    }
  }

  lemma {:induction false} SortedFinds(s: set<Path>, p: Path) returns (k: nat)
    requires p in s
    ensures k < |s| && Sorted(s)[k] == p
    decreases |s|
  {
    if p == Least(s) {
      k := 0;
    } else {
      k := SortedFinds(s - {Least(s)}, p);
      k := k + 1;
    }
  }

  lemma {:induction false} SortedDistinct(s: set<Path>, i: nat, j: nat)
    requires i < j < |s|
    ensures Sorted(s)[i] != Sorted(s)[j]
    decreases i
  {
    var rest := s - {Least(s)};
    if i == 0 {
      SortedHolds(rest, j - 1);
    } else {
      SortedDistinct(rest, i - 1, j - 1);
    }
  }

  lemma {:induction false} SortedAscends(s: set<Path>, i: nat, j: nat)
    requires i < j < |s|
    ensures AtMost(Sorted(s)[i], Sorted(s)[j])
    decreases i
  {
    var rest := s - {Least(s)};
    if i == 0 {
      SortedHolds(rest, j - 1);
    } else {
      SortedAscends(rest, i - 1, j - 1);
    }
  }

  // ---------- files and directories ----------

  datatype FileSystem = FileSystem(files: map<Path, Bytes>, dirs: set<Path>)

  const EMPTY := FileSystem(map[], {[]})

  predicate Exists(fs: FileSystem, p: Path) {
    p in fs.files || p in fs.dirs
  }

  /** A directory above the path cannot be made, because a file is there. */
  predicate Blocked(fs: FileSystem, p: Path) {
    exists i | 0 <= i < |p| :: p[..i] in fs.files
  }

  function Above(p: Path): set<Path> {
    set i | 0 <= i < |p| :: p[..i]
  }

  /** Makes the directories above the path and writes the file. */
  function Write(fs: FileSystem, p: Path, content: Bytes): Option<FileSystem> {
    if Blocked(fs, p) || p in fs.dirs then None
    else Some(FileSystem(fs.files[p := content], fs.dirs + Above(p)))
  }

  /** `shutil.copy2` instead puts the file into a directory that has its name. */
  function Copy(fs: FileSystem, p: Path, content: Bytes): Option<FileSystem> {
    if p != [] && p in fs.dirs && !Blocked(fs, p) then Write(fs, p + [p[|p| - 1]], content) else Write(fs, p, content)
  }

  datatype FileAt = FileAt(path: Path, content: Bytes)

  /** `Into` copies, `Onto` opens the file for writing. */
  datatype Mode = Into | Onto

  function Put(mode: Mode, fs: FileSystem, p: Path, content: Bytes): Option<FileSystem> {
    if mode == Into then Copy(fs, p, content) else Write(fs, p, content)
  }

  /** The first `count` items in turn; the first failure ends it, and leaves what was written. */
  function PutAll(mode: Mode, fs: FileSystem, items: seq<FileAt>, count: nat): (FileSystem, bool)
    requires count <= |items|
  {
    if count == 0 then (fs, true)
    else
      var (before, ok) := PutAll(mode, fs, items, count - 1);
      if !ok then (before, false)
      else
        match Put(mode, before, items[count - 1].path, items[count - 1].content)
        case None => (before, false)
        case Some(after) => (after, true)
  }

  /** The items as a map; a later one replaces an earlier one at the same path. */
  function MapOf(items: seq<FileAt>, count: nat): map<Path, Bytes>
    requires count <= |items|
  {
    if count == 0 then map[] else MapOf(items, count - 1)[items[count - 1].path := items[count - 1].content]
  }

  /** No item lies below another one. */
  ghost predicate Scattered(items: seq<FileAt>) {
    forall i, j :: 0 <= i < |items| && 0 <= j < |items| ==> !Ancestor(items[i].path, items[j].path)
  }

  /** Room for every item: no directory has its path, and no file is above it. */
  ghost predicate Fits(fs: FileSystem, items: seq<FileAt>) {
    forall i :: 0 <= i < |items| ==> items[i].path !in fs.dirs && !Blocked(fs, items[i].path)
  }

  /** After `count` items: exactly they were added to the files, and only directories above them
      to the directories. */
  ghost predicate Added(fs: FileSystem, items: seq<FileAt>, count: nat, fs': FileSystem)
    requires count <= |items|
  {
    && fs'.files == fs.files + MapOf(items, count)
    && fs.dirs <= fs'.dirs
    && (forall d :: d in fs'.dirs ==> d in fs.dirs || AboveSome(items, count, d))
  }

  ghost predicate AboveSome(items: seq<FileAt>, count: nat, d: Path)
    requires count <= |items|
  {
    exists i | 0 <= i < count :: Ancestor(d, items[i].path)
  }

  lemma {:induction false} MapOfKeys(items: seq<FileAt>, count: nat, p: Path)
    requires count <= |items|
    ensures p in MapOf(items, count) <==> exists i | 0 <= i < count :: items[i].path == p
  {
    if count == 0 {
    } else {
      MapOfKeys(items, count - 1, p);
    }
  }

  lemma {:induction false} StillRoom(fs: FileSystem, items: seq<FileAt>, count: nat, fs': FileSystem, k: nat)
    requires Scattered(items) && Fits(fs, items) && count <= |items| && Added(fs, items, count, fs') && k < |items|
    ensures items[k].path !in fs'.dirs && !Blocked(fs', items[k].path)
  {
    var p := items[k].path;
    forall i | 0 <= i < |p| ensures p[..i] !in fs'.files {
      MapOfKeys(items, count, p[..i]);
      assert Ancestor(p[..i], p);
    }
  }

  lemma {:induction false} PutNext(mode: Mode, fs: FileSystem, items: seq<FileAt>, count: nat, before: FileSystem)
    requires Scattered(items) && Fits(fs, items) && count < |items| && Added(fs, items, count, before)
    ensures Put(mode, before, items[count].path, items[count].content).Some?
    ensures Added(fs, items, count + 1, Put(mode, before, items[count].path, items[count].content).value)
  {
    StillRoom(fs, items, count, before, count);
    var p := items[count].path;
    var after := Put(mode, before, p, items[count].content).value;
    assert after == FileSystem(before.files[p := items[count].content], before.dirs + Above(p));
    forall d | d in after.dirs ensures d in fs.dirs || AboveSome(items, count + 1, d) {
      if d in before.dirs {
        if d !in fs.dirs {
          assert AboveSome(items, count, d);
        }
      } else {
        assert Ancestor(d, items[count].path);
      }
    }
  }

  /** With room for every item, all are written, whichever way. */
  lemma {:induction false} PutAllAdds(mode: Mode, fs: FileSystem, items: seq<FileAt>, count: nat)
    requires Scattered(items) && Fits(fs, items) && count <= |items|
    ensures PutAll(mode, fs, items, count).1 && Added(fs, items, count, PutAll(mode, fs, items, count).0)
  {
    if count == 0 {
      assert fs.files + map[] == fs.files;
    } else {
      PutAllAdds(mode, fs, items, count - 1);
      PutNext(mode, fs, items, count - 1, PutAll(mode, fs, items, count - 1).0);
    }
  }
}

/** How the server watcher lists a remote tree (backend/app/services/watcher.py).

    A stack of directories takes the place of recursion, with a bound on the depth and a cap on
    the number of files. */
module Traversal {
  import opened Basics

  /** What a directory entry is; links and devices are `Other`. */
  datatype Node =
    | File(name: string, size: nat, mtime: int)
    | Dir(name: string, entries: seq<Node>)
    | Other(name: string)

  datatype Recording = Recording(path: string, name: string, size: nat, mtime: int)

  /** A directory still to be read. */
  datatype Pending = Pending(path: string, entries: seq<Node>, depth: nat)

  /** `allowed` decides a file by its name, that is by its suffix. */
  datatype Limits = Limits(maxDepth: nat, cap: nat, allowed: string -> bool)

  /** Anything else is skipped: the entry would lead out of the directory. */
  predicate Plain(name: string) {
    name != "." && name != ".." && '/' !in name
  }

  function Join(path: string, name: string): string {
    if path == "" || path[|path| - 1] == '/' then path + name else path + "/" + name
  }

  /** Exactly one slash stands between a directory and a name in it, a new one where there was none. */
  lemma {:induction false} JoinExactly(path: string, name: string)
    ensures path <= Join(path, name) && |name| <= |Join(path, name)|
    ensures var joined := Join(path, name);
            && joined[|joined| - |name|..] == name
            && joined[|path|..|joined| - |name|]
               == if path != "" && path[|path| - 1] != '/' then "/" else ""
  {
    var joined := Join(path, name);
    if path != "" && path[|path| - 1] != '/' {
      assert joined[|path|..|joined| - |name|] == "/";
    }
  }

  // ---------- the recursive listing ----------

  function Listed(path: string, node: Node, depth: nat, limits: Limits): multiset<Recording>
    decreases node, 0
  {
    if !Plain(node.name) then multiset{}
    else
      match node
      case File(name, size, mtime) => if limits.allowed(name)
          then multiset{Recording(Join(path, name), name, size, mtime)} else multiset{}
      case Dir(name, entries) => if depth < limits.maxDepth
          then Listing(Join(path, name), entries, depth + 1, limits, |entries|) else multiset{}
      case Other(_) => multiset{}
  }

  /** The first `count` entries of a directory, with all they contain. */
  function Listing(path: string, entries: seq<Node>, depth: nat, limits: Limits, count: nat): multiset<Recording>
    requires count <= |entries|
    decreases entries, count
  {
    if count == 0 then multiset{}
    else Listing(path, entries, depth, limits, count - 1) + Listed(path, entries[count - 1], depth, limits)
  }

  // ---------- the worklist ----------

  function Size(node: Node): nat
    decreases node, 0
  {
    if node.Dir? then 1 + SizeOf(node.entries, |node.entries|) else 1
  }

  function SizeOf(entries: seq<Node>, count: nat): nat
    requires count <= |entries|
    decreases entries, count
  {
    if count == 0 then 0 else SizeOf(entries, count - 1) + Size(entries[count - 1])
  }

  function Whole(p: Pending, limits: Limits): multiset<Recording> {
    Listing(p.path, p.entries, p.depth, limits, |p.entries|)
  }

  /** What the pending directories still contain. */
  function Remaining(pending: seq<Pending>, limits: Limits): multiset<Recording> {
    if pending == [] then multiset{}
    else Remaining(pending[..|pending| - 1], limits) + Whole(pending[|pending| - 1], limits)
  }

  function Work(pending: seq<Pending>): nat {
    if pending == [] then 0
    else
      var last := pending[|pending| - 1];
      Work(pending[..|pending| - 1]) + 1 + SizeOf(last.entries, |last.entries|)
  }

  /** What is collected, with what the pending directories still contain. */
  function Total(recordings: seq<Recording>, pending: seq<Pending>, limits: Limits): multiset<Recording> {
    multiset(recordings) + Remaining(pending, limits)
  }

  lemma {:induction false} Pushed(recordings: seq<Recording>, pending: seq<Pending>, p: Pending, limits: Limits)
    ensures Total(recordings, pending + [p], limits) == Total(recordings, pending, limits) + Whole(p, limits)
    ensures Work(pending + [p]) == Work(pending) + 1 + SizeOf(p.entries, |p.entries|)
  {
    assert (pending + [p])[..|pending|] == pending;
  }

  lemma {:induction false} Collected(recordings: seq<Recording>, pending: seq<Pending>, r: Recording, limits: Limits)
    ensures Total(recordings + [r], pending, limits) == Total(recordings, pending, limits) + multiset{r}
  {
    assert multiset(recordings + [r]) == multiset(recordings) + multiset{r};
  }

  /** The entry at index `k`: collected, pushed or skipped. */
  method ScanEntry(current: Pending, k: nat, limits: Limits, found: seq<Recording>, waiting: seq<Pending>)
    returns (recordings: seq<Recording>, pending: seq<Pending>)
    requires k < |current.entries|
    ensures |found| <= |recordings| <= |found| + 1
    ensures Total(recordings, pending, limits) ==
            Total(found, waiting, limits) + Listed(current.path, current.entries[k], current.depth, limits)
    ensures Work(pending) <= Work(waiting) + Size(current.entries[k])
  {
    var entry := current.entries[k];
    recordings, pending := found, waiting;
    if !Plain(entry.name) {
      return;
    }
    var path := Join(current.path, entry.name);
    if entry.Dir? {
      if current.depth < limits.maxDepth {
        Pushed(recordings, pending, Pending(path, entry.entries, current.depth + 1), limits);
        pending := pending + [Pending(path, entry.entries, current.depth + 1)];
      }
      return;
    }
    if !entry.File? || !limits.allowed(entry.name) {
      return;
    }
    Collected(recordings, pending, Recording(path, entry.name, entry.size, entry.mtime), limits);
    recordings := recordings + [Recording(path, entry.name, entry.size, entry.mtime)];
  }

  /** One directory: its files are collected and its directories pushed, until the cap. */
  method ScanDirectory(current: Pending, limits: Limits, found: seq<Recording>, waiting: seq<Pending>)
    returns (recordings: seq<Recording>, pending: seq<Pending>)
    requires |found| < limits.cap
    ensures |found| <= |recordings| <= limits.cap
    ensures Total(recordings, pending, limits) <= Total(found, waiting, limits) + Whole(current, limits)
    ensures |recordings| < limits.cap ==>
              Total(recordings, pending, limits) == Total(found, waiting, limits) + Whole(current, limits)
    ensures Work(pending) <= Work(waiting) + SizeOf(current.entries, |current.entries|)
  {
    recordings, pending := found, waiting;
    var k := 0;
    while k < |current.entries| && |recordings| < limits.cap
      invariant k <= |current.entries| && |found| <= |recordings| <= limits.cap
      invariant Total(recordings, pending, limits) ==
                Total(found, waiting, limits) + Listing(current.path, current.entries, current.depth, limits, k)
      invariant Work(pending) <= Work(waiting) + SizeOf(current.entries, k)
      decreases |current.entries| - k
    {
      recordings, pending := ScanEntry(current, k, limits, recordings, pending);
      k := k + 1;
    }
    PrefixListed(current, limits, k);
    PrefixSize(current.entries, k);
  }

  lemma {:induction false} PrefixListed(p: Pending, limits: Limits, k: nat)
    requires k <= |p.entries|
    ensures Listing(p.path, p.entries, p.depth, limits, k) <= Whole(p, limits)
    decreases |p.entries| - k
  {
    if k == |p.entries| {
    } else {
      PrefixListed(p, limits, k + 1);
    }
  }

  lemma {:induction false} PrefixSize(entries: seq<Node>, k: nat)
    requires k <= |entries|
    ensures SizeOf(entries, k) <= SizeOf(entries, |entries|)
    decreases |entries| - k
  {
    if k == |entries| {
    } else {
      PrefixSize(entries, k + 1);
    }
  }

  // ---------- the order of the result ----------

  ghost predicate Ordered(s: seq<Recording>) {
    forall i, j :: 0 <= i < j < |s| ==> NameAtMost(s[i].path, s[j].path)
  }

  function Inserted(s: seq<Recording>, r: Recording): seq<Recording> {
    if s == [] || !NameAtMost(s[0].path, r.path) then [r] + s else [s[0]] + Inserted(s[1..], r)
  }

  /** Sorted by path; equal paths keep their order. */
  function SortedByPath(s: seq<Recording>): seq<Recording> {
    if s == [] then [] else Inserted(SortedByPath(s[..|s| - 1]), s[|s| - 1])
  }

  lemma {:induction false} InsertedElements(s: seq<Recording>, r: Recording)
    ensures multiset(Inserted(s, r)) == multiset(s) + multiset{r}
  {
    if s != [] && NameAtMost(s[0].path, r.path) {
      InsertedElements(s[1..], r);
      assert s == [s[0]] + s[1..];
    }
  }

  lemma {:induction false} InsertedOrdered(s: seq<Recording>, r: Recording)
    requires Ordered(s)
    ensures Ordered(Inserted(s, r))
  {
    if s == [] {
    } else if NameAtMost(s[0].path, r.path) {
      var rest := Inserted(s[1..], r);
      InsertedOrdered(s[1..], r);
      InsertedElements(s[1..], r);
      forall j | 0 <= j < |rest| ensures NameAtMost(s[0].path, rest[j].path) {
        assert rest[j] in multiset(rest);
        if rest[j] != r {
          assert rest[j] in multiset(s[1..]);
        }
      }
    } else {
      NameTotal(s[0].path, r.path);
      forall j | 0 <= j < |s| ensures NameAtMost(r.path, s[j].path) {
        if j > 0 {
          NameTransitive(r.path, s[0].path, s[j].path);
        }
      }
    }
  }

  lemma {:induction false} SortedIsOrdered(s: seq<Recording>)
    ensures Ordered(SortedByPath(s)) && multiset(SortedByPath(s)) == multiset(s) && |SortedByPath(s)| == |s|
  {
    if s == [] {
    } else {
      var init, last := s[..|s| - 1], s[|s| - 1];
      assert s == init + [last];
      SortedIsOrdered(init);
      InsertedOrdered(SortedByPath(init), last);
      InsertedElements(SortedByPath(init), last);
      assert |multiset(SortedByPath(s))| == |multiset(s)|;
    }
  }

  // ---------- _candidate_recordings ----------

  /** The traversal ends, never exceeds the cap, and returns recordings of the depth-bounded
      listing only, sorted by path: all of them when they fit, and otherwise as many as fit. */
  method CandidateRecordings(root: string, tree: seq<Node>, limits: Limits) returns (sorted: seq<Recording>)
    ensures var full := Listing(root, tree, 0, limits, |tree|);
            && multiset(sorted) <= full
            && |sorted| == (if |full| <= limits.cap then |full| else limits.cap)
            && (|full| <= limits.cap ==> multiset(sorted) == full)
    ensures Ordered(sorted)
  {
    var start := Pending(root, tree, 0);
    var recordings: seq<Recording>, pending := [], [start];
    assert [start] == [] + [start];
    Pushed([], [], start, limits);
    ghost var full := Whole(start, limits);
    while pending != [] && |recordings| < limits.cap
      invariant |recordings| <= limits.cap
      invariant Total(recordings, pending, limits) <= full
      invariant |recordings| < limits.cap ==> Total(recordings, pending, limits) == full
      decreases Work(pending)
    {
      var current := pending[|pending| - 1];
      Popped(recordings, pending, limits);
      recordings, pending := ScanDirectory(current, limits, recordings, pending[..|pending| - 1]);
    }
    CapOrAll(recordings, Remaining(pending, limits), limits.cap, full);
    sorted := SortedByPath(recordings);
    SortedIsOrdered(recordings);
  }

  lemma {:induction false} Popped(recordings: seq<Recording>, pending: seq<Pending>, limits: Limits)
    requires pending != []
    ensures var init, last := pending[..|pending| - 1], pending[|pending| - 1];
            && Total(recordings, pending, limits) == Total(recordings, init, limits) + Whole(last, limits)
            && Work(pending) == Work(init) + 1 + SizeOf(last.entries, |last.entries|)
  {
  }

  lemma {:induction false} CapOrAll(
      recordings: seq<Recording>, remaining: multiset<Recording>, cap: nat, full: multiset<Recording>)
    requires |recordings| <= cap && multiset(recordings) + remaining <= full
    requires |recordings| < cap ==> remaining == multiset{} && multiset(recordings) + remaining == full
    ensures multiset(recordings) <= full
    ensures |recordings| == if |full| <= cap then |full| else cap
    ensures |full| <= cap ==> multiset(recordings) == full
  {
    var rest := full - multiset(recordings);
    assert multiset(recordings) <= multiset(recordings) + remaining;
    assert full == multiset(recordings) + rest;
    assert |full| == |recordings| + |rest|;
    if |full| <= cap && |recordings| == cap {
      assert |rest| == 0;
      assert rest == multiset{};
    }
  }

  // ---------- where the listing can lead ----------

  /** The path that a chain of names leads to. */
  function Descend(path: string, names: seq<string>): string
    decreases |names|
  {
    if names == [] then path else Descend(Join(path, names[0]), names[1..])
  }

  /** Below `path` by at most `levels` plain names, the last of them the file's own. */
  ghost predicate Below(r: Recording, path: string, levels: nat, limits: Limits) {
    exists names: seq<string> :: LeadsTo(names, r, path, levels, limits)
  }

  ghost predicate LeadsTo(names: seq<string>, r: Recording, path: string, levels: nat, limits: Limits) {
    && 0 < |names| <= levels
    && (forall i :: 0 <= i < |names| ==> names[i] != "." && names[i] != ".." && '/' !in names[i])
    && r.path == Descend(path, names) && r.name == names[|names| - 1] && limits.allowed(r.name)
  }

  lemma {:induction false} OneLevelDeeper(r: Recording, path: string, name: string, levels: nat, limits: Limits)
    requires Plain(name) && Below(r, Join(path, name), levels, limits)
    ensures Below(r, path, levels + 1, limits)
  {
    var names: seq<string> :| LeadsTo(names, r, Join(path, name), levels, limits);
    assert ([name] + names)[1..] == names;
    assert LeadsTo([name] + names, r, path, levels + 1, limits);
  }

  lemma {:induction false} ListedBelow(path: string, node: Node, depth: nat, limits: Limits, r: Recording)
    requires depth <= limits.maxDepth && r in Listed(path, node, depth, limits)
    ensures Below(r, path, limits.maxDepth - depth + 1, limits)
    decreases node, 0
  {
    if node.Dir? {
      ListingBelow(Join(path, node.name), node.entries, depth + 1, limits, |node.entries|, r);
      OneLevelDeeper(r, path, node.name, limits.maxDepth - depth, limits);
    } else {
      assert [node.name][1..] == [];
      assert LeadsTo([node.name], r, path, limits.maxDepth - depth + 1, limits);
    }
  }

  /** Nothing outside the root is listed, and nothing deeper than the bound. */
  lemma {:induction false} ListingBelow(
      path: string, entries: seq<Node>, depth: nat, limits: Limits, count: nat, r: Recording)
    requires depth <= limits.maxDepth && count <= |entries| && r in Listing(path, entries, depth, limits, count)
    ensures Below(r, path, limits.maxDepth - depth + 1, limits)
    decreases entries, count
  {
    if r in Listing(path, entries, depth, limits, count - 1) {
      ListingBelow(path, entries, depth, limits, count - 1, r);
    } else {
      ListedBelow(path, entries[count - 1], depth, limits, r);
    }
  }

  // ---------- what the listing holds, by the tree ----------

  /** The names lead from the node, through at most `levels` levels of plain names, to a file that is
      allowed; `r` describes it. */
  ghost predicate Reaches(
      node: Node, names: seq<string>, r: Recording, path: string, levels: nat, limits: Limits)
    decreases |names|, 0
  {
    && names != [] && levels > 0 && node.name == names[0]
    && node.name != "." && node.name != ".." && '/' !in node.name
    && match node
    case File(name, size, mtime) =>
      |names| == 1 && limits.allowed(name) && r == Recording(Join(path, name), name, size, mtime)
    case Dir(name, entries) =>
      levels > 1 && ReachesIn(entries, |entries|, names[1..], r, Join(path, name), levels - 1, limits)
    case Other(_) => false
  }

  ghost predicate ReachesIn(
      entries: seq<Node>, count: nat, names: seq<string>, r: Recording, path: string, levels: nat, limits: Limits)
    requires count <= |entries|
    decreases |names|, 1
  {
    exists k | 0 <= k < count :: Reaches(entries[k], names, r, path, levels, limits)
  }

  ghost predicate Somewhere(node: Node, r: Recording, path: string, levels: nat, limits: Limits) {
    exists names: seq<string> :: Reaches(node, names, r, path, levels, limits)
  }

  ghost predicate SomewhereIn(
      entries: seq<Node>, count: nat, r: Recording, path: string, levels: nat, limits: Limits)
    requires count <= |entries|
  {
    exists names: seq<string> :: ReachesIn(entries, count, names, r, path, levels, limits)
  }

  lemma {:induction false} SomewhereNext(
      entries: seq<Node>, count: nat, r: Recording, path: string, levels: nat, limits: Limits)
    requires 0 < count <= |entries|
    ensures SomewhereIn(entries, count, r, path, levels, limits) <==>
            || SomewhereIn(entries, count - 1, r, path, levels, limits)
            || Somewhere(entries[count - 1], r, path, levels, limits)
  {
    if SomewhereIn(entries, count, r, path, levels, limits) {
      var names: seq<string> :| ReachesIn(entries, count, names, r, path, levels, limits);
      var k :| 0 <= k < count && Reaches(entries[k], names, r, path, levels, limits);
      if k < count - 1 {
        assert ReachesIn(entries, count - 1, names, r, path, levels, limits);
      }
    }
    if SomewhereIn(entries, count - 1, r, path, levels, limits) {
      var names: seq<string> :| ReachesIn(entries, count - 1, names, r, path, levels, limits);
      assert ReachesIn(entries, count, names, r, path, levels, limits);
    }
    if Somewhere(entries[count - 1], r, path, levels, limits) {
      var names: seq<string> :| Reaches(entries[count - 1], names, r, path, levels, limits);
      assert ReachesIn(entries, count, names, r, path, levels, limits);
    }
  }

  lemma {:induction false} SomewhereBelow(node: Node, r: Recording, path: string, levels: nat, limits: Limits)
    requires node.Dir? && Plain(node.name)
    ensures Somewhere(node, r, path, levels, limits) <==>
            levels > 1 && SomewhereIn(node.entries, |node.entries|, r, Join(path, node.name), levels - 1, limits)
  {
    if Somewhere(node, r, path, levels, limits) {
      var names: seq<string> :| Reaches(node, names, r, path, levels, limits);
      assert ReachesIn(node.entries, |node.entries|, names[1..], r, Join(path, node.name), levels - 1, limits);
    }
    if levels > 1 && SomewhereIn(node.entries, |node.entries|, r, Join(path, node.name), levels - 1, limits) {
      var names: seq<string> :|
        ReachesIn(node.entries, |node.entries|, names, r, Join(path, node.name), levels - 1, limits);
      assert ([node.name] + names)[1..] == names;
      assert Reaches(node, [node.name] + names, r, path, levels, limits);
    }
  }

  lemma {:induction false} ListedExactly(path: string, node: Node, depth: nat, limits: Limits, r: Recording)
    requires depth <= limits.maxDepth
    ensures r in Listed(path, node, depth, limits) <==> Somewhere(node, r, path, limits.maxDepth - depth + 1, limits)
    decreases node, 0
  {
    if Plain(node.name) {
      match node
      case File(name, _, _) =>
        if r in Listed(path, node, depth, limits) {
          assert Reaches(node, [name], r, path, limits.maxDepth - depth + 1, limits);
        }
      case Dir(name, entries) =>
        SomewhereBelow(node, r, path, limits.maxDepth - depth + 1, limits);
        if depth < limits.maxDepth {
          ListingExactly(Join(path, name), entries, depth + 1, limits, |entries|, r);
        }
      case Other(_) =>
    }
  }

  /** A recording is listed exactly when plain names lead to it in the tree, through as many levels
      as the bound allows, and its own name is allowed. */
  lemma {:induction false} ListingExactly(
      path: string, entries: seq<Node>, depth: nat, limits: Limits, count: nat, r: Recording)
    requires depth <= limits.maxDepth && count <= |entries|
    ensures r in Listing(path, entries, depth, limits, count)
            <==> SomewhereIn(entries, count, r, path, limits.maxDepth - depth + 1, limits)
    decreases entries, count
  {
    if count == 0 {
    } else {
      ListingExactly(path, entries, depth, limits, count - 1, r);
      ListedExactly(path, entries[count - 1], depth, limits, r);
      SomewhereNext(entries, count, r, path, limits.maxDepth - depth + 1, limits);
    }
  }
}

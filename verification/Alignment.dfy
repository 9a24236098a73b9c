/** Levenshtein alignment with an auditable edit script (evaluation/run_evaluation.py), related
    to every edit script. */
module Alignment {

  // Edit scripts are the independent notion here: a script is any list of operations whose
  // reference side spells the reference and whose hypothesis side spells the hypothesis, and
  // its cost is the number of its entries that are not `Equal`. `Align` fills two tables and
  // walks back through them.

  /** A word, or a single character, of a transcript. */
  datatype Token = Token(text: string)

  datatype Op =
    | Equal(reference: Token, hypothesis: Token)
    | Substitution(reference: Token, hypothesis: Token)
    | Deletion(reference: Token)
    | Insertion(hypothesis: Token)

  type Script = seq<Op>

  // ---------- edit scripts ----------

  function ReferenceOf(op: Op): seq<Token> {
    if op.Insertion? then [] else [op.reference]
  }

  function HypothesisOf(op: Op): seq<Token> {
    if op.Deletion? then [] else [op.hypothesis]
  }

  function Price(op: Op): nat {
    if op.Equal? then 0 else 1
  }

  /** The reference a script spells. */
  function ReferenceSide(s: Script): seq<Token> {
    if s == [] then [] else ReferenceSide(s[..|s| - 1]) + ReferenceOf(s[|s| - 1])
  }

  /** The hypothesis a script spells. */
  function HypothesisSide(s: Script): seq<Token> {
    if s == [] then [] else HypothesisSide(s[..|s| - 1]) + HypothesisOf(s[|s| - 1])
  }

  /** The number of entries that are not `Equal`. */
  function Cost(s: Script): nat {
    if s == [] then 0 else Cost(s[..|s| - 1]) + Price(s[|s| - 1])
  }

  /** An entry labelled `Equal` pairs equal tokens. */
  ghost predicate Truthful(s: Script) {
    forall k :: 0 <= k < |s| && s[k].Equal? ==> s[k].reference == s[k].hypothesis
  }

  /** A substitution pairs different tokens. */
  ghost predicate Sharp(s: Script) {
    forall k :: 0 <= k < |s| && s[k].Substitution? ==> s[k].reference != s[k].hypothesis
  }

  ghost predicate IsScript(s: Script, reference: seq<Token>, hypothesis: seq<Token>) {
    Truthful(s) && ReferenceSide(s) == reference && HypothesisSide(s) == hypothesis
  }

  // ---------- what the tables hold ----------

  function Init<T>(s: seq<T>): seq<T>
    requires s != []
  {
    s[..|s| - 1]
  }

  function Last<T>(s: seq<T>): T
    requires s != []
  {
    s[|s| - 1]
  }

  datatype Move = Unset | MoveEqual | MoveSubstitution | MoveDeletion | MoveInsertion

  /** The cheapest of the three edits, the first of them on a tie. */
  function Cheapest(substitution: nat, deletion: nat, insertion: nat): (nat, Move) {
    if substitution <= deletion && substitution <= insertion then (substitution, MoveSubstitution)
    else if deletion <= insertion then (deletion, MoveDeletion)
    else (insertion, MoveInsertion)
  }

  /** The cell of both tables for a pair of prefixes. A match takes the diagonal unexamined. */
  function Cell(r: seq<Token>, h: seq<Token>): (nat, Move)
    decreases |r| + |h|
  {
    if r == [] && h == [] then (0, Unset)
    else if h == [] then (|r|, MoveDeletion)
    else if r == [] then (|h|, MoveInsertion)
    else if Last(r) == Last(h) then (Cell(Init(r), Init(h)).0, MoveEqual)
    else Cheapest(Cell(Init(r), Init(h)).0 + 1, Cell(Init(r), h).0 + 1, Cell(r, Init(h)).0 + 1)
  }

  function Distance(r: seq<Token>, h: seq<Token>): nat {
    Cell(r, h).0
  }

  /** The script the backward walk emits, already reversed. */
  function Trace(r: seq<Token>, h: seq<Token>): Script
    decreases |r| + |h|
  {
    match Cell(r, h).1
    case Unset => []
    case MoveEqual => Trace(Init(r), Init(h)) + [Equal(Last(r), Last(h))]
    case MoveSubstitution => Trace(Init(r), Init(h)) + [Substitution(Last(r), Last(h))]
    case MoveDeletion => Trace(Init(r), h) + [Deletion(Last(r))]
    case MoveInsertion => Trace(r, Init(h)) + [Insertion(Last(h))]
  }

  function Reversed<T>(s: seq<T>): seq<T> {
    if s == [] then [] else [Last(s)] + Reversed(Init(s))
  }

  // ---------- one edit moves the distance by at most one ----------

  lemma {:induction false} DistanceSymmetric(r: seq<Token>, h: seq<Token>)
    ensures Distance(r, h) == Distance(h, r)
    decreases |r| + |h|
  {
    if r != [] && h != [] {
      DistanceSymmetric(Init(r), Init(h));
      DistanceSymmetric(Init(r), h);
      DistanceSymmetric(r, Init(h));
    }
  }

  lemma {:induction false} LongerReferenceCostsAtMostOne(r: seq<Token>, h: seq<Token>, x: Token)
    ensures Distance(r + [x], h) <= Distance(r, h) + 1
    decreases |r| + |h|
  {
    assert Init(r + [x]) == r;
    if h != [] && Last(h) == x {
      LongerHypothesisSavesAtMostOne(r, Init(h), x);
      assert Init(h) + [x] == h;
    }
  }

  lemma {:induction false} LongerHypothesisSavesAtMostOne(r: seq<Token>, h: seq<Token>, y: Token)
    ensures Distance(r, h) <= Distance(r, h + [y]) + 1
    decreases |r| + |h|
  {
    assert Init(h + [y]) == h;
    if r == [] {
    } else {
      assert Init(r) + [Last(r)] == r;
      LongerReferenceCostsAtMostOne(Init(r), h, Last(r));
      LongerHypothesisSavesAtMostOne(Init(r), h, y);
    }
  }

  /** Pairing two more tokens costs nothing when they match and at most one otherwise. */
  lemma {:induction false} PairingCost(r: seq<Token>, h: seq<Token>, x: Token, y: Token)
    ensures Distance(r + [x], h + [y]) <= Distance(r, h) + (if x == y then 0 else 1)
  {
    assert Init(r + [x]) == r && Init(h + [y]) == h;
  }

  // ---------- optimality ----------

  /** No edit script is cheaper than the distance, although a match is never compared with
      the other two moves. */
  lemma {:induction false} NoScriptIsCheaper(s: Script, r: seq<Token>, h: seq<Token>)
    requires IsScript(s, r, h)
    ensures Distance(r, h) <= Cost(s)
    decreases |s|
  {
    if s == [] {
    } else {
      var s', op := Init(s), Last(s);
      var r', h' := ReferenceSide(s'), HypothesisSide(s');
      NoScriptIsCheaper(s', r', h');
      match op
      case Equal(x, y) => PairingCost(r', h', x, y);
      case Substitution(x, y) => PairingCost(r', h', x, y);
      case Deletion(x) =>
        assert h == h';
        LongerReferenceCostsAtMostOne(r', h', x);
      case Insertion(y) =>
        assert r == r';
        LongerReferenceCostsAtMostOne(h', r', y);
        DistanceSymmetric(h' + [y], r');
        DistanceSymmetric(h', r');
    }
  }

  /** Appending a truthful operation to a script of two prefixes. */
  lemma {:induction false} ScriptSnoc(s: Script, op: Op, r: seq<Token>, h: seq<Token>)
    requires IsScript(s, r, h)
    requires op.Equal? ==> op.reference == op.hypothesis
    ensures IsScript(s + [op], r + ReferenceOf(op), h + HypothesisOf(op))
    ensures Cost(s + [op]) == Cost(s) + Price(op)
  {
    assert Init(s + [op]) == s && Last(s + [op]) == op;
  }

  /** The script of the backward walk spells both sequences and costs exactly the distance. */
  lemma {:induction false} TraceIsScript(r: seq<Token>, h: seq<Token>)
    ensures IsScript(Trace(r, h), r, h) && Sharp(Trace(r, h))
    ensures Cost(Trace(r, h)) == Distance(r, h)
    decreases |r| + |h|
  {
    if r != [] || h != [] {
      var r', h', op := TraceUnfold(r, h);
      TraceIsScript(r', h');
      ExtendScript(Trace(r', h'), op, r', h', Trace(r, h), r, h);
    }
  }

  lemma {:induction false} ExtendScript(
      s: Script, op: Op, r': seq<Token>, h': seq<Token>, t: Script, r: seq<Token>, h: seq<Token>)
    requires IsScript(s, r', h') && Sharp(s)
    requires t == s + [op] && r == r' + ReferenceOf(op) && h == h' + HypothesisOf(op)
    requires op.Equal? ==> op.reference == op.hypothesis
    requires op.Substitution? ==> op.reference != op.hypothesis
    ensures IsScript(t, r, h) && Sharp(t) && Cost(t) == Cost(s) + Price(op)
  {
    ScriptSnoc(s, op, r', h');
  }

  /** One step of the backward walk, with what it adds to the distance. */
  lemma {:induction false} TraceUnfold(r: seq<Token>, h: seq<Token>) returns (r': seq<Token>, h': seq<Token>, op: Op)
    requires r != [] || h != []
    ensures |r'| + |h'| < |r| + |h|
    ensures r == r' + ReferenceOf(op) && h == h' + HypothesisOf(op)
    ensures op.Equal? ==> op.reference == op.hypothesis
    ensures op.Substitution? ==> op.reference != op.hypothesis
    ensures Trace(r, h) == Trace(r', h') + [op]
    ensures Distance(r, h) == Distance(r', h') + Price(op)
  {
    if r != [] { assert r == Init(r) + [Last(r)]; }
    if h != [] { assert h == Init(h) + [Last(h)]; }
    var move := Cell(r, h).1;
    if move == MoveEqual {
      r', h', op := Init(r), Init(h), Equal(Last(r), Last(h));
    } else if move == MoveSubstitution {
      r', h', op := Init(r), Init(h), Substitution(Last(r), Last(h));
    } else if move == MoveDeletion {
      r', h', op := Init(r), h, Deletion(Last(r));
      assert h == h + [];
    } else {
      r', h', op := r, Init(h), Insertion(Last(h));
      assert r == r + [];
    }
  }

  /** Where the script ends: a match is always taken, and of equally cheap edits a substitution
      comes before a deletion and a deletion before an insertion. */
  lemma {:induction false} LastEntry(r: seq<Token>, h: seq<Token>)
    requires r != [] || h != []
    ensures Trace(r, h) ==
            if r == [] then Trace(r, Init(h)) + [Insertion(Last(h))]
            else if h == [] then Trace(Init(r), h) + [Deletion(Last(r))]
            else if Last(r) == Last(h) then Trace(Init(r), Init(h)) + [Equal(Last(r), Last(h))]
            else if Distance(r, h) == Distance(Init(r), Init(h)) + 1 then
              Trace(Init(r), Init(h)) + [Substitution(Last(r), Last(h))]
            else if Distance(r, h) == Distance(Init(r), h) + 1 then Trace(Init(r), h) + [Deletion(Last(r))]
            else Trace(r, Init(h)) + [Insertion(Last(h))]
  {
    var r', h', op := TraceUnfold(r, h);
  }

  lemma {:induction false} DistanceZeroIffEqual(r: seq<Token>, h: seq<Token>)
    ensures Distance(r, h) == 0 <==> r == h
    decreases |r| + |h|
  {
    if r != [] && h != [] {
      DistanceZeroIffEqual(Init(r), Init(h));
      assert r == Init(r) + [Last(r)] && h == Init(h) + [Last(h)];
    }
  }

  lemma {:induction false} DistanceAtMostLonger(r: seq<Token>, h: seq<Token>)
    ensures Distance(r, h) <= if |r| < |h| then |h| else |r|
    decreases |r| + |h|
  {
    if r != [] && h != [] {
      DistanceAtMostLonger(Init(r), Init(h));
    }
  }

  // ---------- the triangle inequality, by composing scripts ----------

  /** A script from `a` to `b` followed by one from `b` to `c` merges into one from `a` to `c`
      that costs no more than both. */
  lemma {:induction false} ComposeScripts(s: Script, t: Script, a: seq<Token>, b: seq<Token>, c: seq<Token>)
    returns (u: Script)
    requires IsScript(s, a, b) && IsScript(t, b, c)
    ensures IsScript(u, a, c)
    ensures Cost(u) <= Cost(s) + Cost(t)
    decreases |s| + |t|, 1
  {
    if s != [] { assert s == Init(s) + [Last(s)]; }
    if t != [] { assert t == Init(t) + [Last(t)]; }
    if s != [] && Last(s).Deletion? {
      var a' := ReferenceSide(Init(s));
      assert HypothesisSide(Init(s)) == b;
      var v := ComposeScripts(Init(s), t, a', b, c);
      ScriptSnoc(v, Last(s), a', c);
      assert c + [] == c;
      u := v + [Last(s)];
    } else if t != [] && Last(t).Insertion? {
      var c' := HypothesisSide(Init(t));
      assert ReferenceSide(Init(t)) == b;
      var v := ComposeScripts(s, Init(t), a, b, c');
      ScriptSnoc(v, Last(t), a, c');
      assert a + [] == a;
      u := v + [Last(t)];
    } else if s == [] || t == [] {
      u := [];
    } else {
      u := ComposeMiddle(s, t, a, b, c);
    }
  }

  /** The step where the last operation of `s` produces the token the last of `t` consumes. */
  lemma {:induction false} ComposeMiddle(s: Script, t: Script, a: seq<Token>, b: seq<Token>, c: seq<Token>)
    returns (u: Script)
    requires IsScript(s, a, b) && IsScript(t, b, c)
    requires s != [] && t != [] && !Last(s).Deletion? && !Last(t).Insertion?
    ensures IsScript(u, a, c)
    ensures Cost(u) <= Cost(s) + Cost(t)
    decreases |s| + |t|, 0
  {
    var b' := MeetInMiddle(s, t, b);
    var a', c' := ReferenceSide(Init(s)), HypothesisSide(Init(t));
    var v := ComposeScripts(Init(s), Init(t), a', b', c');
    var merged := Merge(Last(s), Last(t));
    u := v + merged;
    MergeSides(Last(s), Last(t));
    if merged == [] {
      assert u == v && a' + [] == a' && c' + [] == c';
    } else {
      ScriptSnoc(v, merged[0], a', c');
      assert u == v + [merged[0]];
    }
  }

  lemma {:induction false} MeetInMiddle(s: Script, t: Script, b: seq<Token>) returns (b': seq<Token>)
    requires s != [] && t != [] && !Last(s).Deletion? && !Last(t).Insertion?
    requires HypothesisSide(s) == b == ReferenceSide(t)
    ensures b' == HypothesisSide(Init(s)) == ReferenceSide(Init(t))
    ensures Last(s).hypothesis == Last(t).reference
  {
    b' := HypothesisSide(Init(s));
    assert b == b' + [Last(s).hypothesis];
    assert b == ReferenceSide(Init(t)) + [Last(t).reference];
    assert Init(b) == b' && Last(b) == Last(s).hypothesis;
  }

  lemma {:induction false} MergeSides(first: Op, second: Op)
    requires !first.Deletion? && !second.Insertion? && first.hypothesis == second.reference
    requires first.Equal? ==> first.reference == first.hypothesis
    requires second.Equal? ==> second.reference == second.hypothesis
    ensures var merged := Merge(first, second);
            && |merged| <= 1
            && (merged == [] ==> ReferenceOf(first) == [] && HypothesisOf(second) == [])
            && (merged != [] ==>
                  && ReferenceOf(merged[0]) == ReferenceOf(first)
                  && HypothesisOf(merged[0]) == HypothesisOf(second)
                  && (merged[0].Equal? ==> merged[0].reference == merged[0].hypothesis)
                  && Price(merged[0]) <= Price(first) + Price(second))
  {
  }

  /** One operation producing a token followed by one consuming it. */
  function Merge(first: Op, second: Op): Script
    requires !first.Deletion? && !second.Insertion?
  {
    if first.Insertion? then (if second.Deletion? then [] else [Insertion(second.hypothesis)])
    else if second.Deletion? then [Deletion(first.reference)]
    else if first.reference == second.hypothesis then [Equal(first.reference, second.hypothesis)]
    else [Substitution(first.reference, second.hypothesis)]
  }

  lemma {:induction false} TriangleInequality(a: seq<Token>, b: seq<Token>, c: seq<Token>)
    ensures Distance(a, c) <= Distance(a, b) + Distance(b, c)
  {
    TraceIsScript(a, b);
    TraceIsScript(b, c);
    var u := ComposeScripts(Trace(a, b), Trace(b, c), a, b, c);
    NoScriptIsCheaper(u, a, c);
  }

  // ---------- the two tables and the backward walk ----------

  /** The cell of the prefixes of lengths `i` and `j`. */
  function CellAt(r: seq<Token>, h: seq<Token>, i: nat, j: nat): (nat, Move)
    requires i <= |r| && j <= |h|
  {
    Cell(r[..i], h[..j])
  }

  lemma {:induction false} CellRecurrence(r: seq<Token>, h: seq<Token>, i: nat, j: nat)
    requires 0 < i <= |r| && 0 < j <= |h|
    ensures CellAt(r, h, i, j) ==
            if r[i - 1] == h[j - 1] then (CellAt(r, h, i - 1, j - 1).0, MoveEqual)
            else Cheapest(CellAt(r, h, i - 1, j - 1).0 + 1, CellAt(r, h, i - 1, j).0 + 1, CellAt(r, h, i, j - 1).0 + 1)
  {
    assert Init(r[..i]) == r[..i - 1] && Init(h[..j]) == h[..j - 1];
    assert Last(r[..i]) == r[i - 1] && Last(h[..j]) == h[j - 1];
  }

  lemma {:induction false} CellBorder(r: seq<Token>, h: seq<Token>)
    ensures CellAt(r, h, 0, 0) == (0, Unset)
    ensures forall i :: 0 < i <= |r| ==> CellAt(r, h, i, 0) == (i, MoveDeletion)
    ensures forall j :: 0 < j <= |h| ==> CellAt(r, h, 0, j) == (j, MoveInsertion)
  {
  }

  method FillTables(r: seq<Token>, h: seq<Token>) returns (costs: array2<nat>, moves: array2<Move>)
    ensures costs.Length0 == moves.Length0 == |r| + 1 && costs.Length1 == moves.Length1 == |h| + 1
    ensures forall i, j :: 0 <= i <= |r| && 0 <= j <= |h| ==> (costs[i, j], moves[i, j]) == CellAt(r, h, i, j)
  {
    var rows, cols := |r| + 1, |h| + 1;
    costs := new nat[rows, cols]((_, _) => 0);
    moves := new Move[rows, cols]((_, _) => Unset);
    CellBorder(r, h);
    for i := 1 to rows
      invariant forall k :: 0 <= k < i ==> (costs[k, 0], moves[k, 0]) == CellAt(r, h, k, 0)
      invariant costs[0, 0] == 0 && moves[0, 0] == Unset
    {
      costs[i, 0], moves[i, 0] := i, MoveDeletion;
    }
    for j := 1 to cols
      invariant forall k :: 0 <= k < rows ==> (costs[k, 0], moves[k, 0]) == CellAt(r, h, k, 0)
      invariant forall k :: 0 <= k < j ==> (costs[0, k], moves[0, k]) == CellAt(r, h, 0, k)
    {
      costs[0, j], moves[0, j] := j, MoveInsertion;
    }
    for i := 1 to rows
      invariant forall k :: 0 <= k < rows ==> (costs[k, 0], moves[k, 0]) == CellAt(r, h, k, 0)
      invariant forall k, l :: 0 <= k < i && 0 <= l < cols ==> (costs[k, l], moves[k, l]) == CellAt(r, h, k, l)
    {
      FillRow(r, h, i, costs, moves);
    }
  }

  /** One row, from the finished rows above it. */
  method FillRow(r: seq<Token>, h: seq<Token>, i: nat, costs: array2<nat>, moves: array2<Move>)
    requires costs.Length0 == moves.Length0 == |r| + 1 && costs.Length1 == moves.Length1 == |h| + 1
    requires 0 < i <= |r| && (costs[i, 0], moves[i, 0]) == CellAt(r, h, i, 0)
    requires forall k, l :: 0 <= k < i && 0 <= l <= |h| ==> (costs[k, l], moves[k, l]) == CellAt(r, h, k, l)
    modifies costs, moves
    ensures forall l :: 0 <= l <= |h| ==> (costs[i, l], moves[i, l]) == CellAt(r, h, i, l)
    ensures forall k, l :: 0 <= k <= |r| && 0 <= l <= |h| && k != i ==> costs[k, l] == old(costs[k, l])
    ensures forall k, l :: 0 <= k <= |r| && 0 <= l <= |h| && k != i ==> moves[k, l] == old(moves[k, l])
  {
    for j := 1 to |h| + 1
      invariant forall l :: 0 <= l < j ==> (costs[i, l], moves[i, l]) == CellAt(r, h, i, l)
      invariant forall k, l :: 0 <= k <= |r| && 0 <= l <= |h| && k != i ==> costs[k, l] == old(costs[k, l])
      invariant forall k, l :: 0 <= k <= |r| && 0 <= l <= |h| && k != i ==> moves[k, l] == old(moves[k, l])
    {
      CellRecurrence(r, h, i, j);
      if r[i - 1] == h[j - 1] {
        costs[i, j] := costs[i - 1, j - 1];
        moves[i, j] := MoveEqual;
      } else {
        var choice := Cheapest(costs[i - 1, j - 1] + 1, costs[i - 1, j] + 1, costs[i, j - 1] + 1);
        costs[i, j], moves[i, j] := choice.0, choice.1;
      }
    }
  }

  lemma {:induction false} TraceRecurrence(r: seq<Token>, h: seq<Token>, i: nat, j: nat)
    requires i <= |r| && j <= |h| && (i != 0 || j != 0)
    ensures match CellAt(r, h, i, j).1
            case Unset => false
            case MoveEqual =>
              i > 0 && j > 0 &&
              Trace(r[..i], h[..j]) == Trace(r[..i - 1], h[..j - 1]) + [Equal(r[i - 1], h[j - 1])]
            case MoveSubstitution =>
              i > 0 && j > 0 &&
              Trace(r[..i], h[..j]) == Trace(r[..i - 1], h[..j - 1]) + [Substitution(r[i - 1], h[j - 1])]
            case MoveDeletion =>
              i > 0 && Trace(r[..i], h[..j]) == Trace(r[..i - 1], h[..j]) + [Deletion(r[i - 1])]
            case MoveInsertion =>
              j > 0 && Trace(r[..i], h[..j]) == Trace(r[..i], h[..j - 1]) + [Insertion(h[j - 1])]
  {
    if i > 0 { assert Init(r[..i]) == r[..i - 1]; }
    if j > 0 { assert Init(h[..j]) == h[..j - 1]; }
  }

  lemma {:induction false} ReversedSnoc<T>(s: seq<T>, x: T)
    ensures Reversed(s + [x]) == [x] + Reversed(s)
  {
    assert Init(s + [x]) == s;
  }

  /** Emitting an operation moves it from the trace that remains to the reversed output. */
  lemma {:induction false} Emitted(rest: Script, op: Op, operations: Script, trace: Script, whole: Script)
    requires trace == rest + [op] && trace + Reversed(operations) == whole
    ensures rest + Reversed(operations + [op]) == whole
  {
    ReversedSnoc(operations, op);
  }

  /** The backward walk over the finished move table. The guard for a malformed table is dead. */
  method WalkBack(r: seq<Token>, h: seq<Token>, moves: array2<Move>) returns (operations: Script)
    requires moves.Length0 == |r| + 1 && moves.Length1 == |h| + 1
    requires forall i, j :: 0 <= i <= |r| && 0 <= j <= |h| ==> moves[i, j] == CellAt(r, h, i, j).1
    ensures operations == Trace(r, h)
  {
    operations := [];
    var i, j := |r|, |h|;
    assert r[..i] == r && h[..j] == h;
    while i != 0 || j != 0
      invariant 0 <= i <= |r| && 0 <= j <= |h|
      invariant Trace(r[..i], h[..j]) + Reversed(operations) == Trace(r, h)
      decreases i + j
    {
      TraceRecurrence(r, h, i, j);
      ghost var trace := Trace(r[..i], h[..j]);
      var move, op := moves[i, j], Deletion(Token(""));
      if move == MoveEqual || move == MoveSubstitution {
        op := if move == MoveEqual then Equal(r[i - 1], h[j - 1]) else Substitution(r[i - 1], h[j - 1]);
        i, j := i - 1, j - 1;
      } else if move == MoveDeletion {
        op := Deletion(r[i - 1]);
        i := i - 1;
      } else if move == MoveInsertion {
        op := Insertion(h[j - 1]);
        j := j - 1;
      } else {
        assert false;
      }
      Emitted(Trace(r[..i], h[..j]), op, operations, trace, Trace(r, h));
      operations := operations + [op];
    }
    operations := Reversed(operations);
  }

  /** Returns the distance and one cheapest script. */
  method Align(r: seq<Token>, h: seq<Token>) returns (distance: nat, operations: Script)
    ensures distance == Distance(r, h) && operations == Trace(r, h)
    ensures IsScript(operations, r, h) && Sharp(operations) && Cost(operations) == distance
    ensures forall s: Script :: IsScript(s, r, h) ==> distance <= Cost(s)
  {
    var costs, moves := FillTables(r, h);
    operations := WalkBack(r, h, moves);
    assert r[..|r|] == r && h[..|h|] == h;
    distance := costs[|r|, |h|];
    assert (costs[|r|, |h|], moves[|r|, |h|]) == CellAt(r, h, |r|, |h|);
    TraceIsScript(r, h);
    forall s: Script | IsScript(s, r, h)
      ensures distance <= Cost(s)
    {
      NoScriptIsCheaper(s, r, h);
    }
  }
}

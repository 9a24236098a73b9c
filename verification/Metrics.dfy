/** Talk, silence and overlap of one call (backend/app/services/metrics.py), against a
    specification that counts covered cells. */
module Metrics {
  import opened Wrappers

  // Times are integers on a grid fine enough for every timestamp of the call: the cell `t` is
  // spoken when some interval contains it. The final rounding to one decimal is not modelled.

  datatype Segment = Segment(speaker: string, text: string, start: Option<int>, end: Option<int>)

  datatype Interval = Interval(start: int, end: int)

  /** One speaker's running totals. */
  datatype Totals = Totals(turns: nat, talk: int, longest: int, questions: nat)

  datatype SpeakerStats = SpeakerStats(
    turns: nat, talk: Option<int>, share: Option<real>, longest: Option<int>, questions: nat)

  datatype CallMetrics = CallMetrics(
    span: Option<int>, speech: Option<int>, silence: Option<int>, overlap: Option<int>,
    speakers: map<string, SpeakerStats>)

  // ---------- segments that carry usable times ----------

  predicate Timed(s: Segment) {
    s.start.Some? && s.end.Some? && s.start.value <= s.end.value
  }

  function IntervalOf(s: Segment): seq<Interval> {
    if Timed(s) then [Interval(s.start.value, s.end.value)] else []
  }

  function Intervals(segments: seq<Segment>): seq<Interval> {
    if segments == [] then []
    else Intervals(segments[..|segments| - 1]) + IntervalOf(segments[|segments| - 1])
  }

  function Length(i: Interval): int {
    i.end - i.start
  }

  // ---------- the set-theoretic specification ----------

  /** The cells an interval covers. */
  function Cells(i: Interval): (cells: set<int>)
    ensures forall t :: t in cells <==> i.start <= t < i.end
    decreases i.end - i.start
  {
    if i.end <= i.start then {} else Cells(Interval(i.start, i.end - 1)) + {i.end - 1}
  }

  /** The cells some interval covers. */
  function SpokenBy(s: seq<Interval>): set<int> {
    if s == [] then {} else SpokenBy(s[..|s| - 1]) + Cells(s[|s| - 1])
  }

  function TotalTalk(s: seq<Interval>): int {
    if s == [] then 0 else TotalTalk(s[..|s| - 1]) + Length(s[|s| - 1])
  }

  ghost predicate IsMinStart(m: int, s: seq<Interval>) {
    (exists i :: i in multiset(s) && i.start == m) && forall i :: i in multiset(s) ==> m <= i.start
  }

  ghost predicate IsMaxEnd(m: int, s: seq<Interval>) {
    (exists i :: i in multiset(s) && i.end == m) && forall i :: i in multiset(s) ==> i.end <= m
  }

  /** The cells between the first start and the last end that no interval covers. */
  function Gaps(first: int, last: int, s: seq<Interval>): set<int> {
    set t | first <= t < last && t !in SpokenBy(s)
  }

  // ---------- sorting ----------

  predicate Before(a: Interval, b: Interval) {
    a.start < b.start || (a.start == b.start && a.end <= b.end)
  }

  ghost predicate Sorted(s: seq<Interval>) {
    forall i, j :: 0 <= i < j < |s| ==> Before(s[i], s[j])
  }

  function Insert(s: seq<Interval>, x: Interval): seq<Interval> {
    if s == [] || Before(s[|s| - 1], x) then s + [x]
    else Insert(s[..|s| - 1], x) + [s[|s| - 1]]
  }

  /** The order `timed.sort()` leaves. */
  function Sort(s: seq<Interval>): seq<Interval> {
    if s == [] then [] else Insert(Sort(s[..|s| - 1]), s[|s| - 1])
  }

  lemma {:induction false} InsertSorts(s: seq<Interval>, x: Interval)
    requires Sorted(s)
    ensures Sorted(Insert(s, x)) && multiset(Insert(s, x)) == multiset(s) + multiset{x}
  {
    if s != [] && !Before(s[|s| - 1], x) {
      var init, last := s[..|s| - 1], s[|s| - 1];
      assert s == init + [last];
      InsertSorts(init, x);
      var r := Insert(init, x);
      forall i | i in r ensures Before(i, last) {
        assert i in multiset(r);
        assert i == x || i in init;
      }
    }
  }

  lemma {:induction false} SortSorts(s: seq<Interval>)
    ensures Sorted(Sort(s)) && multiset(Sort(s)) == multiset(s)
  {
    if s == [] {
    } else {
      var init, last := s[..|s| - 1], s[|s| - 1];
      assert s == init + [last];
      SortSorts(init);
      InsertSorts(Sort(init), last);
    }
  }

  // ---------- permuting the intervals changes nothing ----------

  lemma {:induction false} SpokenByMembership(s: seq<Interval>, t: int)
    ensures t in SpokenBy(s) <==> exists i :: i in s && i.start <= t < i.end
  {
    if s == [] {
    } else {
      var init, last := s[..|s| - 1], s[|s| - 1];
      assert s == init + [last];
      SpokenByMembership(init, t);
    }
  }

  lemma {:induction false} SpokenByPermutation(a: seq<Interval>, b: seq<Interval>)
    requires multiset(a) == multiset(b)
    ensures SpokenBy(a) == SpokenBy(b)
  {
    SameMembers(a, b);
    forall t ensures t in SpokenBy(a) <==> t in SpokenBy(b) {
      SpokenByMembership(a, t);
      SpokenByMembership(b, t);
    }
  }

  lemma {:induction false} SameMembers<T>(a: seq<T>, b: seq<T>)
    requires multiset(a) == multiset(b)
    ensures |a| == |b|
    ensures forall x :: x in a <==> x in b
  {
    assert forall x :: x in a <==> x in multiset(a);
    assert forall x :: x in b <==> x in multiset(b);
    assert |multiset(a)| == |a| && |multiset(b)| == |b|;
  }

  lemma {:induction false} TotalTalkWithout(s: seq<Interval>, k: nat)
    requires k < |s|
    ensures TotalTalk(s) == TotalTalk(s[..k] + s[k + 1..]) + Length(s[k])
    decreases |s|
  {
    var init, last := s[..|s| - 1], s[|s| - 1];
    if k == |s| - 1 {
      assert s[..k] + s[k + 1..] == init;
    } else {
      TotalTalkWithout(init, k);
      var rest := s[..k] + s[k + 1..];
      assert rest[..|rest| - 1] == init[..k] + init[k + 1..];
    }
  }

  /** `b` without its element at `k` is a permutation of `a` without its last one. */
  ghost predicate Matches<T>(a: seq<T>, b: seq<T>, k: nat) {
    && a != [] && k < |b| && b[k] == a[|a| - 1]
    && multiset(a[..|a| - 1]) == multiset(b[..k] + b[k + 1..])
  }

  /** The last element of one list, found in a permutation of it. */
  lemma {:induction false} RemoveMatching<T>(a: seq<T>, b: seq<T>)
    requires multiset(a) == multiset(b) && a != []
    ensures exists k: nat :: Matches(a, b, k)
  {
    SameMembers(a, b);
    assert a[|a| - 1] in a;
    var k: nat :| k < |b| && b[k] == a[|a| - 1];
    WithoutAt(a, |a| - 1);
    WithoutAt(b, k);
    assert a[..|a| - 1] + a[|a| - 1 + 1..] == a[..|a| - 1];
    assert Matches(a, b, k);
  }

  lemma {:induction false} WithoutAt<T>(s: seq<T>, k: nat)
    requires k < |s|
    ensures multiset(s[..k] + s[k + 1..]) == multiset(s) - multiset{s[k]}
  {
    assert s == s[..k] + ([s[k]] + s[k + 1..]);
  }

  lemma {:induction false} TotalTalkPermutation(a: seq<Interval>, b: seq<Interval>)
    requires multiset(a) == multiset(b)
    ensures TotalTalk(a) == TotalTalk(b)
    decreases |a|
  {
    SameMembers(a, b);
    if a == [] {
    } else {
      var init, last := a[..|a| - 1], a[|a| - 1];
      RemoveMatching(a, b);
      var k: nat :| Matches(a, b, k);
      TotalTalkPermutation(init, b[..k] + b[k + 1..]);
      TotalTalkWithout(b, k);
    }
  }

  // ---------- one step of the sweep ----------

  lemma {:induction false} CellsSize(i: Interval)
    requires i.start <= i.end
    ensures |Cells(i)| == Length(i)
    decreases i.end - i.start
  {
    if i.start < i.end {
      CellsSize(Interval(i.start, i.end - 1));
      assert Cells(i) == Cells(Interval(i.start, i.end - 1)) + {i.end - 1};
    }
  }

  /** The part of an interval to the right of `reach`. */
  function Beyond(x: Interval, reach: int): Interval {
    Interval(if x.start > reach then x.start else reach, x.end)
  }

  /** Below `reach` an interval that starts no earlier than the others covers nothing new. */
  lemma {:induction false} NothingNewBelow(s: seq<Interval>, x: Interval, reach: int)
    requires IsMaxEnd(reach, s)
    requires forall i :: i in multiset(s) ==> i.start <= x.start
    ensures SpokenBy(s) + Cells(x) == SpokenBy(s) + Cells(Beyond(x, reach))
    ensures SpokenBy(s) !! Cells(Beyond(x, reach))
  {
    var last :| last in multiset(s) && last.end == reach;
    forall t ensures t in SpokenBy(s) + Cells(x) <==> t in SpokenBy(s) + Cells(Beyond(x, reach)) {
      SpokenByMembership(s, t);
      if x.start <= t < x.end && t < reach {
        assert last in s && last.start <= t < last.end;
      }
    }
    forall t | t in Cells(Beyond(x, reach)) ensures t !in SpokenBy(s) {
      SpokenByMembership(s, t);
      assert forall i :: i in s ==> i in multiset(s);
    }
  }

  /** What one more interval adds to the spoken cells. */
  lemma {:induction false} SweepStep(s: seq<Interval>, x: Interval, reach: int)
    requires IsMaxEnd(reach, s)
    requires forall i :: i in multiset(s) ==> i.start <= x.start
    requires x.start <= x.end
    ensures |SpokenBy(s + [x])| == |SpokenBy(s)| + (if x.end <= reach then 0 else Length(Beyond(x, reach)))
  {
    assert (s + [x])[..|s|] == s;
    NothingNewBelow(s, x, reach);
    if x.end > reach { CellsSize(Beyond(x, reach)); }
  }

  /** Every spoken cell lies in the hull, so the hull splits into spoken cells and gaps. */
  lemma {:induction false} HullSplits(first: int, last: int, s: seq<Interval>)
    requires forall i :: i in s ==> first <= i.start && i.end <= last
    requires first <= last
    ensures |SpokenBy(s)| + |Gaps(first, last, s)| == last - first
  {
    var hull := Cells(Interval(first, last));
    forall t | t in SpokenBy(s) ensures t in hull {
      SpokenByMembership(s, t);
    }
    CellsSize(Interval(first, last));
    assert hull == SpokenBy(s) + Gaps(first, last, s);
    assert SpokenBy(s) !! Gaps(first, last, s);
  }

  // ---------- the sweep ----------

  /** What the loop knows after the first intervals of a sorted list. */
  ghost predicate Swept(s: seq<Interval>, first: int, reach: int, silence: int, overlap: int) {
    && s != [] && s[0].start == first
    && IsMaxEnd(reach, s)
    && silence + |SpokenBy(s)| == reach - first
    && overlap == TotalTalk(s) - |SpokenBy(s)|
  }

  lemma {:induction false} SweptFirst(x: Interval)
    requires x.start <= x.end
    ensures Swept([x], x.start, x.end, 0, 0)
  {
    CellsSize(x);
    assert [x][..0] == [];
    assert SpokenBy([x]) == Cells(x);
    assert x in multiset([x]);
  }

  /** The intervals of `s` are well formed and none starts after `x`. */
  ghost predicate AllStartBefore(s: seq<Interval>, x: Interval) {
    forall i :: i in multiset(s) ==> i.start <= i.end && i.start <= x.start
  }

  lemma {:induction false} SortedPrefix(sorted: seq<Interval>, k: nat)
    requires k < |sorted| && Sorted(sorted)
    requires forall i :: 0 <= i < |sorted| ==> sorted[i].start <= sorted[i].end
    ensures AllStartBefore(sorted[..k], sorted[k])
    ensures sorted[..k + 1] == sorted[..k] + [sorted[k]]
  {
    forall i | i in multiset(sorted[..k]) ensures i.start <= i.end && i.start <= sorted[k].start {
      assert i in sorted[..k];
      var j :| 0 <= j < k && sorted[j] == i;
      assert Before(sorted[j], sorted[k]);
    }
  }

  lemma {:induction false} SweptNext(s: seq<Interval>, x: Interval, first: int, reach: int, silence: int, overlap: int)
    requires Swept(s, first, reach, silence, overlap)
    requires AllStartBefore(s, x)
    requires x.start <= x.end
    ensures Swept(s + [x], first, if x.end > reach then x.end else reach,
                  if x.start > reach then silence + (x.start - reach) else silence,
                  if x.start < reach then overlap + ((if reach <= x.end then reach else x.end) - x.start) else overlap)
  {
    SweepStep(s, x, reach);
    assert (s + [x])[..|s|] == s;
    var last :| last in multiset(s) && last.end == reach;
    assert last in multiset(s + [x]) && x in multiset(s + [x]);
  }

  /** Sorts, then accumulates the gaps before and the overlap with everything to the left. */
  method Sweep(timed: seq<Interval>) returns (silence: int, overlap: int, first: int, last: int)
    requires timed != []
    requires forall i :: i in timed ==> i.start <= i.end
    ensures IsMinStart(first, timed) && IsMaxEnd(last, timed)
    ensures silence == |Gaps(first, last, timed)|
    ensures overlap == TotalTalk(timed) - |SpokenBy(timed)|
    ensures TotalTalk(timed) + silence == (last - first) + overlap
  {
    var sorted := Sort(timed);
    SortSorts(timed);
    SameMembers(sorted, timed);
    assert forall i :: 0 <= i < |sorted| ==> sorted[i] in timed;
    silence, overlap, first, last := SweepSorted(sorted);
    SweepResult(sorted, timed, first, last, silence, overlap);
  }

  method SweepSorted(sorted: seq<Interval>) returns (silence: int, overlap: int, first: int, previousEnd: int)
    requires sorted != [] && Sorted(sorted)
    requires forall i :: 0 <= i < |sorted| ==> sorted[i].start <= sorted[i].end
    ensures Swept(sorted, first, previousEnd, silence, overlap)
  {
    silence, overlap := 0, 0;
    first := sorted[0].start;
    previousEnd := sorted[0].end;
    SweptFirst(sorted[0]);
    assert sorted[..1] == [sorted[0]];
    var k := 1;
    while k < |sorted|
      invariant 1 <= k <= |sorted|
      invariant Swept(sorted[..k], first, previousEnd, silence, overlap)
    {
      var x := sorted[k];
      SortedPrefix(sorted, k);
      SweptNext(sorted[..k], x, first, previousEnd, silence, overlap);
      if x.start > previousEnd {
        silence := silence + (x.start - previousEnd);
      } else if x.start < previousEnd {
        overlap := overlap + ((if previousEnd <= x.end then previousEnd else x.end) - x.start);
      }
      previousEnd := if x.end > previousEnd then x.end else previousEnd;
      k := k + 1;
    }
    assert sorted[..|sorted|] == sorted;
  }

  lemma {:induction false} SweepResult(
      sorted: seq<Interval>, timed: seq<Interval>, first: int, last: int, silence: int, overlap: int)
    requires Sorted(sorted) && multiset(sorted) == multiset(timed)
    requires forall i :: i in timed ==> i.start <= i.end
    requires sorted != [] && Swept(sorted, first, last, silence, overlap)
    ensures IsMinStart(first, timed) && IsMaxEnd(last, timed)
    ensures silence == |Gaps(first, last, timed)|
    ensures overlap == TotalTalk(timed) - |SpokenBy(timed)|
    ensures TotalTalk(timed) + silence == (last - first) + overlap
  {
    SameMembers(sorted, timed);
    assert sorted[0] in sorted;
    TotalTalkPermutation(sorted, timed);
    SpokenByPermutation(sorted, timed);
    HullSplits(first, last, timed);
  }

  // ---------- per-speaker totals ----------

  function CountChar(text: string, c: char): nat {
    if text == "" then 0 else CountChar(text[..|text| - 1], c) + if text[|text| - 1] == c then 1 else 0
  }

  /** Latin and Arabic question marks. */
  function Questions(text: string): nat {
    CountChar(text, '?') + CountChar(text, '\U{061F}')
  }

  function Duration(s: Segment): int {
    if Timed(s) then s.end.value - s.start.value else 0
  }

  function Max(a: int, b: int): int {
    if b > a then b else a
  }

  function AddTurn(t: Totals, s: Segment): Totals {
    Totals(t.turns + 1, t.talk + Duration(s), Max(t.longest, Duration(s)), t.questions + Questions(s.text))
  }

  /** What the segments of one speaker add up to. */
  function TotalsOf(segments: seq<Segment>, speaker: string): Totals {
    if segments == [] then Totals(0, 0, 0, 0)
    else
      var s := segments[|segments| - 1];
      var rest := TotalsOf(segments[..|segments| - 1], speaker);
      if s.speaker == speaker then AddTurn(rest, s) else rest
  }

  function SpeakerTalk(order: seq<string>, segments: seq<Segment>): int {
    if order == [] then 0 else SpeakerTalk(order[..|order| - 1], segments) + TotalsOf(segments, order[|order| - 1]).talk
  }

  ghost predicate Distinct<T>(s: seq<T>) {
    forall i, j :: 0 <= i < j < |s| ==> s[i] != s[j]
  }

  lemma {:induction false} SpeakerTalkNext(order: seq<string>, segments: seq<Segment>, s: Segment)
    requires Distinct(order)
    ensures SpeakerTalk(order, segments + [s]) ==
            SpeakerTalk(order, segments) + if s.speaker in order then Duration(s) else 0
  {
    if order == [] {
    } else {
      assert (segments + [s])[..|segments|] == segments;
      var init, last := order[..|order| - 1], order[|order| - 1];
      assert order == init + [last];
      SpeakerTalkNext(init, segments, s);
    }
  }

  /** Talk time is conserved: the speakers' talk adds up to the intervals' lengths. */
  lemma {:induction false} SpeakersShareAllTalk(order: seq<string>, segments: seq<Segment>)
    requires Distinct(order)
    requires forall k :: 0 <= k < |segments| ==> segments[k].speaker in order
    ensures SpeakerTalk(order, segments) == TotalTalk(Intervals(segments))
    decreases |segments|
  {
    if segments == [] {
      NobodyTalks(order);
    } else {
      var init, s := segments[..|segments| - 1], segments[|segments| - 1];
      assert segments == init + [s];
      SpeakersShareAllTalk(order, init);
      SpeakerTalkNext(order, init, s);
      var before := Intervals(init);
      if Timed(s) {
        assert Intervals(segments)[..|before|] == before;
      } else {
        assert Intervals(segments) == before;
      }
    }
  }

  lemma {:induction false} NobodyTalks(order: seq<string>)
    ensures SpeakerTalk(order, []) == 0
  {
    if order == [] {
    } else {
      NobodyTalks(order[..|order| - 1]);
    }
  }

  // ---------- the whole report ----------

  function NoneIfZero(x: int): Option<int> {
    if x == 0 then None else Some(x)
  }

  /** The number of uncovered cells between the first start and `last`. */
  ghost predicate IsSilence(silence: int, last: int, timed: seq<Interval>) {
    exists first :: IsMinStart(first, timed) && silence == |Gaps(first, last, timed)|
  }

  /** What the four call-level numbers are, for a call with timed intervals. */
  ghost predicate HullNumbers(span: int, speech: int, silence: int, overlap: int, timed: seq<Interval>) {
    && IsMaxEnd(span, timed)
    && speech == TotalTalk(timed)
    && IsSilence(silence, span, timed)
    && overlap == TotalTalk(timed) - |SpokenBy(timed)|
  }

  ghost predicate DescribesSpeakers(speakers: map<string, SpeakerStats>, segments: seq<Segment>, totalTalk: int) {
    && speakers.Keys == (set s | s in segments :: s.speaker)
    && forall p :: p in speakers ==> speakers[p] == StatsOf(TotalsOf(segments, p), totalTalk)
  }

  /** What a report says of its segments, without reference to how it is computed. */
  ghost predicate Describes(m: CallMetrics, segments: seq<Segment>) {
    var timed := Intervals(segments);
    && (timed == [] ==> m.span == m.speech == m.silence == m.overlap == None)
    && (timed != [] ==>
          && m.span.Some? && m.speech.Some? && m.silence.Some? && m.overlap.Some?
          && HullNumbers(m.span.value, m.speech.value, m.silence.value, m.overlap.value, timed))
    && DescribesSpeakers(m.speakers, segments, TotalTalk(timed))
  }

  function StatsOf(t: Totals, totalTalk: int): SpeakerStats {
    SpeakerStats(t.turns, NoneIfZero(t.talk),
                 if totalTalk == 0 then None else Some(t.talk as real / totalTalk as real * 100.0),
                 NoneIfZero(t.longest), t.questions)
  }

  lemma {:induction false} IntervalsAreTimed(segments: seq<Segment>)
    ensures forall i :: i in Intervals(segments) ==> i.start <= i.end
  {
    if segments == [] {
    } else {
      IntervalsAreTimed(segments[..|segments| - 1]);
    }
  }

  /** The state of the first loop after some segments. */
  ghost predicate Tallied(
      segments: seq<Segment>, totals: map<string, Totals>, order: seq<string>, timed: seq<Interval>)
  {
    && timed == Intervals(segments)
    && Distinct(order)
    && (forall p :: p in order <==> p in totals)
    && (forall p :: p in totals <==> exists k :: 0 <= k < |segments| && segments[k].speaker == p)
    && (forall p :: p in totals ==> totals[p] == TotalsOf(segments, p))
    && (forall p :: p !in totals ==> TotalsOf(segments, p) == Totals(0, 0, 0, 0))
  }

  lemma {:induction false} TallyNext(
      done: seq<Segment>, s: Segment, totals: map<string, Totals>, order: seq<string>, timed: seq<Interval>)
    requires Tallied(done, totals, order, timed)
    ensures var t := if s.speaker in totals then totals[s.speaker] else Totals(0, 0, 0, 0);
            Tallied(done + [s], totals[s.speaker := AddTurn(t, s)],
                    if s.speaker in totals then order else order + [s.speaker], timed + IntervalOf(s))
  {
    var next := done + [s];
    assert next[..|next| - 1] == done;
    assert next[|done|].speaker == s.speaker;
    assert forall j :: 0 <= j < |done| ==> next[j] == done[j];
    assert timed + [] == timed;
  }

  method Tally(segments: seq<Segment>) returns (totals: map<string, Totals>, order: seq<string>, timed: seq<Interval>)
    ensures Tallied(segments, totals, order, timed)
  {
    totals, order, timed := map[], [], [];
    for k := 0 to |segments|
      invariant Tallied(segments[..k], totals, order, timed)
    {
      var s := segments[k];
      assert segments[..k + 1] == segments[..k] + [s];
      TallyNext(segments[..k], s, totals, order, timed);
      var t := if s.speaker in totals then totals[s.speaker] else Totals(0, 0, 0, 0);
      order := if s.speaker in totals then order else order + [s.speaker];
      totals := totals[s.speaker := AddTurn(t, s)];
      timed := timed + IntervalOf(s);
    }
    assert segments[..|segments|] == segments;
  }

  method SumTalk(order: seq<string>, totals: map<string, Totals>, ghost segments: seq<Segment>) returns (talk: int)
    requires forall p :: p in order ==> p in totals && totals[p] == TotalsOf(segments, p)
    ensures talk == SpeakerTalk(order, segments)
  {
    talk := 0;
    for k := 0 to |order|
      invariant talk == SpeakerTalk(order[..k], segments)
    {
      assert order[..k + 1][..k] == order[..k];
      assert order[k] in order;
      talk := talk + totals[order[k]].talk;
    }
    assert order[..|order|] == order;
  }

  method CalculateMetrics(segments: seq<Segment>) returns (m: CallMetrics)
    ensures Describes(m, segments)
  {
    var totals, order, timed := Tally(segments);
    var totalTalk := SumTalk(order, totals, segments);
    SpeakersShareAllTalk(order, segments);
    var speakers := map p | p in totals :: StatsOf(totals[p], totalTalk);
    assert speakers.Keys == (set s | s in segments :: s.speaker);
    if timed == [] {
      m := CallMetrics(None, None, None, None, speakers);
    } else {
      IntervalsAreTimed(segments);
      var silence, overlap, first, last := Sweep(timed);
      m := CallMetrics(Some(last), Some(totalTalk), Some(silence), Some(overlap), speakers);
    }
  }

  // ---------- what the report says of a speaker ----------

  /** The speaker's turns, by their places. */
  ghost function TurnsOf(segments: seq<Segment>, speaker: string): set<int> {
    set k | 0 <= k < |segments| && segments[k].speaker == speaker
  }

  /** Where the speaker's turns have a question mark, Latin or Arabic. */
  ghost function Marks(segments: seq<Segment>, speaker: string): set<(int, int)> {
    set k, j | 0 <= k < |segments| && segments[k].speaker == speaker && 0 <= j < |segments[k].text| &&
               segments[k].text[j] in {'?', '\U{061F}'} :: (k, j)
  }

  /** Every cell of every timed turn of the speaker. */
  ghost function TalkOf(segments: seq<Segment>, speaker: string): set<(int, int)> {
    set k, x | 0 <= k < |segments| && segments[k].speaker == speaker && Timed(segments[k]) &&
               segments[k].start.value <= x < segments[k].end.value :: (k, x)
  }

  /** The greatest length of a timed turn of the speaker, if one is positive. */
  ghost predicate IsLongest(longest: Option<int>, segments: seq<Segment>, speaker: string) {
    && (forall k :: k in TurnsOf(segments, speaker) && Timed(segments[k]) ==> AtMostLongest(segments[k], longest))
    && (longest.Some? ==>
          && longest.value > 0
          && exists k :: k in TurnsOf(segments, speaker) && Lasts(segments[k], longest.value))
  }

  ghost predicate AtMostLongest(s: Segment, longest: Option<int>)
    requires Timed(s)
  {
    s.end.value - s.start.value <= if longest.Some? then longest.value else 0
  }

  ghost predicate Lasts(s: Segment, length: int) {
    Timed(s) && s.end.value - s.start.value == length
  }

  lemma {:induction false} MarksInText(text: string, n: int)
    ensures |set j | 0 <= j < |text| && text[j] in {'?', '\U{061F}'} :: (n, j)| == Questions(text)
  {
    var marks := set j | 0 <= j < |text| && text[j] in {'?', '\U{061F}'} :: (n, j);
    if text == "" {
      assert marks == {};
    } else {
      var init, last := text[..|text| - 1], text[|text| - 1];
      MarksInText(init, n);
      var before := set j | 0 <= j < |init| && init[j] in {'?', '\U{061F}'} :: (n, j);
      assert forall j :: 0 <= j < |init| ==> init[j] == text[j];
      assert (n, |init|) !in before;
      assert marks == if last in {'?', '\U{061F}'} then before + {(n, |init|)} else before;
    }
  }

  lemma {:induction false} CellsInTurn(lo: int, hi: int, n: int)
    requires lo <= hi
    ensures |set x | lo <= x < hi :: (n, x)| == hi - lo
    decreases hi - lo
  {
    var cells := set x | lo <= x < hi :: (n, x);
    if lo == hi {
      assert cells == {};
    } else {
      CellsInTurn(lo, hi - 1, n);
      var before := set x | lo <= x < hi - 1 :: (n, x);
      assert (n, hi - 1) !in before;
      assert cells == before + {(n, hi - 1)};
    }
  }

  lemma {:induction false} UnionSize<T>(a: set<T>, b: set<T>, c: set<T>)
    requires c == a + b && a !! b
    ensures |c| == |a| + |b|
  {
  }

  lemma {:induction false} TurnsCounted(segments: seq<Segment>, speaker: string)
    ensures |TurnsOf(segments, speaker)| == TotalsOf(segments, speaker).turns
  {
    if segments == [] {
      assert TurnsOf(segments, speaker) == {};
    } else {
      TurnsCounted(segments[..|segments| - 1], speaker);
      TurnsNext(segments, speaker);
    }
  }

  lemma {:induction false} TurnsNext(segments: seq<Segment>, speaker: string)
    requires segments != []
    ensures var init := segments[..|segments| - 1];
            && |init| !in TurnsOf(init, speaker)
            && TurnsOf(segments, speaker) ==
               if segments[|init|].speaker == speaker then TurnsOf(init, speaker) + {|init|} else TurnsOf(init, speaker)
  {
    var init := segments[..|segments| - 1];
    assert forall k :: 0 <= k < |init| ==> init[k] == segments[k];
  }

  ghost function CellsAt(n: int, s: Segment): set<(int, int)>
    requires Timed(s)
  {
    set x | s.start.value <= x < s.end.value :: (n, x)
  }

  lemma {:induction false} TalkNext(segments: seq<Segment>, speaker: string)
    requires segments != []
    ensures var init, s := segments[..|segments| - 1], segments[|segments| - 1];
            TalkOf(segments, speaker) ==
            TalkOf(init, speaker) + if s.speaker == speaker && Timed(s) then CellsAt(|init|, s) else {}
  {
    var init := segments[..|segments| - 1];
    assert forall k :: 0 <= k < |init| ==> init[k] == segments[k];
  }

  lemma {:induction false} AllTalkNext(segments: seq<Segment>)
    requires segments != []
    ensures var init, s := segments[..|segments| - 1], segments[|segments| - 1];
            AllTalk(segments) == AllTalk(init) + if Timed(s) then CellsAt(|init|, s) else {}
  {
    var init := segments[..|segments| - 1];
    assert forall k :: 0 <= k < |init| ==> init[k] == segments[k];
  }

  lemma {:induction false} MarksCounted(segments: seq<Segment>, speaker: string)
    ensures |Marks(segments, speaker)| == TotalsOf(segments, speaker).questions
  {
    if segments == [] {
      assert Marks(segments, speaker) == {};
    } else {
      var init, s := segments[..|segments| - 1], segments[|segments| - 1];
      MarksCounted(init, speaker);
      assert forall k :: 0 <= k < |init| ==> init[k] == segments[k];
      if s.speaker == speaker {
        MarksInText(s.text, |init|);
        var own := set j | 0 <= j < |s.text| && s.text[j] in {'?', '\U{061F}'} :: (|init|, j);
        UnionSize(Marks(init, speaker), own, Marks(segments, speaker));
      } else {
        assert Marks(segments, speaker) == Marks(init, speaker);
      }
    }
  }

  lemma {:induction false} TalkCounted(segments: seq<Segment>, speaker: string)
    ensures |TalkOf(segments, speaker)| == TotalsOf(segments, speaker).talk
  {
    if segments == [] {
      assert TalkOf(segments, speaker) == {};
    } else {
      var init, s := segments[..|segments| - 1], segments[|segments| - 1];
      TalkCounted(init, speaker);
      TalkNext(segments, speaker);
      if s.speaker == speaker && Timed(s) {
        CellsInTurn(s.start.value, s.end.value, |init|);
        UnionSize(TalkOf(init, speaker), CellsAt(|init|, s), TalkOf(segments, speaker));
      } else {
        assert TalkOf(init, speaker) + {} == TalkOf(init, speaker);
      }
    }
  }

  lemma {:induction false} LongestFound(segments: seq<Segment>, speaker: string)
    ensures TotalsOf(segments, speaker).longest >= 0
    ensures IsLongest(NoneIfZero(TotalsOf(segments, speaker).longest), segments, speaker)
  {
    if segments == [] {
    } else {
      var init, s := segments[..|segments| - 1], segments[|segments| - 1];
      LongestFound(init, speaker);
      assert forall k :: 0 <= k < |init| ==> init[k] == segments[k];
      var before, after := TotalsOf(init, speaker).longest, TotalsOf(segments, speaker).longest;
      forall k | k in TurnsOf(segments, speaker) && Timed(segments[k])
        ensures AtMostLongest(segments[k], NoneIfZero(after))
      {
        if k < |init| {
          assert k in TurnsOf(init, speaker);
        }
      }
      if after > before {
        assert |init| in TurnsOf(segments, speaker) && Lasts(segments[|init|], after);
      } else if after > 0 {
        var k :| k in TurnsOf(init, speaker) && Lasts(init[k], before);
        assert k in TurnsOf(segments, speaker) && Lasts(segments[k], after);
      }
    }
  }

  /** The number of turns, the talk of all of them and its share of everybody's, the longest one and
      the question marks. */
  ghost predicate SaysOf(stats: SpeakerStats, segments: seq<Segment>, speaker: string, totalTalk: int) {
    var talk := |TalkOf(segments, speaker)|;
    && stats.turns == |TurnsOf(segments, speaker)|
    && stats.questions == |Marks(segments, speaker)|
    && (stats.talk == if talk == 0 then None else Some(talk))
    && IsLongest(stats.longest, segments, speaker)
    && (stats.share.None? <==> totalTalk == 0)
    && (stats.share.Some? ==> stats.share.value * totalTalk as real == 100.0 * talk as real)
  }

  /** Exactly the speakers of the segments are reported, each by what the turns are. */
  lemma {:induction false} SpeakerReport(segments: seq<Segment>, m: CallMetrics, speaker: string)
    requires Describes(m, segments)
    ensures speaker in m.speakers <==> TurnsOf(segments, speaker) != {}
    ensures speaker in m.speakers ==>
              SaysOf(m.speakers[speaker], segments, speaker, |AllTalk(segments)|)
  {
    SpeakersListed(segments, m.speakers, TotalTalk(Intervals(segments)), speaker);
    AllTalkCounted(segments);
    if speaker in m.speakers {
      StatsMeaning(segments, speaker, TotalTalk(Intervals(segments)));
    }
  }

  lemma {:induction false} SpeakersListed(
      segments: seq<Segment>, speakers: map<string, SpeakerStats>, totalTalk: int, speaker: string)
    requires DescribesSpeakers(speakers, segments, totalTalk)
    ensures speaker in speakers <==> TurnsOf(segments, speaker) != {}
  {
    if speaker in speakers {
      var s :| s in segments && s.speaker == speaker;
      var k :| 0 <= k < |segments| && segments[k] == s;
      assert k in TurnsOf(segments, speaker);
    }
    if TurnsOf(segments, speaker) != {} {
      var k :| k in TurnsOf(segments, speaker);
      assert segments[k] in segments;
    }
  }

  lemma {:induction false} StatsMeaning(segments: seq<Segment>, speaker: string, totalTalk: int)
    ensures SaysOf(StatsOf(TotalsOf(segments, speaker), totalTalk), segments, speaker, totalTalk)
  {
    TurnsCounted(segments, speaker);
    MarksCounted(segments, speaker);
    TalkCounted(segments, speaker);
    LongestFound(segments, speaker);
    Share(TotalsOf(segments, speaker).talk, totalTalk);
  }

  /** The cells of all timed turns. */
  ghost function AllTalk(segments: seq<Segment>): set<(int, int)> {
    set k, x | 0 <= k < |segments| && Timed(segments[k]) && segments[k].start.value <= x < segments[k].end.value ::
        (k, x)
  }

  ghost predicate Spoken(segments: seq<Segment>, x: int) {
    exists k | 0 <= k < |segments| :: Speaks(segments[k], x)
  }

  ghost predicate Speaks(s: Segment, x: int) {
    Timed(s) && s.start.value <= x < s.end.value
  }

  lemma {:induction false} AllTalkCounted(segments: seq<Segment>)
    ensures |AllTalk(segments)| == TotalTalk(Intervals(segments))
  {
    if segments == [] {
      assert AllTalk(segments) == {};
    } else {
      var init, s := segments[..|segments| - 1], segments[|segments| - 1];
      AllTalkCounted(init);
      AllTalkNext(segments);
      IntervalsTalk(segments);
      if Timed(s) {
        CellsInTurn(s.start.value, s.end.value, |init|);
        UnionSize(AllTalk(init), CellsAt(|init|, s), AllTalk(segments));
      } else {
        assert AllTalk(init) + {} == AllTalk(init);
      }
    }
  }

  lemma {:induction false} IntervalsTalk(segments: seq<Segment>)
    requires segments != []
    ensures var init, s := segments[..|segments| - 1], segments[|segments| - 1];
            TotalTalk(Intervals(segments)) == TotalTalk(Intervals(init)) + Duration(s)
  {
    var init, s := segments[..|segments| - 1], segments[|segments| - 1];
    if Timed(s) {
      assert (Intervals(init) + IntervalOf(s))[..|Intervals(init)|] == Intervals(init);
    } else {
      assert Intervals(init) + [] == Intervals(init);
    }
  }

  lemma {:induction false} SpokenExactly(segments: seq<Segment>, x: int)
    ensures x in SpokenBy(Intervals(segments)) <==> Spoken(segments, x)
  {
    if segments == [] {
    } else {
      var init, s := segments[..|segments| - 1], segments[|segments| - 1];
      SpokenExactly(init, x);
      assert forall k :: 0 <= k < |init| ==> init[k] == segments[k];
      if Timed(s) {
        assert (Intervals(init) + IntervalOf(s))[..|Intervals(init)|] == Intervals(init);
        assert Spoken(segments, x) <==> Spoken(init, x) || Speaks(s, x);
      } else {
        assert Intervals(init) + [] == Intervals(init);
        assert Spoken(segments, x) <==> Spoken(init, x);
      }
    }
  }

  lemma {:induction false} IntervalsExactly(segments: seq<Segment>, i: Interval)
    ensures i in Intervals(segments) <==>
            exists k | 0 <= k < |segments| :: Timed(segments[k])
                && i == Interval(segments[k].start.value, segments[k].end.value)
  {
    if segments == [] {
    } else {
      IntervalsExactly(segments[..|segments| - 1], i);
    }
  }

  /** The four numbers of the call, by its timed turns: there are none without such a turn; otherwise
      the greatest end, the cells of all turns, the cells in between that nobody speaks in, and what
      the turns have more than the cells somebody speaks in. */
  lemma {:induction false} CallReport(segments: seq<Segment>, m: CallMetrics)
    requires Describes(m, segments)
    ensures m.span.None? <==>
            forall s :: s in segments ==> s.start.None? || s.end.None? || s.end.value < s.start.value
    ensures m.span.None? <==> m.speech.None?
    ensures m.span.None? <==> m.silence.None?
    ensures m.span.None? <==> m.overlap.None?
    ensures m.span.Some? ==>
              && LastEnd(segments, m.span.value)
              && m.speech.value == |AllTalk(segments)|
              && exists first, spoken :: Hull(segments, first, spoken) &&
                   m.silence.value == (m.span.value - first) - |spoken|
                       && m.overlap.value == |AllTalk(segments)| - |spoken|
  {
    var timed := Intervals(segments);
    AllTalkCounted(segments);
    AnyTimed(segments);
    if timed != [] {
      BoundsMeaning(segments, m.span.value);
      var first :| IsMinStart(first, timed) && m.silence.value == |Gaps(first, m.span.value, timed)|;
      StartMeaning(segments, first);
      IntervalsAreTimed(segments);
      HullSplits(first, m.span.value, timed);
      forall x ensures x in SpokenBy(timed) <==> Spoken(segments, x) {
        SpokenExactly(segments, x);
      }
      assert Hull(segments, first, SpokenBy(timed));
    }
  }

  lemma {:induction false} AnyTimed(segments: seq<Segment>)
    ensures Intervals(segments) == [] <==>
            forall s :: s in segments ==> s.start.None? || s.end.None? || s.end.value < s.start.value
  {
    if segments == [] {
    } else {
      var init, last := segments[..|segments| - 1], segments[|segments| - 1];
      AnyTimed(init);
      assert forall s :: s in segments <==> s in init || s == last;
    }
  }

  ghost predicate EndsAt(s: Segment, x: int) {
    Timed(s) && s.end.value == x
  }

  ghost predicate StartsAt(s: Segment, x: int) {
    Timed(s) && s.start.value == x
  }

  ghost predicate LastEnd(segments: seq<Segment>, x: int) {
    && (exists k :: 0 <= k < |segments| && EndsAt(segments[k], x))
    && (forall k :: 0 <= k < |segments| && Timed(segments[k]) ==> segments[k].end.value <= x)
  }

  ghost predicate FirstStart(segments: seq<Segment>, x: int) {
    && (exists k :: 0 <= k < |segments| && StartsAt(segments[k], x))
    && (forall k :: 0 <= k < |segments| && Timed(segments[k]) ==> x <= segments[k].start.value)
  }

  lemma {:induction false} IntervalAt(segments: seq<Segment>, k: nat)
    requires k < |segments| && Timed(segments[k])
    ensures Interval(segments[k].start.value, segments[k].end.value) in Intervals(segments)
  {
    IntervalsExactly(segments, Interval(segments[k].start.value, segments[k].end.value));
  }

  lemma {:induction false} BoundsMeaning(segments: seq<Segment>, last: int)
    requires IsMaxEnd(last, Intervals(segments))
    ensures LastEnd(segments, last)
  {
    var i :| i in multiset(Intervals(segments)) && i.end == last;
    IntervalsExactly(segments, i);
    var n :| 0 <= n < |segments| && Timed(segments[n]) && i == Interval(segments[n].start.value, segments[n].end.value);
    assert EndsAt(segments[n], last);
    forall k | 0 <= k < |segments| && Timed(segments[k]) ensures segments[k].end.value <= last {
      IntervalAt(segments, k);
    }
  }

  lemma {:induction false} StartMeaning(segments: seq<Segment>, first: int)
    requires IsMinStart(first, Intervals(segments))
    ensures FirstStart(segments, first)
  {
    var i :| i in multiset(Intervals(segments)) && i.start == first;
    IntervalsExactly(segments, i);
    var n :| 0 <= n < |segments| && Timed(segments[n]) && i == Interval(segments[n].start.value, segments[n].end.value);
    assert StartsAt(segments[n], first);
    forall k | 0 <= k < |segments| && Timed(segments[k]) ensures first <= segments[k].start.value {
      IntervalAt(segments, k);
    }
  }

  /** The earliest start, and exactly the cells somebody speaks in. */
  ghost predicate Hull(segments: seq<Segment>, first: int, spoken: set<int>) {
    FirstStart(segments, first) && forall x :: x in spoken <==> Spoken(segments, x)
  }

  lemma {:induction false} Share(talk: int, total: int)
    ensures total != 0 ==> talk as real / total as real * 100.0 * total as real == 100.0 * talk as real
  {
    if total != 0 {
      var q := talk as real / total as real;
      assert q * total as real == talk as real;
    }
  }

  // ---------- the report does not depend on the order of the segments ----------

  lemma {:induction false} TotalsWithout(s: seq<Segment>, k: nat, speaker: string)
    requires k < |s|
    ensures var rest := TotalsOf(s[..k] + s[k + 1..], speaker);
            TotalsOf(s, speaker) == if s[k].speaker == speaker then AddTurn(rest, s[k]) else rest
    decreases |s|
  {
    var init := s[..|s| - 1];
    if k == |s| - 1 {
      assert s[..k] + s[k + 1..] == init;
    } else {
      TotalsWithout(init, k, speaker);
      var rest := s[..k] + s[k + 1..];
      assert rest[..|rest| - 1] == init[..k] + init[k + 1..];
    }
  }

  lemma {:induction false} IntervalsConcat(a: seq<Segment>, b: seq<Segment>)
    ensures Intervals(a + b) == Intervals(a) + Intervals(b)
    decreases |b|
  {
    if b == [] {
      assert a + b == a;
    } else {
      var init, last := b[..|b| - 1], b[|b| - 1];
      assert (a + b)[..|a + b| - 1] == a + init;
      IntervalsConcat(a, init);
    }
  }

  lemma {:induction false} IntervalsWithout(s: seq<Segment>, k: nat)
    requires k < |s|
    ensures multiset(Intervals(s)) == multiset(Intervals(s[..k] + s[k + 1..])) + multiset(IntervalOf(s[k]))
  {
    var x, y, z := s[..k], [s[k]], s[k + 1..];
    assert s == (x + y) + z;
    IntervalsConcat(x + y, z);
    IntervalsConcat(x, y);
    IntervalsConcat(x, z);
    assert y[..0] == [];
    assert Intervals(y) == IntervalOf(s[k]);
  }

  lemma {:induction false} SamePermutedTotals(a: seq<Segment>, b: seq<Segment>, speaker: string)
    requires multiset(a) == multiset(b)
    ensures TotalsOf(a, speaker) == TotalsOf(b, speaker)
    ensures multiset(Intervals(a)) == multiset(Intervals(b))
    decreases |a|
  {
    SameMembers(a, b);
    if a == [] {
    } else {
      var init, last := a[..|a| - 1], a[|a| - 1];
      RemoveMatching(a, b);
      var k: nat :| Matches(a, b, k);
      SamePermutedTotals(init, b[..k] + b[k + 1..], speaker);
      TotalsWithout(b, k, speaker);
      IntervalsWithout(b, k);
      IntervalsWithout(a, |a| - 1);
      assert a[..|a| - 1] + a[|a| - 1 + 1..] == init;
    }
  }

  /** Reordering the segments changes nothing in the report. */
  lemma {:induction false} PermutationInvariant(a: seq<Segment>, b: seq<Segment>, m: CallMetrics, n: CallMetrics)
    requires multiset(a) == multiset(b)
    requires Describes(m, a) && Describes(n, b)
    ensures m == n
  {
    SamePermutedTotals(a, b, "");
    SameMembers(a, b);
    TotalTalkPermutation(Intervals(a), Intervals(b));
    SameSpeakers(a, b, TotalTalk(Intervals(a)), m.speakers, n.speakers);
    SameMembers(Intervals(a), Intervals(b));
    if Intervals(a) != [] {
      SameHull(Intervals(a), Intervals(b), m.span.value, m.speech.value, m.silence.value, m.overlap.value,
               n.span.value, n.speech.value, n.silence.value, n.overlap.value);
    }
  }

  lemma {:induction false} SameSpeakers(a: seq<Segment>, b: seq<Segment>, totalTalk: int,
                                        x: map<string, SpeakerStats>, y: map<string, SpeakerStats>)
    requires multiset(a) == multiset(b)
    requires DescribesSpeakers(x, a, totalTalk) && DescribesSpeakers(y, b, totalTalk)
    ensures x == y
  {
    SameMembers(a, b);
    assert x.Keys == y.Keys;
    forall p | p in x ensures x[p] == y[p] {
      SamePermutedTotals(a, b, p);
    }
  }

  lemma {:induction false} SameHull(s: seq<Interval>, t: seq<Interval>,
                                    span: int, speech: int, silence: int, overlap: int,
                                    span': int, speech': int, silence': int, overlap': int)
    requires multiset(s) == multiset(t)
    requires HullNumbers(span, speech, silence, overlap, s)
    requires HullNumbers(span', speech', silence', overlap', t)
    ensures span == span' && speech == speech' && silence == silence' && overlap == overlap'
  {
    UniqueBounds(s, t, span, span');
    SameSilence(s, t, span, silence, silence');
    SameOverlap(s, t);
  }

  lemma {:induction false} SameOverlap(s: seq<Interval>, t: seq<Interval>)
    requires multiset(s) == multiset(t)
    ensures TotalTalk(s) == TotalTalk(t)
    ensures TotalTalk(s) - |SpokenBy(s)| == TotalTalk(t) - |SpokenBy(t)|
  {
    TotalTalkPermutation(s, t);
    SpokenByPermutation(s, t);
  }

  lemma {:induction false} SameSilence(s: seq<Interval>, t: seq<Interval>, last: int, x: int, y: int)
    requires multiset(s) == multiset(t)
    requires IsSilence(x, last, s) && IsSilence(y, last, t)
    ensures x == y
  {
    var f :| IsMinStart(f, s) && x == |Gaps(f, last, s)|;
    var g :| IsMinStart(g, t) && y == |Gaps(g, last, t)|;
    UniqueStarts(s, t, f, g);
    SpokenByPermutation(s, t);
    assert Gaps(f, last, s) == Gaps(g, last, t);
  }

  lemma {:induction false} UniqueBounds(s: seq<Interval>, t: seq<Interval>, x: int, y: int)
    requires multiset(s) == multiset(t)
    requires IsMaxEnd(x, s) && IsMaxEnd(y, t)
    ensures x == y
  {
    var i :| i in multiset(s) && i.end == x;
    var j :| j in multiset(t) && j.end == y;
  }

  lemma {:induction false} UniqueStarts(s: seq<Interval>, t: seq<Interval>, x: int, y: int)
    requires multiset(s) == multiset(t)
    requires IsMinStart(x, s) && IsMinStart(y, t)
    ensures x == y
  {
    var i :| i in multiset(s) && i.start == x;
    var j :| j in multiset(t) && j.start == y;
  }

  /** The identity the four call-level numbers satisfy. */
  lemma {:induction false} TalkAndSilenceFillTheCall(segments: seq<Segment>, m: CallMetrics, first: int)
    requires Describes(m, segments) && Intervals(segments) != []
    requires IsMinStart(first, Intervals(segments))
    ensures m.speech.value + m.silence.value == (m.span.value - first) + m.overlap.value
  {
    var timed := Intervals(segments);
    IntervalsAreTimed(segments);
    var f :| IsMinStart(f, timed) && m.silence.value == |Gaps(f, m.span.value, timed)|;
    assert f == first;
    HullSplits(first, m.span.value, timed);
  }
}

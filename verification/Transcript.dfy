/** Transcript items as they travel from the speech provider to the database.

    They are normalised and given roles on the way (backend/app/services/metrics.py,
    backend/app/services/roles.py). */
module Transcript {
  import opened Wrappers

  /** What the provider returned for one turn. */
  datatype RawSegment = RawSegment(speaker: string, text: string, start: Option<real>, end: Option<real>)

  datatype SpeakerRole = AgentRole | SellerRole | CustomerRole | OtherRole | UnknownRole

  /** The legacy name for an agent is stored as the canonical one. */
  function Canonical(role: SpeakerRole): SpeakerRole {
    if role == SellerRole then AgentRole else role
  }

  /** One turn inside a worker run. An empty `normalizedText` stands for an absent one. */
  datatype Item = Item(
    position: nat, speaker: string, role: SpeakerRole, roleConfidence: Option<real>,
    start: Option<real>, end: Option<real>, text: string, normalizedText: string)

  // ---------- str.strip ----------

  predicate IsSpace(c: char) {
    c in {'\t', '\n', '\U{0B}', '\U{0C}', '\r', '\U{1C}', '\U{1D}', '\U{1E}', '\U{1F}', ' ', '\U{85}', '\U{A0}',
          '\U{1680}', '\U{2028}', '\U{2029}', '\U{202F}', '\U{205F}', '\U{3000}'}
    || '\U{2000}' <= c <= '\U{200A}'
  }

  function StripLeft(s: string): string {
    if s != "" && IsSpace(s[0]) then StripLeft(s[1..]) else s
  }

  function StripRight(s: string): string {
    if s != "" && IsSpace(s[|s| - 1]) then StripRight(s[..|s| - 1]) else s
  }

  function Strip(s: string): string {
    StripRight(StripLeft(s))
  }

  lemma {:induction false} StripRightKeepsFront(s: string)
    ensures StripRight(s) <= s
    ensures StripRight(s) != "" ==> !IsSpace(StripRight(s)[|StripRight(s)| - 1])
  {
    if s != "" && IsSpace(s[|s| - 1]) {
      StripRightKeepsFront(s[..|s| - 1]);
    }
  }

  lemma {:induction false} StripLeftFront(s: string)
    ensures StripLeft(s) != "" ==> !IsSpace(StripLeft(s)[0])
  {
    if s != "" && IsSpace(s[0]) {
      StripLeftFront(s[1..]);
    }
  }

  lemma {:induction false} StripIdempotent(s: string)
    ensures Strip(Strip(s)) == Strip(s)
  {
    StripLeftFront(s);
    StripRightKeepsFront(StripLeft(s));
  }

  ghost predicate AllSpace(s: string) {
    forall k :: 0 <= k < |s| ==> IsSpace(s[k])
  }

  lemma {:induction false} StripLeftParts(s: string) returns (before: string)
    ensures s == before + StripLeft(s) && AllSpace(before)
  {
    if s != "" && IsSpace(s[0]) {
      before := StripLeftParts(s[1..]);
      before := [s[0]] + before;
    } else {
      before := "";
    }
  }

  lemma {:induction false} StripRightParts(s: string) returns (after: string)
    ensures s == StripRight(s) + after && AllSpace(after)
  {
    if s != "" && IsSpace(s[|s| - 1]) {
      after := StripRightParts(s[..|s| - 1]);
      after := after + [s[|s| - 1]];
    } else {
      after := "";
    }
  }

  /** `t` is `s` without the space around it. */
  ghost predicate Stripped(s: string, t: string) {
    && (exists before, after :: Surrounded(s, before, t, after))
    && (t != "" ==> !IsSpace(t[0]) && !IsSpace(t[|t| - 1]))
  }

  ghost predicate Surrounded(s: string, before: string, t: string, after: string) {
    s == before + t + after && AllSpace(before) && AllSpace(after)
  }

  lemma {:induction false} StripExactly(s: string)
    ensures Stripped(s, Strip(s))
  {
    var before := StripLeftParts(s);
    var after := StripRightParts(StripLeft(s));
    StripLeftFront(s);
    StripRightKeepsFront(StripLeft(s));
    assert s == before + Strip(s) + after;
    assert Surrounded(s, before, Strip(s), after);
  }

  // ---------- normalize_segments ----------

  /** Drops the empty turns and numbers the others densely from zero. */
  function Normalized(raw: seq<RawSegment>): seq<Item> {
    if raw == [] then []
    else
      var rest := Normalized(raw[..|raw| - 1]);
      var item := raw[|raw| - 1];
      var text := Strip(item.text);
      if text == "" then rest
      else rest + [Item(|rest|, item.speaker, UnknownRole, None, item.start, item.end, text, "")]
  }

  method NormalizeSegments(raw: seq<RawSegment>) returns (normalized: seq<Item>)
    ensures normalized == Normalized(raw)
  {
    normalized := [];
    for k := 0 to |raw|
      invariant normalized == Normalized(raw[..k])
    {
      assert raw[..k + 1][..k] == raw[..k];
      var text := Strip(raw[k].text);
      if text == "" {
        continue;
      }
      normalized := normalized +
        [Item(|normalized|, raw[k].speaker, UnknownRole, None, raw[k].start, raw[k].end, text, "")];
    }
    assert raw[..|raw|] == raw;
  }

  /** Positions are the indices, whatever the provider returned, and every kept text is
      non-empty and stripped. */
  lemma {:induction false} NormalizedDense(raw: seq<RawSegment>)
    ensures forall k :: 0 <= k < |Normalized(raw)| ==>
              var item := Normalized(raw)[k];
              item.position == k && item.text != "" && Strip(item.text) == item.text
  {
    if raw == [] {
    } else {
      NormalizedDense(raw[..|raw| - 1]);
      StripIdempotent(raw[|raw| - 1].text);
    }
  }

  /** The items are the turns at these places, in order: exactly those with more than space in their
      text. */
  ghost predicate TurnsAt(raw: seq<RawSegment>, items: seq<Item>, places: seq<nat>) {
    && |places| == |items|
    && (forall i, j :: 0 <= i < j < |places| ==> places[i] < places[j])
    && (forall j :: 0 <= j < |places| ==> places[j] < |raw| && IsTurn(raw[places[j]], items[j], j))
    && (forall k :: 0 <= k < |raw| ==> (k in places <==> Strip(raw[k].text) != ""))
  }

  ghost predicate IsTurns(raw: seq<RawSegment>, items: seq<Item>) {
    exists places: seq<nat> :: TurnsAt(raw, items, places)
  }

  ghost predicate IsTurn(raw: RawSegment, item: Item, j: nat) {
    item == Item(j, raw.speaker, UnknownRole, None, raw.start, raw.end, Strip(raw.text), "")
  }

  lemma {:induction false} NormalizedExactly(raw: seq<RawSegment>)
    ensures IsTurns(raw, Normalized(raw))
  {
    if raw == [] {
      assert TurnsAt(raw, [], []);
    } else {
      var init := raw[..|raw| - 1];
      NormalizedExactly(init);
      var places: seq<nat> :| TurnsAt(init, Normalized(init), places);
      NormalizedNext(raw, places);
    }
  }

  lemma {:induction false} NormalizedNext(raw: seq<RawSegment>, places: seq<nat>)
    requires raw != [] && TurnsAt(raw[..|raw| - 1], Normalized(raw[..|raw| - 1]), places)
    ensures IsTurns(raw, Normalized(raw))
  {
    var items := Normalized(raw[..|raw| - 1]);
    if Strip(raw[|raw| - 1].text) == "" {
      NoNextTurn(raw, items, places);
    } else {
      NextTurn(raw, items, places);
    }
  }

  lemma {:induction false} NoNextTurn(raw: seq<RawSegment>, items: seq<Item>, places: seq<nat>)
    requires raw != [] && TurnsAt(raw[..|raw| - 1], items, places) && Strip(raw[|raw| - 1].text) == ""
    ensures TurnsAt(raw, items, places)
  {
    var init := raw[..|raw| - 1];
    assert forall k :: 0 <= k < |init| ==> init[k] == raw[k];
    assert |init| !in places;
  }

  lemma {:induction false} NextTurn(raw: seq<RawSegment>, items: seq<Item>, places: seq<nat>)
    requires raw != [] && TurnsAt(raw[..|raw| - 1], items, places) && Strip(raw[|raw| - 1].text) != ""
    ensures var last := raw[|raw| - 1];
            TurnsAt(raw, items + [Item(|items|, last.speaker, UnknownRole, None, last.start, last.end,
                                       Strip(last.text), "")], places + [|raw| - 1])
  {
    var init := raw[..|raw| - 1];
    assert forall k :: 0 <= k < |init| ==> init[k] == raw[k];
    assert |init| !in places;
  }

  // ---------- apply_roles ----------

  /** The outcome of a role assignment, whichever heuristic or model produced it. */
  datatype RoleAssignment = RoleAssignment(roles: map<string, SpeakerRole>, confidence: real)

  function ApplyRoles(items: seq<Item>, assignment: RoleAssignment): seq<Item> {
    seq(|items|, k requires 0 <= k < |items| =>
      var speaker := items[k].speaker;
      items[k].(role := if speaker in assignment.roles then assignment.roles[speaker] else UnknownRole,
                roleConfidence := Some(assignment.confidence)))
  }

  /** Every turn of a named speaker has that speaker's role, all others none, and nothing else of a
      turn changes but the confidence. */
  lemma {:induction false} RolesApplied(items: seq<Item>, assignment: RoleAssignment, k: nat)
    requires k < |items|
    ensures var after := ApplyRoles(items, assignment);
            && |after| == |items| && after[k].roleConfidence == Some(assignment.confidence)
            && after[k] == items[k].(role := after[k].role, roleConfidence := after[k].roleConfidence)
            && (after[k].speaker !in assignment.roles.Keys ==> after[k].role == UnknownRole)
            && (forall role :: (items[k].speaker, role) in assignment.roles.Items ==> after[k].role == role)
  {
  }
}

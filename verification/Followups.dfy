/** The follow-up task and the message drafts of one call.

    Both are added once, however often the call is processed (backend/app/tasks.py,
    backend/app/services/followups.py). */
module Followups {
  import E = Evidence

  /** The task's key is a fingerprint of the call's identifier, so it is the same on every run. Its title,
      priority and due time are not modelled. */
  datatype Task = Task(key: nat)

  datatype Followups = Followups(tasks: seq<Task>, drafts: seq<E.Draft>)

  /** Whether the analysis asks for a follow-up. `closed` recognises the closed funnel stages. */
  predicate FollowupWanted(a: E.Analysis, closed: string -> bool) {
    || E.FOLLOWUP_AT in a.facts
    || a.nextAction.Some?
    || a.outcome == E.FollowUp
    || (E.COMMITMENTS in a.lists && a.lists[E.COMMITMENTS] != [])
    || (a.outcome != E.Won && a.outcome != E.Lost && !closed(a.funnelStage))
  }

  predicate HasTask(tasks: seq<Task>, key: nat) {
    exists k :: 0 <= k < |tasks| && tasks[k].key == key
  }

  function AddTask(f: Followups, key: nat): Followups {
    if HasTask(f.tasks, key) then f else f.(tasks := f.tasks + [Task(key)])
  }

  /** The first `count` drafts, without the ones that are stored already. */
  function AddDrafts(f: Followups, drafts: seq<E.Draft>, count: nat): Followups
    requires count <= |drafts|
  {
    if count == 0 then f
    else
      var rest := AddDrafts(f, drafts, count - 1);
      if drafts[count - 1] in rest.drafts then rest else rest.(drafts := rest.drafts + [drafts[count - 1]])
  }

  function Followed(f: Followups, key: nat, a: E.Analysis, closed: string -> bool): Followups {
    AddDrafts(if FollowupWanted(a, closed) then AddTask(f, key) else f, a.drafts, |a.drafts|)
  }

  method CreateFollowups(f: Followups, key: nat, a: E.Analysis, closed: string -> bool) returns (r: Followups)
    ensures r == Followed(f, key, a, closed)
  {
    r := f;
    if FollowupWanted(a, closed) {
      if !HasTask(f.tasks, key) {
        r := r.(tasks := r.tasks + [Task(key)]);
      }
    }
    ghost var before := r;
    for k := 0 to |a.drafts|
      invariant r == AddDrafts(before, a.drafts, k)
    {
      if a.drafts[k] !in r.drafts {
        r := r.(drafts := r.drafts + [a.drafts[k]]);
      }
    }
  }

  /** No key and no draft is stored twice. */
  ghost predicate NoRepeats(f: Followups) {
    && (forall i, j :: 0 <= i < j < |f.tasks| ==> f.tasks[i].key != f.tasks[j].key)
    && (forall i, j :: 0 <= i < j < |f.drafts| ==> f.drafts[i] != f.drafts[j])
  }

  lemma {:induction false} AddDraftsKeeps(f: Followups, drafts: seq<E.Draft>, count: nat)
    requires NoRepeats(f) && count <= |drafts|
    ensures NoRepeats(AddDrafts(f, drafts, count))
    ensures f.drafts <= AddDrafts(f, drafts, count).drafts && AddDrafts(f, drafts, count).tasks == f.tasks
    ensures forall k :: 0 <= k < count ==> drafts[k] in AddDrafts(f, drafts, count).drafts
  {
    if count == 0 {
    } else {
      AddDraftsKeeps(f, drafts, count - 1);
    }
  }

  /** Processing a call again never repeats its task or a draft, and drops neither. */
  lemma {:induction false} FollowedKeeps(f: Followups, key: nat, a: E.Analysis, closed: string -> bool)
    requires NoRepeats(f)
    ensures var r := Followed(f, key, a, closed);
            && NoRepeats(r) && f.tasks <= r.tasks && f.drafts <= r.drafts
            && (FollowupWanted(a, closed) ==> HasTask(r.tasks, key))
            && (forall k :: 0 <= k < |a.drafts| ==> a.drafts[k] in r.drafts)
  {
    var b := if FollowupWanted(a, closed) then AddTask(f, key) else f;
    AddDraftsKeeps(b, a.drafts, |a.drafts|);
    if FollowupWanted(a, closed) && !HasTask(f.tasks, key) {
      assert b.tasks[|f.tasks|].key == key;
    }
  }

  /** Nothing is left to follow up: the deal is closed, and no time, step or commitment is named. */
  ghost predicate NothingToFollow(a: E.Analysis, closed: string -> bool) {
    && E.FOLLOWUP_AT !in a.facts && !a.nextAction.Some? && a.outcome != E.FollowUp
    && (E.COMMITMENTS in a.lists ==> |a.lists[E.COMMITMENTS]| == 0)
    && (a.outcome == E.Unknown ==> closed(a.funnelStage))
  }

  lemma {:induction false} DraftsExactly(f: Followups, drafts: seq<E.Draft>, count: nat)
    requires count <= |drafts|
    ensures forall d :: d in AddDrafts(f, drafts, count).drafts <==> d in f.drafts || d in drafts[..count]
  {
    if count == 0 {
    } else {
      DraftsExactly(f, drafts, count - 1);
      assert drafts[..count] == drafts[..count - 1] + [drafts[count - 1]];
    }
  }

  /** The rows `r` are those of `f`, the call's task unless nothing is left to follow up, and the
      drafts of the analysis, none of them twice. */
  ghost predicate FollowsUp(f: Followups, r: Followups, key: nat, a: E.Analysis, closed: string -> bool) {
    && (HasTask(r.tasks, key) <==> HasTask(f.tasks, key) || !NothingToFollow(a, closed))
    && (r.tasks == f.tasks || (!HasTask(f.tasks, key) && r.tasks == f.tasks + [Task(key)]))
    && f.drafts <= r.drafts && (forall d :: d in r.drafts <==> d in f.drafts || d in a.drafts)
    && NoRepeats(r)
  }

  lemma {:induction false} FollowedExactly(f: Followups, key: nat, a: E.Analysis, closed: string -> bool)
    requires NoRepeats(f)
    ensures FollowsUp(f, Followed(f, key, a, closed), key, a, closed)
  {
    FollowedKeeps(f, key, a, closed);
    var b := if FollowupWanted(a, closed) then AddTask(f, key) else f;
    AddDraftsKeeps(b, a.drafts, |a.drafts|);
    DraftsExactly(b, a.drafts, |a.drafts|);
    assert a.drafts[..|a.drafts|] == a.drafts;
  }

  /** The same analysis a second time adds nothing. */
  lemma {:induction false} FollowedTwice(f: Followups, key: nat, a: E.Analysis, closed: string -> bool)
    requires NoRepeats(f)
    ensures Followed(Followed(f, key, a, closed), key, a, closed) == Followed(f, key, a, closed)
  {
    FollowedKeeps(f, key, a, closed);
    NothingToAdd(Followed(f, key, a, closed), a.drafts, |a.drafts|);
  }

  lemma {:induction false} NothingToAdd(f: Followups, drafts: seq<E.Draft>, count: nat)
    requires count <= |drafts| && forall k :: 0 <= k < |drafts| ==> drafts[k] in f.drafts
    ensures AddDrafts(f, drafts, count) == f
  {
    if count == 0 {
    } else {
      NothingToAdd(f, drafts, count - 1);
    }
  }
}

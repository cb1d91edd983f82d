/**
  The human review of incidents in the operations cell (ops-cell-lite/app.py):
  an append-only review log, the lookup of the latest decision for an
  incident, and the Approve/Reject update of the `approved` and `rejected`
  sets. Timestamps come in as parameters; the widgets are not modelled.
*/
module Review {
  import opened Basics

  /** One review log entry. */
  datatype Entry = Entry(ts: string, incidentId: string, decision: string, note: string)

  /** What the incident view shows for the reviewer: the decision and note, or two empty strings. */
  datatype Reviewer = Reviewer(decision: string, note: string)

  /** The radio choice that records nothing. */
  const NoDecision: string := "(sin decisión)"

  /** The three options of the decision radio, in display order. */
  const Choices: seq<string> := [NoDecision, "Approve", "Reject"]

  /**
    The option the radio starts on for a reviewer decision: nothing recorded
    shows "(sin decisión)", "Approve" shows "Approve", anything else "Reject".
  */
  function PrefillIndex(decision: string): (i: nat)
    ensures i < |Choices|
    ensures decision == "" <==> Choices[i] == NoDecision
    ensures decision == "Approve" <==> Choices[i] == "Approve"
    ensures decision == "Reject" ==> Choices[i] == decision
  {
    if decision == "" then 0 else if decision == "Approve" then 1 else 2
  }

  /** The latest log entry for an incident, if there is one. */
  function LastEntry(log: seq<Entry>, iid: string): (r: Option<nat>)
    ensures r.Some? ==> r.value < |log| && log[r.value].incidentId == iid
    ensures r.Some? ==> forall k :: r.value < k < |log| ==> log[k].incidentId != iid
    ensures r.None? ==> forall k :: 0 <= k < |log| ==> log[k].incidentId != iid
  {
    if log == [] then None
    else if log[|log| - 1].incidentId == iid then Some(|log| - 1)
    else LastEntry(log[..|log| - 1], iid)
  }

  /** The decision of the latest entry for an incident, if there is one. */
  function LastDecision(log: seq<Entry>, iid: string): Option<string> {
    match LastEntry(log, iid)
    case None => None
    case Some(k) => Some(log[k].decision)
  }

  /** The reviewer state the latest entry implies. */
  function ReviewerOf(log: seq<Entry>, iid: string): (r: Reviewer)
    ensures (forall k :: 0 <= k < |log| ==> log[k].incidentId != iid) ==> r == Reviewer("", "")
    ensures forall k :: 0 <= k < |log| && log[k].incidentId == iid && (forall k' :: k < k' < |log| ==> log[k'].incidentId != iid) ==>
      r == Reviewer(log[k].decision, log[k].note)
  {
    match LastEntry(log, iid)
    case None => Reviewer("", "")
    case Some(k) => Reviewer(log[k].decision, log[k].note)
  }

  /**
    The lookup of the incident view: walk the log from the newest entry back and
    stop at the first entry for the incident. Without one, decision and note are
    empty.
  */
  method LatestReviewer(log: seq<Entry>, iid: string) returns (reviewer: Reviewer)
    ensures reviewer == ReviewerOf(log, iid)
    ensures (forall k :: 0 <= k < |log| ==> log[k].incidentId != iid) ==> reviewer == Reviewer("", "")
    ensures forall k :: 0 <= k < |log| && log[k].incidentId == iid && (forall k' :: k < k' < |log| ==> log[k'].incidentId != iid) ==>
      reviewer == Reviewer(log[k].decision, log[k].note)
  {
    reviewer := Reviewer("", "");
    var i := |log|;
    while i > 0
      invariant 0 <= i <= |log|
      invariant forall k :: i <= k < |log| ==> log[k].incidentId != iid
      invariant reviewer == Reviewer("", "")
    {
      i := i - 1;
      if log[i].incidentId == iid {
        reviewer := Reviewer(log[i].decision, log[i].note);
        LastEntryAt(log, iid, i);
        return;
      }
    }
  }

  /** An entry for the incident with none after it is the one `LastEntry` finds. */
  lemma {:induction false} LastEntryAt(log: seq<Entry>, iid: string, k: nat)
    requires k < |log| && log[k].incidentId == iid
    requires forall k' :: k < k' < |log| ==> log[k'].incidentId != iid
    ensures LastEntry(log, iid) == Some(k)
  {
    if k < |log| - 1 {
      LastEntryAt(log[..|log| - 1], iid, k);
    }
  }

  /** Appending an entry makes it the latest for its incident and leaves every other incident alone. */
  lemma AppendedEntryIsLatest(log: seq<Entry>, e: Entry, iid: string)
    ensures LastEntry(log + [e], e.incidentId) == Some(|log|)
    ensures iid != e.incidentId ==> LastEntry(log + [e], iid) == LastEntry(log, iid)
  {
    assert (log + [e])[..|log|] == log;
  }

  // ---------------------------------------------------------------------------
  // note.strip()

  /**
    The characters below 128 that `strip` removes: space, tab, newline,
    vertical tab, form feed, carriage return and the separators 0x1C..0x1F.
  */
  predicate IsSpace(c: char) {
    c == ' ' || c == '\t' || c == '\n' || c == '\r' || c == '\U{000B}' || c == '\U{000C}'
    || c == '\U{001C}' || c == '\U{001D}' || c == '\U{001E}' || c == '\U{001F}'
  }

  /** `s` without leading and trailing whitespace: a slice of `s` with only whitespace cut off either side. */
  function Strip(s: string): (r: string)
    ensures exists i :: (0 <= i <= |s| && |r| <= |s| - i && r == s[i..][..|r|]
      && (forall k :: 0 <= k < i ==> IsSpace(s[k])) && (forall k :: i + |r| <= k < |s| ==> IsSpace(s[k])))
    ensures r != [] ==> !IsSpace(r[0]) && !IsSpace(r[|r| - 1])
  {
    var t := StripStart(s);
    var r := StripEnd(t);
    assert t == s[|s| - |t|..];
    r
  }

  /** `s` without leading whitespace. */
  function StripStart(s: string): (r: string)
    ensures |r| <= |s| && r == s[|s| - |r|..]
    ensures forall k :: 0 <= k < |s| - |r| ==> IsSpace(s[k])
    ensures r != [] ==> !IsSpace(r[0])
  {
    if s != [] && IsSpace(s[0]) then
      var r := StripStart(s[1..]);
      assert s[1..][|s| - 1 - |r|..] == s[|s| - |r|..];
      r
    else s
  }

  /** `s` without trailing whitespace. */
  function StripEnd(s: string): (r: string)
    ensures |r| <= |s| && r == s[..|r|]
    ensures forall k :: |r| <= k < |s| ==> IsSpace(s[k])
    ensures r != [] ==> !IsSpace(r[|r| - 1])
  {
    if s != [] && IsSpace(s[|s| - 1]) then StripEnd(s[..|s| - 1]) else s
  }

  // ---------------------------------------------------------------------------
  // the Approve/Reject update

  /**
    The review state is consistent with its log when an incident is approved
    exactly when its latest decision is "Approve", and rejected exactly when it
    has a latest decision that is anything else.
  */
  ghost predicate Consistent(log: seq<Entry>, approved: set<string>, rejected: set<string>) {
    forall iid: string ::
      (iid in approved <==> LastDecision(log, iid) == Some("Approve"))
      && (iid in rejected <==> LastDecision(log, iid).Some? && LastDecision(log, iid) != Some("Approve"))
  }

  /** Recording a decision for `e.incidentId` and moving it to the matching set keeps the state consistent. */
  lemma RecordKeepsConsistent(log: seq<Entry>, approved: set<string>, rejected: set<string>, e: Entry)
    requires Consistent(log, approved, rejected)
    ensures e.decision == "Approve" ==> Consistent(log + [e], approved + {e.incidentId}, rejected - {e.incidentId})
    ensures e.decision != "Approve" ==> Consistent(log + [e], approved - {e.incidentId}, rejected + {e.incidentId})
  {
    forall iid: string ensures LastDecision(log + [e], iid) == if iid == e.incidentId then Some(e.decision) else LastDecision(log, iid) {
      AppendedEntryIsLatest(log, e, iid);
    }
  }

  /**
    The review state kept across reruns: the log and the two decision sets,
    kept consistent with each other.
  */
  class ReviewBoard {
    var log: seq<Entry>
    var approved: set<string>
    var rejected: set<string>

    ghost predicate Valid()
      reads this
    {
      Consistent(log, approved, rejected)
    }

    /** The empty state of a new session. */
    constructor ()
      ensures Valid() && log == [] && approved == {} && rejected == {}
    {
      log := [];
      approved := {};
      rejected := {};
    }

    /**
      "Guardar feedback" for incident `sel`. "(sin decisión)" records nothing.
      Any other choice appends an entry with the stripped note; "Approve" moves
      `sel` into `approved` and out of `rejected`, every other choice the
      reverse.
    */
    method Save(sel: string, decision: string, note: string, ts: string) returns (saved: bool)
      requires Valid()
      modifies this
      ensures Valid()
      ensures saved <==> decision != NoDecision
      ensures !saved ==> log == old(log) && approved == old(approved) && rejected == old(rejected)
      ensures saved ==> log == old(log) + [Entry(ts, sel, decision, Strip(note))]
      ensures saved && decision == "Approve" ==> approved == old(approved) + {sel} && rejected == old(rejected) - {sel}
      ensures saved && decision != "Approve" ==> rejected == old(rejected) + {sel} && approved == old(approved) - {sel}
    {
      if decision == NoDecision {
        return false;
      }
      var entry := Entry(ts, sel, decision, Strip(note));
      RecordKeepsConsistent(log, approved, rejected, entry);
      log := log + [entry];
      if decision == "Approve" {
        approved := approved + {sel};
        rejected := rejected - {sel};
      } else {
        rejected := rejected + {sel};
        approved := approved - {sel};
      }
      return true;
    }

    /**
      The incident view agrees with the sets: its radio starts on "Approve"
      exactly for approved incidents, and on "Reject" only for rejected ones.
    */
    lemma PrefillAgreesWithSets(iid: string)
      requires Valid()
      ensures Choices[PrefillIndex(ReviewerOf(log, iid).decision)] == "Approve" <==> iid in approved
      ensures Choices[PrefillIndex(ReviewerOf(log, iid).decision)] == "Reject" ==> iid in rejected
    {
    }

    /** No incident is ever both approved and rejected. */
    lemma NeverBoth()
      requires Valid()
      ensures approved * rejected == {}
    {
      forall iid | iid in approved ensures iid !in rejected {
      }
    }
  }
}

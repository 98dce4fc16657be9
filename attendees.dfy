/** Matching a session's student attendee to the roster, with the operator's help when
    the attendee's address is not a roster key. */
module Attendees {
  import opened Roster

  /** The answer with which the operator drops a session. */
  const SKIP := "skip"

  /** The last attendee whose address is not the tutor's, or "" when there is none. */
  function LastOther(attendees: seq<string>, tutor: string): string {
    if attendees == [] then ""
    else if attendees[|attendees| - 1] != tutor then attendees[|attendees| - 1]
    else LastOther(attendees[..|attendees| - 1], tutor)
  }

  /** `LastOther` is "" when every attendee is the tutor, and otherwise the attendee after
      whom only the tutor appears. */
  lemma {:induction false} LastOtherIsLastNonTutor(attendees: seq<string>, tutor: string)
    ensures (forall j :: 0 <= j < |attendees| ==> attendees[j] == tutor) ==>
      LastOther(attendees, tutor) == ""
    ensures (exists j :: 0 <= j < |attendees| && attendees[j] != tutor) ==>
      exists i :: 0 <= i < |attendees| && attendees[i] != tutor
        && LastOther(attendees, tutor) == attendees[i]
        && forall j :: i < j < |attendees| ==> attendees[j] == tutor
  {
    if attendees != [] {
      var n := |attendees| - 1;
      var init := attendees[..n];
      LastOtherIsLastNonTutor(init, tutor);
      assert forall j :: 0 <= j < n ==> init[j] == attendees[j];
      if attendees[n] == tutor && exists j :: 0 <= j < |attendees| && attendees[j] != tutor {
        var j :| 0 <= j < |attendees| && attendees[j] != tutor;
        assert init[j] != tutor;
      }
    }
  }

  /** The attendee scan: every address other than the tutor's replaces the previous one. */
  method Counterpart(attendees: seq<string>, tutor: string) returns (email: string)
    ensures email == LastOther(attendees, tutor)
  {
    email := "";
    for i := 0 to |attendees|
      invariant email == LastOther(attendees[..i], tutor)
    {
      assert attendees[..i + 1][..i] == attendees[..i];
      if attendees[i] != tutor {
        email := attendees[i];
      }
    }
    assert attendees[..|attendees|] == attendees;
  }

  /** The prompt loop stops at an address that is the skip answer or a roster key. */
  predicate Settled(email: string, roster: map<string, Student>) {
    email == SKIP || email in roster
  }

  /** How the prompt loop ends: at a roster key, with the session skipped, or with the
      operator's answers used up; `next` is the position of the first unread answer. */
  datatype Match = Found(email: string, next: nat) | Skipped(next: nat) | Exhausted

  /** The outcome of the prompt loop started at `email` with the answers from position
      `pos` of `script` still unread. A found address is a roster key other than the skip
      answer, so the roster lookups that follow cannot fail. */
  function Answer(email: string, roster: map<string, Student>, script: seq<string>, pos: nat): (m: Match)
    requires pos <= |script|
    ensures m.Found? ==> m.email in roster && m.email != SKIP
    ensures !m.Exhausted? ==> pos <= m.next <= |script|
    decreases |script| - pos
  {
    if email == SKIP then Skipped(pos)
    else if email in roster then Found(email, pos)
    else if pos == |script| then Exhausted
    else Answer(script[pos], roster, script, pos + 1)
  }

  /** When the starting address is unsettled, the loop reads answers up to and including
      the first settled one at position `k`: the skip answer skips the session even when
      it is a roster key, and any other settled answer is the match. */
  lemma {:induction false} AnswerAtFirstSettled(email: string, roster: map<string, Student>, script: seq<string>, pos: nat, k: nat)
    requires pos <= k < |script|
    requires !Settled(email, roster)
    requires forall j :: pos <= j < k ==> !Settled(script[j], roster)
    requires Settled(script[k], roster)
    ensures Answer(email, roster, script, pos) ==
      if script[k] == SKIP then Skipped(k + 1) else Found(script[k], k + 1)
    decreases k - pos
  {
    if pos < k {
      AnswerAtFirstSettled(script[pos], roster, script, pos + 1, k);
    }
  }

  /** When neither the starting address nor any unread answer is settled, the loop reads
      every answer and the answers run out. */
  lemma {:induction false} AnswerNeverSettled(email: string, roster: map<string, Student>, script: seq<string>, pos: nat)
    requires pos <= |script|
    requires !Settled(email, roster)
    requires forall j :: pos <= j < |script| ==> !Settled(script[j], roster)
    ensures Answer(email, roster, script, pos) == Exhausted
    decreases |script| - pos
  {
    if pos < |script| {
      AnswerNeverSettled(script[pos], roster, script, pos + 1);
    }
  }

  /** The prompt loop: while the address is neither the skip answer nor a roster key, read
      the operator's next answer in its place. */
  method Reconcile(email: string, roster: map<string, Student>, script: seq<string>, pos: nat) returns (m: Match)
    requires pos <= |script|
    ensures m == Answer(email, roster, script, pos)
  {
    var current, i := email, pos;
    while current != SKIP && current !in roster
      invariant pos <= i <= |script|
      invariant Answer(current, roster, script, i) == Answer(email, roster, script, pos)
      decreases |script| - i
    {
      if i == |script| {
        return Exhausted;
      }
      current, i := script[i], i + 1;
    }
    if current == SKIP {
      return Skipped(i);
    }
    return Found(current, i);
  }
}

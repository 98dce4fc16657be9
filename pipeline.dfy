/** One run of the emailer: filter the next day's events, index the roster, and for each
    session reconcile the student, settle the timezone and hand a message to the mail
    service. The operator's console answers are the sequence `script`, read in order. */
module Pipeline {
  import opened Wrappers
  import opened Sessions
  import opened Roster
  import opened Attendees
  import opened Timezones
  import opened Render

  /** The run's configuration constants. */
  datatype Config = Config(
    tutorEmail: string,
    sender: string,
    testEmail: string,
    testMode: bool,
    marker: string,
    columns: Columns)

  /** Why a run stopped early: the console had no answer left (end of input), the
      operator named a zone the tz database does not know, or a session's start is a bare
      date, which the start-time format does not parse. */
  datatype Failure = InputExhausted | UnknownZone(name: string) | UnparsableStart

  /** What handling one session did; `next` is the position of the first unread answer. */
  datatype Step = Sent(draft: Draft, next: nat) | Dropped(next: nat) | Failed(reason: Failure)

  /** How a run ended: no qualifying session (nothing else is read or sent), all sessions
      handled, or stopped by a failure after the messages in `sent` had gone out. */
  datatype Outcome =
    | NoSessions
    | Finished(sent: seq<Draft>, consumed: nat)
    | Aborted(sent: seq<Draft>, reason: Failure)

  /** The messages a run handed to the mail service, in order. */
  function SentBy(o: Outcome): seq<Draft> {
    match o
    case NoSessions => []
    case Finished(sent, _) => sent
    case Aborted(sent, _) => sent
  }

  /** The prompt loop started at the session's counterpart, with the answers from `pos` unread. */
  function Matched(cfg: Config, e: Event, roster: map<string, Student>, script: seq<string>, pos: nat): Match
    requires pos <= |script|
  {
    Answer(LastOther(e.attendees, cfg.tutorEmail), roster, script, pos)
  }

  /** Handling one session, in the order the run does it: match the student, look up the
      roster record, settle the timezone, parse the start and address the message. A
      skipped match drops the session without a message; a message is rendered for the
      matched address, from that student's record, with the event's start, the end fixed
      by `EndTime`, the zone from `ResolveZone` and the envelope from `Address`. */
  function SessionStep(cfg: Config, e: Event, roster: map<string, Student>, script: seq<string>, pos: nat,
                       lookup: string -> Option<Zone>): (s: Step)
    requires pos <= |script|
    ensures !s.Failed? ==> pos <= s.next <= |script|
    ensures s.Dropped? <==> Matched(cfg, e, roster, script, pos).Skipped?
    ensures s.Dropped? ==> s.next == Matched(cfg, e, roster, script, pos).next
    ensures s.Sent? ==> Matched(cfg, e, roster, script, pos).Found?
    ensures s.Sent? ==> Matched(cfg, e, roster, script, pos).email == s.draft.student
    ensures s.Sent? ==> s.draft.student in roster
    ensures s.Sent? ==> s.draft.firstName == FirstName(roster[s.draft.student].name)
    ensures s.Sent? ==> s.draft.zoom == roster[s.draft.student].zoom
    ensures s.Sent? ==> e.start == DateTime(s.draft.start) && s.draft.end == s.draft.start + SESSION_MINUTES
    ensures s.Sent? ==>
      ResolveZone(roster[s.draft.student].tzHint, script, Matched(cfg, e, roster, script, pos).next, lookup)
        == Resolved(s.draft.zone, s.next)
    ensures s.Sent? ==> s.draft.envelope == Address(cfg.testMode, cfg.sender, cfg.testEmail, s.draft.student)
    ensures Matched(cfg, e, roster, script, pos).Exhausted? ==> s == Failed(InputExhausted)
    ensures Matched(cfg, e, roster, script, pos).Found? ==>
      var m := Matched(cfg, e, roster, script, pos);
      var z := ResolveZone(roster[m.email].tzHint, script, m.next, lookup);
      && (z.NoAnswer? ==> s == Failed(InputExhausted))
      && (z.Unknown? ==> s == Failed(UnknownZone(z.name)))
      && (z.Resolved? && e.start.AllDay? ==> s == Failed(UnparsableStart))
      && (z.Resolved? && e.start.DateTime? ==> s.Sent?)
  {
    match Matched(cfg, e, roster, script, pos)
    case Exhausted => Failed(InputExhausted)
    case Skipped(next) => Dropped(next)
    case Found(email, next) =>
      var student := roster[email];
      match ResolveZone(student.tzHint, script, next, lookup)
      case NoAnswer => Failed(InputExhausted)
      case Unknown(name) => Failed(UnknownZone(name))
      case Resolved(zone, after) =>
        match e.start
        case AllDay(_) => Failed(UnparsableStart)
        case DateTime(t) =>
          var envelope := Address(cfg.testMode, cfg.sender, cfg.testEmail, email);
          Sent(Draft(envelope, email, FirstName(student.name), student.zoom, zone, t, EndTime(t)), after)
  }

  /** The rest of the run from session `i`, after the messages `sent`. */
  function ProcessFrom(cfg: Config, sessions: seq<Event>, i: nat, roster: map<string, Student>,
                       script: seq<string>, pos: nat, lookup: string -> Option<Zone>, sent: seq<Draft>): Outcome
    requires i <= |sessions| && pos <= |script|
    decreases |sessions| - i
  {
    if i == |sessions| then Finished(sent, pos)
    else
      match SessionStep(cfg, sessions[i], roster, script, pos, lookup)
      case Failed(reason) => Aborted(sent, reason)
      case Dropped(next) => ProcessFrom(cfg, sessions, i + 1, roster, script, next, lookup, sent)
      case Sent(d, next) => ProcessFrom(cfg, sessions, i + 1, roster, script, next, lookup, sent + [d])
  }

  /** A whole run. */
  function RunSpec(cfg: Config, events: seq<Event>, rows: seq<Row>, script: seq<string>,
                   lookup: string -> Option<Zone>): Outcome
  {
    var sessions := Filter(events, cfg.marker);
    if sessions == [] then NoSessions
    else ProcessFrom(cfg, sessions, 0, Index(rows, cfg.columns), script, 0, lookup, [])
  }

  /** `student` is where the prompt loop of session `e` ends when entered with the answers
      from `p` unread. */
  ghost predicate ReconciledAt(cfg: Config, roster: map<string, Student>, script: seq<string>, e: Event,
                               p: nat, student: string)
  {
    p <= |script| && Matched(cfg, e, roster, script, p).Found? && Matched(cfg, e, roster, script, p).email == student
  }

  /** `d` is the message the run promises for session `e` handled with the answers from
      `p` unread: rendered for the address the prompt loop reconciles the session's
      counterpart to (a roster key, never the skip answer), with that student's first name
      and zoom link, the event's own start and an end the fixed session length later; its
      zone is the one settled after the loop (the table's when the student's hint is
      recognized, otherwise the zone of the operator's next answer); it is from the
      configured sender with no bcc, to the test address with no cc in test mode, and
      otherwise to the reconciled student with the support cc. */
  ghost predicate SentFor(cfg: Config, roster: map<string, Student>, script: seq<string>,
                          lookup: string -> Option<Zone>, e: Event, p: nat, d: Draft)
  {
    && ReconciledAt(cfg, roster, script, e, p, d.student)
    && d.student in roster
    && d.student != SKIP
    && d.firstName == FirstName(roster[d.student].name)
    && d.zoom == roster[d.student].zoom
    && e.start == DateTime(d.start)
    && d.end == d.start + SESSION_MINUTES
    && (var next := Matched(cfg, e, roster, script, p).next;
        var hint := roster[d.student].tzHint;
        && ResolveZone(hint, script, next, lookup).Resolved?
        && ResolveZone(hint, script, next, lookup).zone == d.zone
        && (Recognized(hint) ==> ZoneFor(hint) == Some(d.zone))
        && (!Recognized(hint) ==> lookup(script[next]) == Some(d.zone)))
    && d.envelope.sender == cfg.sender
    && d.envelope.bcc == ""
    && (cfg.testMode ==> d.envelope.to == cfg.testEmail && d.envelope.cc == "")
    && (!cfg.testMode ==> d.envelope.to == d.student && d.envelope.cc == SUPPORT_CC)
  }

  /** At most one message is the one promised for a session at a given position. */
  lemma SentForUnique(cfg: Config, roster: map<string, Student>, script: seq<string>,
                      lookup: string -> Option<Zone>, e: Event, p: nat, d1: Draft, d2: Draft)
    requires SentFor(cfg, roster, script, lookup, e, p, d1)
    requires SentFor(cfg, roster, script, lookup, e, p, d2)
    ensures d1 == d2
  {
  }

  /** The message a session step sends is the one promised for that session at that
      position. */
  lemma StepSentFor(cfg: Config, e: Event, roster: map<string, Student>, script: seq<string>, pos: nat,
                    lookup: string -> Option<Zone>)
    requires pos <= |script|
    requires SessionStep(cfg, e, roster, script, pos, lookup).Sent?
    ensures SentFor(cfg, roster, script, lookup, e, pos, SessionStep(cfg, e, roster, script, pos, lookup).draft)
  {
  }

  /** The fixed inputs of the loop over sessions: the configuration, the qualifying
      sessions, the roster, the console answers and the tz database. */
  datatype Env = Env(cfg: Config, sessions: seq<Event>, roster: map<string, Student>, script: seq<string>,
                     lookup: string -> Option<Zone>)

  /** The loop inputs of a run. */
  function RunEnv(cfg: Config, events: seq<Event>, rows: seq<Row>, script: seq<string>,
                  lookup: string -> Option<Zone>): Env
  {
    Env(cfg, Filter(events, cfg.marker), Index(rows, cfg.columns), script, lookup)
  }

  /** The position of the first unread answer when session `j` is reached, or `None` when
      an earlier session stopped the run. */
  ghost function PositionBefore(env: Env, j: nat): (r: Option<nat>)
    requires j <= |env.sessions|
    ensures r.Some? ==> r.value <= |env.script|
  {
    if j == 0 then Some(0)
    else
      match PositionBefore(env, j - 1)
      case None => None
      case Some(p) =>
        match SessionStep(env.cfg, env.sessions[j - 1], env.roster, env.script, p, env.lookup)
        case Failed(_) => None
        case Dropped(next) => Some(next)
        case Sent(_, next) => Some(next)
  }

  /** What handling session `j` does, once it is reached. */
  ghost function StepAt(env: Env, j: nat): Step
    requires j < |env.sessions| && PositionBefore(env, j).Some?
  {
    SessionStep(env.cfg, env.sessions[j], env.roster, env.script, PositionBefore(env, j).value, env.lookup)
  }

  /** The messages sent for the sessions before `j`, one per reached session whose step
      sends, in session order. */
  ghost function SentBefore(env: Env, j: nat): seq<Draft>
    requires j <= |env.sessions|
  {
    if j == 0 then []
    else if PositionBefore(env, j - 1).Some? && StepAt(env, j - 1).Sent? then
      SentBefore(env, j - 1) + [StepAt(env, j - 1).draft]
    else SentBefore(env, j - 1)
  }

  /** The number of reached sessions before `j` whose prompt loop did not end in the skip
      answer. */
  ghost function Unskipped(env: Env, j: nat): nat
    requires j <= |env.sessions|
  {
    if j == 0 then 0
    else
      Unskipped(env, j - 1) +
        (if PositionBefore(env, j - 1).Some?
            && !Matched(env.cfg, env.sessions[j - 1], env.roster, env.script, PositionBefore(env, j - 1).value).Skipped?
         then 1 else 0)
  }

  /** Once a session has stopped the run, no later session is reached. */
  lemma {:induction false} StoppedStaysStopped(env: Env, j: nat, k: nat)
    requires j <= k <= |env.sessions| && PositionBefore(env, j).None?
    ensures PositionBefore(env, k).None?
    decreases k - j
  {
    if j < k {
      assert PositionBefore(env, j + 1).None?;
      StoppedStaysStopped(env, j + 1, k);
    }
  }

  /** A session that is not reached comes after a reached session whose step failed. */
  lemma {:induction false} StopHasCause(env: Env, j: nat)
    requires j <= |env.sessions| && PositionBefore(env, j).None?
    ensures exists f :: 0 <= f < j && PositionBefore(env, f).Some? && StepAt(env, f).Failed?
  {
    if PositionBefore(env, j - 1).None? {
      StopHasCause(env, j - 1);
    }
  }

  /** The messages sent before session `j` are at most one per session, each the one
      promised for a reached session at the position the run had there. */
  lemma {:induction false} SentBeforeFromSteps(env: Env, j: nat)
    requires j <= |env.sessions|
    ensures |SentBefore(env, j)| <= j
    ensures forall d :: d in SentBefore(env, j) ==>
      exists l :: 0 <= l < j && PositionBefore(env, l).Some? && StepAt(env, l).Sent?
        && SentFor(env.cfg, env.roster, env.script, env.lookup, env.sessions[l], PositionBefore(env, l).value, d)
  {
    if j > 0 {
      SentBeforeFromSteps(env, j - 1);
      if PositionBefore(env, j - 1).Some? && StepAt(env, j - 1).Sent? {
        var p := PositionBefore(env, j - 1).value;
        StepSentFor(env.cfg, env.sessions[j - 1], env.roster, env.script, p, env.lookup);
      }
    }
  }

  /** When session `j` is reached, every earlier session was handled without failing, and
      a message went out for exactly those whose prompt loop did not end in the skip answer. */
  lemma {:induction false} ReachedSendsUnskipped(env: Env, j: nat)
    requires j <= |env.sessions| && PositionBefore(env, j).Some?
    ensures forall l :: 0 <= l < j ==> PositionBefore(env, l).Some? && !StepAt(env, l).Failed?
    ensures |SentBefore(env, j)| == Unskipped(env, j)
  {
    if j > 0 {
      assert PositionBefore(env, j - 1).Some?;
      ReachedSendsUnskipped(env, j - 1);
    }
  }

  /** The rest of the run from a reached session `i`, after the messages sent before it,
      finishes with the messages of all sessions when the end is reached, and otherwise
      stops at a failing session with the messages sent before it. */
  lemma {:induction false} ProcessFromFollowsSteps(env: Env, i: nat)
    requires i <= |env.sessions| && PositionBefore(env, i).Some?
    ensures var n := |env.sessions|;
      var o := ProcessFrom(env.cfg, env.sessions, i, env.roster, env.script, PositionBefore(env, i).value,
                           env.lookup, SentBefore(env, i));
      && (PositionBefore(env, n).Some? ==> o == Finished(SentBefore(env, n), PositionBefore(env, n).value))
      && (forall f :: i <= f < n && PositionBefore(env, f).Some? && StepAt(env, f).Failed? ==>
            o == Aborted(SentBefore(env, f), StepAt(env, f).reason))
    decreases |env.sessions| - i
  {
    var n := |env.sessions|;
    if i < n {
      var step := StepAt(env, i);
      if step.Failed? {
        assert PositionBefore(env, i + 1).None?;
        StoppedStaysStopped(env, i + 1, n);
        forall f | i < f < n
          ensures PositionBefore(env, f).None?
        {
          StoppedStaysStopped(env, i + 1, f);
        }
      } else {
        assert PositionBefore(env, i + 1) == Some(step.next);
        ProcessFromFollowsSteps(env, i + 1);
      }
    }
  }

  /** A run with a qualifying session either finishes, with the messages of all sessions in
      session order, or stops at the first session whose step fails, with the messages of
      the sessions before it. */
  lemma RunFollowsSteps(cfg: Config, events: seq<Event>, rows: seq<Row>, script: seq<string>,
                        lookup: string -> Option<Zone>)
    requires Filter(events, cfg.marker) != []
    ensures var env := RunEnv(cfg, events, rows, script, lookup);
      var n := |env.sessions|;
      var o := RunSpec(cfg, events, rows, script, lookup);
      && (PositionBefore(env, n).Some? ==> o == Finished(SentBefore(env, n), PositionBefore(env, n).value))
      && (PositionBefore(env, n).None? ==>
            exists f :: 0 <= f < n && PositionBefore(env, f).Some? && StepAt(env, f).Failed?
              && o == Aborted(SentBefore(env, f), StepAt(env, f).reason))
  {
    var env := RunEnv(cfg, events, rows, script, lookup);
    ProcessFromFollowsSteps(env, 0);
    if PositionBefore(env, |env.sessions|).None? {
      StopHasCause(env, |env.sessions|);
    }
  }

  /** Every message a run sends is the one promised for a qualifying event at the position
      the run had reached there, and at most one is sent per qualifying event. */
  lemma RunSends(cfg: Config, events: seq<Event>, rows: seq<Row>, script: seq<string>,
                 lookup: string -> Option<Zone>)
    ensures var env := RunEnv(cfg, events, rows, script, lookup);
      forall d :: d in SentBy(RunSpec(cfg, events, rows, script, lookup)) ==>
        exists l :: 0 <= l < |env.sessions| && PositionBefore(env, l).Some?
          && env.sessions[l] in events && Qualifies(env.sessions[l], cfg.marker)
          && SentFor(cfg, env.roster, script, lookup, env.sessions[l], PositionBefore(env, l).value, d)
    ensures |SentBy(RunSpec(cfg, events, rows, script, lookup))| <= |Filter(events, cfg.marker)|
  {
    var env := RunEnv(cfg, events, rows, script, lookup);
    var n := |env.sessions|;
    FilterMembers(events, cfg.marker);
    if env.sessions != [] {
      RunFollowsSteps(cfg, events, rows, script, lookup);
      var m: nat :| m <= n && SentBy(RunSpec(cfg, events, rows, script, lookup)) == SentBefore(env, m);
      SentBeforeFromSteps(env, m);
      forall d | d in SentBefore(env, m)
        ensures exists l ::
                  && 0 <= l < n && PositionBefore(env, l).Some?
                  && env.sessions[l] in events && Qualifies(env.sessions[l], cfg.marker)
                  && SentFor(cfg, env.roster, script, lookup, env.sessions[l], PositionBefore(env, l).value, d)
      {
        var l :| 0 <= l < m && PositionBefore(env, l).Some? && StepAt(env, l).Sent?
          && SentFor(env.cfg, env.roster, env.script, env.lookup, env.sessions[l], PositionBefore(env, l).value, d);
        assert env.sessions[l] in env.sessions;
      }
    }
  }

  /** A run that finishes handled every session without failure, dropping exactly those
      whose prompt loop ended in the skip answer, and sent one message for each of the
      others, in session order. */
  lemma RunFinished(cfg: Config, events: seq<Event>, rows: seq<Row>, script: seq<string>,
                    lookup: string -> Option<Zone>, sent: seq<Draft>, consumed: nat)
    requires RunSpec(cfg, events, rows, script, lookup) == Finished(sent, consumed)
    ensures var env := RunEnv(cfg, events, rows, script, lookup);
      && (forall l :: 0 <= l < |env.sessions| ==>
            && PositionBefore(env, l).Some?
            && (StepAt(env, l).Sent? || StepAt(env, l).Dropped?)
            && (StepAt(env, l).Dropped? <==>
                  Matched(cfg, env.sessions[l], env.roster, script, PositionBefore(env, l).value).Skipped?))
      && sent == SentBefore(env, |env.sessions|)
      && |sent| == Unskipped(env, |env.sessions|)
  {
    var env := RunEnv(cfg, events, rows, script, lookup);
    RunFollowsSteps(cfg, events, rows, script, lookup);
    ReachedSendsUnskipped(env, |env.sessions|);
  }

  /** A run ends early with nothing read from the roster or the console and nothing sent
      exactly when no event qualifies as a tutoring session. */
  lemma RunStopsEarly(cfg: Config, events: seq<Event>, rows: seq<Row>, script: seq<string>,
                      lookup: string -> Option<Zone>)
    ensures RunSpec(cfg, events, rows, script, lookup) == NoSessions <==>
      forall e :: e in events ==> !Qualifies(e, cfg.marker)
  {
    var sessions := Filter(events, cfg.marker);
    FilterMembers(events, cfg.marker);
    if sessions != [] {
      RunFollowsSteps(cfg, events, rows, script, lookup);
      assert sessions[0] in sessions;
    }
  }

  /** The body of the loop over sessions. */
  method ProcessSession(cfg: Config, e: Event, roster: map<string, Student>, script: seq<string>, pos: nat,
                        lookup: string -> Option<Zone>) returns (s: Step)
    requires pos <= |script|
    ensures s == SessionStep(cfg, e, roster, script, pos, lookup)
  {
    var email := Counterpart(e.attendees, cfg.tutorEmail);
    var m := Reconcile(email, roster, script, pos);
    if m.Exhausted? {
      return Failed(InputExhausted);
    }
    if m.Skipped? {
      return Dropped(m.next);
    }
    var student := roster[m.email];
    var firstName := FirstName(student.name);
    var zone := ResolveZone(student.tzHint, script, m.next, lookup);
    if zone.NoAnswer? {
      return Failed(InputExhausted);
    }
    if zone.Unknown? {
      return Failed(UnknownZone(zone.name));
    }
    if e.start.AllDay? {
      return Failed(UnparsableStart);
    }
    var start := e.start.minutes;
    var envelope := Address(cfg.testMode, cfg.sender, cfg.testEmail, m.email);
    return Sent(Draft(envelope, m.email, firstName, student.zoom, zone.zone, start, EndTime(start)), zone.next);
  }

  /** The emailer's main routine, on the fetched events and roster rows. */
  method Run(cfg: Config, events: seq<Event>, rows: seq<Row>, script: seq<string>,
             lookup: string -> Option<Zone>) returns (outcome: Outcome)
    ensures outcome == RunSpec(cfg, events, rows, script, lookup)
  {
    var sessions := FilterSessions(events, cfg.marker);
    if sessions == [] {
      return NoSessions;
    }
    var roster := BuildIndex(rows, cfg.columns);
    var sent: seq<Draft> := [];
    var pos: nat := 0;
    for i := 0 to |sessions|
      invariant pos <= |script|
      invariant ProcessFrom(cfg, sessions, i, roster, script, pos, lookup, sent)
        == ProcessFrom(cfg, sessions, 0, roster, script, 0, lookup, [])
    {
      var step := ProcessSession(cfg, sessions[i], roster, script, pos, lookup);
      match step
      case Failed(reason) =>
        return Aborted(sent, reason);
      case Dropped(next) =>
        pos := next;
      case Sent(d, next) =>
        sent, pos := sent + [d], next;
    }
    return Finished(sent, pos);
  }
}

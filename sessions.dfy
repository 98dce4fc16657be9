/** The calendar events of the next day and the filter that keeps the tutoring sessions. */
module Sessions {
  import opened Text

  /** An event's start as the calendar feed gives it: an instant (in minutes) for a timed
      event, or a bare date for an all-day event. */
  datatype Start = DateTime(minutes: int) | AllDay(date: string)

  /** One calendar event; `attendees` holds the attendees' email addresses in feed order. */
  datatype Event = Event(summary: string, description: string, start: Start, end: Start, attendees: seq<string>)

  /** The literal whose presence in a summary marks a cancelled session. */
  const CANCELED := "Canceled"

  /** A tutoring session: the description carries the marker and the summary is not cancelled. */
  predicate Qualifies(e: Event, marker: string) {
    Contains(e.description, marker) && !Contains(e.summary, CANCELED)
  }

  /** The qualifying events, in feed order. */
  function Filter(events: seq<Event>, marker: string): seq<Event> {
    if events == [] then []
    else
      var last := events[|events| - 1];
      Filter(events[..|events| - 1], marker) + (if Qualifies(last, marker) then [last] else [])
  }

  /** An event is kept exactly when it is one of the input events and qualifies. */
  lemma {:induction false} FilterMembers(events: seq<Event>, marker: string)
    ensures forall e :: e in Filter(events, marker) <==> e in events && Qualifies(e, marker)
  {
    if events != [] {
      var init := events[..|events| - 1];
      FilterMembers(init, marker);
      assert events == init + [events[|events| - 1]];
    }
  }

  /** Filtering commutes with concatenation, so the kept events keep their relative order. */
  lemma {:induction false} FilterAppend(a: seq<Event>, b: seq<Event>, marker: string)
    ensures Filter(a + b, marker) == Filter(a, marker) + Filter(b, marker)
  {
    if b == [] {
      assert a + b == a;
    } else {
      var init := b[..|b| - 1];
      FilterAppend(a, init, marker);
      assert (a + b)[..|a + b| - 1] == a + init;
    }
  }

  /** The event filter loop: skips events without the marker, then cancelled ones, and
      appends the rest. */
  method FilterSessions(events: seq<Event>, marker: string) returns (sessions: seq<Event>)
    ensures sessions == Filter(events, marker)
  {
    sessions := [];
    for i := 0 to |events|
      invariant sessions == Filter(events[..i], marker)
    {
      assert events[..i + 1][..i] == events[..i];
      var e := events[i];
      if !Contains(e.description, marker) {
        continue;
      }
      if Contains(e.summary, CANCELED) {
        continue;
      }
      sessions := sessions + [e];
    }
    assert events[..|events|] == events;
  }
}

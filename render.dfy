/** What goes into one confirmation message: the template values and the envelope. */
module Render {
  import opened Timezones

  /** The fixed length of a session, in minutes; the event's own end is not consulted. */
  const SESSION_MINUTES := 50

  /** The support address copied on every message outside test mode. */
  const SUPPORT_CC := "centraltutorsupport@bootcampspot.com"

  /** The text before the first space of a full name, or the whole name when it has none
      (Python's `name.split(' ')[0]`). */
  function FirstName(name: string): (first: string)
    ensures first <= name
    ensures ' ' !in first
    ensures first == name || name[|first|] == ' '
  {
    if name == [] || name[0] == ' ' then [] else [name[0]] + FirstName(name[1..])
  }

  /** A given name followed by a space and anything else yields that given name. */
  lemma {:induction false} FirstNameOfFullName(given: string, rest: string)
    requires ' ' !in given
    ensures FirstName(given + " " + rest) == given
  {
    var name := given + " " + rest;
    if given != [] {
      assert name[0] == given[0];
      assert name[1..] == given[1..] + " " + rest;
      FirstNameOfFullName(given[1..], rest);
    }
  }

  /** The instant the confirmation gives as the session's end. */
  function EndTime(start: int): int {
    start + SESSION_MINUTES
  }

  /** The addressing fields of a message. */
  datatype Envelope = Envelope(sender: string, to: string, cc: string, bcc: string)

  /** Test mode sends to the test address with no cc; otherwise the student is addressed
      with the support address in cc. */
  function Address(testMode: bool, sender: string, testEmail: string, student: string): Envelope {
    if testMode then Envelope(sender, testEmail, "", "")
    else Envelope(sender, student, SUPPORT_CC, "")
  }

  /** A message handed to the mail service: its envelope, the reconciled student address
      it was rendered for (the recipient outside test mode), and the values substituted
      into the body template (first name, date and times, zoom link) and the subject
      template (date and times). `start` and `end` are instants in minutes, shown in `zone`. */
  datatype Draft = Draft(envelope: Envelope, student: string, firstName: string, zoom: string, zone: Zone,
                         start: int, end: int)
}

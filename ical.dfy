/** The part of an iCalendar document the core builds with golang-ical: a
    calendar with a method, a name, a description and a list of events. Each
    event is a value holding the properties the core sets; the core sets all
    of them right after `AddEvent`, so the model appends the finished event. */
module ICal {
  import opened Wrappers
  import opened Catalogue

  /** `ics.MethodRequest`. */
  const MethodRequest := "REQUEST"

  /** One VEVENT. `dtstamp` and `location` are set by some callers only. */
  datatype VEvent = VEvent(
    uid: string,
    organizer: string,
    summary: string,
    start: Instant,
    end: Instant,
    dtstamp: Option<Instant>,
    location: Option<string>,
    description: string)

  /** The lowercase hex SHA-1 of a text, as `fmt.Sprintf("%x", sha.Sum(nil))`
      prints it after writing the text into the hash; `None` when the write
      into the hash fails. */
  type Digest = string -> Option<string>

  /** What a calendar holds, as a value. */
  datatype CalendarData = CalendarData(
    calMethod: Option<string>,
    name: Option<string>,
    description: Option<string>,
    events: seq<VEvent>)

  /** A calendar under construction (`*ics.Calendar`). */
  class Calendar {
    var calMethod: Option<string>
    var name: Option<string>
    var description: Option<string>
    var events: seq<VEvent>

    function Data(): CalendarData
      reads this
    {
      CalendarData(calMethod, name, description, events)
    }

    /** `ics.NewCalendar()`. */
    constructor ()
      ensures calMethod == None && name == None && description == None && events == []
    {
      calMethod := None;
      name := None;
      description := None;
      events := [];
    }

    method SetMethod(m: string)
      modifies this
      ensures calMethod == Some(m)
      ensures name == old(name) && description == old(description) && events == old(events)
    {
      calMethod := Some(m);
    }

    method SetName(n: string)
      modifies this
      ensures name == Some(n)
      ensures calMethod == old(calMethod) && description == old(description) && events == old(events)
    {
      name := Some(n);
    }

    method SetDescription(d: string)
      modifies this
      ensures description == Some(d)
      ensures calMethod == old(calMethod) && name == old(name) && events == old(events)
    {
      description := Some(d);
    }

    /** `AddEvent` followed by the property setters. */
    method AddEvent(e: VEvent)
      modifies this
      ensures events == old(events) + [e]
      ensures calMethod == old(calMethod) && name == old(name) && description == old(description)
    {
      events := events + [e];
    }
  }
}

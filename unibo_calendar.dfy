/** Timetables of the older `unibo` package (unibo/calendar.go): the
    endpoint URLs of a programme's curricula and timetable, and the
    conversion of a timetable into a calendar. A `TimetableEvent` carries
    the fields of a lecture (`Docente` is the teacher, `Periodo` the
    interval, `Aule` the classrooms), so it is a `Catalogue.Event`; the
    `CalendarTime` codec is the one of the `CalTime` module. */
module UniboCalendar {
  import opened Wrappers
  import opened Text
  import opened Decimal
  import opened Seqs
  import opened Catalogue
  import opened ICal
  import Cal

  /** The scheme and host every endpoint URL starts with. */
  const Host := "https://corsi.unibo.it/"

  /** What follows the programme's path in `baseCurricula`, before the year. */
  const CurriculaPath := "orario-lezioni/@@available_curricula?anno="

  /** What follows the year in `baseCurricula`. */
  const CurriculaTail := "&curricula="

  /** What follows the programme's path in `baseTimetable`, before the year. */
  const TimetablePath := "orario-lezioni/@@orario_reale_json?anno="

  /** A programme's path on the site, `<type>/<slug>/`, then `rest`. */
  function SitePath(course: CourseId, rest: string): string {
    course.tipologia + "/" + course.id + "/" + rest
  }

  /** A `fmt.Sprintf` of an endpoint layout `<host>%s/%s/<path>%d<tail>`
      with a website id and a year. */
  function Endpoint(host: string, path: string, tail: string, course: CourseId, year: int): string {
    host + SitePath(course, path + Itoa(year) + tail)
  }

  /** `GetCurriculaUrl`: `baseCurricula` with the type, the slug and the
      year in decimal. */
  function CurriculaUrl(course: CourseId, year: int): string {
    Endpoint(Host, CurriculaPath, CurriculaTail, course, year)
  }

  /** `GetTimetableUrl`: `baseTimetable` with the type, the slug and the
      year in decimal. */
  function TimetableUrl(course: CourseId, anno: int): string {
    Endpoint(Host, TimetablePath, "", course, anno)
  }

  /** A website id whose parts hold no `/`, as every scraped id is. */
  predicate PlainId(course: CourseId) {
    '/' !in course.tipologia && '/' !in course.id
  }

  /** The site path of an id without `/` names the id: equal paths have
      equal ids and equal texts after the id. */
  lemma PathDetermines(a: CourseId, b: CourseId, restA: string, restB: string)
    requires PlainId(a) && PlainId(b)
    requires SitePath(a, restA) == SitePath(b, restB)
    ensures a == b && restA == restB
  {
    assert SitePath(a, restA) == a.tipologia + ['/'] + (a.id + ['/'] + restA);
    assert SitePath(b, restB) == b.tipologia + ['/'] + (b.id + ['/'] + restB);
    SeparatorSplit(a.tipologia, a.id + ['/'] + restA, b.tipologia, b.id + ['/'] + restB, '/');
    SeparatorSplit(a.id, restA, b.id, restB, '/');
  }

  /** Texts framed by the same prefix and suffix are equal when the framed
      texts are. */
  lemma Unframe(pre: string, x: string, post: string, y: string)
    requires pre + x + post == pre + y + post
    ensures x == y
  {
    assert x == (pre + x + post)[|pre|..|pre| + |x|];
    assert y == (pre + y + post)[|pre|..|pre| + |y|];
  }

  /** An endpoint URL names what it asks for: for ids without `/`, equal
      URLs of one layout have the same id and the same year. */
  lemma EndpointInjective(host: string, path: string, tail: string, a: CourseId, y: int, b: CourseId, z: int)
    requires PlainId(a) && PlainId(b)
    requires Endpoint(host, path, tail, a, y) == Endpoint(host, path, tail, b, z)
    ensures a == b && y == z
  {
    var restA, restB := path + Itoa(y) + tail, path + Itoa(z) + tail;
    Unframe(host, SitePath(a, restA), "", SitePath(b, restB));
    PathDetermines(a, b, restA, restB);
    Unframe(path, Itoa(y), tail, Itoa(z));
    ItoaInjective(y, z);
  }

  /** Two curricula URLs are equal only for the same programme and year. */
  lemma CurriculaUrlInjective(a: CourseId, y: int, b: CourseId, z: int)
    requires PlainId(a) && PlainId(b)
    requires CurriculaUrl(a, y) == CurriculaUrl(b, z)
    ensures a == b && y == z
  {
    EndpointInjective(Host, CurriculaPath, CurriculaTail, a, y, b, z);
  }

  /** Two timetable URLs are equal only for the same programme and year. */
  lemma TimetableUrlInjective(a: CourseId, y: int, b: CourseId, z: int)
    requires PlainId(a) && PlainId(b)
    requires TimetableUrl(a, y) == TimetableUrl(b, z)
    ensures a == b && y == z
  {
    EndpointInjective(Host, TimetablePath, "", a, y, b, z);
  }

  /** The description lines of a timetable event, each written followed by
      a newline: teacher, the first classroom when there is one, credits and
      period. Unlike the newer calendar there is no module-code line. */
  function EventLines(e: Event): seq<string> {
    ["Docente: " + e.teacher]
      + (if |e.classrooms| > 0 then ["Aula: " + e.classrooms[0].resourceDesc] else [])
      + ["Cfu: " + Itoa(e.cfu), "Periodo: " + e.interval]
  }

  /** The event added for a timetable event, given its UID and its DTSTAMP
      if one is set. The UID key (`%s%s%s` of the module code, start and
      end) and the location rule are those of the newer calendar. */
  function TimetableEvent(e: Event, uid: string, stamp: Option<Instant>): VEvent {
    VEvent(uid, e.teacher, e.title, e.start, e.end, stamp, Cal.LectureLocation(e), Lines(EventLines(e)))
  }

  /** The event of one timetable event; `None` when its key cannot be
      hashed. */
  function EventOf(digest: Digest, stamp: Option<Instant>): Event -> Option<VEvent> {
    (e: Event) =>
      match digest(Cal.LectureKey(e))
      case None => None
      case Some(uid) => Some(TimetableEvent(e, uid, stamp))
  }

  /** The events of a converted timetable: one per timetable event, in
      order, each with the UID hashed from its key; none at all when some
      key cannot be hashed. */
  function TimetableEvents(t: seq<Event>, digest: Digest, stamp: Option<Instant>): (r: Option<seq<VEvent>>)
    ensures r.Some? <==> forall i :: 0 <= i < |t| ==> digest(Cal.LectureKey(t[i])).Some?
    ensures r.Some? ==> |r.value| == |t|
    ensures r.Some? ==> forall i :: 0 <= i < |t| ==>
      r.value[i] == TimetableEvent(t[i], digest(Cal.LectureKey(t[i])).value, stamp)
  {
    MapAll(t, EventOf(digest, stamp))
  }

  /** The loop shared by both `ToICS` variants: for each timetable event in
      order, hash its key and add its event. Stops with `false` at the first
      hash failure. */
  method AddEvents(cal: Calendar, t: seq<Event>, digest: Digest, stamp: Option<Instant>) returns (ok: bool)
    requires cal.events == []
    modifies cal
    ensures cal.calMethod == old(cal.calMethod) && cal.name == old(cal.name) && cal.description == old(cal.description)
    ensures ok <==> TimetableEvents(t, digest, stamp).Some?
    ensures ok ==> cal.events == TimetableEvents(t, digest, stamp).value
  {
    for i := 0 to |t|
      invariant cal.calMethod == old(cal.calMethod) && cal.name == old(cal.name) && cal.description == old(cal.description)
      invariant MapAll(t[..i], EventOf(digest, stamp)) == Some(cal.events)
    {
      MapAllStep(t, i, EventOf(digest, stamp), cal.events);
      var uid := digest(Cal.LectureKey(t[i]));
      if uid.None? {
        return false;
      }
      cal.AddEvent(TimetableEvent(t[i], uid.value, stamp));
    }
    assert t[..|t|] == t;
    ok := true;
  }

  /** Both `ToICS` variants: a new calendar with method REQUEST and one event
      per timetable event, or `null` when some key cannot be hashed. */
  method Convert(t: seq<Event>, digest: Digest, stamp: Option<Instant>) returns (cal: Calendar?)
    ensures cal == null <==> TimetableEvents(t, digest, stamp).None?
    ensures cal != null ==> fresh(cal)
    ensures cal != null ==> cal.Data() == CalendarData(Some(MethodRequest), None, None, TimetableEvents(t, digest, stamp).value)
  {
    var c := new Calendar();
    c.SetMethod(MethodRequest);
    var ok := AddEvents(c, t, digest, stamp);
    cal := if ok then c else null;
  }

  /** `Timetable.ToICS` of unibo/calendar.go: no DTSTAMP is set. */
  method ToICS(t: seq<Event>, digest: Digest) returns (cal: Calendar?)
    ensures cal == null <==> TimetableEvents(t, digest, None).None?
    ensures cal != null ==> fresh(cal)
    ensures cal != null ==> cal.Data() == CalendarData(Some(MethodRequest), None, None, TimetableEvents(t, digest, None).value)
  {
    cal := Convert(t, digest, None);
  }

  /** A reader who splits the description on newlines finds the teacher (the
      event's organizer) first, an `Aula` line exactly when the event has a
      location and naming that location, then credits and period, and
      nothing after the final newline. */
  lemma EventDescriptionReadsBack(e: Event, uid: string, stamp: Option<Instant>)
    requires '\n' !in e.teacher && '\n' !in e.interval
    requires |e.classrooms| > 0 ==> '\n' !in e.classrooms[0].resourceDesc
    ensures var ev := TimetableEvent(e, uid, stamp);
      Split(ev.description, "\n")
        == ["Docente: " + ev.organizer]
           + (if ev.location.Some? then ["Aula: " + ev.location.value] else [])
           + ["Cfu: " + Itoa(e.cfu), "Periodo: " + e.interval, ""]
  {
    EventLinesClean(e);
    SplitLines(EventLines(e));
  }

  /** No description line holds a newline when the fields do not. */
  lemma EventLinesClean(e: Event)
    requires '\n' !in e.teacher && '\n' !in e.interval
    requires |e.classrooms| > 0 ==> '\n' !in e.classrooms[0].resourceDesc
    ensures forall k :: 0 <= k < |EventLines(e)| ==> '\n' !in EventLines(e)[k]
  {
    ItoaNoNewline(e.cfu);
  }

  /** The older event is the newer lecture event without its module-code
      line (and, here, without a DTSTAMP): every other property is the same. */
  lemma OlderEventDropsModuleCode(e: Event, uid: string, now: Instant)
    ensures var old_ := TimetableEvent(e, uid, None);
      var new_ := Cal.LectureEvent(e, uid, now);
      && old_.(dtstamp := Some(now)) == new_.(description := old_.description)
      && new_.description == old_.description + "Codice modulo: " + e.codModulo + "\n"
  {
    var extra := ["Codice modulo: " + e.codModulo];
    assert Cal.LectureLines(e) == EventLines(e) + extra;
    LinesConcat(EventLines(e), extra);
  }
}

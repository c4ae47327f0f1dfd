/** Calendar synthesis: cal.go, and its copy `createCal` in main.go. A
    lecture timetable becomes the calendar of one year of a programme, and a
    list of exams becomes an exam calendar; every record gives exactly one
    event. */
module Cal {
  import opened Wrappers
  import opened Text
  import opened Decimal
  import opened DateTime
  import opened Seqs
  import opened Catalogue
  import opened ICal
  import opened Utils

  /** The text hashed into a lecture's UID: `"%s%s%s"` of the module code
      and the two `Time.String()` renderings, with no separator. */
  function LectureKey(e: Event): string {
    e.codModulo + TimeText(e.start) + TimeText(e.end)
  }

  /** The description lines of a lecture, each written followed by a
      newline: teacher, the first classroom when there is one, credits,
      period and module code. */
  function LectureLines(e: Event): seq<string> {
    ["Docente: " + e.teacher]
      + (if |e.classrooms| > 0 then ["Aula: " + e.classrooms[0].resourceDesc] else [])
      + ["Cfu: " + Itoa(e.cfu), "Periodo: " + e.interval, "Codice modulo: " + e.codModulo]
  }

  /** The location of a lecture: its first classroom, if any. */
  function LectureLocation(e: Event): Option<string> {
    if |e.classrooms| > 0 then Some(e.classrooms[0].resourceDesc) else None
  }

  /** The event added for a lecture, given its UID and the clock reading
      used for DTSTAMP. */
  function LectureEvent(e: Event, uid: string, now: Instant): VEvent {
    VEvent(uid, e.teacher, e.title, e.start, e.end, Some(now), LectureLocation(e), Lines(LectureLines(e)))
  }

  /** The lectures a calendar is built from: all of them when no subject
      list is given (a nil slice), else the filtered ones. */
  function UsedEvents(t: seq<Event>, subjectCodes: Option<seq<string>>): seq<Event> {
    if subjectCodes.None? then t else Filter(t, HasCodeIn(subjectCodes.value))
  }

  /** The event of one lecture, with the UID hashed from its key; `None`
      when the key cannot be hashed. */
  function LectureOf(digest: Digest, now: Instant): Event -> Option<VEvent> {
    (e: Event) =>
      match digest(LectureKey(e))
      case None => None
      case Some(uid) => Some(LectureEvent(e, uid, now))
  }

  /** The events of a lecture calendar: one per lecture, in order, each
      with the UID hashed from the lecture's key; none at all when some key
      cannot be hashed. */
  function LectureEvents(used: seq<Event>, digest: Digest, now: Instant): (r: Option<seq<VEvent>>)
    ensures r.Some? <==> forall i :: 0 <= i < |used| ==> digest(LectureKey(used[i])).Some?
    ensures r.Some? ==> |r.value| == |used|
    ensures r.Some? ==> forall i :: 0 <= i < |used| ==>
      r.value[i] == LectureEvent(used[i], digest(LectureKey(used[i])).value, now)
  {
    MapAll(used, LectureOf(digest, now))
  }

  function CalName(course: Course, year: int): string {
    course.descrizione + " - " + Itoa(year) + " year"
  }

  function CalDescription(course: Course, year: int): string {
    "Orario delle lezioni del " + Itoa(year) + " anno del corso di " + course.descrizione
  }

  /** The calendar of one year of a programme: method REQUEST, the
      programme's name and description for that year, and the events of the
      used lectures. */
  function CourseCalendar(timetable: seq<Event>, course: Course, year: int, subjectCodes: Option<seq<string>>,
                          digest: Digest, now: Instant): Option<CalendarData>
  {
    match LectureEvents(UsedEvents(timetable, subjectCodes), digest, now)
    case None => None
    case Some(evs) => Some(CalendarData(Some(MethodRequest), Some(CalName(course, year)),
                                        Some(CalDescription(course, year)), evs))
  }

  /** The loop of `createCourseCal`: for each lecture in order, hash its key
      and add its event. Stops with `false` at the first hash failure. */
  method AddLectures(cal: Calendar, used: seq<Event>, digest: Digest, now: Instant) returns (ok: bool)
    requires cal.events == []
    modifies cal
    ensures cal.calMethod == old(cal.calMethod) && cal.name == old(cal.name) && cal.description == old(cal.description)
    ensures ok <==> LectureEvents(used, digest, now).Some?
    ensures ok ==> cal.events == LectureEvents(used, digest, now).value
  {
    for i := 0 to |used|
      invariant cal.calMethod == old(cal.calMethod) && cal.name == old(cal.name) && cal.description == old(cal.description)
      invariant MapAll(used[..i], LectureOf(digest, now)) == Some(cal.events)
    {
      MapAllStep(used, i, LectureOf(digest, now), cal.events);
      var uid := digest(LectureKey(used[i]));
      if uid.None? {
        return false;
      }
      cal.AddEvent(LectureEvent(used[i], uid.value, now));
    }
    assert used[..|used|] == used;
    ok := true;
  }

  /** `createCourseCal` (and `createCal`). A hash failure aborts with an
      error and no calendar; otherwise the new calendar holds
      `CourseCalendar`. */
  method CreateCourseCal(timetable: seq<Event>, course: Course, year: int, subjectCodes: Option<seq<string>>,
                         digest: Digest, now: Instant)
    returns (r: Result<Calendar>)
    ensures !r.Panic?
    ensures r.Ok? <==> CourseCalendar(timetable, course, year, subjectCodes, digest, now).Some?
    ensures r.Ok? ==> fresh(r.value)
    ensures r.Ok? ==> r.value.Data() == CourseCalendar(timetable, course, year, subjectCodes, digest, now).value
  {
    var used := timetable;
    if subjectCodes.Some? {
      used := FilterTimetableBySubjects(timetable, subjectCodes.value);
    }
    var cal := new Calendar();
    cal.SetMethod(MethodRequest);
    var ok := AddLectures(cal, used, digest, now);
    if !ok {
      return Err("unable to hash the event");
    }
    cal.SetName(CalName(course, year));
    cal.SetDescription(CalDescription(course, year));
    r := Ok(cal);
  }

  /** Without a subject list every lecture of the timetable gives an event;
      with one, exactly the lectures whose module code is listed do, in
      timetable order and with their repetitions. */
  lemma CourseCalendarLectures(timetable: seq<Event>, course: Course, year: int, subjectCodes: Option<seq<string>>,
                               digest: Digest, now: Instant)
    requires CourseCalendar(timetable, course, year, subjectCodes, digest, now).Some?
    ensures var cal := CourseCalendar(timetable, course, year, subjectCodes, digest, now).value;
      var used := UsedEvents(timetable, subjectCodes);
      && cal.calMethod == Some(MethodRequest)
      && cal.name == Some(CalName(course, year))
      && cal.description == Some(CalDescription(course, year))
      && |cal.events| == |used|
      && (subjectCodes.None? ==> used == timetable)
      && (subjectCodes.Some? ==> IsSubsequence(used, timetable))
      && (subjectCodes.Some? ==> forall e: Event ::
            multiset(used)[e] == if e.codModulo in subjectCodes.value then multiset(timetable)[e] else 0)
  {
    var used := UsedEvents(timetable, subjectCodes);
    assert LectureEvents(used, digest, now).Some?;
    if subjectCodes.Some? {
      var codes := subjectCodes.value;
      FilterCounts(timetable, HasCodeIn(codes));
      forall e: Event ensures multiset(used)[e] == if e.codModulo in codes then multiset(timetable)[e] else 0 {
        assert HasCodeIn(codes)(e) == (e.codModulo in codes);
      }
    }
  }

  /** Two lectures of four-digit years share a UID key only if they have the
      same module code, start and end: the fixed-width times make the
      concatenation without separators unambiguous. */
  lemma LectureKeyInjective(a: Event, b: Event)
    requires a.start.year < 10000 && a.end.year < 10000 && b.start.year < 10000 && b.end.year < 10000
    requires LectureKey(a) == LectureKey(b)
    ensures a.codModulo == b.codModulo && a.start == b.start && a.end == b.end
  {
    TimeTextLength(a.start);
    TimeTextLength(a.end);
    TimeTextLength(b.start);
    TimeTextLength(b.end);
    ThreeParts(a.codModulo, TimeText(a.start), TimeText(a.end), b.codModulo, TimeText(b.start), TimeText(b.end));
    TimeTextInjective(a.start, b.start);
    TimeTextInjective(a.end, b.end);
  }

  /** A reader who splits a lecture's description on newlines finds the
      teacher (the event's organizer) first, an `Aula` line exactly when the
      event has a location and naming that location, then credits, period
      and module code, and nothing after the final newline. */
  lemma LectureDescriptionReadsBack(e: Event, uid: string, now: Instant)
    requires '\n' !in e.teacher && '\n' !in e.interval && '\n' !in e.codModulo
    requires |e.classrooms| > 0 ==> '\n' !in e.classrooms[0].resourceDesc
    ensures var ev := LectureEvent(e, uid, now);
      Split(ev.description, "\n")
        == ["Docente: " + ev.organizer]
           + (if ev.location.Some? then ["Aula: " + ev.location.value] else [])
           + ["Cfu: " + Itoa(e.cfu), "Periodo: " + e.interval, "Codice modulo: " + e.codModulo, ""]
  {
    LectureLinesClean(e);
    SplitLines(LectureLines(e));
  }

  /** No description line of a lecture holds a newline when its fields do
      not. */
  lemma LectureLinesClean(e: Event)
    requires '\n' !in e.teacher && '\n' !in e.interval && '\n' !in e.codModulo
    requires |e.classrooms| > 0 ==> '\n' !in e.classrooms[0].resourceDesc
    ensures forall k :: 0 <= k < |LectureLines(e)| ==> '\n' !in LectureLines(e)[k]
  {
    ItoaNoNewline(e.cfu);
  }

  /** The text hashed into an exam's UID: subject name, date, location and
      teacher, with no separator. */
  function ExamKey(x: Exam): string {
    x.subjectName + TimeText(x.date) + x.location + x.teacher
  }

  /** How long an exam event lasts, in hours. */
  const ExamHours := 2

  function ExamLines(x: Exam): seq<string> {
    ["Docente: " + x.teacher, "Codice: " + x.subjectCode, "Tipo: " + x.examType]
  }

  /** The event added for an exam. */
  function ExamEvent(x: Exam, uid: string, now: Instant): VEvent {
    VEvent(uid, x.teacher, x.subjectName, x.date, AddHours(x.date, ExamHours), Some(now), Some(x.location),
           Lines(ExamLines(x)))
  }

  /** Every exam event starts at the exam's date, ends two hours later on
      the clock, possibly on the next day, and is located at the exam's
      location. */
  lemma ExamEventSpan(x: Exam, uid: string, now: Instant)
    ensures var ev := ExamEvent(x, uid, now);
      && ev.start == x.date
      && Seconds(ev.end) == Seconds(ev.start) + 2 * 3600
      && ev.location == Some(x.location)
  {
  }

  /** An exam's description reads back as its teacher, subject code and
      type, in that order. */
  lemma ExamDescriptionReadsBack(x: Exam, uid: string, now: Instant)
    requires '\n' !in x.teacher && '\n' !in x.subjectCode && '\n' !in x.examType
    ensures Split(ExamEvent(x, uid, now).description, "\n")
      == ["Docente: " + x.teacher, "Codice: " + x.subjectCode, "Tipo: " + x.examType, ""]
  {
    SplitLines(ExamLines(x));
  }

  /** The event of one exam; `None` when its key cannot be hashed. */
  function ExamOf(digest: Digest, now: Instant): Exam -> Option<VEvent> {
    (x: Exam) =>
      match digest(ExamKey(x))
      case None => None
      case Some(uid) => Some(ExamEvent(x, uid, now))
  }

  /** The events of an exam calendar: one per exam, in order; none at all
      when some key cannot be hashed. */
  function ExamEvents(exams: seq<Exam>, digest: Digest, now: Instant): (r: Option<seq<VEvent>>)
    ensures r.Some? <==> forall i :: 0 <= i < |exams| ==> digest(ExamKey(exams[i])).Some?
    ensures r.Some? ==> |r.value| == |exams|
    ensures r.Some? ==> forall i :: 0 <= i < |exams| ==>
      r.value[i] == ExamEvent(exams[i], digest(ExamKey(exams[i])).value, now)
  {
    MapAll(exams, ExamOf(digest, now))
  }

  /** `createExamsCal`: one event per exam, in order, and the given title and
      description; a hash failure aborts with an error. */
  method CreateExamsCal(exams: seq<Exam>, title: string, description: string, digest: Digest, now: Instant)
    returns (r: Result<Calendar>)
    ensures !r.Panic?
    ensures r.Ok? <==> ExamEvents(exams, digest, now).Some?
    ensures r.Ok? ==> fresh(r.value)
    ensures r.Ok? ==> r.value.Data() == CalendarData(Some(MethodRequest), Some(title), Some(description),
                                                     ExamEvents(exams, digest, now).value)
  {
    var cal := new Calendar();
    cal.SetMethod(MethodRequest);
    for i := 0 to |exams|
      invariant fresh(cal)
      invariant cal.calMethod == Some(MethodRequest) && cal.name == None && cal.description == None
      invariant MapAll(exams[..i], ExamOf(digest, now)) == Some(cal.events)
    {
      MapAllStep(exams, i, ExamOf(digest, now), cal.events);
      var uid := digest(ExamKey(exams[i]));
      if uid.None? {
        return Err("unable to hash the exam");
      }
      cal.AddEvent(ExamEvent(exams[i], uid.value, now));
    }
    assert exams[..|exams|] == exams;
    cal.SetName(title);
    cal.SetDescription(description);
    r := Ok(cal);
  }
}

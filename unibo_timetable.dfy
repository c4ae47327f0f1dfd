/** Timetables as the older `unibo` package fetches them per curriculum
    (unibo/timetable.go): the timetable URL gains a `&curricula=` parameter
    for any curriculum other than the zero one, and the conversion into a
    calendar stamps every event with the time of the conversion. The events
    themselves are those of `UniboCalendar`; the `CalendarTime` codec is the
    one of the `CalTime` module. */
module UniboTimetable {
  import opened Wrappers
  import opened Text
  import opened Decimal
  import opened Catalogue
  import opened ICal
  import UniboCalendar

  /** `GetTimetableUrl`: `baseTimetable` with the type, the slug and the
      year, then `&curricula=` and the curriculum's value unless the
      curriculum is the zero value (all fields empty or false). The URL
      without a curriculum is the one of unibo/calendar.go; a curriculum
      only ever adds to its end. */
  function TimetableUrl(course: CourseId, anno: int, curriculum: Curriculum): (r: string)
    ensures var base := UniboCalendar.TimetableUrl(course, anno);
      && |base| <= |r| && r[..|base|] == base
      && (r == base <==> curriculum == NoCurriculum)
      && (curriculum != NoCurriculum ==> r[|base|..] == UniboCalendar.CurriculaTail + curriculum.value)
  {
    var base := UniboCalendar.TimetableUrl(course, anno);
    if curriculum != NoCurriculum then base + UniboCalendar.CurriculaTail + curriculum.value else base
  }

  /** A programme whose type and slug hold no `&`: the URL asks for a
      curriculum exactly when one is given. */
  lemma AsksForCurriculum(course: CourseId, anno: int, curriculum: Curriculum)
    requires '&' !in course.tipologia && '&' !in course.id
    ensures Contains(TimetableUrl(course, anno, curriculum), UniboCalendar.CurriculaTail)
        <==> curriculum != NoCurriculum
  {
    var base := UniboCalendar.TimetableUrl(course, anno);
    var tail := UniboCalendar.CurriculaTail;
    if curriculum != NoCurriculum {
      var r := base + tail + curriculum.value;
      assert r[|base|..|base| + |tail|] == tail;
      OccursAtContains(r, tail, |base|);
    } else {
      NoAmpersandInBase(course, anno);
      CharsNotIn(base, tail, 0);
    }
  }

  /** The URL without a curriculum holds no `&` when the id holds none. */
  lemma NoAmpersandInBase(course: CourseId, anno: int)
    requires '&' !in course.tipologia && '&' !in course.id
    ensures '&' !in UniboCalendar.TimetableUrl(course, anno)
  {
    assert '&' !in UniboCalendar.Host && '&' !in UniboCalendar.TimetablePath;
    assert '&' !in Itoa(anno);
  }

  /** A curriculum that is selected but has an empty value is not the zero
      curriculum: the URL still ends with an empty `&curricula=`. */
  lemma SelectedEmptyValue(course: CourseId, anno: int)
    ensures TimetableUrl(course, anno, Curriculum(true, "", ""))
         == UniboCalendar.TimetableUrl(course, anno) + "&curricula="
  {
  }

  /** Two URLs of one programme and year are equal only when both or
      neither ask for a curriculum, and then for the same value. */
  lemma CurriculumDetermined(course: CourseId, anno: int, a: Curriculum, b: Curriculum)
    requires TimetableUrl(course, anno, a) == TimetableUrl(course, anno, b)
    ensures (a == NoCurriculum <==> b == NoCurriculum)
    ensures a != NoCurriculum ==> a.value == b.value
  {
    var base := UniboCalendar.TimetableUrl(course, anno);
    var r := TimetableUrl(course, anno, a);
    if a != NoCurriculum && b != NoCurriculum {
      assert UniboCalendar.CurriculaTail + a.value == r[|base|..] == UniboCalendar.CurriculaTail + b.value;
      assert a.value == (UniboCalendar.CurriculaTail + a.value)[|UniboCalendar.CurriculaTail|..];
    }
  }

  /** `Timetable.ToICS` of unibo/timetable.go: a new calendar with method
      REQUEST and one event per timetable event, in order, each stamped
      with `now`; `null` when some key cannot be hashed. */
  method ToICS(t: seq<Event>, digest: Digest, now: Instant) returns (cal: Calendar?)
    ensures cal == null <==> UniboCalendar.TimetableEvents(t, digest, Some(now)).None?
    ensures cal != null ==> fresh(cal)
    ensures cal != null ==> cal.Data() == CalendarData(Some(MethodRequest), None, None,
      UniboCalendar.TimetableEvents(t, digest, Some(now)).value)
    ensures cal != null ==> |cal.events| == |t| && forall i :: 0 <= i < |t| ==> cal.events[i].dtstamp == Some(now)
  {
    cal := UniboCalendar.Convert(t, digest, Some(now));
  }
}

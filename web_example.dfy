/** One run of the calendar endpoint that shows main.go's cache key
    serving a calendar built for another curriculum. */
module WebExample {
  import opened Wrappers
  import opened Decimal
  import opened Catalogue
  import opened ICal
  import opened Cal
  import opened Web
  import DateTime

  /** A programme used to exhibit the curriculum collision. */
  function ExampleCourses(): map<int, Course> {
    map[1 := ZeroCourse.(codice := 1, durataAnni := 3)]
  }

  /** A lecture of that programme. */
  function ExampleLecture(): Event {
    Event("X", "", "", 0, "", DateTime.Time(1, 1, 1, 0, 0, 0), DateTime.Time(1, 1, 1, 0, 0, 0), [])
  }

  /** A timetable service whose answer depends on the curriculum: none for
      curriculum `A`, one lecture for any other. */
  function ExampleFetch(course: Course, year: int, c: Curriculum): Result<seq<Event>> {
    if c.value == "A" then Ok([]) else Ok([ExampleLecture()])
  }

  /** A hash that never fails: every key is its own UID. */
  function ExampleDigest(key: string): Option<string> {
    Some(key)
  }

  /** A serialiser that tells an empty calendar from a non-empty one. */
  function ExampleSerialize(d: CalendarData): Option<string> {
    Some(if d.events == [] then "empty" else "full")
  }

  /** `/cal/1/1?curr=A`, and the same request for curriculum `B`. */
  function RequestA(): CalRequest {
    CalRequest("1", "1", "A", "")
  }

  function RequestB(): CalRequest {
    CalRequest("1", "1", "B", "")
  }

  /** Both requests are admitted and carry no subject list. */
  lemma ExampleAdmitted()
    ensures Admitted(ExampleCourses(), RequestA()) && Admitted(ExampleCourses(), RequestB())
    ensures QueryOf(RequestA()) == CalQuery(1, 1, "A", None)
    ensures QueryOf(RequestB()) == CalQuery(1, 1, "B", None)
  {
    assert Atoi("1") == Ok(1);
    assert SubjectsOf("") == None;
  }

  /** A fresh build for curriculum `A` gives the empty calendar's text. */
  lemma BuildsEmpty(now: Instant)
    ensures Build(ExampleCourses(), CalQuery(1, 1, "A", None), ExampleFetch, ExampleDigest, now, ExampleSerialize)
         == Ok("empty")
  {
    assert ExampleFetch(ExampleCourses()[1], 1, CurriculumOf("A")) == Ok([]);
  }

  /** A fresh build for curriculum `B` gives another text, at any time. */
  lemma BuildsFull(now: Instant)
    ensures Build(ExampleCourses(), CalQuery(1, 1, "B", None), ExampleFetch, ExampleDigest, now, ExampleSerialize)
         == Ok("full")
  {
    assert ExampleFetch(ExampleCourses()[1], 1, CurriculumOf("B")) == Ok([ExampleLecture()]);
    assert LectureEvents([ExampleLecture()], ExampleDigest, now).Some?;
  }

  /** `/cal/1/1?curr=A` followed by `/cal/1/1?curr=B` on an empty cache:
      with main.go's key the first request caches the empty calendar and
      the second is served it, although every fresh build for it gives
      another body. */
  lemma WrittenKeyServesOtherCurriculum(now1: Instant, now2: Instant)
    ensures var key := WrittenCacheKey(RequestA());
      CalResponse(AsWritten, map[], ExampleCourses(), RequestA(), ExampleFetch, ExampleDigest, now1, ExampleSerialize)
      == (Response(200, "empty"), map[key := "empty"])
    ensures var key := WrittenCacheKey(RequestA());
      CalResponse(AsWritten, map[key := "empty"], ExampleCourses(), RequestB(), ExampleFetch, ExampleDigest, now2,
                  ExampleSerialize)
      == (Response(200, "empty"), map[key := "empty"])
    ensures forall now :: Build(ExampleCourses(), CalQuery(1, 1, "B", None), ExampleFetch, ExampleDigest, now,
                                ExampleSerialize) == Ok("full")
  {
    ExampleAdmitted();
    BuildsEmpty(now1);
    forall now: Instant ensures Build(ExampleCourses(), CalQuery(1, 1, "B", None), ExampleFetch, ExampleDigest, now,
                                      ExampleSerialize) == Ok("full") {
      BuildsFull(now);
    }
    var key := KeyOf(AsWritten, RequestA());
    BuiltServed(AsWritten, map[], ExampleCourses(), RequestA(), ExampleFetch, ExampleDigest, now1, ExampleSerialize,
                "empty");
    assert KeyOf(AsWritten, RequestB()) == key;
    CachedServed(AsWritten, map[key := "empty"], ExampleCourses(), RequestB(), ExampleFetch, ExampleDigest, now2,
                 ExampleSerialize);
  }
}

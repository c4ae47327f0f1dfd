/** The request handlers of the web service (main.go): the `anniRange`
    template helper, the calendar endpoint `/cal/:id/:anno` with its
    validation, subject parsing and response cache, and the course page's
    subject table. */
module Web {
  import opened Wrappers
  import opened Text
  import opened Decimal
  import opened Order
  import opened Seqs
  import opened Catalogue
  import opened ICal
  import opened Utils
  import opened Cal
  import opened IntegCourse

  /** `anniRange(end)`: the years 1 to `end`. The slice is made with
      capacity `end`, which panics when `end` is negative. */
  method AnniRange(end: int) returns (r: Result<seq<int>>)
    ensures r.Panic? <==> end < 0
    ensures !r.Err?
    ensures r.Ok? ==> |r.value| == end && forall i :: 0 <= i < end ==> r.value[i] == i + 1
  {
    if end < 0 {
      return Panic("makeslice: cap out of range");
    }
    var years: seq<int> := [];
    var i := 1;
    while i <= end
      invariant 1 <= i <= end + 1
      invariant |years| == i - 1
      invariant forall k :: 0 <= k < |years| ==> years[k] == k + 1
    {
      years := years + [i];
      i := i + 1;
    }
    r := Ok(years);
  }

  predicate NonEmpty(s: string) {
    |s| > 0
  }

  /** The non-empty comma-separated pieces of a `subjects` query, in order. */
  function QueriedSubjects(query: string): (r: seq<string>)
    ensures forall x :: x in r <==> |x| > 0 && x in Split(query, ",")
    ensures forall k :: 0 <= k < |r| ==> |r[k]| > 0 && ',' !in r[k]
  {
    var pieces := Split(query, ",");
    forall k | 0 <= k < |pieces| ensures ',' !in pieces[k] {
      ContainsChar(pieces[k], ',');
    }
    if query == "" then
      assert pieces == [""];
      []
    else Filter(pieces, NonEmpty)
  }

  /** Go's slice of subjects: `None` is the nil slice, which stays nil when
      no piece is appended. */
  function SubjectsOf(query: string): Option<seq<string>> {
    if QueriedSubjects(query) == [] then None else Some(QueriedSubjects(query))
  }

  function Elements(subjects: Option<seq<string>>): seq<string> {
    if subjects.None? then [] else subjects.value
  }

  /** The loop over the split `subjects` query. */
  method ParseSubjects(query: string) returns (subjects: Option<seq<string>>)
    ensures subjects == SubjectsOf(query)
  {
    subjects := None;
    if query != "" {
      subjects := KeepNonEmpty(Split(query, ","));
    }
  }

  /** Appends every non-empty piece to a slice that starts nil. */
  method KeepNonEmpty(pieces: seq<string>) returns (subjects: Option<seq<string>>)
    ensures Elements(subjects) == Filter(pieces, NonEmpty)
    ensures subjects.None? <==> Filter(pieces, NonEmpty) == []
  {
    subjects := None;
    ghost var kept: seq<string> := [];
    for i := 0 to |pieces|
      invariant kept == Filter(pieces[..i], NonEmpty)
      invariant subjects == if kept == [] then None else Some(kept)
    {
      TakeSnoc(pieces, i);
      FilterSnoc(pieces[..i], pieces[i], NonEmpty);
      if NonEmpty(pieces[i]) {
        subjects := Some(Elements(subjects) + [pieces[i]]);
        kept := kept + [pieces[i]];
      }
    }
    assert pieces[..|pieces|] == pieces;
  }

  /** A query written as non-empty codes joined by commas, as the course
      page's script writes it, reads back as those codes; no codes read
      back as the nil slice. */
  lemma SubjectsQueryReadsBack(codes: seq<string>)
    requires forall k :: 0 <= k < |codes| ==> |codes[k]| > 0 && ',' !in codes[k]
    ensures SubjectsOf(Join(codes, ",")) == if codes == [] then None else Some(codes)
  {
    if codes != [] {
      SplitJoinChar(codes, ',');
      FilterAll(codes, NonEmpty);
      JoinEmpty(codes, ",");
    }
  }

  /** `slices.Sort(subjects)`; sorting the nil slice leaves it nil. */
  function SortStrings(subjects: Option<seq<string>>): (r: Option<seq<string>>)
    ensures r.None? <==> subjects.None?
    ensures r.Some? ==> SortedBy(r.value, Self) && multiset(r.value) == multiset(subjects.value)
  {
    if subjects.None? then None else Some(SortBy(subjects.value, Self))
  }

  /** `%s` of a `[]string`: the elements separated by spaces, in brackets. */
  function FormatList(subjects: Option<seq<string>>): string {
    "[" + Join(Elements(subjects), " ") + "]"
  }

  /** The path parameters and the query of a `/cal/:id/:anno` request. */
  datatype CalRequest = CalRequest(id: string, anno: string, curr: string, subjects: string)

  /** The sorted subject list of a request. */
  function RequestSubjects(r: CalRequest): Option<seq<string>> {
    SortStrings(SubjectsOf(r.subjects))
  }

  /** The calendar cache key as main.go writes it: `"%s-%s-%s"` of the raw
      id, the raw year and the sorted subject list. The curriculum is not
      part of it. */
  function WrittenCacheKey(r: CalRequest): string {
    r.id + "-" + r.anno + "-" + FormatList(RequestSubjects(r))
  }

  /** `curriculum.Curriculum{}` with `Value` set when `curr` is given. */
  function CurriculumOf(curr: string): Curriculum {
    if curr != "" then NoCurriculum.(value := curr) else NoCurriculum
  }

  /** What a calendar depends on: the programme, the year, the curriculum
      and the subject filter. */
  datatype CalQuery = CalQuery(id: int, year: int, curr: string, subjects: Option<seq<string>>)

  /** A query as a request yields it: the subject list is nil or has
      non-empty codes without commas. */
  predicate WellFormed(q: CalQuery) {
    && q.subjects != Some([])
    && forall k :: 0 <= k < |Elements(q.subjects)| ==> |Elements(q.subjects)[k]| > 0 && ',' !in Elements(q.subjects)[k]
  }

  /** A request's sorted subject list is nil or holds non-empty codes
      without commas: sorting keeps the codes the query held. */
  lemma RequestSubjectsClean(r: CalRequest)
    ensures RequestSubjects(r) != Some([])
    ensures forall k :: 0 <= k < |Elements(RequestSubjects(r))| ==>
      |Elements(RequestSubjects(r))[k]| > 0 && ',' !in Elements(RequestSubjects(r))[k]
  {
    var q := QueriedSubjects(r.subjects);
    if q != [] {
      var s := SortBy(q, Self);
      assert RequestSubjects(r) == Some(s);
      assert |s| == |multiset(s)| == |multiset(q)| == |q|;
      forall k | 0 <= k < |s| ensures |s[k]| > 0 && ',' !in s[k] {
        assert s[k] in multiset(s);
        var j :| 0 <= j < |q| && q[j] == s[k];
      }
    }
  }

  /** The query of a request whose id and year parse. */
  function QueryOf(r: CalRequest): (q: CalQuery)
    requires Atoi(r.id).Ok? && Atoi(r.anno).Ok?
    ensures WellFormed(q)
  {
    var subjects := RequestSubjects(r);
    RequestSubjectsClean(r);
    CalQuery(Atoi(r.id).value, Atoi(r.anno).value, r.curr, subjects)
  }

  /** The calendar cache key with every input of the calendar in it: the
      parsed id and year, the curriculum prefixed by its length, and the
      sorted subject codes joined by commas. */
  function CacheKey(q: CalQuery): string {
    Itoa(q.id) + "/" + Itoa(q.year) + "/" + Itoa(|q.curr|) + "/" + q.curr + Join(Elements(q.subjects), ",")
  }

  /** Which calendar cache key the endpoint files a body under: the one
      main.go writes, or the corrected one. */
  datatype KeyScheme = AsWritten | Corrected

  /** The cache key of a request whose id and year parse, in either form. */
  function KeyOf(scheme: KeyScheme, r: CalRequest): string
    requires Atoi(r.id).Ok? && Atoi(r.anno).Ok?
  {
    match scheme
    case AsWritten => WrittenCacheKey(r)
    case Corrected => CacheKey(QueryOf(r))
  }

  lemma NoSlashInItoa(i: int)
    ensures '/' !in Itoa(i)
  {
    var s := Itoa(i);
    assert forall j :: 0 <= j < |s| ==> s[j] != '/';
  }

  /** Four texts joined by slashes, the first three without a slash, split
      back apart. */
  lemma SlashFields(a1: string, b1: string, c1: string, d1: string, a2: string, b2: string, c2: string, d2: string)
    requires '/' !in a1 && '/' !in b1 && '/' !in c1 && '/' !in a2 && '/' !in b2 && '/' !in c2
    requires a1 + "/" + b1 + "/" + c1 + "/" + d1 == a2 + "/" + b2 + "/" + c2 + "/" + d2
    ensures a1 == a2 && b1 == b2 && c1 == c2 && d1 == d2
  {
    var t1, t2 := c1 + "/" + d1, c2 + "/" + d2;
    var u1, u2 := b1 + "/" + t1, b2 + "/" + t2;
    assert a1 + "/" + b1 + "/" + c1 + "/" + d1 == a1 + ['/'] + u1;
    assert a2 + "/" + b2 + "/" + c2 + "/" + d2 == a2 + ['/'] + u2;
    SeparatorSplit(a1, u1, a2, u2, '/');
    SeparatorSplit(b1, t1, b2, t2, '/');
    SeparatorSplit(c1, d1, c2, d2, '/');
  }

  /** Distinct well-formed queries have distinct cache keys. */
  lemma CacheKeyInjective(q1: CalQuery, q2: CalQuery)
    requires WellFormed(q1) && WellFormed(q2)
    requires CacheKey(q1) == CacheKey(q2)
    ensures q1 == q2
  {
    var j1, j2 := Join(Elements(q1.subjects), ","), Join(Elements(q2.subjects), ",");
    NoSlashInItoa(q1.id);
    NoSlashInItoa(q1.year);
    NoSlashInItoa(|q1.curr|);
    NoSlashInItoa(q2.id);
    NoSlashInItoa(q2.year);
    NoSlashInItoa(|q2.curr|);
    assert CacheKey(q1) == Itoa(q1.id) + "/" + Itoa(q1.year) + "/" + Itoa(|q1.curr|) + "/" + (q1.curr + j1);
    assert CacheKey(q2) == Itoa(q2.id) + "/" + Itoa(q2.year) + "/" + Itoa(|q2.curr|) + "/" + (q2.curr + j2);
    SlashFields(Itoa(q1.id), Itoa(q1.year), Itoa(|q1.curr|), q1.curr + j1,
                Itoa(q2.id), Itoa(q2.year), Itoa(|q2.curr|), q2.curr + j2);
    ItoaInjective(q1.id, q2.id);
    ItoaInjective(q1.year, q2.year);
    ItoaInjective(|q1.curr|, |q2.curr|);
    var c := q1.curr + j1;
    assert q1.curr == c[..|q1.curr|] == q2.curr;
    assert j1 == c[|q1.curr|..] == j2;
    JoinCharInjective(Elements(q1.subjects), Elements(q2.subjects), ',');
  }

  /** Requests that differ only in the order or repetition-free arrangement
      of their subject codes ask for the same calendar and share the cache
      key, in main.go's form and in the corrected one. */
  lemma PermutedSubjectsShareKey(r1: CalRequest, r2: CalRequest)
    requires r1.id == r2.id && r1.anno == r2.anno && r1.curr == r2.curr
    requires multiset(QueriedSubjects(r1.subjects)) == multiset(QueriedSubjects(r2.subjects))
    ensures RequestSubjects(r1) == RequestSubjects(r2)
    ensures WrittenCacheKey(r1) == WrittenCacheKey(r2)
    ensures Atoi(r1.id).Ok? && Atoi(r1.anno).Ok? ==> QueryOf(r1) == QueryOf(r2)
  {
    SortStringsCanonical(QueriedSubjects(r1.subjects), QueriedSubjects(r2.subjects));
    assert QueriedSubjects(r1.subjects) == [] <==> QueriedSubjects(r2.subjects) == [];
  }

  /** Two requests that differ only in their curriculum ask for different
      timetables, yet main.go files them under one cache key. */
  lemma WrittenKeyIgnoresCurriculum(r: CalRequest, curr: string)
    requires curr != r.curr && Atoi(r.id).Ok? && Atoi(r.anno).Ok?
    ensures WrittenCacheKey(r.(curr := curr)) == WrittenCacheKey(r)
    ensures CurriculumOf(curr) != CurriculumOf(r.curr)
    ensures QueryOf(r.(curr := curr)) != QueryOf(r)
    ensures CacheKey(QueryOf(r.(curr := curr))) != CacheKey(QueryOf(r))
  {
    if CacheKey(QueryOf(r.(curr := curr))) == CacheKey(QueryOf(r)) {
      CacheKeyInjective(QueryOf(r.(curr := curr)), QueryOf(r));
    }
  }

  /** `course.GetTimetable(year, curr, nil)`: a programme's lectures for a
      year and curriculum, or the error of the request. */
  type Fetch = (Course, int, Curriculum) -> Result<seq<Event>>

  /** `cal.SerializeTo(buf)`: the iCalendar text of a calendar, or `None`
      when writing it fails. */
  type Serializer = CalendarData -> Option<string>

  /** An HTTP response: status code and body text. */
  datatype Response = Response(status: int, body: string)

  /** The request names a known programme and a year within its length. */
  predicate Admitted(courses: map<int, Course>, r: CalRequest) {
    && Atoi(r.anno).Ok? && Atoi(r.id).Ok? && Atoi(r.id).value in courses
    && 0 < Atoi(r.anno).value <= courses[Atoi(r.id).value].durataAnni
  }

  /** The checks that run before any cache access or fetch, in their order:
      the year must be a number, the id a number of a known programme, and
      the year between 1 and the programme's length. */
  function Rejection(courses: map<int, Course>, r: CalRequest): (resp: Option<Response>)
    ensures resp.None? <==> Admitted(courses, r)
    ensures resp.Some? ==> resp.value.status == 400 || resp.value.status == 404
    ensures resp.Some? && resp.value.status == 404 <==> Atoi(r.anno).Ok? && Atoi(r.id).Ok? && Atoi(r.id).value !in courses
  {
    if !Atoi(r.anno).Ok? then Some(Response(400, "Invalid year"))
    else if !Atoi(r.id).Ok? then Some(Response(400, "Invalid id"))
    else if !FindById(courses, Atoi(r.id).value).1 then Some(Response(404, "Course not found"))
    else
      var year := Atoi(r.anno).value;
      if year <= 0 || year > FindById(courses, Atoi(r.id).value).0.durataAnni then Some(Response(400, "Invalid year"))
      else None
  }

  /** The query names a known programme and a year within its length. */
  predicate Known(courses: map<int, Course>, q: CalQuery) {
    q.id in courses && 0 < q.year <= courses[q.id].durataAnni
  }

  /** A fresh answer to a query: fetch the timetable, build the calendar,
      serialise it; each failure has its own message. */
  function Build(courses: map<int, Course>, q: CalQuery, fetch: Fetch, digest: Digest, now: Instant,
                 serialize: Serializer): Result<string>
    requires Known(courses, q)
  {
    var course := courses[q.id];
    var t := fetch(course, q.year, CurriculumOf(q.curr));
    if !t.Ok? then Err("Unable to retrieve timetable")
    else
      match CourseCalendar(t.value, course, q.year, q.subjects, digest, now)
      case None => Err("Unable to create calendar")
      case Some(cal) =>
        if serialize(cal).None? then Err("Unable to serialize calendar") else Ok(serialize(cal).value)
  }

  /** The response to a calendar request and the calendar cache after it,
      with the cache keyed by `scheme`: a rejection leaves the cache alone;
      a cached body is served as it is; otherwise a body built afresh is
      served and cached, and a failure to build it is a 500 that caches
      nothing. */
  function CalResponse(scheme: KeyScheme, cache: map<string, string>, courses: map<int, Course>, r: CalRequest,
                       fetch: Fetch, digest: Digest, now: Instant, serialize: Serializer): (Response, map<string, string>)
  {
    match Rejection(courses, r)
    case Some(resp) => (resp, cache)
    case None => Serve(KeyOf(scheme, r), cache, Build(courses, QueryOf(r), fetch, digest, now, serialize))
  }

  /** The cache step of an admitted request: a cached body is served as it
      is; otherwise the outcome of a fresh build is served, and cached when it is a
      body. */
  function Serve(key: string, cache: map<string, string>, outcome: Result<string>): (Response, map<string, string>)
  {
    if key in cache then (Response(200, cache[key]), cache)
    else
      match outcome
      case Ok(body) => (Response(200, body), cache[key := body])
      case Err(msg) => (Response(500, msg), cache)
      case Panic(msg) => (Response(500, msg), cache)
  }

  /** An admitted request goes to the cache step with its key and its
      fresh build. */
  lemma AdmittedServed(scheme: KeyScheme, cache: map<string, string>, courses: map<int, Course>, r: CalRequest,
                       fetch: Fetch, digest: Digest, now: Instant, serialize: Serializer)
    requires Admitted(courses, r)
    ensures CalResponse(scheme, cache, courses, r, fetch, digest, now, serialize)
         == Serve(KeyOf(scheme, r), cache, Build(courses, QueryOf(r), fetch, digest, now, serialize))
  {
    assert Rejection(courses, r).None?;
  }

  /** A rejected request is answered without looking at the cache, the
      timetable service, the clock or the serialiser. */
  lemma RejectedBeforeFetch(scheme: KeyScheme, scheme': KeyScheme, cache: map<string, string>,
                            cache': map<string, string>, courses: map<int, Course>,
                            r: CalRequest, fetch: Fetch, fetch': Fetch, digest: Digest, digest': Digest,
                            now: Instant, now': Instant, serialize: Serializer, serialize': Serializer)
    requires !Admitted(courses, r)
    ensures CalResponse(scheme, cache, courses, r, fetch, digest, now, serialize).1 == cache
    ensures CalResponse(scheme, cache, courses, r, fetch, digest, now, serialize).0
         == CalResponse(scheme', cache', courses, r, fetch', digest', now', serialize').0
  {
  }

  /** Under either key, only an admitted request whose body was built
      afresh changes the cache, and then it adds exactly that body under the
      request's key. */
  lemma CacheChangesOnlyOnSuccess(scheme: KeyScheme, cache: map<string, string>, courses: map<int, Course>,
                                  r: CalRequest, fetch: Fetch, digest: Digest, now: Instant, serialize: Serializer)
    ensures var (resp, cache') := CalResponse(scheme, cache, courses, r, fetch, digest, now, serialize);
      cache' != cache ==>
        && Admitted(courses, r)
        && KeyOf(scheme, r) !in cache
        && resp.status == 200
        && Build(courses, QueryOf(r), fetch, digest, now, serialize) == Ok(resp.body)
        && cache' == cache[KeyOf(scheme, r) := resp.body]
  {
    if Rejection(courses, r).None? {
      var q := QueryOf(r);
      var key := KeyOf(scheme, r);
      if key !in cache {
        var b := Build(courses, q, fetch, digest, now, serialize);
        assert CalResponse(scheme, cache, courses, r, fetch, digest, now, serialize)
            == if b.Ok? then (Response(200, b.value), cache[key := b.value]) else (Response(500, b.msg), cache);
      }
    }
  }

  /** `body` is what a fresh build for `q` at time `now` serves, and `key`
      is `q`'s cache key. */
  ghost predicate Explains(courses: map<int, Course>, q: CalQuery, now: Instant, key: string, body: string,
                           fetch: Fetch, digest: Digest, serialize: Serializer)
  {
    Known(courses, q) && WellFormed(q) && CacheKey(q) == key && Build(courses, q, fetch, digest, now, serialize) == Ok(body)
  }

  /** Every cached body is what a fresh build for some query with that key
      served at some time. */
  ghost predicate CacheSound(cache: map<string, string>, courses: map<int, Course>, fetch: Fetch, digest: Digest,
                             serialize: Serializer)
  {
    forall key :: key in cache ==>
      exists q: CalQuery, now: Instant :: Explains(courses, q, now, key, cache[key], fetch, digest, serialize)
  }

  /** With the corrected key, answering a request keeps the cache sound. */
  lemma CalResponseKeepsCacheSound(cache: map<string, string>, courses: map<int, Course>, r: CalRequest,
                                   fetch: Fetch, digest: Digest, now: Instant, serialize: Serializer)
    requires CacheSound(cache, courses, fetch, digest, serialize)
    ensures CacheSound(CalResponse(Corrected, cache, courses, r, fetch, digest, now, serialize).1,
                       courses, fetch, digest, serialize)
  {
    var (resp, cache') := CalResponse(Corrected, cache, courses, r, fetch, digest, now, serialize);
    CacheChangesOnlyOnSuccess(Corrected, cache, courses, r, fetch, digest, now, serialize);
    if cache' != cache {
      var q := QueryOf(r);
      forall key | key in cache'
        ensures exists q': CalQuery, now': Instant :: Explains(courses, q', now', key, cache'[key], fetch, digest, serialize)
      {
        if key == CacheKey(q) {
          assert Explains(courses, q, now, key, cache'[key], fetch, digest, serialize);
        } else {
          assert key in cache && cache'[key] == cache[key];
        }
      }
    }
  }

  /** Under either key, an admitted request whose key is cached is served
      the cached body and leaves the cache as it was. */
  lemma CachedServed(scheme: KeyScheme, cache: map<string, string>, courses: map<int, Course>, r: CalRequest,
                     fetch: Fetch, digest: Digest, now: Instant, serialize: Serializer)
    requires Admitted(courses, r) && KeyOf(scheme, r) in cache
    ensures CalResponse(scheme, cache, courses, r, fetch, digest, now, serialize)
         == (Response(200, cache[KeyOf(scheme, r)]), cache)
  {
    assert Rejection(courses, r).None?;
  }

  /** Under either key, an admitted request whose key is not cached and
      whose fresh build succeeds is served that body, which is cached under
      its key. */
  lemma BuiltServed(scheme: KeyScheme, cache: map<string, string>, courses: map<int, Course>, r: CalRequest,
                    fetch: Fetch, digest: Digest, now: Instant, serialize: Serializer, body: string)
    requires Admitted(courses, r) && KeyOf(scheme, r) !in cache
    requires Build(courses, QueryOf(r), fetch, digest, now, serialize) == Ok(body)
    ensures CalResponse(scheme, cache, courses, r, fetch, digest, now, serialize)
         == (Response(200, body), cache[KeyOf(scheme, r) := body])
  {
    assert Rejection(courses, r).None?;
  }

  /** With the corrected key, a cache hit serves the calendar the request
      asks for: the one a fresh build for this very query served, at the
      time it was built. */
  lemma CacheHitServesRequestedCalendar(cache: map<string, string>, courses: map<int, Course>, r: CalRequest,
                                        fetch: Fetch, digest: Digest, now: Instant, serialize: Serializer)
    requires CacheSound(cache, courses, fetch, digest, serialize)
    requires Admitted(courses, r) && KeyOf(Corrected, r) in cache
    ensures CalResponse(Corrected, cache, courses, r, fetch, digest, now, serialize)
         == (Response(200, cache[KeyOf(Corrected, r)]), cache)
    ensures exists built: Instant ::
      Build(courses, QueryOf(r), fetch, digest, built, serialize) == Ok(cache[KeyOf(Corrected, r)])
  {
    var q := QueryOf(r);
    assert Known(courses, q) && KeyOf(Corrected, r) == CacheKey(q);
    CachedBodyWasBuilt(cache, courses, q, fetch, digest, serialize);
    CachedServed(Corrected, cache, courses, r, fetch, digest, now, serialize);
  }

  /** In a sound cache, the body under a well-formed query's corrected key
      is what a fresh build for that very query served at some time. */
  lemma CachedBodyWasBuilt(cache: map<string, string>, courses: map<int, Course>, q: CalQuery,
                           fetch: Fetch, digest: Digest, serialize: Serializer)
    requires CacheSound(cache, courses, fetch, digest, serialize)
    requires Known(courses, q) && WellFormed(q) && CacheKey(q) in cache
    ensures exists built: Instant :: Build(courses, q, fetch, digest, built, serialize) == Ok(cache[CacheKey(q)])
  {
    var key := CacheKey(q);
    var q', built :| Explains(courses, q', built, key, cache[key], fetch, digest, serialize);
    CacheKeyInjective(q', q);
  }

  /** With main.go's key, once a request has been answered with 200, any
      admitted request with the same written key is answered with the same
      body and leaves the cache alone, whatever curriculum or subjects it
      asks for and whatever a fresh build for it would give. */
  lemma WrittenKeySharesBody(cache: map<string, string>, courses: map<int, Course>, r1: CalRequest, r2: CalRequest,
                             fetch: Fetch, digest: Digest, now1: Instant, now2: Instant, serialize: Serializer)
    requires Admitted(courses, r2)
    requires Atoi(r1.id).Ok? && Atoi(r1.anno).Ok? && WrittenCacheKey(r1) == WrittenCacheKey(r2)
    ensures var (resp1, cache1) := CalResponse(AsWritten, cache, courses, r1, fetch, digest, now1, serialize);
      resp1.status == 200 ==>
        CalResponse(AsWritten, cache1, courses, r2, fetch, digest, now2, serialize) == (resp1, cache1)
  {
    var (resp1, cache1) := CalResponse(AsWritten, cache, courses, r1, fetch, digest, now1, serialize);
    CacheChangesOnlyOnSuccess(AsWritten, cache, courses, r1, fetch, digest, now1, serialize);
    if resp1.status == 200 {
      assert Admitted(courses, r1);
      assert WrittenCacheKey(r1) in cache1 && cache1[WrittenCacheKey(r1)] == resp1.body;
      CachedServed(AsWritten, cache1, courses, r2, fetch, digest, now2, serialize);
    }
  }

  /** With the corrected key, answering a request first does not change
      the answer to the same request for another curriculum: that one is
      served as if the first had never been made. */
  lemma CorrectedKeySeparatesCurricula(cache: map<string, string>, courses: map<int, Course>, r: CalRequest,
                                       curr: string, fetch: Fetch, digest: Digest, now1: Instant, now2: Instant,
                                       serialize: Serializer)
    requires Admitted(courses, r) && curr != r.curr
    ensures var cache1 := CalResponse(Corrected, cache, courses, r, fetch, digest, now1, serialize).1;
      CalResponse(Corrected, cache1, courses, r.(curr := curr), fetch, digest, now2, serialize).0
      == CalResponse(Corrected, cache, courses, r.(curr := curr), fetch, digest, now2, serialize).0
  {
    var r2 := r.(curr := curr);
    var cache1 := CalResponse(Corrected, cache, courses, r, fetch, digest, now1, serialize).1;
    CacheChangesOnlyOnSuccess(Corrected, cache, courses, r, fetch, digest, now1, serialize);
    WrittenKeyIgnoresCurriculum(r, curr);
    var key2 := KeyOf(Corrected, r2);
    assert key2 != KeyOf(Corrected, r);
    assert Admitted(courses, r2);
    AdmittedServed(Corrected, cache, courses, r2, fetch, digest, now2, serialize);
    AdmittedServed(Corrected, cache1, courses, r2, fetch, digest, now2, serialize);
    ServeReadsOnlyItsKey(key2, cache, cache1, Build(courses, QueryOf(r2), fetch, digest, now2, serialize));
  }

  /** The cache step's response depends on the cache only through the
      entry under its own key. */
  lemma ServeReadsOnlyItsKey(key: string, cache: map<string, string>, cache': map<string, string>,
                             outcome: Result<string>)
    requires key in cache <==> key in cache'
    requires key in cache ==> cache[key] == cache'[key]
    ensures Serve(key, cache, outcome).0 == Serve(key, cache', outcome).0
  {
  }

  /** main.go's key prints the subject list with `%s`, which separates the
      codes by spaces: one code holding a space (`a%20b` in the query) and
      the two codes on either side of it share the written key, although
      they filter by different codes; the corrected keys differ. */
  lemma WrittenKeyMergesSpaces(id: string, anno: string, curr: string)
    requires Atoi(id).Ok? && Atoi(anno).Ok?
    ensures var r1, r2 := CalRequest(id, anno, curr, "a b"), CalRequest(id, anno, curr, "a,b");
      && WrittenCacheKey(r1) == WrittenCacheKey(r2)
      && RequestSubjects(r1) == Some(["a b"]) && RequestSubjects(r2) == Some(["a", "b"])
      && CacheKey(QueryOf(r1)) != CacheKey(QueryOf(r2))
  {
    var r1, r2 := CalRequest(id, anno, curr, "a b"), CalRequest(id, anno, curr, "a,b");
    OneSpacedCode();
    TwoCodes();
    SpacedJoin();
    assert QueryOf(r1).subjects != QueryOf(r2).subjects;
    if CacheKey(QueryOf(r1)) == CacheKey(QueryOf(r2)) {
      CacheKeyInjective(QueryOf(r1), QueryOf(r2));
    }
  }

  /** The codes `a` and `b` printed with `%s` read `a b`. */
  lemma SpacedJoin()
    ensures Join(["a", "b"], " ") == "a b"
  {
    var s := Join(["a", "b"], " ");
    assert s == ['a'] + [' '] + ['b'];
    assert |s| == 3 && s[0] == 'a' && s[1] == ' ' && s[2] == 'b';
  }

  /** The query `a b` holds the one code `a b`. */
  lemma OneSpacedCode()
    ensures SortStrings(SubjectsOf("a b")) == Some(["a b"])
  {
    assert "a b" == Join(["a b"], ",");
    SplitJoinChar(["a b"], ',');
    assert Filter(["a b"], NonEmpty) == ["a b"];
  }

  /** The query `a,b` holds the codes `a` and `b`, already in order. */
  lemma TwoCodes()
    ensures SortStrings(SubjectsOf("a,b")) == Some(["a", "b"])
  {
    assert "a,b" == Join(["a", "b"], ",");
    SplitJoinChar(["a", "b"], ',');
    assert Filter(["a", "b"], NonEmpty) == ["a", "b"];
    assert SortBy(["b"], Self) == ["b"];
    assert LexLeq("a", "b");
    assert SortBy(["a", "b"], Self) == InsertBy("a", ["b"], Self) == ["a", "b"];
  }

  /** What the course page shows, or the error response. */
  datatype PageResponse =
    | PageError(status: int, body: string)
    | Served(course: Course, curricula: map<int, seq<Curriculum>>,
           teachings: map<int, map<Curriculum, seq<SimpleSubject>>>)

  /** A curricula lookup that returned an error degrades to no curricula
      at all. */
  function CurriculaOrEmpty(r: Result<map<int, seq<Curriculum>>>): map<int, seq<Curriculum>> {
    if r.Ok? then r.value else map[]
  }

  /** `k` is the key of a pair of `cur` whose fetch succeeded, and `v` the
      subjects of that timetable, unsorted. */
  ghost predicate PageEntry(k: string, v: seq<SimpleSubject>, course: Course, cur: map<int, seq<Curriculum>>,
                            fetch: Fetch, subjectsOf: seq<Event> -> seq<SimpleSubject>)
  {
    exists y, c :: y in cur && c in cur[y] && k == SubjectsKey(course.codice, y, c.value)
      && fetch(course, y, c).Ok? && v == subjectsOf(fetch(course, y, c).value)
  }

  /** The subject cache grew from `before` to `after` only by fetched
      entries. */
  ghost predicate PageGrewBy(before: map<string, seq<SimpleSubject>>, after: map<string, seq<SimpleSubject>>,
                             course: Course, cur: map<int, seq<Curriculum>>, fetch: Fetch,
                             subjectsOf: seq<Event> -> seq<SimpleSubject>)
  {
    && (forall k :: k in before ==> k in after && after[k] == before[k])
    && (forall k :: k in after && k !in before ==> PageEntry(k, after[k], course, cur, fetch, subjectsOf))
  }

  /** Caching a fetched entry under a new key keeps the cache grown only by
      fetched entries. */
  lemma PageGrewByAdd(start: map<string, seq<SimpleSubject>>, cache: map<string, seq<SimpleSubject>>,
                      k: string, v: seq<SimpleSubject>, course: Course, cur: map<int, seq<Curriculum>>,
                      fetch: Fetch, subjectsOf: seq<Event> -> seq<SimpleSubject>)
    requires PageGrewBy(start, cache, course, cur, fetch, subjectsOf)
    requires k !in cache && PageEntry(k, v, course, cur, fetch, subjectsOf)
    ensures PageGrewBy(start, cache[k := v], course, cur, fetch, subjectsOf)
  {
  }

  /** The pair (`y`, `c`) was left out of the page: it was not cached and
      its timetable could not be fetched. */
  ghost predicate Skipped(course: Course, y: int, c: Curriculum, cache: map<string, seq<SimpleSubject>>, fetch: Fetch) {
    SubjectsKey(course.codice, y, c.value) !in cache && !fetch(course, y, c).Ok?
  }

  /** The inner loop of `coursePage` for one year: per curriculum, the
      subjects from the cache or else fetched and cached; a pair whose fetch
      fails is left out. Returns the year's map and the new cache; `start`
      is the cache when the page began. */
  method ResolvePageYear(course: Course, cur: map<int, seq<Curriculum>>, y: int, fetch: Fetch,
                         subjectsOf: seq<Event> -> seq<SimpleSubject>, cache: map<string, seq<SimpleSubject>>,
                         ghost start: map<string, seq<SimpleSubject>>)
    returns (inner: map<Curriculum, seq<SimpleSubject>>, cache': map<string, seq<SimpleSubject>>)
    requires y in cur
    requires PageGrewBy(start, cache, course, cur, fetch, subjectsOf)
    ensures PageGrewBy(start, cache', course, cur, fetch, subjectsOf)
    ensures forall k :: k in cache ==> k in cache' && cache'[k] == cache[k]
    ensures Resolved(inner, course.codice, y, cache')
    ensures forall c :: c in inner ==> c in cur[y]
    ensures forall c :: c in cur[y] && c !in inner ==> Skipped(course, y, c, start, fetch)
  {
    var cs := cur[y];
    inner := map[];
    cache' := cache;
    for j := 0 to |cs|
      invariant PageGrewBy(start, cache', course, cur, fetch, subjectsOf)
      invariant forall k :: k in cache ==> k in cache' && cache'[k] == cache[k]
      invariant Resolved(inner, course.codice, y, cache')
      invariant forall c :: c in inner ==> c in cs
      invariant forall i :: 0 <= i < j && cs[i] !in inner ==> Skipped(course, y, cs[i], start, fetch)
    {
      ghost var prev := inner;
      inner, cache' := ResolvePagePair(course, cur, y, cs[j], fetch, subjectsOf, inner, cache', start);
      SkipStep(cs, j, prev, inner, course, y, start, fetch);
    }
  }

  /** The curricula before `j` that are missing from `inner` were all
      skipped; one more step keeps that. */
  lemma SkipStep(cs: seq<Curriculum>, j: nat, inner: map<Curriculum, seq<SimpleSubject>>,
                 inner': map<Curriculum, seq<SimpleSubject>>, course: Course, y: int,
                 start: map<string, seq<SimpleSubject>>, fetch: Fetch)
    requires j < |cs|
    requires forall i :: 0 <= i < j && cs[i] !in inner ==> Skipped(course, y, cs[i], start, fetch)
    requires inner.Keys <= inner'.Keys
    requires cs[j] !in inner' ==> Skipped(course, y, cs[j], start, fetch)
    ensures forall i :: 0 <= i < j + 1 && cs[i] !in inner' ==> Skipped(course, y, cs[i], start, fetch)
  {
  }

  /** One curriculum of the inner loop of `coursePage`: its subjects from
      the cache, or else fetched and cached, or the pair left out when the
      fetch fails. */
  method ResolvePagePair(course: Course, cur: map<int, seq<Curriculum>>, y: int, c: Curriculum, fetch: Fetch,
                         subjectsOf: seq<Event> -> seq<SimpleSubject>, inner: map<Curriculum, seq<SimpleSubject>>,
                         cache: map<string, seq<SimpleSubject>>, ghost start: map<string, seq<SimpleSubject>>)
    returns (inner': map<Curriculum, seq<SimpleSubject>>, cache': map<string, seq<SimpleSubject>>)
    requires y in cur && c in cur[y]
    requires PageGrewBy(start, cache, course, cur, fetch, subjectsOf)
    requires Resolved(inner, course.codice, y, cache)
    ensures PageGrewBy(start, cache', course, cur, fetch, subjectsOf)
    ensures forall k :: k in cache ==> k in cache' && cache'[k] == cache[k]
    ensures Resolved(inner', course.codice, y, cache')
    ensures inner.Keys <= inner'.Keys <= inner.Keys + {c}
    ensures c !in inner' ==> Skipped(course, y, c, start, fetch)
  {
    var key := SubjectsKey(course.codice, y, c.value);
    if key in cache {
      return inner[c := cache[key]], cache;
    }
    var t := fetch(course, y, c);
    if !t.Ok? {
      return inner, cache;
    }
    var subjects := subjectsOf(t.value);
    assert PageEntry(key, subjects, course, cur, fetch, subjectsOf);
    PageGrewByAdd(start, cache, key, subjects, course, cur, fetch, subjectsOf);
    cache' := cache[key := subjects];
    ResolvedGrows(inner, course.codice, y, cache, cache');
    inner' := inner[c := subjects];
  }

  /** The state of the handlers: the programme map, the calendar cache
      (`calcache`) and the course page's subject cache
      (`subjectscache`). Entries do not expire in this model. */
  class Server {
    var courses: map<int, Course>
    var calcache: map<string, string>
    var subjectscache: map<string, seq<SimpleSubject>>

    constructor (courses: map<int, Course>)
      ensures this.courses == courses && calcache == map[] && subjectscache == map[]
    {
      this.courses := courses;
      calcache := map[];
      subjectscache := map[];
    }

    /** `getCoursesCal` on the server's calendar cache, with the cache key
        `scheme` names: `AsWritten` is main.go's handler, `Corrected` the
        one whose key holds the curriculum. */
    method GetCoursesCal(scheme: KeyScheme, r: CalRequest, fetch: Fetch, digest: Digest, now: Instant,
                         serialize: Serializer)
      returns (resp: Response)
      modifies this
      ensures courses == old(courses) && subjectscache == old(subjectscache)
      ensures (resp, calcache) == CalResponse(scheme, old(calcache), courses, r, fetch, digest, now, serialize)
    {
      resp, calcache := Answer(scheme, calcache, courses, r, fetch, digest, now, serialize);
    }

    /** The subjects of one year of the course page, on the subject
        cache. */
    method PageYear(course: Course, cur: map<int, seq<Curriculum>>, y: int, fetch: Fetch,
                    subjectsOf: seq<Event> -> seq<SimpleSubject>, ghost start: map<string, seq<SimpleSubject>>)
      returns (inner: map<Curriculum, seq<SimpleSubject>>)
      requires y in cur
      requires PageGrewBy(start, subjectscache, course, cur, fetch, subjectsOf)
      modifies this
      ensures courses == old(courses) && calcache == old(calcache)
      ensures PageGrewBy(start, subjectscache, course, cur, fetch, subjectsOf)
      ensures forall k :: k in old(subjectscache) ==> k in subjectscache && subjectscache[k] == old(subjectscache)[k]
      ensures Resolved(inner, course.codice, y, subjectscache)
      ensures forall c :: c in inner ==> c in cur[y]
      ensures forall c :: c in cur[y] && c !in inner ==> Skipped(course, y, c, start, fetch)
    {
      inner, subjectscache := ResolvePageYear(course, cur, y, fetch, subjectsOf, subjectscache, start);
    }

    /** `coursePage`: the programme, its curricula (none when they cannot
        be fetched) and, per year and curriculum, the subjects from the
        cache or else fetched and cached as they come, unsorted. A pair
        whose fetch fails is left out and the page is still served. A
        curricula lookup that panics in the handler's own goroutine (the
        channel of capacity `DurataAnni` made with a negative size) is
        recovered by gin's default middleware, which answers 500 with an
        empty body. */
    method CoursePage(id: string, allCurricula: Course -> Result<map<int, seq<Curriculum>>>, fetch: Fetch,
                      subjectsOf: seq<Event> -> seq<SimpleSubject>)
      returns (resp: PageResponse)
      modifies this
      ensures courses == old(courses) && calcache == old(calcache)
      ensures resp.Served? <==> id != "" && Atoi(id).Ok? && Atoi(id).value in courses
                                && !allCurricula(courses[Atoi(id).value]).Panic?
      ensures id != "" && Atoi(id).Ok? && Atoi(id).value in courses && allCurricula(courses[Atoi(id).value]).Panic? ==>
        resp == PageError(500, "")
      ensures id == "" || !Atoi(id).Ok? ==> resp == PageError(400, "Invalid course id")
      ensures id != "" && Atoi(id).Ok? && Atoi(id).value !in courses ==> resp == PageError(404, "Course not found")
      ensures !resp.Served? ==> subjectscache == old(subjectscache)
      ensures resp.Served? ==> resp.course == courses[Atoi(id).value]
      ensures resp.Served? ==> resp.curricula == CurriculaOrEmpty(allCurricula(resp.course))
      ensures resp.Served? ==> PageGrewBy(old(subjectscache), subjectscache, resp.course, resp.curricula, fetch, subjectsOf)
      ensures resp.Served? ==> resp.teachings.Keys == resp.curricula.Keys
      ensures resp.Served? ==> forall y :: y in resp.teachings ==>
        && Resolved(resp.teachings[y], resp.course.codice, y, subjectscache)
        && (forall c :: c in resp.teachings[y] ==> c in resp.curricula[y])
        && (forall c :: c in resp.curricula[y] && c !in resp.teachings[y] ==>
              Skipped(resp.course, y, c, old(subjectscache), fetch))
    {
      if id == "" {
        return PageError(400, "Invalid course id");
      }
      var idInt := Atoi(id);
      if !idInt.Ok? {
        return PageError(400, "Invalid course id");
      }
      var (course, found) := FindById(courses, idInt.value);
      if !found {
        return PageError(404, "Course not found");
      }
      var curricula := allCurricula(course);
      if curricula.Panic? {
        return PageError(500, "");
      }
      var cur: map<int, seq<Curriculum>> := map[];
      if curricula.Ok? {
        cur := curricula.value;
      }
      var m: map<int, map<Curriculum, seq<SimpleSubject>>> := map[];
      var todo := cur.Keys;
      while todo != {}
        invariant todo <= cur.Keys
        invariant m.Keys == cur.Keys - todo
        invariant courses == old(courses) && calcache == old(calcache)
        invariant PageGrewBy(old(subjectscache), subjectscache, course, cur, fetch, subjectsOf)
        invariant forall y :: y in m ==>
          && Resolved(m[y], course.codice, y, subjectscache)
          && (forall c :: c in m[y] ==> c in cur[y])
          && (forall c :: c in cur[y] && c !in m[y] ==> Skipped(course, y, c, old(subjectscache), fetch))
        decreases todo
      {
        SetHasElement(todo);
        var y :| y in todo;
        ghost var before := subjectscache;
        var inner := PageYear(course, cur, y, fetch, subjectsOf, old(subjectscache));
        forall y' | y' in m ensures Resolved(m[y'], course.codice, y', subjectscache) {
          ResolvedGrows(m[y'], course.codice, y', before, subjectscache);
        }
        m := m[y := inner];
        todo := todo - {y};
      }
      resp := Served(course, cur, m);
    }
  }

  /** `createCal` followed by the serialisation: a fresh answer to a known
      query, with the failure of each step reported by its own message. */
  method BuildCalendar(courses: map<int, Course>, q: CalQuery, fetch: Fetch, digest: Digest, now: Instant,
                       serialize: Serializer) returns (b: Result<string>)
    requires Known(courses, q)
    ensures b == Build(courses, q, fetch, digest, now, serialize)
  {
    var course := courses[q.id];
    var t := fetch(course, q.year, CurriculumOf(q.curr));
    if !t.Ok? {
      return Err("Unable to retrieve timetable");
    }
    var cal := CreateCourseCal(t.value, course, q.year, q.subjects, digest, now);
    if !cal.Ok? {
      return Err("Unable to create calendar");
    }
    var buf := serialize(cal.value.Data());
    if buf.None? {
      return Err("Unable to serialize calendar");
    }
    b := Ok(buf.value);
  }

  /** The checks of `getCoursesCal` that run before the cache is looked
      at, in their order. */
  method CheckRequest(courses: map<int, Course>, r: CalRequest) returns (rejection: Option<Response>)
    ensures rejection == Rejection(courses, r)
  {
    var annoInt := Atoi(r.anno);
    if !annoInt.Ok? {
      return Some(Response(400, "Invalid year"));
    }
    var idInt := Atoi(r.id);
    if !idInt.Ok? {
      return Some(Response(400, "Invalid id"));
    }
    var (course, found) := FindById(courses, idInt.value);
    if !found {
      return Some(Response(404, "Course not found"));
    }
    if annoInt.value <= 0 || annoInt.value > course.durataAnni {
      return Some(Response(400, "Invalid year"));
    }
    rejection := None;
  }

  /** The query of a request whose id and year parse: the curriculum as
      given and the subject codes parsed and sorted. */
  method RequestQuery(r: CalRequest) returns (q: CalQuery)
    requires Atoi(r.id).Ok? && Atoi(r.anno).Ok?
    ensures q == QueryOf(r)
  {
    var subjects := ParseSubjects(r.subjects);
    subjects := SortStrings(subjects);
    q := CalQuery(Atoi(r.id).value, Atoi(r.anno).value, r.curr, subjects);
  }

  /** The calendar endpoint on a given cache: the checks, the cache lookup
      under the key `scheme` names (main.go's `"%s-%s-%s"` of the raw id,
      the raw year and the sorted subjects, or the corrected key), and a
      fresh build that is cached on success. */
  method Answer(scheme: KeyScheme, cache: map<string, string>, courses: map<int, Course>, r: CalRequest,
                fetch: Fetch, digest: Digest, now: Instant, serialize: Serializer)
    returns (resp: Response, cache': map<string, string>)
    ensures (resp, cache') == CalResponse(scheme, cache, courses, r, fetch, digest, now, serialize)
  {
    cache' := cache;
    ghost var expected := CalResponse(scheme, cache, courses, r, fetch, digest, now, serialize);
    var rejection := CheckRequest(courses, r);
    if rejection.Some? {
      assert expected == (rejection.value, cache);
      return rejection.value, cache;
    }
    var q := RequestQuery(r);
    var key := if scheme == AsWritten then r.id + "-" + r.anno + "-" + FormatList(q.subjects) else CacheKey(q);
    if key in cache {
      assert expected == (Response(200, cache[key]), cache);
      return Response(200, cache[key]), cache;
    }
    var built := BuildCalendar(courses, q, fetch, digest, now, serialize);
    if !built.Ok? {
      assert expected == (Response(500, built.msg), cache);
      return Response(500, built.msg), cache;
    }
    assert expected == (Response(200, built.value), cache[key := built.value]);
    cache' := cache[key := built.value];
    resp := Response(200, built.value);
  }
}

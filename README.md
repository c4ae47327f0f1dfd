# AlmaCalendar in Dafny

AlmaCalendar turns the University of Bologna's open-data catalogue of degree
programmes and each programme's lecture timetable into iCalendar feeds. This
project models its core and proves properties of the model:

- **Calendar synthesis.** Lecture calendars (`createCourseCal` in cal.go and
  its copy `createCal` in main.go), exam calendars (`createExamsCal`), and the
  older `Timetable.ToICS` of unibo/calendar.go and unibo/timetable.go. Each
  record becomes exactly one event. Its UID is the digest of a key text, and
  the location and description follow fixed rules.
- **The subject filter and the subject-map resolver** of utils.go, and the
  course page's copy of the resolver in main.go. The first copy gives up on
  the first failed fetch; the second leaves the failing pair out.
- **The calendar endpoint** `/cal/:id/:anno` of main.go. It checks the
  request, parses and sorts the subject query, consults the response cache
  and builds a calendar on a miss. It also covers the `anniRange` template
  helper.
- **The catalogue.** Decoding of the open-data CSV (unibo_integ/resource.go,
  and the identical code in unibo/opendata.go). The refresh decision, the
  year filter and the code-to-programme map of data.go.
- **Programme lookup.** `FindById`, `ToList`, the `sort.Interface` methods,
  the memoised website-id scrape and the all-or-nothing curricula fetch, in
  both the newer `unibo_integ` package and the older `unibo` package.
- **URL builders and the `CalendarTime` JSON codec** of the `unibo` package.
- **Subject-list URL editing** in static/js/course.js (`addSubject`,
  `removeSubject`).

## How it is modelled

- **Effects as parameters.** Network fetches, the scrape's regular
  expression, SHA-1, the clock, the file stat and the iCalendar serialiser
  are function parameters. Each returns a value or an error, so every error
  branch of the source is a branch of the model.
- **Results.** `Result` distinguishes an error the Go code returns (`Err`)
  from a runtime panic (`Panic`), such as an index out of range or a
  negative `make` size.
- **State.**
  - Objects and caches that the source updates in place are classes with
    `modifies` clauses: the calendar, the website-id caches, the subject
    cache, the server's two caches and `CalendarTime`.
  - Each loop is a method whose postcondition ties its result to a
    specification function.
  - Properties are proved about those functions.
- **Go semantics written out.**
  - `strings.Split`, `strings.Contains` and `strconv.ParseInt` with a bit
    size.
  - `strconv.ParseBool`, `strconv.Itoa` and `Time.String()` for UTC times.
  - Go's byte-wise string order.
  - JavaScript's first-occurrence `replace` and `slice(-1)`.
- **Time codec deviation.** Go's `time.Parse` with the layout hour `15`
  also accepts a one-digit hour. So parsing and then formatting gives back
  the canonical text (hour padded to two digits), not always the original
  bytes. `CalTime.FormatParse` states exactly that.

## Model

| member | source | states |
|---|---|---|
| `Cal.LectureEvents` | cal.go:35-64 | One event per used lecture, in input order. The UID is the digest of the lecture's key. There are no events at all iff some key cannot be hashed. |
| `Cal.AddLectures` | cal.go:35-64 | The event loop adds exactly `LectureEvents` to an empty calendar and leaves its method, name and description alone. It reports failure iff a key cannot be hashed. |
| `Cal.CreateCourseCal` | cal.go:20-74 | Never panics. It succeeds iff every key hashes. It then returns a fresh calendar equal to `CourseCalendar`. main.go:266-320 is the same code and is modelled by this member. |
| `Cal.CourseCalendarLectures` | cal.go:27-71 | Method REQUEST. Name `<Descrizione> - <year> year` and the fixed Italian description. One event per used lecture. With no codes every lecture is used. Otherwise the used lectures are an order-preserving subsequence holding each lecture with a listed code exactly as often as the timetable does, and none other. |
| `Cal.LectureKeyInjective` | cal.go:36-42 | Two lectures with four-digit years share a key text, and so a UID, only if module code, start and end are equal. |
| `Cal.LectureDescriptionReadsBack` | cal.go:52-63 | The description splits back into `Docente:`, `Aula:` (exactly when a classroom is set, and equal to the location), `Cfu:`, `Periodo:` and `Codice modulo:`, in that order, each line ended by a newline. |
| `Cal.ExamEvents` | cal.go:80-104 | One event per exam, in order, with the UID hashed from subject name, date, location and teacher. There are none iff some key cannot be hashed. |
| `Cal.ExamEventSpan` | cal.go:89-94 | An exam event starts at the exam's date and ends 7200 seconds later, possibly on the next day. Its location is the exam's location. |
| `Cal.ExamDescriptionReadsBack` | cal.go:98-103 | The exam description splits back into `Docente:`, `Codice:` and `Tipo:` lines, in order. |
| `Cal.CreateExamsCal` | cal.go:76-110 | Never panics. It succeeds iff every key hashes. Name and description are exactly the given title and description, and the method is REQUEST. |
| `Utils.FilterTimetableBySubjects` | utils.go:72-80 | The loop returns exactly the lectures whose module code is listed, in timetable order, duplicates kept. |
| `Utils.FilterNoCodes` | utils.go:73-79 | With no codes the filter returns an empty timetable. |
| `Utils.SubjectsKeyInjective` | utils.go:46 | For non-negative code and year, the key `<code>-<year>-<value>` determines code, year and curriculum value. |
| `Utils.SortedSubjects` | utils.go:58-65 | Fetched subjects end up sorted by name and are a permutation of what was fetched. |
| `Utils.ResolvePair` | utils.go:43-65 | Per curriculum: a cached list is used without a fetch. Otherwise the fetched list is cached sorted by name, as a permutation of what was fetched. Old cache entries are kept. A failed fetch reports that pair and resolves nothing. |
| `Utils.SubjectsCache.constructor` | utils.go:21 | The subject cache starts empty. |
| `Utils.SubjectsCache.ResolveYear` | utils.go:41-66 | One year resolves every curriculum of that year, or fails on a pair whose fetch failed. The cache only grows. Each new entry is a fetched list sorted by name and permuted, with the order of equal names left open. |
| `Utils.SubjectsCache.GetSubjectsMap` | utils.go:28-70 | A nil course or nil curricula gives its error with the cache untouched. On success there is one inner map per year, with one sorted, cache-consistent entry per curriculum. Any error names a failed fetch. |
| `Web.AnniRange` | main.go:34-40 | `[1, …, end]`, empty for `end = 0`. A negative `end` panics at the slice's capacity. |
| `Web.QueriedSubjects` | main.go:203-213 | The pieces are exactly the non-empty comma-free pieces of the query split on `,`. |
| `Web.ParseSubjects` | main.go:203-213 | The loop yields the non-empty pieces, or nil when there are none. |
| `Web.KeepNonEmpty` | main.go:207-211 | The elements kept are the input filtered by non-emptiness, in order. The result is nil iff nothing is kept. |
| `Web.SubjectsQueryReadsBack` | main.go:203-213 | Joining non-empty codes without commas by `,` and parsing gives the codes back. No codes gives nil. |
| `Web.SortStrings` | main.go:215 | Sorting keeps nil as nil. Otherwise it gives the same multiset in ascending byte order. |
| `Web.RequestSubjectsClean` | main.go:203-215 | A request's subject list is nil or holds only non-empty codes without commas. |
| `Web.QueryOf` | main.go:172-217 | The query of a request whose id and year parse is well formed. |
| `Web.PermutedSubjectsShareKey` | main.go:215-217 | Requests whose subject queries are permutations of each other get the same sorted list, the same written key and the same query. |
| `Web.WrittenKeyIgnoresCurriculum` | main.go:217 | Requests differing only in `curr` share the key main.go writes, although they ask for different curricula and different calendars. |
| `Web.CacheKeyInjective` | main.go:217 | The corrected key, which includes the curriculum, determines the whole query. |
| `Web.Rejection` | main.go:172-195 | A request is refused iff the year or id is not a number, the programme is unknown, or the year is outside 1 to DurataAnni. The status is 404 exactly for an unknown programme, 400 otherwise. |
| `Web.RejectedBeforeFetch` | main.go:172-195 | A refused request leaves the cache unchanged. Its response does not depend on the cache, the fetch, the hash, the clock or the serialiser. |
| `Web.CacheChangesOnlyOnSuccess` | main.go:218-246 | The cache changes only for an admitted request missing from the cache whose build succeeded. The body is then stored under the request's key and served with 200. |
| `Web.CalResponseKeepsCacheSound` | main.go:218-246 | If every cached body is a calendar built for its key's query, that still holds after any request. |
| `Web.CacheHitServesRequestedCalendar` | main.go:218-221 | With the corrected key, a hit serves the stored body and changes nothing. That body is a calendar built for exactly the requested query at some time. |
| `Web.AdmittedServed` | main.go:197-246 | An admitted request is answered by the cache step on its key and its fresh build. |
| `Web.CachedServed` | main.go:218-221 | Under either key, an admitted request whose key is cached gets that body with 200, and the cache stays as it was. |
| `Web.BuiltServed` | main.go:224-246 | Under either key, an admitted request missing from the cache whose build succeeds gets that body, which is stored under its key. |
| `Web.WrittenKeySharesBody` | main.go:217-221 | With main.go's key, once a request got 200, any admitted request with the same written key gets the same body and leaves the cache alone. |
| `Web.CorrectedKeySeparatesCurricula` | main.go:217-246 | With the corrected key, answering a request first does not change the answer to the same request for another curriculum. |
| `Web.WrittenKeyMergesSpaces` | main.go:215-217 | The subject queries `a b` and `a,b` give the same written key but different subject lists, and different corrected keys. |
| `WebExample.WrittenKeyServesOtherCurriculum` | main.go:217-246 | With main.go's key, `curr=A` then `curr=B` on an empty cache serves B the body cached for A, although every fresh build for B gives another body. |
| `Web.ResolvePageYear` | main.go:135-153 | The course page's inner loop: cached or fetched subjects per curriculum. A pair whose fetch fails is left out, and nothing else is. The cache only grows. |
| `Web.ResolvePagePair` | main.go:137-152 | One pair: from the cache, or fetched and cached. When the fetch fails it is skipped with nothing stored. |
| `Web.Server.constructor` | main.go:104 | Both caches start empty and the catalogue is the given one. |
| `Web.Server.GetCoursesCal` | main.go:166-250 | The handler's response and new calendar cache are those of `CalResponse` under the chosen key: main.go's written key or the corrected one. The catalogue and subject cache are unchanged. |
| `Web.Server.PageYear` | main.go:133-154 | One year of the course page on the server's subject cache, with the guarantees of `ResolvePageYear`. |
| `Web.Server.CoursePage` | main.go:106-162 | An empty or non-numeric id gives 400, an unknown one 404, both without touching the cache. A curricula lookup that returns an error degrades to no curricula. One that panics in the handler's goroutine (the channel made with a negative DurataAnni) gives 500 with an empty body, as gin's recovery middleware answers. Every year is resolved, and a pair is missing only when its fetch failed. |
| `Web.BuildCalendar` | main.go:224-244 | Fetch, `createCal` and serialisation, each failure with its own message, equal to `Build`. |
| `Web.CheckRequest` | main.go:172-195 | The checks, in source order, equal `Rejection`. |
| `Web.RequestQuery` | main.go:197-215 | The curriculum and the parsed, sorted subjects form `QueryOf`. |
| `Web.Answer` | main.go:172-248 | The whole endpoint on a given cache, under main.go's key or the corrected one, equals `CalResponse` under that key. |
| `Data.FilterByYear` | data.go:79-87 | The loop keeps exactly the programmes whose academic year contains the year's decimal text, in order. |
| `Data.RefreshOutcome` | data.go:25-95 | Saved iff the package has resources, the alias is found, the date parses, the snapshot is missing or not newer, the download succeeds and the save succeeds. The saved list is the downloaded list filtered by year. Past the alias lookup, it panics iff the date does not parse, the stat fails, or a snapshot that is not newer leads to a failed download or save. Up to date iff the snapshot is strictly newer. A failed package or missing resource keeps the snapshot. |
| `Data.RefreshFrom` | data.go:58-92 | From the resource on: kept iff the snapshot exists and is strictly newer. Saved, with the downloaded list filtered by year, iff the snapshot is missing or not newer and both the download and the save succeed. |
| `Data.RefreshFromPanicked` | data.go:58-92 | From the resource on, the refresh panics iff the stat fails, or a snapshot that is not newer leads to a failed download or a failed save. |
| `Data.MissingSnapshotForcesRefresh` | data.go:58-67 | A missing snapshot file is never kept as up to date. |
| `Data.DownloadOpenDataIfNewer` | data.go:25-95 | The procedure's outcome equals `RefreshOutcome`. |
| `Data.CourseMapLastWins` | data.go:141-144 | Every programme's code is a key, and each key maps to the last programme with that code. |
| `Data.OpenData` | data.go:120-147 | A read or decode error is returned as is. Otherwise the result is the code-to-programme map. |
| `IntegCourse.ScrapeCourseWebsiteId` | unibo_integ/course.go:69-110 | Never panics. It succeeds iff the page was read, the expression matched with exactly one group, and the group splits on `/` into exactly two parts. Those parts are the id. A missing match gives "unable to find course website". |
| `IntegCourse.ScrapeFindsCourseId` | unibo_integ/course.go:104-109 | A captured `type/slug` without further slashes yields exactly that id. |
| `IntegCourse.WebsiteIdCache.constructor` | unibo_integ/course.go:42 | The website-id cache starts empty. |
| `IntegCourse.WebsiteIdCache.GetCourseWebsiteId` | unibo_integ/course.go:48-65 | A hit under the decimal code answers with no scrape and no change. A miss answers the scrape's outcome, stored only on success. |
| `IntegCourse.WebsiteIdCache.GetAllCurricula` | unibo_integ/course.go:126-161 | A failed id lookup gives the wrapped error before any fetch. It panics iff DurataAnni is negative or some year's fetch panics. Otherwise it succeeds iff every year's fetch does, with keys exactly 1..DurataAnni, each holding that year's curricula. An error is one of the failed years' errors. |
| `IntegCourse.ToList` | unibo_integ/course.go:180-186 | The list has one entry per key of the map, holds every programme of the map and nothing else. unibo/course.go:162-168 is the same code. |
| `IntegCourse.FindById` | unibo_integ/course.go:188-191 | Found iff the id is a key, and then it is the stored programme. Otherwise it is the zero programme. unibo/course.go:170-173 is the same code. |
| `IntegResource.DecodeRow` | unibo_integ/resource.go:63-94 | A row decodes iff it has at least 15 fields, columns 2 and 9 parse as 32-bit integers and column 10 as a Go bool. A row too short for the column being read panics. |
| `IntegResource.DecodeFullRow` | unibo_integ/resource.go:78-94 | The positional mapping of the 15 columns onto the programme's fields. |
| `IntegResource.DecodeEncodeRow` | unibo_integ/resource.go:78-94 | A programme written as a row in column order decodes back to itself. |
| `IntegResource.DecodeRows` | unibo_integ/resource.go:53-95 | Rows decode iff each does, one programme per row in order. |
| `IntegResource.FirstBadRowFails` | unibo_integ/resource.go:63-76 | A failed import is the failure of the first bad row, every earlier row being good. No partial list is returned. |
| `IntegResource.DecodeCsv` | unibo_integ/resource.go:42-97 | A missing header is an error. A read error aborts. Otherwise the rows after the header are decoded. |
| `IntegResource.DecodeEncodeCsv` | unibo_integ/resource.go:42-97 | A header followed by the rows of some programmes decodes back to those programmes. |
| `IntegResource.DownloadCsv` | unibo/opendata.go:108-163 | The read loop returns exactly `DecodeCsv`. unibo_integ/resource.go:42-97 is the same code. |
| `IntegResource.DownloadResource` | unibo_integ/resource.go:13-40 | Succeeds iff fetched, the URL ends in `.csv`, the CSV decodes and the body closes. A fetched non-`.csv` resource gives "resource is not a csv file". unibo/opendata.go:79-106 is the same code. |
| `OpenData.GetByAlias` | unibo/opendata.go:55-68 | The first resource, in order, one of whose `", "`-separated aliases equals the alias. Nil iff there is none. |
| `OpenData.SingleAliasMatchesExactly` | unibo/opendata.go:58-65 | A single-alias resource is found only by that exact text, not by a prefix or substring. |
| `OpenData.WebsiteIdMemo.constructor` | unibo/opendata.go:34 | The memo starts empty. |
| `OpenData.WebsiteIdMemo.GetCourseWebsiteId` | unibo/opendata.go:220-236 | Memoised by code. A hit answers with no scrape. A miss answers the unchecked scrape's outcome, stored only on success. |
| `OpenData.CodeLessStrictOrder` | unibo/opendata.go:295-301 | Ordering by code, then academic year, is irreflexive, asymmetric and transitive, and total on that pair. |
| `OpenData.CourseTable.Len` | unibo/opendata.go:291-293 | The number of entries. |
| `OpenData.CourseTable.Less` | unibo/opendata.go:295-301 | Compares the programmes under the two keys by code, then year. Absent keys read as the zero programme. Never true both ways or for equal keys. |
| `OpenData.CourseTable.Swap` | unibo/opendata.go:303-305 | The entries under the two keys trade places, and every other key keeps its entry. |
| `OpenData.CourseTable.FindById` | unibo/opendata.go:307-310 | Found iff the key is present, then the stored programme. Otherwise the zero programme. |
| `OpenData.FindByIdExample` | unibo/opendata_test.go:42-53 | In the table of programmes 1, 2, 3, looking up 2 finds programme 2. |
| `UniboCourse.ScrapeCourseWebsiteId` | unibo/course.go:64-97 | Succeeds iff the match has a group that splits into at least two parts, taking the first two. It panics when the group has no `/`. A missing match gives the error. |
| `UniboCourse.ScrapePanicsWithoutSlash` | unibo/course.go:92-96 | A captured path without `/` makes the scrape panic. |
| `UniboCourse.ScrapeDropsExtraSegments` | unibo/course.go:92-96 | A path with a third segment succeeds, and the extra segment is silently dropped. |
| `UniboCourse.WebsiteIdCache.constructor` | unibo/course.go:37 | The cache starts empty. |
| `UniboCourse.WebsiteIdCache.GetCourseWebsiteId` | unibo/course.go:43-60 | A hit under the decimal code answers with no scrape. A miss stores only a successful scrape. |
| `UniboCourse.WebsiteIdCache.GetAllCurricula` | unibo/course.go:113-144 | A failed id lookup gives the wrapped error; a scrape that panics (a path without `/`) makes the call panic. Otherwise every year is fetched. It panics iff some year's fetch panics, even after another year's error, with one of those panics. Otherwise it succeeds iff every year's fetch does, with keys 1..DurataAnni. An error is the first one in year order. |
| `UniboCourse.CourseLessStrictOrder` | unibo/course.go:181-189 | Order by academic year, type, then code is a strict order, total on that triple. |
| `UniboCourse.Len` | unibo/course.go:177-179 | The slice's length. |
| `UniboCourse.Less` | unibo/course.go:181-189 | `Less(i, j)` is the triple order of the two entries. It is never true for `i == j` or both ways. |
| `UniboCourse.Swap` | unibo/course.go:191-193 | Positions `i` and `j` exchange their entries, and nothing else moves. |
| `UniboCalendar.EndpointInjective` | unibo/calendar.go:12-15 | For ids without `/`, an endpoint URL determines the id and the year. |
| `UniboCalendar.CurriculaUrlInjective` | unibo/calendar.go:23-25 | `GetCurriculaUrl` of different slash-free ids or years gives different URLs. |
| `UniboCalendar.TimetableUrlInjective` | unibo/calendar.go:84-86 | `GetTimetableUrl` of different slash-free ids or years gives different URLs. |
| `UniboCalendar.TimetableEvents` | unibo/calendar.go:114-142 | One event per timetable event, in order, with the UID from module code, start and end. There are none iff some key cannot be hashed. |
| `UniboCalendar.AddEvents` | unibo/calendar.go:114-142 | The loop adds exactly `TimetableEvents` to an empty calendar and reports failure iff a key cannot be hashed. |
| `UniboCalendar.Convert` | unibo/calendar.go:110-145 | Nil iff some key cannot be hashed. Otherwise a fresh REQUEST calendar of exactly those events. |
| `UniboCalendar.ToICS` | unibo/calendar.go:110-145 | Nil iff a key cannot be hashed. Otherwise a fresh REQUEST calendar with one undated (no DTSTAMP) event per timetable event. |
| `UniboCalendar.EventDescriptionReadsBack` | unibo/calendar.go:128-137 | The description splits back into `Docente:`, `Aula:` (exactly when a classroom is set), `Cfu:` and `Periodo:`. |
| `UniboCalendar.OlderEventDropsModuleCode` | unibo/calendar.go:122-141 | The older event equals the newer one except for the DTSTAMP and the missing `Codice modulo:` line. |
| `UniboTimetable.TimetableUrl` | unibo/timetable.go:54-60 | The URL extends the curriculum-free one. It equals it iff the curriculum is the zero value, and otherwise ends with `&curricula=` and the value. |
| `UniboTimetable.AsksForCurriculum` | unibo/timetable.go:54-60 | For ids without `&`, the URL holds `&curricula=` iff a curriculum is given. |
| `UniboTimetable.SelectedEmptyValue` | unibo/timetable.go:56-57 | A selected curriculum with an empty value still appends an empty `&curricula=`. |
| `UniboTimetable.CurriculumDetermined` | unibo/timetable.go:54-60 | Equal URLs have both or neither curriculum, and then the same value. |
| `UniboTimetable.ToICS` | unibo/timetable.go:68-105 | As the older conversion, but every event's DTSTAMP is the conversion time and there is one event per timetable event. |
| `CalTime.Parse` | unibo/timetable.go:18-26 | Accepts exactly a quoted `YYYY-MM-DDThh:mm:ss` with a one- or two-digit hour that is a valid UTC time. Never panics. |
| `CalTime.ParseFormat` | unibo/calendar.go:50-62 | Formatting a valid time of a four-digit year and parsing it gives the time back. |
| `CalTime.FormatParse` | unibo/timetable.go:18-30 | Formatting a parsed text gives its canonical form, the same bytes with the hour padded to two digits. |
| `CalTime.MarshalReadsBack` | unibo/timetable.go:28-30 | `MarshalJSON` output parses back to the stored time. |
| `CalTime.CalendarTime.constructor` | unibo/calendar.go:46-48 | A new `CalendarTime` holds Go's zero time. |
| `CalTime.CalendarTime.UnmarshalJSON` | unibo/calendar.go:50-58 | No error iff the text parses, and then the time is the parsed one. On error the receiver is unchanged. |
| `CalTime.CalendarTime.MarshalJSON` | unibo/calendar.go:60-62 | The bytes parse back to the stored time when it is valid with a four-digit year. |
| `CourseJs.Tidy` | static/js/course.js:50-51 | Removes at most two characters, and leaves a URL with no `,,` and no `=,` as it is. |
| `CourseJs.LastChar` | static/js/course.js:53 | `slice(-1)`: the last character, or empty for an empty URL. |
| `CourseJs.AddSubject` | static/js/course.js:48-65 | The result has a subject list and ends with the subject right after `,` or `=`. Without a list, `&subjects=` or `?subjects=` and the subject are appended, depending on `?`. |
| `CourseJs.TidyKeepsList` | static/js/course.js:49-51 | Tidying keeps a URL's subject list. |
| `CourseJs.RemoveSubject` | static/js/course.js:67-72 | Never grows the URL. It shrinks by at least the subject's length when the subject occurs, and does nothing when there is nothing to remove or tidy. |
| `CourseJs.RemoveMatchesInsideLongerCode` | static/js/course.js:68 | Removing `12` from `?subjects=123,12` gives `?subjects=3,12`. The first textual match inside a longer code is removed. |
| `CourseJs.AddRemoveAdd` | static/js/course.js:48-72 | For a URL without list, code, `,,` or `=,`: removing a just-added code leaves an empty `subjects=`, and adding it again restores the first URL. |
| `ICal.Calendar.constructor` | cal.go:32 | A new calendar has no method, name, description or events. |
| `ICal.Calendar.SetMethod` | cal.go:33 | Sets the method and nothing else. |
| `ICal.Calendar.SetName` | cal.go:67 | Sets the name and nothing else. |
| `ICal.Calendar.SetDescription` | cal.go:71 | Sets the description and nothing else. |
| `ICal.Calendar.AddEvent` | cal.go:44 | Appends the event and nothing else. |
| `DateTime.AddHours` | cal.go:93 | Adding hours to a valid time gives a valid time exactly that many seconds later. |
| `DateTime.TimeTextInjective` | cal.go:37 | Go's `%s` text of valid UTC times with four-digit years is injective. |
| `Decimal.ParseInt` | unibo_integ/resource.go:63-71 | `strconv.ParseInt(s, 10, bits)`: Ok iff an optionally signed decimal in range, with that value. Never panics. |
| `Decimal.ParseItoa` | unibo_integ/resource.go:63-71 | The decimal text of an in-range integer parses back to it. |
| `Decimal.ParseBool` | unibo_integ/resource.go:73-76 | `strconv.ParseBool`: Ok iff the text is one of Go's true or false spellings, with the corresponding value. |
| `Decimal.ItoaInjective` | utils.go:46 | `strconv.Itoa` is injective. |
| `Order.SortBy` | utils.go:61-63 | Sorting by a key gives a key-sorted permutation of the input. |
| `Order.SortStringsCanonical` | main.go:215 | Sorting two permutations of the same strings gives the same list. |

## Left out

- Network and file I/O are parameters or left out: HTTP clients, the CKAN
  package fetch, page and body reads, JSON decoding of curricula and
  timetables, and the `unibo-go` library's fetchers. `saveData`'s JSON
  encoding and the data folder are a single `save` parameter.
- SHA-1 and `%x` are a `Digest` parameter from key text to UID, or to
  nothing when the hash writer fails. No collision property is assumed.
- Regular-expression matching is a parameter yielding the captured groups.
- CSV tokenisation is left out: the model starts from the reader's records
  and its final error.
- iCalendar serialisation is a parameter.
- The clock is read once per call: `time.Now()` and the current year are
  parameters, so every event of one calendar gets the same DTSTAMP. The
  source calls `time.Now()` once per event (cal.go:50, cal.go:96,
  unibo/timetable.go:86, and main.go's `createCal`), so its stamps within
  one calendar can differ.
- Times are civil UTC times to the second. Fractional seconds, zones
  and the fractional-second suffix that Go's parser also accepts are not
  modelled.
- Cache expiry (go-cache TTLs and sweeps) is not modelled: caches are plain
  maps that never lose entries. `fillSubjectsCache` (utils.go:84-106) is a
  background timer loop and is not part of this model.
- Concurrency is sequentialised: the goroutines, channels, wait groups and
  mutexes of both `GetAllCurricula`.
- `UniboCourse.WebsiteIdCache.GetAllCurricula`: years are fetched in order
  and each result is stored under its own year. The source stores results
  under the receive-loop counter, so under a real schedule the year to
  curricula pairing can be permuted. The error returned is the first one in
  year order, where the source returns whichever error is received first.
  A fetch that panics ends the Go process; the model returns `Panic`.
- `IntegCourse.WebsiteIdCache.GetAllCurricula`: which failed year's error
  is returned depends on the schedule; the model only states that it is
  one of them.
- `Web.Server.CoursePage`: a fetch that panics inside one of
  `GetAllCurricula`'s goroutines ends the Go process, since gin's recovery
  covers only the handler's goroutine. The model answers 500 with an empty
  body for every panicking curricula lookup, that one included.
- Outside `GetAllCurricula` and the course page's curricula lookup, a
  fetch parameter's `Panic` outcome is handled like its error (the course
  page's per-pair timetable fetch, the calendar endpoint, the subject
  resolver, data.go). The network calls those parameters stand for return
  errors and are not expected to panic.
- Error texts are not modelled beyond those the contracts name. Logging is
  not modelled: data.go's log messages are the `KeepReason` values.
- HTTP responses are not modelled beyond the status code and body. Gin
  routing, headers, HTML templates (apart from `anniRange`), `main` and
  `setupRouter` are not part of this model.
- `sort.Slice` in utils.go sorts the slice it has just cached, through the
  shared backing array. The model caches the sorted list, which is what the
  cache holds afterwards. It sorts with an insertion sort, but the
  contracts promise only what `sort.Slice` does: sorted by name, and a
  permutation.
- main.go's `filterTimetableBySubjects` (main.go:322-330) is the same code
  as utils.go's and is modelled by `Utils.FilterTimetableBySubjects`.
- `ToList` returns the map's values in Go's unspecified iteration order.
  The model fixes one order, recorded by a ghost key list.
- The `GetCurricula`, `GetTimetable` and `RetrieveTimetable` wrappers only
  chain the website-id lookup with a fetch and are not part of this model.
- unibo_opendata.go, unibo/curriculum.go, unibo/resource.go,
  unibo/package.go, both utils.go of the packages, tailwind.config.js and
  the tests needing the network are not part of this model.
- The DOM handling in static/js/course.js is not part of this model.

## Findings

| source | as written | input that shows it | evidently intended | confidence | as-written member | corrected member |
|---|---|---|---|---|---|---|
| main.go:217 | The calendar cache key is `"%s-%s-%s"` of id, year and sorted subjects; the `curr` query is not part of it. | `/cal/1/1?curr=A` then `/cal/1/1?curr=B`: the second request is served the first curriculum's cached calendar. | The key names every input of the calendar, the curriculum included. | high; not executed | `WebExample.WrittenKeyServesOtherCurriculum` | `Web.CacheHitServesRequestedCalendar` |
| main.go:217 | The subject list goes into the key with `%s`, which separates codes by spaces. | `/cal/1/1?subjects=a%20b` then `/cal/1/1?subjects=a,b`: both get the key `1-1-[a b]`, so the second request is served a calendar filtered by the one code `a b`. | Different subject lists give different keys. | high; not executed | `Web.WrittenKeyMergesSpaces` | `Web.CacheKeyInjective` |

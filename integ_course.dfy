/** Degree programmes of the `unibo_integ` package (unibo_integ/course.go):
    the memoised lookup of a programme's website id, the scrape that finds
    it, the aggregation of every year's curricula, and the programme map. */
module IntegCourse {
  import opened Wrappers
  import opened Text
  import opened Decimal
  import opened Seqs
  import opened Catalogue

  /** What fetching a programme's page gave: a failure at one of the three
      I/O steps, or the page text. */
  datatype PageFetch = GetFailed(msg: string) | ReadFailed(msg: string) | CloseFailed(msg: string) | Page(body: string)

  /** The regular expression's `FindStringSubmatch`: `None` for no match,
      else the whole match followed by the captured groups. */
  type Submatcher = string -> Option<seq<string>>

  /** `scrapeCourseWebsiteId`: the captured `category/slug` path, split on
      `/` into exactly two parts. */
  function ScrapeCourseWebsiteId(page: PageFetch, find: Submatcher): (r: Result<CourseId>)
    ensures !r.Panic?
    ensures r.Ok? <==> page.Page? && find(page.body).Some? && |find(page.body).value| == 2
                       && |Split(find(page.body).value[1], "/")| == 2
    ensures r.Ok? ==> find(page.body).value[1] == r.value.tipologia + "/" + r.value.id
    ensures r.Ok? ==> '/' !in r.value.tipologia && '/' !in r.value.id
  {
    match page
    case GetFailed(m) => Err("unable to get course website: " + m)
    case ReadFailed(m) => Err("unable to read course website: " + m)
    case CloseFailed(m) => Err("unable to close course website: " + m)
    case Page(body) =>
      match find(body)
      case None => Err("unable to find course website")
      case Some(found) =>
        if |found| != 2 then
          Err("unexpected number of matches: " + Itoa(|found|) + " (the website has changed?)")
        else
          var split := Split(found[1], "/");
          if |split| != 2 then
            Err("unexpected number of splits: " + Itoa(|split|) + " (the website has changed?)")
          else
            ContainsChar(split[0], '/');
            ContainsChar(split[1], '/');
            Ok(CourseId(split[0], split[1]))
  }

  /** A page whose link captures `<category>/<slug>`, neither part holding
      a `/`, scrapes to exactly that id. */
  lemma ScrapeFindsCourseId(id: CourseId, body: string, find: Submatcher, whole: string)
    requires '/' !in id.tipologia && '/' !in id.id
    requires find(body) == Some([whole, id.tipologia + "/" + id.id])
    ensures ScrapeCourseWebsiteId(Page(body), find) == Ok(id)
  {
    assert Join([id.tipologia, id.id], "/") == id.tipologia + "/" + id.id;
    SplitJoinChar([id.tipologia, id.id], '/');
  }

  /** The memo key of a programme: its code in decimal. */
  function MemoKey(c: Course): string {
    Itoa(c.codice)
  }

  /** `websiteIdCache`: successful scrapes by programme code; entries never
      expire. */
  class WebsiteIdCache {
    var entries: map<string, CourseId>

    /** Every cached id came from a successful scrape. */
    ghost predicate Valid()
      reads this
    {
      forall k :: k in entries ==> '/' !in entries[k].tipologia && '/' !in entries[k].id
    }

    constructor ()
      ensures entries == map[] && Valid()
    {
      entries := map[];
    }

    /** What `GetCourseWebsiteId` answers in the current state. */
    function WebsiteId(c: Course, page: PageFetch, find: Submatcher): Result<CourseId>
      reads this
    {
      if MemoKey(c) in entries then Ok(entries[MemoKey(c)]) else ScrapeCourseWebsiteId(page, find)
    }

    /** `GetCourseWebsiteId`: the cached id when there is one, with no
        scrape; otherwise the scrape's outcome, cached when it succeeded.
        Failures are not cached. */
    method GetCourseWebsiteId(c: Course, page: PageFetch, find: Submatcher) returns (r: Result<CourseId>)
      requires Valid()
      modifies this
      ensures Valid()
      ensures r == old(WebsiteId(c, page, find))
      ensures r.Ok? ==> entries == old(entries)[MemoKey(c) := r.value]
      ensures !r.Ok? ==> entries == old(entries)
      ensures MemoKey(c) in old(entries) ==> entries == old(entries)
      ensures r.Ok? ==> '/' !in r.value.tipologia && '/' !in r.value.id
    {
      var key := MemoKey(c);
      if key in entries {
        return Ok(entries[key]);
      }
      r := ScrapeCourseWebsiteId(page, find);
      if r.Ok? {
        entries := entries[key := r.value];
      }
    }

    /** `GetAllCurricula`, with the per-year fetches run one after another:
        the years 1 to `DurataAnni` each map to their curricula, or the
        call fails with the error of a failing year. The error channel is
        made with capacity `DurataAnni`, which panics when it is negative;
        a fetch that panics, in its goroutine, makes the whole call panic. */
    method GetAllCurricula(c: Course, page: PageFetch, find: Submatcher,
                           fetchCurricula: (CourseId, int) -> Result<seq<Curriculum>>)
      returns (r: Result<map<int, seq<Curriculum>>>)
      requires Valid()
      modifies this
      ensures Valid()
      ensures var id := old(WebsiteId(c, page, find));
        entries == if id.Ok? then old(entries)[MemoKey(c) := id.value] else old(entries)
      ensures var id := old(WebsiteId(c, page, find));
        !id.Ok? ==> r == Err("could not get course website id: " + id.msg)
      ensures var id := old(WebsiteId(c, page, find));
        id.Ok? ==> (r.Panic? <==> c.durataAnni < 0 || exists y :: 1 <= y <= c.durataAnni && fetchCurricula(id.value, y).Panic?)
      ensures var id := old(WebsiteId(c, page, find));
        r.Panic? && id.Ok? && c.durataAnni >= 0 ==>
          exists y :: 1 <= y <= c.durataAnni && fetchCurricula(id.value, y) == Panic(r.msg)
      ensures var id := old(WebsiteId(c, page, find));
        id.Ok? && c.durataAnni >= 0 ==>
          (r.Ok? <==> forall y :: 1 <= y <= c.durataAnni ==> fetchCurricula(id.value, y).Ok?)
      ensures var id := old(WebsiteId(c, page, find));
        r.Ok? ==> && id.Ok?
                  && (forall y :: y in r.value <==> 1 <= y <= c.durataAnni)
                  && forall y :: y in r.value ==> r.value[y] == fetchCurricula(id.value, y).value
      ensures var id := old(WebsiteId(c, page, find));
        r.Err? && id.Ok? ==>
          exists y :: 1 <= y <= c.durataAnni && fetchCurricula(id.value, y) == Err(r.msg)
    {
      var id := GetCourseWebsiteId(c, page, find);
      if !id.Ok? {
        return Err("could not get course website id: " + id.msg);
      }
      if c.durataAnni < 0 {
        return Panic("makechan: size out of range");
      }
      var curriculaMap: map<int, seq<Curriculum>> := map[];
      var firstErr: Option<string> := None;
      for year := 1 to c.durataAnni + 1
        invariant curriculaMap.Keys == (set y | 1 <= y < year && fetchCurricula(id.value, y).Ok?)
        invariant forall y :: y in curriculaMap ==> curriculaMap[y] == fetchCurricula(id.value, y).value
        invariant forall y :: 1 <= y < year ==> !fetchCurricula(id.value, y).Panic?
        invariant firstErr.None? <==> forall y :: 1 <= y < year ==> fetchCurricula(id.value, y).Ok?
        invariant firstErr.Some? ==>
          exists y :: 1 <= y < year && fetchCurricula(id.value, y) == Err(firstErr.value)
      {
        var curricula := fetchCurricula(id.value, year);
        if curricula.Panic? {
          return Panic(curricula.msg);
        }
        if !curricula.Ok? {
          if firstErr.None? {
            firstErr := Some(curricula.msg);
          }
        } else {
          curriculaMap := curriculaMap[year := curricula.value];
        }
      }
      if firstErr.Some? {
        return Err(firstErr.value);
      }
      r := Ok(curriculaMap);
    }
  }

  /** `CoursesMap.ToList`: every programme of the map once, in the map's
      (unspecified) iteration order; `keys` records which key each entry
      came from. */
  method ToList(courses: map<int, Course>) returns (list: seq<Course>, ghost keys: seq<int>)
    ensures |list| == |keys| == |courses|
    ensures forall i :: 0 <= i < |keys| ==> keys[i] in courses && list[i] == courses[keys[i]]
    ensures forall i, j :: 0 <= i < j < |keys| ==> keys[i] != keys[j]
    ensures forall k :: k in courses ==> k in keys
    ensures |list| == |courses|
    ensures forall i :: 0 <= i < |list| ==> list[i] in courses.Values
    ensures forall k :: k in courses ==> courses[k] in list
  {
    list, keys := [], [];
    var todo := courses.Keys;
    while todo != {}
      invariant todo <= courses.Keys
      invariant |list| == |keys|
      invariant forall i :: 0 <= i < |keys| ==> keys[i] in courses && keys[i] !in todo && list[i] == courses[keys[i]]
      invariant forall i, j :: 0 <= i < j < |keys| ==> keys[i] != keys[j]
      invariant forall k :: k in courses ==> k in keys || k in todo
      invariant |keys| + |todo| == |courses|
      decreases todo
    {
      SetHasElement(todo);
      var k :| k in todo;
      list, keys := list + [courses[k]], keys + [k];
      todo := todo - {k};
    }
    ListedValues(courses, list, keys);
  }

  /** A list drawn key by key from a map, covering every key, holds every
      value of the map and nothing else. */
  lemma ListedValues(courses: map<int, Course>, list: seq<Course>, keys: seq<int>)
    requires |list| == |keys|
    requires forall i :: 0 <= i < |keys| ==> keys[i] in courses && list[i] == courses[keys[i]]
    requires forall k :: k in courses ==> k in keys
    ensures forall i :: 0 <= i < |list| ==> list[i] in courses.Values
    ensures forall k :: k in courses ==> courses[k] in list
  {
    forall k | k in courses ensures courses[k] in list {
      var i :| 0 <= i < |keys| && keys[i] == k;
      assert list[i] == courses[k];
    }
  }

  /** `CoursesMap.FindById`: the programme under `id` and `true`, or Go's
      zero programme and `false` when there is none. */
  function FindById(courses: map<int, Course>, id: int): (r: (Course, bool))
    ensures r.1 <==> id in courses
    ensures r.1 ==> r.0 == courses[id] && r.0 in courses.Values
    ensures !r.1 ==> r.0 == ZeroCourse
  {
    if id in courses then (courses[id], true) else (ZeroCourse, false)
  }
}

/** Degree programmes of the older `unibo` package (unibo/course.go): the
    memoised website-id lookup with its unchecked scrape, the aggregation
    of every year's curricula, and the `sort.Interface` of a programme
    slice. The programme map's `ToList` and `FindById` are written exactly
    as in the `unibo_integ` package and are modelled there. */
module UniboCourse {
  import opened Wrappers
  import opened Text
  import opened Order
  import opened Catalogue
  import IntegCourse

  /** `scrapeCourseWebsiteId` of the `unibo` package: the captured path is
      split on `/` and its first two parts are taken without a count
      check, so a path without a `/` makes the index panic and any parts
      after the second are dropped. */
  function ScrapeCourseWebsiteId(page: IntegCourse.PageFetch, find: IntegCourse.Submatcher): (r: Result<CourseId>)
    ensures r.Ok? <==> page.Page? && find(page.body).Some? && |find(page.body).value| >= 2
                       && |Split(find(page.body).value[1], "/")| >= 2
    ensures r.Panic? <==> page.Page? && find(page.body).Some?
                          && (|find(page.body).value| < 2 || |Split(find(page.body).value[1], "/")| < 2)
    ensures page.Page? && find(page.body).None? ==> r == Err("unable to find course website")
    ensures r.Ok? ==> '/' !in r.value.tipologia && '/' !in r.value.id
    ensures r.Ok? ==> exists more :: find(page.body).value[1] == Join([r.value.tipologia, r.value.id] + more, "/")
  {
    match page
    case GetFailed(m) => Err(m)
    case ReadFailed(m) => Err(m)
    case CloseFailed(m) => Err(m)
    case Page(body) =>
      match find(body)
      case None => Err("unable to find course website")
      case Some(found) =>
        if |found| < 2 then Panic("index out of range")
        else
          var split := Split(found[1], "/");
          if |split| < 2 then Panic("index out of range")
          else
            ContainsChar(split[0], '/');
            ContainsChar(split[1], '/');
            assert [split[0], split[1]] + split[2..] == split;
            Ok(CourseId(split[0], split[1]))
  }

  /** A captured path without any `/` makes the scrape panic. */
  lemma ScrapePanicsWithoutSlash(body: string, find: IntegCourse.Submatcher, whole: string, path: string)
    requires '/' !in path
    requires find(body) == Some([whole, path])
    ensures ScrapeCourseWebsiteId(IntegCourse.Page(body), find).Panic?
  {
    SplitJoinChar([path], '/');
  }

  /** A captured path with more than two segments scrapes to its first two;
      the rest is silently dropped. */
  lemma ScrapeDropsExtraSegments(body: string, find: IntegCourse.Submatcher, whole: string,
                                 tipologia: string, id: string, extra: string)
    requires '/' !in tipologia && '/' !in id && '/' !in extra
    requires find(body) == Some([whole, tipologia + "/" + id + "/" + extra])
    ensures ScrapeCourseWebsiteId(IntegCourse.Page(body), find) == Ok(CourseId(tipologia, id))
  {
    var parts := [tipologia, id, extra];
    assert parts[1..] == [id, extra] && parts[1..][1..] == [extra];
    assert Join(parts[1..], "/") == id + "/" + extra;
    assert Join(parts, "/") == tipologia + "/" + Join(parts[1..], "/");
    assert Join(parts, "/") == tipologia + "/" + id + "/" + extra;
    SplitJoinChar([tipologia, id, extra], '/');
  }

  /** `websiteIdCache`, a cache without expiry keyed by the programme code
      in decimal. */
  class WebsiteIdCache {
    var entries: map<string, CourseId>

    /** Every cached id came from a successful scrape. */
    ghost predicate Valid()
      reads this
    {
      forall k :: k in entries ==> '/' !in entries[k].tipologia && '/' !in entries[k].id
    }

    constructor ()
      ensures entries == map[] && Valid()
    {
      entries := map[];
    }

    /** What `GetCourseWebsiteId` answers in the current state. */
    function WebsiteId(c: Course, page: IntegCourse.PageFetch, find: IntegCourse.Submatcher): Result<CourseId>
      reads this
    {
      var key := IntegCourse.MemoKey(c);
      if key in entries then Ok(entries[key]) else ScrapeCourseWebsiteId(page, find)
    }

    /** `GetCourseWebsiteId`: the cached id with no scrape, or else the
        scrape's outcome, cached only when it succeeded. */
    method GetCourseWebsiteId(c: Course, page: IntegCourse.PageFetch, find: IntegCourse.Submatcher)
      returns (r: Result<CourseId>)
      requires Valid()
      modifies this
      ensures Valid()
      ensures r == old(WebsiteId(c, page, find))
      ensures r.Ok? ==> entries == old(entries)[IntegCourse.MemoKey(c) := r.value]
      ensures !r.Ok? ==> entries == old(entries)
      ensures IntegCourse.MemoKey(c) in old(entries) ==> entries == old(entries)
    {
      var key := IntegCourse.MemoKey(c);
      if key in entries {
        return Ok(entries[key]);
      }
      r := ScrapeCourseWebsiteId(page, find);
      if r.Ok? {
        entries := entries[key := r.value];
      }
    }

    /** `GetAllCurricula`, with the per-year fetches run one after another
        in year order: a scrape that panics makes the call panic, a failed
        id lookup is wrapped, and otherwise every year is fetched, as every
        goroutine is started before any result is received. A fetch that
        panics makes the whole call panic, even after another year failed;
        otherwise the call fails with the first error in year order, or
        maps the years 1 to `DurataAnni` to their curricula. */
    method GetAllCurricula(c: Course, page: IntegCourse.PageFetch, find: IntegCourse.Submatcher,
                           fetchCurricula: (CourseId, int) -> Result<seq<Curriculum>>)
      returns (r: Result<map<int, seq<Curriculum>>>)
      requires Valid()
      modifies this
      ensures Valid()
      ensures var id := old(WebsiteId(c, page, find));
        entries == if id.Ok? then old(entries)[IntegCourse.MemoKey(c) := id.value] else old(entries)
      ensures var id := old(WebsiteId(c, page, find));
        id.Err? ==> r == Err("could not get course website id: " + id.msg)
      ensures var id := old(WebsiteId(c, page, find));
        id.Panic? ==> r == Panic(id.msg)
      ensures var id := old(WebsiteId(c, page, find));
        id.Ok? ==> (r.Panic? <==> exists y :: 1 <= y <= c.durataAnni && fetchCurricula(id.value, y).Panic?)
      ensures var id := old(WebsiteId(c, page, find));
        r.Panic? && id.Ok? ==> exists y :: 1 <= y <= c.durataAnni && fetchCurricula(id.value, y) == Panic(r.msg)
      ensures var id := old(WebsiteId(c, page, find));
        id.Ok? ==> (r.Ok? <==> forall y :: 1 <= y <= c.durataAnni ==> fetchCurricula(id.value, y).Ok?)
      ensures var id := old(WebsiteId(c, page, find));
        r.Ok? ==> && id.Ok?
                  && (forall y :: y in r.value <==> 1 <= y <= c.durataAnni)
                  && forall y :: y in r.value ==> r.value[y] == fetchCurricula(id.value, y).value
      ensures var id := old(WebsiteId(c, page, find));
        r.Err? && id.Ok? ==> exists y ::
          && 1 <= y <= c.durataAnni && fetchCurricula(id.value, y) == Err(r.msg)
          && forall y' :: 1 <= y' < y ==> fetchCurricula(id.value, y').Ok?
    {
      var id := GetCourseWebsiteId(c, page, find);
      if id.Panic? {
        return Panic(id.msg);
      }
      if !id.Ok? {
        return Err("could not get course website id: " + id.msg);
      }
      var curriculaMap: map<int, seq<Curriculum>> := map[];
      var firstErr: Option<string> := None;
      var year := 1;
      while year <= c.durataAnni
        invariant 1 <= year && (c.durataAnni >= 0 ==> year <= c.durataAnni + 1) && (c.durataAnni < 0 ==> year == 1)
        invariant curriculaMap.Keys == (set y | 1 <= y < year && fetchCurricula(id.value, y).Ok?)
        invariant forall y :: y in curriculaMap ==> curriculaMap[y] == fetchCurricula(id.value, y).value
        invariant forall y :: 1 <= y < year ==> !fetchCurricula(id.value, y).Panic?
        invariant firstErr.None? <==> forall y :: 1 <= y < year ==> fetchCurricula(id.value, y).Ok?
        invariant firstErr.Some? ==> exists y ::
          && 1 <= y < year && fetchCurricula(id.value, y) == Err(firstErr.value)
          && forall y' :: 1 <= y' < y ==> fetchCurricula(id.value, y').Ok?
        decreases c.durataAnni - year
      {
        var curricula := fetchCurricula(id.value, year);
        if curricula.Panic? {
          return Panic(curricula.msg);
        }
        if !curricula.Ok? {
          if firstErr.None? {
            firstErr := Some(curricula.msg);
          }
        } else {
          curriculaMap := curriculaMap[year := curricula.value];
        }
        year := year + 1;
      }
      if firstErr.Some? {
        return Err(firstErr.value);
      }
      r := Ok(curriculaMap);
    }
  }

  /** `Courses.Less` on two programmes: by academic year, then type, then
      code. */
  predicate CourseLess(x: Course, y: Course) {
    if x.annoAccademico != y.annoAccademico then LexLess(x.annoAccademico, y.annoAccademico)
    else if x.tipologia != y.tipologia then LexLess(x.tipologia, y.tipologia)
    else x.codice < y.codice
  }

  /** `CourseLess` is a strict order, total on the triple it compares:
      what `sort.Sort` needs of `Less`. */
  lemma CourseLessStrictOrder(x: Course, y: Course, z: Course)
    ensures !CourseLess(x, x)
    ensures CourseLess(x, y) ==> !CourseLess(y, x)
    ensures CourseLess(x, y) && CourseLess(y, z) ==> CourseLess(x, z)
    ensures (x.annoAccademico, x.tipologia, x.codice) != (y.annoAccademico, y.tipologia, y.codice) ==>
      CourseLess(x, y) || CourseLess(y, x)
  {
    LexTotal(x.annoAccademico, y.annoAccademico);
    LexTotal(x.tipologia, y.tipologia);
    if CourseLess(x, y) {
      if x.annoAccademico != y.annoAccademico {
        LexAsymmetric(x.annoAccademico, y.annoAccademico);
      } else if x.tipologia != y.tipologia {
        LexAsymmetric(x.tipologia, y.tipologia);
      }
    }
    if CourseLess(x, y) && CourseLess(y, z) {
      if x.annoAccademico != y.annoAccademico && y.annoAccademico != z.annoAccademico {
        LexTransitive(x.annoAccademico, y.annoAccademico, z.annoAccademico);
        if x.annoAccademico == z.annoAccademico {
          LexIrreflexive(x.annoAccademico);
        }
      } else if x.annoAccademico == y.annoAccademico && y.annoAccademico == z.annoAccademico
             && x.tipologia != y.tipologia && y.tipologia != z.tipologia {
        LexTransitive(x.tipologia, y.tipologia, z.tipologia);
        if x.tipologia == z.tipologia {
          LexIrreflexive(x.tipologia);
        }
      }
    }
  }

  /** `Courses.Len`. */
  function Len(a: array<Course>): (n: nat)
    ensures n == |a[..]|
    reads a
  {
    a.Length
  }

  /** `Courses.Less(i, j)`. */
  function Less(a: array<Course>, i: int, j: int): (b: bool)
    requires 0 <= i < a.Length && 0 <= j < a.Length
    reads a
    ensures b <==> CourseLess(a[i], a[j])
    ensures b ==> i != j && !CourseLess(a[j], a[i])
  {
    CourseLessStrictOrder(a[i], a[j], a[j]);
    CourseLess(a[i], a[j])
  }

  /** `Courses.Swap(i, j)`: the entries at `i` and `j` trade places and
      nothing else moves. */
  method Swap(a: array<Course>, i: int, j: int)
    requires 0 <= i < a.Length && 0 <= j < a.Length
    modifies a
    ensures a[..] == old(a[..])[i := old(a[j])][j := old(a[i])]
    ensures multiset(a[..]) == multiset(old(a[..]))
  {
    a[i], a[j] := a[j], a[i];
  }
}

/** The open-data side of the older `unibo` package (unibo/opendata.go):
    the alias lookup among a package's resources, the website-id memo
    keyed by programme code, and the programme map with its
    `sort.Interface` methods. Downloading a resource and reading its CSV
    are written as in the `unibo_integ` package and are modelled there;
    the scrape is the one of unibo/course.go. */
module OpenData {
  import opened Wrappers
  import opened Text
  import opened Order
  import opened Catalogue
  import IntegCourse
  import UniboCourse

  /** The aliases of a resource: its `Alias` field split on `", "`. */
  function Aliases(r: Resource): seq<string> {
    Split(r.alias, ", ")
  }

  /** `Resources.GetByAlias`: the first resource, in order, one of whose
      aliases is exactly `alias`. */
  function GetByAlias(rs: seq<Resource>, alias: string): (r: Option<Resource>)
    ensures r.None? <==> forall i :: 0 <= i < |rs| ==> alias !in Aliases(rs[i])
    ensures r.Some? ==> exists i ::
      && 0 <= i < |rs| && rs[i] == r.value && alias in Aliases(rs[i])
      && forall j :: 0 <= j < i ==> alias !in Aliases(rs[j])
  {
    if rs == [] then None
    else if alias in Aliases(rs[0]) then Some(rs[0])
    else
      var r := GetByAlias(rs[1..], alias);
      assert forall i :: 0 <= i < |rs| - 1 ==> rs[1..][i] == rs[i + 1];
      assert r.Some? ==> exists i ::
        && 0 <= i < |rs| && rs[i] == r.value && alias in Aliases(rs[i])
        && forall j :: 0 <= j < i ==> alias !in Aliases(rs[j]) by {
        if r.Some? {
          var i :| 0 <= i < |rs[1..]| && rs[1..][i] == r.value && alias in Aliases(rs[1..][i])
            && forall j :: 0 <= j < i ==> alias !in Aliases(rs[1..][j]);
          assert rs[i + 1] == r.value && alias in Aliases(rs[i + 1]);
          assert forall j :: 0 <= j < i + 1 ==> alias !in Aliases(rs[j]) by {
            forall j | 0 <= j < i + 1 ensures alias !in Aliases(rs[j]) {
              if j > 0 {
                assert rs[j] == rs[1..][j - 1];
              }
            }
          }
        }
      }
      r
  }

  /** A resource with a single alias is found only by that exact alias: a
      prefix, an extension or any other substring does not match. */
  lemma SingleAliasMatchesExactly(r: Resource, alias: string)
    requires !Contains(r.alias, ", ")
    ensures GetByAlias([r], alias).Some? <==> alias == r.alias
  {
    assert Aliases(r) == [r.alias];
  }

  /** `websiteIdCache`, a `sync.Map` from programme code to website id,
      written only after a successful scrape. */
  class WebsiteIdMemo {
    var entries: map<int, CourseId>

    constructor ()
      ensures entries == map[]
    {
      entries := map[];
    }

    /** What `GetCourseWebsiteId` answers in the current state. */
    function WebsiteId(c: Course, page: IntegCourse.PageFetch, find: IntegCourse.Submatcher): Result<CourseId>
      reads this
    {
      if c.codice in entries then Ok(entries[c.codice]) else UniboCourse.ScrapeCourseWebsiteId(page, find)
    }

    /** `Course.GetCourseWebsiteId`: the stored id with no scrape, or else
        the scrape's outcome, stored only when it succeeded. */
    method GetCourseWebsiteId(c: Course, page: IntegCourse.PageFetch, find: IntegCourse.Submatcher)
      returns (r: Result<CourseId>)
      modifies this
      ensures r == old(WebsiteId(c, page, find))
      ensures r.Ok? ==> entries == old(entries)[c.codice := r.value]
      ensures !r.Ok? ==> entries == old(entries)
      ensures c.codice in old(entries) ==> entries == old(entries)
    {
      if c.codice in entries {
        return Ok(entries[c.codice]);
      }
      r := UniboCourse.ScrapeCourseWebsiteId(page, find);
      if r.Ok? {
        entries := entries[c.codice := r.value];
      }
    }
  }

  /** What indexing a Go map of programmes yields: the stored programme,
      or the zero programme for an absent key. */
  function Get(m: map<int, Course>, k: int): Course {
    if k in m then m[k] else ZeroCourse
  }

  /** `Courses.Less` on two programmes: by code, then by academic year. */
  predicate CodeLess(x: Course, y: Course) {
    if x.codice != y.codice then x.codice < y.codice else LexLess(x.annoAccademico, y.annoAccademico)
  }

  /** `CodeLess` is a strict order, total on (code, academic year). */
  lemma CodeLessStrictOrder(x: Course, y: Course, z: Course)
    ensures !CodeLess(x, x)
    ensures CodeLess(x, y) ==> !CodeLess(y, x)
    ensures CodeLess(x, y) && CodeLess(y, z) ==> CodeLess(x, z)
    ensures (x.codice, x.annoAccademico) != (y.codice, y.annoAccademico) ==> CodeLess(x, y) || CodeLess(y, x)
  {
    LexIrreflexive(x.annoAccademico);
    LexTotal(x.annoAccademico, y.annoAccademico);
    if CodeLess(x, y) && x.codice == y.codice {
      LexAsymmetric(x.annoAccademico, y.annoAccademico);
    }
    if CodeLess(x, y) && CodeLess(y, z) && x.codice == y.codice == z.codice {
      LexTransitive(x.annoAccademico, y.annoAccademico, z.annoAccademico);
    }
  }

  /** `Courses`, a map from code to programme that also serves as a
      `sort.Interface` indexed by key. */
  class CourseTable {
    var entries: map<int, Course>

    constructor (entries: map<int, Course>)
      ensures this.entries == entries
    {
      this.entries := entries;
    }

    /** `Len`: the number of entries. */
    function Len(): (n: nat)
      reads this
      ensures n == |entries.Keys|
    {
      |entries|
    }

    /** `Less(i, j)`, absent keys reading as the zero programme. */
    function Less(i: int, j: int): (b: bool)
      reads this
      ensures b <==> CodeLess(Get(entries, i), Get(entries, j))
      ensures b ==> !CodeLess(Get(entries, j), Get(entries, i))
      ensures i == j ==> !b
    {
      CodeLessStrictOrder(Get(entries, i), Get(entries, j), Get(entries, j));
      CodeLess(Get(entries, i), Get(entries, j))
    }

    /** `Swap(i, j)`: the programmes under `i` and `j` trade places; an
        absent key is read as the zero programme and is present afterwards;
        every other key keeps its entry. */
    method Swap(i: int, j: int)
      modifies this
      ensures i in entries && j in entries
      ensures entries[i] == Get(old(entries), j) && entries[j] == Get(old(entries), i)
      ensures forall k :: k != i && k != j ==> (k in entries <==> k in old(entries))
      ensures forall k :: k != i && k != j && k in entries ==> entries[k] == old(entries)[k]
    {
      var ci, cj := Get(entries, i), Get(entries, j);
      entries := entries[i := cj];
      entries := entries[j := ci];
    }

    /** `FindById`: the programme under `id` and whether it is there; Go's
        zero programme when it is not. */
    function FindById(id: int): (r: (Course, bool))
      reads this
      ensures r.1 <==> id in entries
      ensures r.1 ==> r.0 == entries[id]
      ensures !r.1 ==> r.0 == ZeroCourse
    {
      (Get(entries, id), id in entries)
    }
  }

  /** The package's own example: in a table of the programmes coded 1, 2
      and 3 under their codes, looking up 2 finds the programme coded 2. */
  method FindByIdExample() returns (course: Course, found: bool)
    ensures found && course.codice == 2
  {
    var table := new CourseTable(map[1 := ZeroCourse.(codice := 1), 2 := ZeroCourse.(codice := 2),
                                     3 := ZeroCourse.(codice := 3)]);
    course, found := table.FindById(2).0, table.FindById(2).1;
  }
}

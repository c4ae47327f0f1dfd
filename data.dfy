/** Keeping the local snapshot of the degree-programme catalogue: data.go.
    The package service, the file system, the clock and the JSON codec
    are inputs; times are nanoseconds since a fixed epoch. */
module Data {
  import opened Wrappers
  import opened Text
  import opened Decimal
  import opened Seqs
  import opened Catalogue
  import opened IntegResource

  /** The alias the catalogue resource is published under. */
  const ResourceAlias := "corsi_latest_it"

  /** What `os.Stat` said about the snapshot file. */
  datatype Stat = Present(modTime: int) | Missing | StatFailed(msg: string)

  /** Why a refresh wrote nothing. */
  datatype KeepReason = NoPackage | NoResources | NoResource | UpToDate

  /** The line logged for each reason. */
  function ReasonText(k: KeepReason): string {
    match k
    case NoPackage => "unable to get package"
    case NoResources => "no resources found while downloading open data"
    case NoResource => "unable to find resource '" + ResourceAlias + "'"
    case UpToDate => "Opendata file is up to date"
  }

  /** How a refresh ended: nothing written (with the logged reason), the
      filtered programmes written, or a `log.Panic`. */
  datatype Refresh = Kept(reason: KeepReason) | Saved(courses: seq<Course>) | Panicked(msg: string)

  /** The programmes of the current academic year: the year's decimal text
      occurs in the academic-year column. */
  function InYear(year: int): Course -> bool {
    (c: Course) => Contains(c.annoAccademico, Itoa(year))
  }

  /** The year filter of `downloadOpenDataIfNewer`. */
  method FilterByYear(courses: seq<Course>, year: int) returns (yearCourses: seq<Course>)
    ensures yearCourses == Filter(courses, InYear(year))
  {
    yearCourses := [];
    for i := 0 to |courses|
      invariant yearCourses == Filter(courses[..i], InYear(year))
    {
      FilterStep(courses, i, InYear(year));
      if Contains(courses[i].annoAccademico, Itoa(year)) {
        yearCourses := yearCourses + [courses[i]];
      }
    }
    assert courses[..|courses|] == courses;
  }

  /** `downloadOpenDataIfNewer`, step by step: the package, a resource with
      the catalogue's alias, its last-modified time, the snapshot's state;
      a snapshot newer than the resource is kept; otherwise the resource is
      downloaded, filtered to `year` and saved. `byAlias` is the package
      library's alias lookup, `parseTime` reads the last-modified text,
      `download` is the outcome of fetching the resource and `save` the
      error of writing the snapshot, if any. */
  function RefreshOutcome(pack: Result<seq<Resource>>, byAlias: (seq<Resource>, string) -> Option<Resource>,
                          parseTime: string -> Option<int>, stat: Stat, download: Resource -> Download,
                          year: int, save: seq<Course> -> Option<string>): (r: Refresh)
    ensures r.Saved? ==>
      && pack.Ok? && pack.value != [] && byAlias(pack.value, ResourceAlias).Some?
      && var res := byAlias(pack.value, ResourceAlias).value;
      && parseTime(res.lastMod).Some?
      && (stat.Missing? || (stat.Present? && stat.modTime <= parseTime(res.lastMod).value))
      && DownloadResource(res.url, download(res)).Ok?
      && r.courses == Filter(DownloadResource(res.url, download(res)).value, InYear(year))
      && save(r.courses).None?
    ensures pack.Ok? && pack.value != [] && byAlias(pack.value, ResourceAlias).Some? ==>
      var res := byAlias(pack.value, ResourceAlias).value;
      (&& parseTime(res.lastMod).Some?
       && (stat.Missing? || (stat.Present? && stat.modTime <= parseTime(res.lastMod).value))
       && DownloadResource(res.url, download(res)).Ok?
       && save(Filter(DownloadResource(res.url, download(res)).value, InYear(year))).None?) ==>
        r == Saved(Filter(DownloadResource(res.url, download(res)).value, InYear(year)))
    ensures r.Panicked? <==>
      && pack.Ok? && pack.value != [] && byAlias(pack.value, ResourceAlias).Some?
      && var res := byAlias(pack.value, ResourceAlias).value;
      || parseTime(res.lastMod).None?
      || stat.StatFailed?
      || (!(stat.Present? && stat.modTime > parseTime(res.lastMod).value)
          && (!DownloadResource(res.url, download(res)).Ok?
              || save(Filter(DownloadResource(res.url, download(res)).value, InYear(year))).Some?))
    ensures r == Kept(UpToDate) <==>
      && pack.Ok? && pack.value != [] && byAlias(pack.value, ResourceAlias).Some?
      && parseTime(byAlias(pack.value, ResourceAlias).value.lastMod).Some?
      && stat.Present? && stat.modTime > parseTime(byAlias(pack.value, ResourceAlias).value.lastMod).value
    ensures pack.Err? || pack.Panic? || pack.value == [] || byAlias(pack.value, ResourceAlias).None? ==> r.Kept?
  {
    if !pack.Ok? then Kept(NoPackage)
    else if |pack.value| == 0 then Kept(NoResources)
    else
      match byAlias(pack.value, ResourceAlias)
      case None => Kept(NoResource)
      case Some(res) =>
        match parseTime(res.lastMod)
        case None => Panicked("Unable to parse last modified time")
        case Some(lastMod) => RefreshFrom(res, lastMod, stat, download, year, save)
  }

  /** The steps of a refresh once the resource and its last-modified time
      are known: the file check, the download, the filter and the save. */
  function RefreshFrom(res: Resource, lastMod: int, stat: Stat, download: Resource -> Download,
                       year: int, save: seq<Course> -> Option<string>): (r: Refresh)
    ensures r.Saved? ==>
      && (stat.Missing? || (stat.Present? && stat.modTime <= lastMod))
      && DownloadResource(res.url, download(res)).Ok?
      && r.courses == Filter(DownloadResource(res.url, download(res)).value, InYear(year))
      && save(r.courses).None?
    ensures (&& (stat.Missing? || (stat.Present? && stat.modTime <= lastMod))
             && DownloadResource(res.url, download(res)).Ok?
             && save(Filter(DownloadResource(res.url, download(res)).value, InYear(year))).None?) ==>
        r == Saved(Filter(DownloadResource(res.url, download(res)).value, InYear(year)))
    ensures r.Kept? <==> stat.Present? && stat.modTime > lastMod
    ensures r.Kept? ==> r.reason == UpToDate
  {
    if stat.StatFailed? then Panicked("Unable to get file stat")
    else if stat.Present? && stat.modTime > lastMod then Kept(UpToDate)
    else
      var courses := DownloadResource(res.url, download(res));
      if !courses.Ok? then Panicked("Unable to download courses")
      else
        var yearCourses := Filter(courses.value, InYear(year));
        if save(yearCourses).Some? then Panicked("Unable to save courses")
        else Saved(yearCourses)
  }

  /** Once the resource is known, a refresh panics exactly when the file
      check fails, or when a snapshot that is not newer leads to a failed
      download or a failed save. */
  lemma RefreshFromPanicked(res: Resource, lastMod: int, stat: Stat, download: Resource -> Download,
                            year: int, save: seq<Course> -> Option<string>)
    ensures RefreshFrom(res, lastMod, stat, download, year, save).Panicked? <==>
      || stat.StatFailed?
      || (!(stat.Present? && stat.modTime > lastMod)
          && (!DownloadResource(res.url, download(res)).Ok?
              || save(Filter(DownloadResource(res.url, download(res)).value, InYear(year))).Some?))
  {
  }

  /** A missing snapshot is always replaced, unless an earlier step gave
      up: a refresh that reaches the file check never keeps it. */
  lemma MissingSnapshotForcesRefresh(pack: Result<seq<Resource>>, byAlias: (seq<Resource>, string) -> Option<Resource>,
                                     parseTime: string -> Option<int>, download: Resource -> Download,
                                     year: int, save: seq<Course> -> Option<string>)
    requires pack.Ok? && pack.value != [] && byAlias(pack.value, ResourceAlias).Some?
    requires parseTime(byAlias(pack.value, ResourceAlias).value.lastMod).Some?
    ensures !RefreshOutcome(pack, byAlias, parseTime, Missing, download, year, save).Kept?
  {
  }

  /** `downloadOpenDataIfNewer`. */
  method DownloadOpenDataIfNewer(pack: Result<seq<Resource>>, byAlias: (seq<Resource>, string) -> Option<Resource>,
                                 parseTime: string -> Option<int>, stat: Stat, download: Resource -> Download,
                                 year: int, save: seq<Course> -> Option<string>)
    returns (r: Refresh)
    ensures r == RefreshOutcome(pack, byAlias, parseTime, stat, download, year, save)
  {
    if !pack.Ok? {
      return Kept(NoPackage);
    }
    if |pack.value| == 0 {
      return Kept(NoResources);
    }
    var found := byAlias(pack.value, ResourceAlias);
    if found.None? {
      return Kept(NoResource);
    }
    var res := found.value;
    var lastMod := parseTime(res.lastMod);
    if lastMod.None? {
      return Panicked("Unable to parse last modified time");
    }
    if stat.StatFailed? {
      return Panicked("Unable to get file stat");
    }
    if stat.Present? && stat.modTime > lastMod.value {
      return Kept(UpToDate);
    }
    var courses := DownloadResource(res.url, download(res));
    if !courses.Ok? {
      return Panicked("Unable to download courses");
    }
    var yearCourses := FilterByYear(courses.value, year);
    if save(yearCourses).Some? {
      return Panicked("Unable to save courses");
    }
    r := Saved(yearCourses);
  }

  /** The map `openData` builds: each programme under its code, a later
      programme replacing an earlier one with the same code. */
  function CourseMap(courses: seq<Course>): map<int, Course>
    decreases |courses|
  {
    if courses == [] then map[]
    else
      var last := courses[|courses| - 1];
      CourseMap(courses[..|courses| - 1])[last.codice := last]
  }

  /** Every code of the list is a key, every key is the code of a listed
      programme, and it holds the last programme listed with it. */
  lemma CourseMapLastWins(courses: seq<Course>)
    ensures forall i :: 0 <= i < |courses| ==> courses[i].codice in CourseMap(courses)
    ensures forall k :: k in CourseMap(courses) ==> exists i ::
      && 0 <= i < |courses| && courses[i].codice == k && CourseMap(courses)[k] == courses[i]
      && forall j :: i < j < |courses| ==> courses[j].codice != k
  {
    CourseMapHasCodes(courses);
    forall k | k in CourseMap(courses)
      ensures exists i ::
        && 0 <= i < |courses| && courses[i].codice == k && CourseMap(courses)[k] == courses[i]
        && forall j :: i < j < |courses| ==> courses[j].codice != k
    {
      var i := LastWithCode(courses, k);
    }
  }

  /** Every code of the list is a key of the map. */
  lemma {:induction false} CourseMapHasCodes(courses: seq<Course>)
    ensures forall i :: 0 <= i < |courses| ==> courses[i].codice in CourseMap(courses)
    decreases |courses|
  {
    if courses != [] {
      var n := |courses| - 1;
      CourseMapHasCodes(courses[..n]);
      assert forall i :: 0 <= i < n ==> courses[..n][i] == courses[i];
    }
  }

  /** The position of the programme a key maps to: the last one listed
      with that code. */
  lemma {:induction false} LastWithCode(courses: seq<Course>, k: int) returns (i: nat)
    requires k in CourseMap(courses)
    ensures i < |courses| && courses[i].codice == k && CourseMap(courses)[k] == courses[i]
    ensures forall j :: i < j < |courses| ==> courses[j].codice != k
    decreases |courses|
  {
    var n := |courses| - 1;
    if k == courses[n].codice {
      i := n;
    } else {
      var init := courses[..n];
      i := LastWithCode(init, k);
      assert courses[i] == init[i];
      assert forall j :: i < j < n ==> courses[j] == init[j];
    }
  }

  /** `openData`: the snapshot as read from disk, or the error of reading
      it, then the map from code to programme. */
  method OpenData(snapshot: Result<seq<Course>>) returns (r: Result<map<int, Course>>)
    ensures snapshot.Ok? <==> r.Ok?
    ensures r.Ok? ==> r.value == CourseMap(snapshot.value)
    ensures !r.Ok? ==> r == snapshot.PropagateFailure()
  {
    if !snapshot.Ok? {
      return snapshot.PropagateFailure();
    }
    var courses := snapshot.value;
    var courseMap: map<int, Course> := map[];
    for i := 0 to |courses|
      invariant courseMap == CourseMap(courses[..i])
    {
      assert courses[..i + 1][..i] == courses[..i];
      courseMap := courseMap[courses[i].codice := courses[i]];
    }
    assert courses[..|courses|] == courses;
    r := Ok(courseMap);
  }
}

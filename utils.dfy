/** The subject filter and the subject-map resolver of the web service:
    utils.go. */
module Utils {
  import opened Wrappers
  import opened Text
  import opened Decimal
  import opened Order
  import opened Seqs
  import opened Catalogue

  /** The test `slices.Contains(codes, event.CodModulo)`. */
  function HasCodeIn(codes: seq<string>): Event -> bool {
    (e: Event) => e.codModulo in codes
  }

  /** `filterTimetableBySubjects`: the lectures whose module code is one of
      `codes`, in timetable order. */
  method FilterTimetableBySubjects(t: seq<Event>, codes: seq<string>) returns (filtered: seq<Event>)
    ensures filtered == Filter(t, HasCodeIn(codes))
  {
    filtered := [];
    for i := 0 to |t|
      invariant filtered == Filter(t[..i], HasCodeIn(codes))
    {
      FilterStep(t, i, HasCodeIn(codes));
      if t[i].codModulo in codes {
        filtered := filtered + [t[i]];
      }
    }
    assert t[..|t|] == t;
  }

  /** With no codes the filter keeps nothing. */
  lemma FilterNoCodes(t: seq<Event>)
    ensures Filter(t, HasCodeIn([])) == []
  {
  }

  /** The subject-cache key `"%d-%d-%s"` of a programme code, a year and a
      curriculum value. */
  function SubjectsKey(code: int, year: int, value: string): string {
    Itoa(code) + "-" + Itoa(year) + "-" + value
  }

  /** Non-negative codes and years never share a cache key: the key names
      the programme, the year and the curriculum value unambiguously. */
  lemma SubjectsKeyInjective(code: int, year: int, value: string, code': int, year': int, value': string)
    requires code >= 0 && year >= 0 && code' >= 0 && year' >= 0
    requires SubjectsKey(code, year, value) == SubjectsKey(code', year', value')
    ensures code == code' && year == year' && value == value'
  {
    var a, a' := Itoa(code), Itoa(code');
    var b, b' := Itoa(year), Itoa(year');
    assert '-' !in a && '-' !in a' && '-' !in b && '-' !in b' by {
      assert AllDigits(a) && AllDigits(a') && AllDigits(b) && AllDigits(b');
    }
    assert SubjectsKey(code, year, value) == a + ['-'] + (b + "-" + value);
    assert SubjectsKey(code', year', value') == a' + ['-'] + (b' + "-" + value');
    SeparatorSplit(a, b + "-" + value, a', b' + "-" + value', '-');
    assert b + ['-'] + value == b' + ['-'] + value';
    SeparatorSplit(b, value, b', value', '-');
    ItoaInjective(code, code');
    ItoaInjective(year, year');
  }

  /** The subjects of a (year, curriculum) pair as this resolver stores them:
      the fetched timetable's subjects sorted by name. */
  function SortedSubjects(subjects: seq<SimpleSubject>): (r: seq<SimpleSubject>)
    ensures SortedBy(r, SubjectName) && multiset(r) == multiset(subjects)
  {
    SortBy(subjects, SubjectName)
  }

  /** Every curriculum of `inner` maps to what the cache holds for its key. */
  ghost predicate Resolved(inner: map<Curriculum, seq<SimpleSubject>>, code: int, year: int,
                           cache: map<string, seq<SimpleSubject>>)
  {
    forall c :: c in inner ==>
      SubjectsKey(code, year, c.value) in cache && inner[c] == cache[SubjectsKey(code, year, c.value)]
  }

  /** `k` is the key of a pair of `curricula` whose fetch succeeded, and `v`
      its subjects sorted by name. `sort.Slice` is not stable, so the order
      of subjects with equal names is left open. */
  ghost predicate FetchedEntry(k: string, v: seq<SimpleSubject>, code: int, curricula: map<int, seq<Curriculum>>,
                               fetch: (int, Curriculum) -> Result<seq<Event>>,
                               subjectsOf: seq<Event> -> seq<SimpleSubject>)
  {
    exists y, c :: y in curricula && c in curricula[y] && k == SubjectsKey(code, y, c.value)
      && fetch(y, c).Ok? && SortedBy(v, SubjectName) && multiset(v) == multiset(subjectsOf(fetch(y, c).value))
  }

  /** The cache grew from `before` to `after` only by fetched entries: no
      entry was changed or removed. */
  ghost predicate GrewBy(before: map<string, seq<SimpleSubject>>, after: map<string, seq<SimpleSubject>>,
                         code: int, curricula: map<int, seq<Curriculum>>,
                         fetch: (int, Curriculum) -> Result<seq<Event>>,
                         subjectsOf: seq<Event> -> seq<SimpleSubject>)
  {
    && (forall k :: k in before ==> k in after && after[k] == before[k])
    && (forall k :: k in after && k !in before ==> FetchedEntry(k, after[k], code, curricula, fetch, subjectsOf))
  }

  /** Caching a fetched entry under a new key keeps the cache grown only by
      fetched entries. */
  lemma GrewByAdd(start: map<string, seq<SimpleSubject>>, cache: map<string, seq<SimpleSubject>>,
                  k: string, v: seq<SimpleSubject>, code: int, curricula: map<int, seq<Curriculum>>,
                  fetch: (int, Curriculum) -> Result<seq<Event>>, subjectsOf: seq<Event> -> seq<SimpleSubject>)
    requires GrewBy(start, cache, code, curricula, fetch, subjectsOf)
    requires k !in cache && FetchedEntry(k, v, code, curricula, fetch, subjectsOf)
    ensures GrewBy(start, cache[k := v], code, curricula, fetch, subjectsOf)
  {
  }

  /** The pair (`y`, `c`) was neither cached nor fetchable. */
  ghost predicate FailedPair(y: int, c: Curriculum, code: int, curricula: map<int, seq<Curriculum>>,
                             cache: map<string, seq<SimpleSubject>>,
                             fetch: (int, Curriculum) -> Result<seq<Event>>)
  {
    y in curricula && c in curricula[y] && SubjectsKey(code, y, c.value) !in cache && !fetch(y, c).Ok?
  }

  lemma ResolvedGrows(inner: map<Curriculum, seq<SimpleSubject>>, code: int, year: int,
                      before: map<string, seq<SimpleSubject>>, after: map<string, seq<SimpleSubject>>)
    requires Resolved(inner, code, year, before)
    requires forall k :: k in before ==> k in after && after[k] == before[k]
    ensures Resolved(inner, code, year, after)
  {
  }

  /** Every cached list is sorted by subject name. */
  ghost predicate CacheSorted(cache: map<string, seq<SimpleSubject>>) {
    forall k :: k in cache ==> SortedBy(cache[k], SubjectName)
  }

  /** One curriculum of the inner loop of
      `getSubjectsMapFromCourseAndCurricula`: its subjects from the cache,
      or else fetched, sorted and cached. `ok` is false, and nothing is
      cached, when the fetch fails. */
  method ResolvePair(code: int, cur: map<int, seq<Curriculum>>, y: int, c: Curriculum,
                     fetch: (int, Curriculum) -> Result<seq<Event>>,
                     subjectsOf: seq<Event> -> seq<SimpleSubject>,
                     inner: map<Curriculum, seq<SimpleSubject>>, cache: map<string, seq<SimpleSubject>>,
                     ghost start: map<string, seq<SimpleSubject>>)
    returns (ok: bool, msg: string, inner': map<Curriculum, seq<SimpleSubject>>, cache': map<string, seq<SimpleSubject>>)
    requires y in cur && c in cur[y]
    requires CacheSorted(cache) && GrewBy(start, cache, code, cur, fetch, subjectsOf)
    requires Resolved(inner, code, y, cache)
    ensures CacheSorted(cache') && GrewBy(start, cache', code, cur, fetch, subjectsOf)
    ensures forall k :: k in cache ==> k in cache' && cache'[k] == cache[k]
    ensures ok ==> Resolved(inner', code, y, cache') && inner'.Keys == inner.Keys + {c}
    ensures !ok ==> FailedPair(y, c, code, cur, start, fetch)
  {
    var key := SubjectsKey(code, y, c.value);
    msg, inner', cache' := "", inner, cache;
    if key in cache {
      return true, msg, inner[c := cache[key]], cache;
    }
    var t := fetch(y, c);
    if !t.Ok? {
      return false, "unable to retrieve timetable for subjects: " + t.msg, inner, cache;
    }
    var subjects := SortedSubjects(subjectsOf(t.value));
    assert FetchedEntry(key, subjects, code, cur, fetch, subjectsOf);
    GrewByAdd(start, cache, key, subjects, code, cur, fetch, subjectsOf);
    cache' := cache[key := subjects];
    ResolvedGrows(inner, code, y, cache, cache');
    ok, inner' := true, inner[c := subjects];
  }

  /** `subjectsCache`: the subject lists fetched so far, by `SubjectsKey`
      (entries do not expire in this model). */
  class SubjectsCache {
    var entries: map<string, seq<SimpleSubject>>

    /** Every cached list is sorted by subject name. */
    ghost predicate Valid()
      reads this
    {
      CacheSorted(entries)
    }

    constructor ()
      ensures entries == map[] && Valid()
    {
      entries := map[];
    }

    /** The inner loop of `getSubjectsMapFromCourseAndCurricula` for one
        year: each curriculum's subjects, from the cache or else fetched,
        sorted and cached; the first failing fetch ends it. `start` is the
        cache when the whole call began. */
    method ResolveYear(code: int, cur: map<int, seq<Curriculum>>, y: int,
                       fetch: (int, Curriculum) -> Result<seq<Event>>,
                       subjectsOf: seq<Event> -> seq<SimpleSubject>, ghost start: map<string, seq<SimpleSubject>>)
      returns (r: Result<map<Curriculum, seq<SimpleSubject>>>)
      requires y in cur
      requires Valid() && GrewBy(start, entries, code, cur, fetch, subjectsOf)
      modifies this
      ensures Valid() && GrewBy(start, entries, code, cur, fetch, subjectsOf)
      ensures forall k :: k in old(entries) ==> k in entries && entries[k] == old(entries)[k]
      ensures !r.Panic?
      ensures r.Ok? ==> r.value.Keys == (set c | c in cur[y]) && Resolved(r.value, code, y, entries)
      ensures r.Err? ==> exists c :: FailedPair(y, c, code, cur, start, fetch)
    {
      var cs := cur[y];
      var inner: map<Curriculum, seq<SimpleSubject>> := map[];
      for j := 0 to |cs|
        invariant inner.Keys == (set c | c in cs[..j])
        invariant Valid() && GrewBy(start, entries, code, cur, fetch, subjectsOf)
        invariant forall k :: k in old(entries) ==> k in entries && entries[k] == old(entries)[k]
        invariant Resolved(inner, code, y, entries)
      {
        TakeSnoc(cs, j);
        var ok, msg, inner', cache' := ResolvePair(code, cur, y, cs[j], fetch, subjectsOf, inner, entries, start);
        if !ok {
          return Err(msg);
        }
        entries := cache';
        inner := inner';
      }
      assert cs[..|cs|] == cs;
      r := Ok(inner);
    }

    /** `getSubjectsMapFromCourseAndCurricula`: for every year and curriculum
        the subjects, from the cache or else fetched, sorted by name and
        cached. The first failing fetch aborts the whole call. The years are
        visited in an unspecified order, as Go ranges over a map. */
    method GetSubjectsMap(course: Option<Course>, curricula: Option<map<int, seq<Curriculum>>>,
                          fetch: (int, Curriculum) -> Result<seq<Event>>,
                          subjectsOf: seq<Event> -> seq<SimpleSubject>)
      returns (r: Result<map<int, map<Curriculum, seq<SimpleSubject>>>>)
      requires Valid()
      modifies this
      ensures Valid() && !r.Panic?
      ensures course.None? ==> r == Err("course parameter is nil") && entries == old(entries)
      ensures course.Some? && curricula.None? ==> r == Err("curricula parameter is nil") && entries == old(entries)
      ensures course.Some? && curricula.Some? ==>
        GrewBy(old(entries), entries, course.value.codice, curricula.value, fetch, subjectsOf)
      ensures r.Ok? ==> course.Some? && curricula.Some?
      ensures r.Ok? ==> r.value.Keys == curricula.value.Keys
      ensures r.Ok? ==> forall y :: y in r.value ==>
        && r.value[y].Keys == (set c | c in curricula.value[y])
        && Resolved(r.value[y], course.value.codice, y, entries)
        && (forall c :: c in r.value[y] ==> SortedBy(r.value[y][c], SubjectName))
      ensures r.Err? && course.Some? && curricula.Some? ==>
        exists y, c :: FailedPair(y, c, course.value.codice, curricula.value, old(entries), fetch)
    {
      if course.None? {
        return Err("course parameter is nil");
      }
      if curricula.None? {
        return Err("curricula parameter is nil");
      }
      var code := course.value.codice;
      var cur := curricula.value;
      var m: map<int, map<Curriculum, seq<SimpleSubject>>> := map[];
      var todo := cur.Keys;
      while todo != {}
        invariant todo <= cur.Keys
        invariant m.Keys == cur.Keys - todo
        invariant Valid()
        invariant GrewBy(old(entries), entries, code, cur, fetch, subjectsOf)
        invariant forall y :: y in m ==>
          m[y].Keys == (set c | c in cur[y]) && Resolved(m[y], code, y, entries)
        decreases todo
      {
        SetHasElement(todo);
        var y :| y in todo;
        ghost var before := entries;
        var inner := ResolveYear(code, cur, y, fetch, subjectsOf, old(entries));
        if !inner.Ok? {
          return Err(inner.msg);
        }
        forall y' | y' in m ensures Resolved(m[y'], code, y', entries) {
          ResolvedGrows(m[y'], code, y', before, entries);
        }
        m := m[y := inner.value];
        todo := todo - {y};
      }
      r := Ok(m);
    }
  }
}

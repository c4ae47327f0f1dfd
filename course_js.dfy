/** The two functions of the course page's script (static/js/course.js) that
    edit the `subjects` parameter of a calendar URL: `addSubject` appends a
    subject code to the list, creating the parameter when the URL has none,
    and `removeSubject` deletes a code from it. Both only rewrite text, with
    JavaScript's first-occurrence `replace`. */
module CourseJs {
  import opened Wrappers
  import opened Text
  import opened Decimal

  /** The text whose presence anywhere in a URL means it has a subject list. */
  const ListMark := "subjects"

  /** The two repairs both functions make after editing a list: the first
      doubled comma becomes one comma, then the first comma right after the
      `=` goes. */
  function Tidy(url: string): (r: string)
    ensures |url| - 2 <= |r| <= |url|
    ensures !Contains(url, ",,") && !Contains(url, "=,") ==> r == url
  {
    ReplaceFirstLength(url, ",,", ",");
    var u := ReplaceFirst(url, ",,", ",");
    ReplaceFirstLength(u, "=,", "=");
    ReplaceFirst(u, "=,", "=")
  }

  /** `url.slice(-1)`: the last character, or the empty text for an empty
      URL. */
  function LastChar(url: string): (r: string)
    ensures |url| > 0 ==> r == [url[|url| - 1]]
    ensures |url| == 0 ==> r == ""
  {
    url[|url| - (if |url| > 0 then 1 else 0)..]
  }

  /** `addSubject`. A URL without a subject list gains `subjects=<subject>`
      as a new parameter, after `&` when it already has a query and after
      `?` otherwise. A URL with a list is tidied and the subject appended,
      after a comma unless the tidied URL already ends with `,` or `=`. In
      every case the result has a subject list and ends with the subject,
      right after a `,` or a `=`. */
  function AddSubject(url: string, subject: string): (r: string)
    ensures Contains(r, ListMark)
    ensures |subject| < |r| && HasSuffix(r, subject) && r[|r| - |subject| - 1] in {',', '='}
    ensures !Contains(url, ListMark) ==>
      r == url + (if Contains(url, "?") then "&" else "?") + "subjects=" + subject
  {
    if Contains(url, ListMark) then
      var u := Tidy(url);
      TidyKeepsList(url);
      var l := LastChar(u);
      var v := if l != "," && l != "=" then u + "," else u;
      OccursPrefix(u, ",", ListMark);
      AppendToList(v, subject);
      v + subject
    else
      var pre := url + (if Contains(url, "?") then "&" else "?");
      NewList(pre, subject);
      pre + "subjects=" + subject
  }

  /** A subject appended to a text with a list that ends with `,` or `=`
      ends the result, right after that character. */
  lemma AppendToList(v: string, subject: string)
    requires Contains(v, ListMark) && |v| > 0 && v[|v| - 1] in {',', '='}
    ensures var r := v + subject;
      && Contains(r, ListMark)
      && |subject| < |r| && HasSuffix(r, subject) && r[|r| - |subject| - 1] in {',', '='}
  {
    OccursPrefix(v, subject, ListMark);
    assert (v + subject)[|v|..] == subject;
  }

  /** A new `subjects=` parameter holding the subject. */
  lemma NewList(pre: string, subject: string)
    ensures var r := pre + "subjects=" + subject;
      && Contains(r, ListMark)
      && |subject| < |r| && HasSuffix(r, subject) && r[|r| - |subject| - 1] == '='
  {
    var tail := "subjects=" + subject;
    var r := pre + tail;
    assert pre + "subjects=" + subject == r;
    assert tail[..|ListMark|] == ListMark;
    assert r[|pre|..|pre| + |ListMark|] == tail[..|ListMark|];
    OccursAtContains(r, ListMark, |pre|);
    assert r[|r| - |subject|..] == subject;
  }

  /** Tidying keeps the subject list: neither repair touches `subjects`. */
  lemma TidyKeepsList(url: string)
    requires Contains(url, ListMark)
    ensures Contains(Tidy(url), ListMark)
  {
    ReplaceFirstKeeps(url, ",,", ",", ListMark);
    ReplaceFirstKeeps(ReplaceFirst(url, ",,", ","), "=,", "=", ListMark);
  }

  /** An occurrence in a text stays one when the text is extended. */
  lemma OccursPrefix(v: string, t: string, w: string)
    requires Contains(v, w)
    ensures Contains(v + t, w)
  {
    var i := IndexOf(v, w).value;
    OccursJoin(v, t, w, i);
    OccursAtContains(v + t, w, i);
  }

  /** `removeSubject`: the first occurrence of the subject's text is
      deleted, wherever it is, and the URL tidied. */
  function RemoveSubject(url: string, subject: string): (r: string)
    ensures |r| <= |url|
    ensures Contains(url, subject) ==> |r| <= |url| - |subject|
    ensures !Contains(url, subject) && !Contains(url, ",,") && !Contains(url, "=,") ==> r == url
  {
    ReplaceFirstLength(url, subject, "");
    Tidy(ReplaceFirst(url, subject, ""))
  }

  /** Removing a code deletes the first match of its text, even inside a
      longer code: removing `12` from the list `123,12` leaves `3,12`, so
      the longer code is damaged and the code meant stays listed. */
  lemma RemoveMatchesInsideLongerCode()
    ensures RemoveSubject("?subjects=123,12", "12") == "?subjects=3,12"
  {
    var url := "?subjects=123,12";
    FirstMatchInsideLongerCode();
    assert url[..10] + "" + url[12..] == "?subjects=3,12" by {
      assert url[..10] == "?subjects=" && url[12..] == "3,12";
    }
    LeftAfterRemoval();
  }

  /** What is left after removing `12` needs no tidying: neither its head
      `?subjects=3` nor its tail `,12` holds `,,` or `=,`, and neither
      pattern spans the two. */
  lemma LeftAfterRemoval()
    ensures !Contains("?subjects=3,12", ",,") && !Contains("?subjects=3,12", "=,")
  {
    assert "?subjects=3" + ",12" == "?subjects=3,12";
    HeadClean();
    TailClean();
    NotContainsConcat("?subjects=3", ",12", ",,");
    NotContainsConcat("?subjects=3", ",12", "=,");
  }

  /** The head `?subjects=3` holds no comma. */
  lemma HeadClean()
    ensures !Contains("?subjects=3", ",,") && !Contains("?subjects=3", "=,")
  {
    CharsNotIn("?subjects=3", ",,", 0);
    CharsNotIn("?subjects=3", "=,", 1);
  }

  /** The tail `,12` holds neither `,,` nor `=,`. */
  lemma TailClean()
    ensures !Contains(",12", ",,") && !Contains(",12", "=,")
  {
    CharsNotIn("12", ",,", 0);
    assert ",12" == "," + "12";
    NotContainsConcat(",", "12", ",,");
    CharsNotIn(",12", "=,", 0);
  }

  /** The first match of `12` in `?subjects=123,12` is the start of `123`. */
  lemma FirstMatchInsideLongerCode()
    ensures IndexOf("?subjects=123,12", "12") == Some(10)
  {
    var url := "?subjects=123,12";
    assert url[..10] == "?subjects=" && '1' !in url[..10];
    forall j | 0 <= j < 10 ensures !OccursAt(url, "12", j) {
      SliceAt(url, j, j + 2, j);
      assert url[j] == url[..10][j];
    }
    assert url[10..12] == "12";
    IndexOfAt(url, "12", 10);
  }

  /** Subject codes are decimal numbers. */
  predicate Code(subject: string) {
    |subject| > 0 && AllDigits(subject)
  }

  /** Adding a code to a URL without a subject list, removing it, and adding
      it again gives the URL of the first addition: removal leaves an empty
      `subjects=` parameter, which the next addition fills without a comma.
      This holds for a URL with no `,,`, no `=,` and no occurrence of the
      code. */
  lemma AddRemoveAdd(url: string, subject: string)
    requires Code(subject) && !Contains(url, ListMark)
    requires !Contains(url, subject) && !Contains(url, ",,") && !Contains(url, "=,")
    ensures var added := AddSubject(url, subject);
      && RemoveSubject(added, subject) == added[..|added| - |subject|]
      && AddSubject(RemoveSubject(added, subject), subject) == added
  {
    var sep := if Contains(url, "?") then "&" else "?";
    var t := sep + "subjects=";
    ParamName(sep);
    var a := url + t;
    assert url + sep + "subjects=" == a;
    NoCodeInBase(url, t, subject);
    NothingToTidy(url, t);
    OccursJoin(url, t, ListMark, 1);
    OccursAtContains(a, ListMark, |url| + 1);
    assert a[|a| - 1] == t[9];
    RemoveAppended(a, subject);
    AddToOpenList(a, subject);
    assert (a + subject)[..|a|] == a;
  }

  /** Removing a code written right after the `=` that ends a tidy text
      without the code gives the text back. */
  lemma RemoveAppended(a: string, subject: string)
    requires Code(subject) && !Contains(a, subject)
    requires !Contains(a, ",,") && !Contains(a, "=,")
    requires |a| > 0 && a[|a| - 1] == '='
    ensures RemoveSubject(a + subject, subject) == a
  {
    FirstIsAppended(a, subject);
    assert (a + subject)[..|a|] == a && (a + subject)[|a| + |subject|..] == "";
    assert ReplaceFirst(a + subject, subject, "") == a;
    assert Tidy(a) == a;
  }

  /** Adding a code to a tidy URL whose subject list ends with `=` appends
      the code and nothing else. */
  lemma AddToOpenList(a: string, subject: string)
    requires Contains(a, ListMark) && !Contains(a, ",,") && !Contains(a, "=,")
    requires |a| > 0 && a[|a| - 1] == '='
    ensures AddSubject(a, subject) == a + subject
  {
    assert LastChar(a) == "=";
  }

  /** The text that starts the new parameter, after either separator: a
      non-digit, `subjects`, then `=`, and no comma. */
  lemma ParamName(sep: string)
    requires sep == "&" || sep == "?"
    ensures var t := sep + "subjects=";
      && |t| == 10 && t[1..9] == ListMark && t[9] == '=' && ',' !in t
      && forall k :: 0 <= k < |t| ==> !IsDigit(t[k])
  {
  }

  /** The URL with the new parameter's name holds no code. */
  lemma NoCodeInBase(url: string, t: string, subject: string)
    requires Code(subject) && !Contains(url, subject) && |t| > 0
    requires forall k :: 0 <= k < |t| ==> !IsDigit(t[k])
    ensures !Contains(url + t, subject)
  {
    NoDigitIn(t, subject);
    NotContainsConcat(url, t, subject);
  }

  /** A code written right after a `=` that ends a text without the code
      is found first where it was written. */
  lemma FirstIsAppended(a: string, subject: string)
    requires Code(subject) && !Contains(a, subject)
    requires |a| > 0 && a[|a| - 1] == '='
    ensures IndexOf(a + subject, subject) == Some(|a|)
  {
    var added := a + subject;
    forall j | 0 <= j < |a| ensures !OccursAt(added, subject, j) {
      if OccursAt(added, subject, j) {
        OccursSplit(a, subject, subject, j);
        if j + |subject| > |a| {
          SliceAt(added, j, j + |subject|, |a| - 1);
        }
      }
    }
    assert added[|a|..] == subject;
    IndexOfAt(added, subject, |a|);
  }

  /** A URL without `,,` and `=,` keeps them out when it gains a parameter
      name that starts with neither a comma nor a digit and holds no comma. */
  lemma NothingToTidy(url: string, t: string)
    requires !Contains(url, ",,") && !Contains(url, "=,")
    requires |t| > 0 && ',' !in t
    ensures !Contains(url + t, ",,") && !Contains(url + t, "=,")
  {
    CharsNotIn(t, ",,", 0);
    NotContainsConcat(url, t, ",,");
    CharsNotIn(t, "=,", 1);
    NotContainsConcat(url, t, "=,");
  }

  /** A text none of whose characters is a digit holds no code. */
  lemma NoDigitIn(t: string, subject: string)
    requires Code(subject) && forall k :: 0 <= k < |t| ==> !IsDigit(t[k])
    ensures !Contains(t, subject)
  {
    if Contains(t, subject) {
      ContainsFirstChar(t, subject);
    }
  }

  /** `w` is not in `a + t` when it is in neither part and cannot straddle
      the join: either no character of `w` but its first equals `t`'s first,
      or none but its last equals `a`'s last. */
  lemma NotContainsConcat(a: string, t: string, w: string)
    requires |w| > 0 && |t| > 0 && !Contains(a, w) && !Contains(t, w)
    requires (forall k :: 1 <= k < |w| ==> w[k] != t[0])
          || (|a| > 0 && forall k :: 0 <= k < |w| - 1 ==> w[k] != a[|a| - 1])
    ensures !Contains(a + t, w)
  {
    forall j: nat ensures !OccursAt(a + t, w, j) {
      if j + |w| <= |a + t| {
        if j + |w| <= |a| {
          assert !OccursAt(a, w, j);
          assert (a + t)[j..j + |w|] == a[j..j + |w|];
        } else if |a| <= j {
          assert !OccursAt(t, w, j - |a|);
          assert (a + t)[j..j + |w|] == t[j - |a|..j - |a| + |w|];
        } else if forall k :: 1 <= k < |w| ==> w[k] != t[0] {
          SliceAt(a + t, j, j + |w|, |a|);
          assert w[|a| - j] != t[0] && (a + t)[|a|] == t[0];
        } else {
          SliceAt(a + t, j, j + |w|, |a| - 1);
          assert w[|a| - 1 - j] != a[|a| - 1] && (a + t)[|a| - 1] == a[|a| - 1];
        }
      }
    }
  }
}

/**
 * The meaning of the `Router` constructor's segment loop, as functions.
 *
 * `ScanOf` folds the loop's step over the exploded path exactly as the loop
 * runs it; `Classified` says in closed form what the fold computes (leading
 * language segments, then controller, action and parameters). The lemmas
 * connect the two and derive the routing facts the framework relies on.
 */
module Resolution {

  import opened Options
  import opened PhpStrings

  const DefaultController: string := "home"
  const DefaultAction: string := "index"
  /** The front controller's file name, which may appear in a raw path. */
  const ScriptName: string := "index.php"

  /** A resolved request: language, controller, action and positional parameters. */
  datatype Route = Route(lang: string, controller: string, action: string, params: seq<string>)

  /** A segment the loop passes over without classifying it. */
  predicate Skipped(seg: string) {
    Empty(seg) || seg == ScriptName
  }

  /** The path lower-cased, trimmed of `/` and exploded on `/`. */
  function RawSegments(path: string): seq<string> {
    Explode(ToLower(Trim(path, '/')), '/')
  }

  /** The segments that are not skipped, in their original order. */
  function Meaningful(segs: seq<string>): (m: seq<string>)
    ensures |m| <= |segs|
    ensures forall i :: 0 <= i < |m| ==> !Skipped(m[i]) && m[i] in segs
    ensures forall i :: 0 <= i < |segs| && !Skipped(segs[i]) ==> segs[i] in m
    ensures (forall i :: 0 <= i < |segs| ==> !Skipped(segs[i])) ==> m == segs
    decreases |segs|
  {
    if segs == [] then []
    else
      var last := segs[|segs| - 1];
      assert segs == segs[..|segs| - 1] + [last];
      Meaningful(segs[..|segs| - 1]) + (if Skipped(last) then [] else [last])
  }

  /** The segments of a request path that routing looks at. */
  function Segments(path: string): seq<string> {
    Meaningful(RawSegments(path))
  }

  /** The loop's state: the language so far, the controller and action
      candidates once found, and the parameters collected. */
  datatype Scan = Scan(lang: string, controller: Option<string>, action: Option<string>, params: seq<string>)

  function Start(lang0: string): Scan {
    Scan(lang0, None, None, [])
  }

  /** One iteration of the loop on segment `seg`. */
  function Step(st: Scan, seg: string, languages: seq<string>): Scan {
    if Skipped(seg) then st
    else if st.controller.None? then
      if seg in languages then st.(lang := seg) else st.(controller := Some(seg))
    else if st.action.None? then st.(action := Some(seg))
    else st.(params := st.params + [seg])
  }

  /** The loop's state after it has run over `segs`. */
  function ScanOf(segs: seq<string>, languages: seq<string>, lang0: string): Scan
    decreases |segs|
  {
    if segs == [] then Start(lang0)
    else Step(ScanOf(segs[..|segs| - 1], languages, lang0), segs[|segs| - 1], languages)
  }

  /** Running the loop over one more segment is one more step. */
  lemma ScanOfPrefix(segs: seq<string>, i: nat, languages: seq<string>, lang0: string)
    requires i < |segs|
    ensures ScanOf(segs[..i + 1], languages, lang0) == Step(ScanOf(segs[..i], languages, lang0), segs[i], languages)
  {
    assert segs[..i + 1][..i] == segs[..i];
  }

  /** After the loop: a candidate found overrides the default, with `-`
      replaced by `_`. */
  function Finish(st: Scan): Route {
    Route(st.lang,
          if st.controller.Some? then ReplaceHyphens(st.controller.value) else DefaultController,
          if st.action.Some? then ReplaceHyphens(st.action.value) else DefaultAction,
          st.params)
  }

  /** The route the `Router` constructor settles on for `path`. */
  function Resolve(path: string, languages: seq<string>, lang0: string): Route {
    Finish(ScanOf(RawSegments(path), languages, lang0))
  }

  /** The number of language segments `m` starts with. */
  function LeadingLanguages(m: seq<string>, languages: seq<string>): (k: nat)
    ensures k <= |m|
    ensures forall j :: 0 <= j < k ==> m[j] in languages
    ensures k < |m| ==> m[k] !in languages
    decreases |m|
  {
    if m == [] || m[0] !in languages then 0 else 1 + LeadingLanguages(m[1..], languages)
  }

  /** What the loop computes on unskipped segments, in closed form: the last
      of the leading language segments is the language, the segment after
      them the controller, the next the action, and the rest the parameters. */
  function Classified(m: seq<string>, languages: seq<string>, lang0: string): Scan {
    var k := LeadingLanguages(m, languages);
    Scan(if k == 0 then lang0 else m[k - 1],
         if k < |m| then Some(m[k]) else None,
         if k + 1 < |m| then Some(m[k + 1]) else None,
         if k + 2 <= |m| then m[k + 2..] else [])
  }

  /** Appending a segment keeps the count of leading languages unless every
      segment so far was a language. */
  lemma {:induction false} LeadingLanguagesAppend(m: seq<string>, s: string, languages: seq<string>)
    ensures var k := LeadingLanguages(m, languages);
      LeadingLanguages(m + [s], languages) ==
        if k < |m| || s !in languages then k else k + 1
    decreases |m|
  {
    if m == [] {
      assert [s][1..] == [];
    } else {
      assert (m + [s])[1..] == m[1..] + [s];
      if m[0] in languages {
        LeadingLanguagesAppend(m[1..], s, languages);
      }
    }
  }

  /** Skipped segments make no difference to the loop. */
  lemma {:induction false} ScanOfMeaningful(segs: seq<string>, languages: seq<string>, lang0: string)
    ensures ScanOf(segs, languages, lang0) == ScanOf(Meaningful(segs), languages, lang0)
    decreases |segs|
  {
    if segs != [] {
      var init, last := segs[..|segs| - 1], segs[|segs| - 1];
      ScanOfMeaningful(init, languages, lang0);
      var m := Meaningful(init);
      if Skipped(last) {
        assert Meaningful(segs) == m;
      } else {
        assert Meaningful(segs) == m + [last];
        assert (m + [last])[..|m + [last]| - 1] == m;
      }
    }
  }

  /** One more unskipped segment moves the closed form exactly as one
      iteration of the loop does. */
  lemma ClassifiedStep(p: seq<string>, s: string, languages: seq<string>, lang0: string)
    requires !Skipped(s)
    ensures Classified(p + [s], languages, lang0) == Step(Classified(p, languages, lang0), s, languages)
  {
    var m := p + [s];
    LeadingLanguagesAppend(p, s, languages);
    var k := LeadingLanguages(p, languages);
    if k + 2 <= |p| {
      assert m[k + 2..] == p[k + 2..] + [s];
    }
  }

  /** On unskipped segments the loop computes the closed form. */
  lemma {:induction false} ScanOfClassified(m: seq<string>, languages: seq<string>, lang0: string)
    requires forall i :: 0 <= i < |m| ==> !Skipped(m[i])
    ensures ScanOf(m, languages, lang0) == Classified(m, languages, lang0)
    decreases |m|
  {
    if m != [] {
      var p, s := m[..|m| - 1], m[|m| - 1];
      assert m == p + [s];
      ScanOfClassified(p, languages, lang0);
      ClassifiedStep(p, s, languages, lang0);
    }
  }

  /** Resolution in closed form over the meaningful segments of the path. */
  lemma ResolveClassified(path: string, languages: seq<string>, lang0: string)
    ensures Resolve(path, languages, lang0) == Finish(Classified(Segments(path), languages, lang0))
  {
    ScanOfMeaningful(RawSegments(path), languages, lang0);
    ScanOfClassified(Segments(path), languages, lang0);
  }

  /** The controller and action of every resolved route are non-empty
      identifiers without `-`, so they can name a file and a method. */
  lemma ResolveIdentifiers(path: string, languages: seq<string>, lang0: string)
    ensures var r := Resolve(path, languages, lang0);
      && !Empty(r.controller) && '-' !in r.controller
      && !Empty(r.action) && '-' !in r.action
  {
    ResolveClassified(path, languages, lang0);
    ClassifiedIdentifiers(Segments(path), languages, lang0);
  }

  /** On unskipped segments the closed form names a non-empty controller and
      action without `-`. */
  lemma ClassifiedIdentifiers(m: seq<string>, languages: seq<string>, lang0: string)
    requires forall i :: 0 <= i < |m| ==> !Skipped(m[i])
    ensures var r := Finish(Classified(m, languages, lang0));
      && !Empty(r.controller) && '-' !in r.controller
      && !Empty(r.action) && '-' !in r.action
  {
  }

  /** A string that survives as one path segment: not skipped, lower-case and
      free of `/`. */
  predicate PlainSegment(s: string) {
    !Skipped(s) && IsLowerCase(s) && '/' !in s
  }

  lemma {:induction false} ImplodeLowerCase(parts: seq<string>)
    requires forall i :: 0 <= i < |parts| ==> IsLowerCase(parts[i])
    ensures IsLowerCase(Implode(parts, '/'))
    decreases |parts|
  {
    if |parts| > 1 {
      ImplodeLowerCase(parts[1..]);
    }
  }

  /** The joined string starts with the first piece's first character and ends
      with the last piece's last character. */
  lemma {:induction false} ImplodeEnds(parts: seq<string>)
    requires |parts| >= 1 && forall i :: 0 <= i < |parts| ==> parts[i] != []
    ensures var j := Implode(parts, '/');
      j != [] && j[0] == parts[0][0] && j[|j| - 1] == parts[|parts| - 1][|parts[|parts| - 1]| - 1]
    decreases |parts|
  {
    if |parts| > 1 {
      ImplodeEnds(parts[1..]);
    }
  }

  /** Trimming `/` off `/` followed by a string that neither starts nor ends
      with `/` leaves that string. */
  lemma TrimAfterSlash(j: string)
    requires j == [] || (j[0] != '/' && j[|j| - 1] != '/')
    ensures Trim("/" + j, '/') == j
  {
    var path := "/" + j;
    assert path[1..] == j;
    assert TrimStart(path, '/') == TrimStart(j, '/');
  }

  /** The raw segments of `/` followed by a lower-case string that neither
      starts nor ends with `/` are the pieces of that string. */
  lemma RawSegmentsAfterSlash(j: string)
    requires IsLowerCase(j)
    requires j == [] || (j[0] != '/' && j[|j| - 1] != '/')
    ensures RawSegments("/" + j) == Explode(j, '/')
  {
    TrimAfterSlash(j);
  }

  /** The raw segments of `/` followed by plain segments joined with `/` are
      those segments, or one empty piece when there are none. */
  lemma RawSegmentsJoined(segs: seq<string>)
    requires forall i :: 0 <= i < |segs| ==> PlainSegment(segs[i])
    ensures RawSegments("/" + Implode(segs, '/')) == if segs == [] then [""] else segs
  {
    if segs != [] {
      NonEmptyJoined(segs);
    } else {
      RawSegmentsAfterSlash("");
    }
  }

  /** The case of `RawSegmentsJoined` with at least one segment. */
  lemma NonEmptyJoined(segs: seq<string>)
    requires forall i :: 0 <= i < |segs| ==> PlainSegment(segs[i])
    requires segs != []
    ensures RawSegments("/" + Implode(segs, '/')) == segs
  {
    var j := Implode(segs, '/');
    JoinedShape(segs);
    RawSegmentsAfterSlash(j);
    ExplodeImplode(segs, '/');
  }

  /** Plain segments join to a lower-case string that neither starts nor ends
      with `/`. */
  lemma JoinedShape(segs: seq<string>)
    requires forall i :: 0 <= i < |segs| ==> PlainSegment(segs[i])
    requires segs != []
    ensures var j := Implode(segs, '/'); IsLowerCase(j) && j != [] && j[0] != '/' && j[|j| - 1] != '/'
  {
    ImplodeLowerCase(segs);
    ImplodeEnds(segs);
  }

  /** A path built as `/` followed by plain segments joined with `/` resolves
      to the closed form over exactly those segments. */
  lemma ResolveJoined(segs: seq<string>, languages: seq<string>, lang0: string)
    requires forall i :: 0 <= i < |segs| ==> PlainSegment(segs[i])
    ensures Segments("/" + Implode(segs, '/')) == segs
    ensures Resolve("/" + Implode(segs, '/'), languages, lang0) == Finish(Classified(segs, languages, lang0))
  {
    RawSegmentsJoined(segs);
    if segs == [] {
      assert [""][..0] == [];
      assert ScanOf([""], languages, lang0) == Start(lang0);
    } else {
      ScanOfClassified(segs, languages, lang0);
    }
  }

  /** The empty path and `/` are the home page in the default language. */
  lemma RootIsHome(languages: seq<string>, lang0: string)
    ensures Resolve("", languages, lang0) == Route(lang0, DefaultController, DefaultAction, [])
    ensures Resolve("/", languages, lang0) == Route(lang0, DefaultController, DefaultAction, [])
  {
    ResolveJoined([], languages, lang0);
    assert Trim("", '/') == "";
    assert ToLower("") == "";
  }

  /** A path made of one language segment is the home page in that language. */
  lemma LanguageOnlyIsHome(lang: string, languages: seq<string>, lang0: string)
    requires PlainSegment(lang) && lang in languages
    ensures Resolve("/" + lang, languages, lang0) == Route(lang, DefaultController, DefaultAction, [])
  {
    ResolveJoined([lang], languages, lang0);
  }

  /** Every leading language segment is taken, and the last one is the
      language of the request. */
  lemma LastLeadingLanguageWins(first: string, second: string, controller: string,
                                languages: seq<string>, lang0: string)
    requires PlainSegment(first) && PlainSegment(second) && PlainSegment(controller)
    requires first in languages && second in languages && controller !in languages
    ensures Resolve("/" + Implode([first, second, controller], '/'), languages, lang0)
         == Route(second, ReplaceHyphens(controller), DefaultAction, [])
  {
    var m := [first, second, controller];
    ResolveJoined(m, languages, lang0);
    assert m[1..][1..] == [controller];
    assert LeadingLanguages(m, languages) == 2;
  }

  /** When no configured language contains `_`, no path selects a configured
      language as its controller, except through the default `home`: a
      segment that names a language is always read as the language. */
  lemma ControllerNeverLanguage(path: string, languages: seq<string>, lang0: string)
    requires forall j :: 0 <= j < |languages| ==> '_' !in languages[j]
    ensures var r := Resolve(path, languages, lang0);
      r.controller in languages ==> r.controller == DefaultController
  {
    ResolveClassified(path, languages, lang0);
    var m := Segments(path);
    var k := LeadingLanguages(m, languages);
    if k < |m| && '-' in m[k] {
      var i :| 0 <= i < |m[k]| && m[k][i] == '-';
      assert ReplaceHyphens(m[k])[i] == '_';
    }
  }

  /** Trimming `/` off a string enclosed in single slashes leaves its inside. */
  lemma TrimEnclosed(j: string)
    requires j != [] && j[0] != '/' && j[|j| - 1] != '/'
    ensures Trim("/" + j + "/", '/') == j
  {
    var t := j + "/";
    assert "/" + j + "/" == "/" + t;
    TrimStartOnce('/', t);
    assert t[0] == j[0];
    assert TrimStart(t, '/') == t;
    TrimEndOnce(j, '/');
  }

  // The path `/Users/index.php/ABOUT/`, step by step: case is folded, the
  // script name is dropped, and `Users` stays as the controller.

  lemma ExampleTrim()
    ensures Trim("/Users/index.php/ABOUT/", '/') == "Users/index.php/ABOUT"
  {
    ExamplePath();
    TrimEnclosed("Users/index.php/ABOUT");
  }

  lemma ExamplePath()
    ensures "/Users/index.php/ABOUT/" == "/" + "Users/index.php/ABOUT" + "/"
  {
  }

  lemma ExampleLower()
    ensures ToLower("Users/index.php/ABOUT") == "users/index.php/about"
  {
  }

  lemma ExampleExplode()
    ensures Explode("users/index.php/about", '/') == ["users", "index.php", "about"]
  {
    assert "users/index.php/about" == Implode(["users", "index.php", "about"], '/');
    ExplodeImplode(["users", "index.php", "about"], '/');
  }

  lemma ExampleMeaningful()
    ensures Meaningful(["users", "index.php", "about"]) == ["users", "about"]
  {
    var raw := ["users", "index.php", "about"];
    assert raw[..2] == ["users", "index.php"];
    assert raw[..2][..1] == ["users"];
    assert Skipped("index.php");
  }

  /** `/Users/index.php/ABOUT/` has the segments `users` and `about`. */
  lemma ScriptNameAndCaseExample()
    ensures Segments("/Users/index.php/ABOUT/") == ["users", "about"]
  {
    ExampleTrim();
    ExampleLower();
    ExampleExplode();
    ExampleMeaningful();
  }

  /** It routes to action `about` of controller `users`. */
  lemma ScriptNameAndCaseRoute(languages: seq<string>, lang0: string)
    requires "users" !in languages
    ensures Resolve("/Users/index.php/ABOUT/", languages, lang0) == Route(lang0, "users", "about", [])
  {
    ScriptNameAndCaseExample();
    ResolveClassified("/Users/index.php/ABOUT/", languages, lang0);
    UsersAboutClassified(languages, lang0);
  }

  lemma UsersAboutClassified(languages: seq<string>, lang0: string)
    requires "users" !in languages
    ensures Finish(Classified(["users", "about"], languages, lang0)) == Route(lang0, "users", "about", [])
  {
    assert LeadingLanguages(["users", "about"], languages) == 0;
    assert ReplaceHyphens("users") == "users" && ReplaceHyphens("about") == "about";
  }

  /** With `fr` a known language, the segments `fr`, `about`, `team` give
      language `fr`, controller `about` and action `team`. */
  lemma LanguageControllerActionExample(languages: seq<string>, lang0: string)
    requires "fr" in languages && "about" !in languages
    ensures Finish(Classified(["fr", "about", "team"], languages, lang0)) == Route("fr", "about", "team", [])
  {
    var m := ["fr", "about", "team"];
    assert m[1..] == ["about", "team"];
    assert LeadingLanguages(m, languages) == 1;
    assert m[3..] == [];
    assert ReplaceHyphens("about") == "about" && ReplaceHyphens("team") == "team";
  }

  /** So `/fr/about/team` is the `team` action of `about`, in French. */
  lemma LanguageControllerActionRoute(languages: seq<string>, lang0: string)
    requires "fr" in languages && "about" !in languages
    ensures Resolve("/fr/about/team", languages, lang0) == Route("fr", "about", "team", [])
  {
    FrAboutTeamPath();
    FrAboutTeamJoined(languages, lang0);
    LanguageControllerActionExample(languages, lang0);
  }

  lemma FrAboutTeamPath()
    ensures "/" + Implode(["fr", "about", "team"], '/') == "/fr/about/team"
  {
  }

  lemma FrAboutTeamJoined(languages: seq<string>, lang0: string)
    ensures Resolve("/" + Implode(["fr", "about", "team"], '/'), languages, lang0)
         == Finish(Classified(["fr", "about", "team"], languages, lang0))
  {
    assert PlainSegment("fr") && PlainSegment("about") && PlainSegment("team");
    ResolveJoined(["fr", "about", "team"], languages, lang0);
  }
}

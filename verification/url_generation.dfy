/**
 * The meaning of `Controller::route_url`: the segments a link is made of, the
 * link itself, and the round trip back through the router.
 */
module UrlGeneration {

  import opened Options
  import opened PhpStrings
  import opened Resolution

  /** The `$params` argument: NULL, one scalar value, or an array of values. */
  datatype Params = NoParams | Scalar(value: string) | List(items: seq<string>)

  /** PHP `empty()` on the `$params` argument. */
  predicate ParamsEmpty(p: Params) {
    match p
    case NoParams => true
    case Scalar(v) => Empty(v)
    case List(items) => items == []
  }

  /** The segments `$params` contributes: none for NULL, itself for a scalar,
      each element in order for an array. */
  function ParamSegments(p: Params): seq<string> {
    match p
    case NoParams => []
    case Scalar(v) => [v]
    case List(items) => items
  }

  /** The segments of the link to `action` of `controller` in `lang`; an empty
      `lang` or `controller` stands for the current request's. */
  function LinkSegments(action: string, controller: string, params: Params, lang: string,
                        request: Route, defaultLanguage: string): seq<string>
  {
    var l := if Empty(lang) then request.lang else lang;
    var langSegs := if defaultLanguage != l then [l] else [];
    var c := if Empty(controller) then request.controller else controller;
    if c == DefaultController && (Empty(action) || action == DefaultAction) && ParamsEmpty(params) then
      langSegs
    else
      langSegs + [c] + (if Empty(action) then [] else [action]) + ParamSegments(params)
  }

  /** Outside the home short cut, a link is the language segment when it is
      not the default, the controller, the action when given, then the
      parameters. */
  lemma LinkSegmentsInOrder(action: string, controller: string, params: Params, lang: string,
                            request: Route, defaultLanguage: string, l: string, c: string)
    requires l == (if Empty(lang) then request.lang else lang)
    requires c == (if Empty(controller) then request.controller else controller)
    requires !(c == DefaultController && (Empty(action) || action == DefaultAction) && ParamsEmpty(params))
    ensures LinkSegments(action, controller, params, lang, request, defaultLanguage)
         == (if defaultLanguage != l then [l] else []) + [c]
            + (if Empty(action) then [] else [action]) + ParamSegments(params)
  {
  }

  /** The link `route_url` returns: always an absolute path. */
  function Link(action: string, controller: string, params: Params, lang: string,
                request: Route, defaultLanguage: string): (url: string)
    ensures url != [] && url[0] == '/'
  {
    "/" + Implode(LinkSegments(action, controller, params, lang, request, defaultLanguage), '/')
  }

  /** The home page link is `/` in the default language and `/<lang>` in any
      other, whatever the request. */
  lemma HomeLink(action: string, params: Params, lang: string, request: Route, defaultLanguage: string)
    requires Empty(action) || action == DefaultAction
    requires ParamsEmpty(params)
    requires !Empty(lang)
    ensures Link(action, DefaultController, params, lang, request, defaultLanguage) ==
      if lang == defaultLanguage then "/" else "/" + lang
  {
  }

  /** The closed form of routing on the segments of a link that is not the
      home short cut: an optional language, the controller, an optional
      action, then the parameters. */
  lemma ClassifiedLink(langSegs: seq<string>, controller: string, actionSegs: seq<string>, ps: seq<string>,
                       languages: seq<string>, lang0: string)
    requires |langSegs| <= 1 && (forall i :: 0 <= i < |langSegs| ==> langSegs[i] in languages)
    requires controller !in languages
    requires |actionSegs| <= 1 && (actionSegs == [] ==> ps == [])
    ensures Classified(langSegs + [controller] + actionSegs + ps, languages, lang0)
         == Scan(if langSegs == [] then lang0 else langSegs[0],
                 Some(controller),
                 if actionSegs == [] then None else Some(actionSegs[0]),
                 ps)
  {
    var segs := langSegs + [controller] + actionSegs + ps;
    var n := |langSegs|;
    assert segs[n] == controller;
    assert LeadingLanguages(segs, languages) == n;
    if actionSegs != [] {
      assert segs[n + 1] == actionSegs[0];
      assert segs[n + 2..] == ps;
    }
  }

  /** The home link routes to `home`/`index` in its language. */
  lemma HomeLinkRoute(lang: string, defaultLanguage: string, languages: seq<string>)
    requires PlainSegment(lang)
    requires lang == defaultLanguage || lang in languages
    ensures Resolve("/" + Implode(if defaultLanguage != lang then [lang] else [], '/'), languages, defaultLanguage)
         == Route(lang, DefaultController, DefaultAction, [])
  {
    if defaultLanguage != lang {
      LanguageOnlyIsHome(lang, languages, defaultLanguage);
    } else {
      RootIsHome(languages, defaultLanguage);
    }
  }

  /** Routing a link gives back the language, controller, action (`index` when
      none was given) and parameters it was built from. The parts must be
      plain segments, the controller and action free of `-`, the controller
      not a language, the language either the default or a known one, and
      parameters need an action in front of them. */
  lemma LinkRoundTrip(action: string, controller: string, ps: seq<string>, lang: string,
                      request: Route, defaultLanguage: string, languages: seq<string>)
    requires PlainSegment(lang) && PlainSegment(controller)
    requires action == "" || PlainSegment(action)
    requires forall i :: 0 <= i < |ps| ==> PlainSegment(ps[i])
    requires '-' !in controller && '-' !in action
    requires controller !in languages
    requires lang == defaultLanguage || lang in languages
    requires action != "" || ps == []
    ensures Resolve(Link(action, controller, List(ps), lang, request, defaultLanguage), languages, defaultLanguage)
         == Route(lang, controller, if action == "" then DefaultAction else action, ps)
  {
    var langSegs := if defaultLanguage != lang then [lang] else [];
    if controller == DefaultController && (action == "" || action == DefaultAction) && ps == [] {
      assert LinkSegments(action, controller, List(ps), lang, request, defaultLanguage) == langSegs;
      HomeLinkRoute(lang, defaultLanguage, languages);
    } else {
      var actionSegs := if action == "" then [] else [action];
      LinkSegmentsInOrder(action, controller, List(ps), lang, request, defaultLanguage, lang, controller);
      assert LinkSegments(action, controller, List(ps), lang, request, defaultLanguage)
          == langSegs + [controller] + actionSegs + ps;
      PathRoute(langSegs, controller, actionSegs, ps, languages, defaultLanguage);
    }
  }

  /** A path of an optional language, a controller, an optional action and
      parameters, all plain segments, routes back to those parts. */
  lemma PathRoute(langSegs: seq<string>, controller: string, actionSegs: seq<string>, ps: seq<string>,
                  languages: seq<string>, lang0: string)
    requires |langSegs| <= 1 && (forall i :: 0 <= i < |langSegs| ==> langSegs[i] in languages)
    requires controller !in languages && '-' !in controller
    requires |actionSegs| <= 1 && (actionSegs == [] ==> ps == [])
    requires forall i :: 0 <= i < |actionSegs| ==> '-' !in actionSegs[i]
    requires forall i :: 0 <= i < |langSegs + [controller] + actionSegs + ps| ==>
      PlainSegment((langSegs + [controller] + actionSegs + ps)[i])
    ensures Resolve("/" + Implode(langSegs + [controller] + actionSegs + ps, '/'), languages, lang0)
         == Route(if langSegs == [] then lang0 else langSegs[0], controller,
                  if actionSegs == [] then DefaultAction else actionSegs[0], ps)
  {
    var segs := langSegs + [controller] + actionSegs + ps;
    ClassifiedLink(langSegs, controller, actionSegs, ps, languages, lang0);
    ResolveJoined(segs, languages, lang0);
  }
}

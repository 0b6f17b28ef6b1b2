/**
 * The base `Controller`: the request it was built for, the render metadata
 * the templates read, and the link builder `route_url`.
 */
module Controllers {

  import opened Options
  import opened PhpStrings
  import opened Config
  import opened Resolution
  import opened UrlGeneration

  /** The layout used when the configuration names no `master_layout`. */
  const DefaultLayout: string := "views/_layout.php"

  /** Appends the segments `$params` contributes: nothing for NULL, the
      value itself for a scalar, each element in order for an array. */
  method AppendParams(segments: seq<string>, params: Params) returns (r: seq<string>)
    ensures r == segments + ParamSegments(params)
  {
    r := segments;
    match params {
      case NoParams =>
      case List(items) =>
        for i := 0 to |items|
          invariant r == segments + items[..i]
        {
          r := r + [items[i]];
        }
        assert items[..|items|] == items;
      case Scalar(v) =>
        r := r + [v];
    }
  }

  class Controller {
    /** The request the controller serves (`$this->request`). */
    var request: Route
    /** The `action` and `controller` the templates are looked up by. */
    var render: map<string, string>
    var config: Configuration
    var layout: string

    /** Records the route, seeds the render metadata from it and picks up the
        shared configuration (creating a defaults-only one if none exists). */
    constructor (lang: string, controller: string, action: string, params: seq<string>, store: ConfigStore)
      modifies store
      ensures request == Route(lang, controller, action, params)
      ensures "action" in render <==> !Empty(action)
      ensures "controller" in render <==> !Empty(controller)
      ensures render.Keys <= {"action", "controller"}
      ensures "action" in render ==> render["action"] == action
      ensures "controller" in render ==> render["controller"] == controller
      ensures old(store.instance) != null ==> config == old(store.instance)
      ensures old(store.instance) == null ==> fresh(config) && config.BuiltFrom(None)
      ensures store.instance == config
      ensures layout == if config.masterLayout.Some? then config.masterLayout.value else DefaultLayout
    {
      request := Route(lang, controller, action, params);
      render := map[];
      var shared := store.GetInstance(NoSource);
      config := shared;
      layout := if shared.masterLayout.Some? then shared.masterLayout.value else DefaultLayout;
      new;
      SetRenderValues(action, controller);
    }

    /** Sets `render['action']` and `render['controller']`, each only when its
        argument is not empty; every other entry stays as it was. */
    method SetRenderValues(action: string, controller: string)
      modifies this`render
      ensures render.Keys == old(render).Keys
        + (if Empty(action) then {} else {"action"})
        + (if Empty(controller) then {} else {"controller"})
      ensures !Empty(action) ==> render["action"] == action
      ensures !Empty(controller) ==> render["controller"] == controller
      ensures forall k :: k in old(render) && k != "action" && k != "controller" ==> render[k] == old(render)[k]
      ensures Empty(action) && "action" in old(render) ==> render["action"] == old(render)["action"]
      ensures Empty(controller) && "controller" in old(render) ==> render["controller"] == old(render)["controller"]
    {
      if !Empty(action) {
        render := render["action" := action];
      }
      if !Empty(controller) {
        render := render["controller" := controller];
      }
    }

    /** Builds the link to `action` of `controller` with `params` in `lang`;
        an empty `lang` or `controller` means the current request's. */
    method RouteUrl(action: string, controller: string, params: Params, lang: string) returns (url: string)
      ensures url == Link(action, controller, params, lang, request, config.defaultLanguage)
    {
      ghost var spec := LinkSegments(action, controller, params, lang, request, config.defaultLanguage);
      var segments: seq<string> := [];
      var l := lang;
      if Empty(l) {
        l := request.lang;
      }
      if config.defaultLanguage != l {
        segments := segments + [l];
      }
      ghost var langSegs := segments;
      assert langSegs == if config.defaultLanguage != l then [l] else [];
      var c := if Empty(controller) then request.controller else controller;
      if c == DefaultController && (Empty(action) || action == DefaultAction) && ParamsEmpty(params) {
        assert segments == spec;
        return "/" + Implode(segments, '/');
      }
      LinkSegmentsInOrder(action, controller, params, lang, request, config.defaultLanguage, l, c);
      ghost var actionSegs: seq<string> := if Empty(action) then [] else [action];
      segments := segments + [c];
      if !Empty(action) {
        segments := segments + [action];
      }
      assert segments == langSegs + [c] + actionSegs;
      segments := AppendParams(segments, params);
      url := "/" + Implode(segments, '/');
    }
  }
}

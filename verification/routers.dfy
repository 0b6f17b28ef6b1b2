/**
 * The `Router`: resolves a request path into language, controller, action and
 * parameters in its constructor, and dispatches to a controller in `Run`.
 * `Serve` is the front controller that builds a router and runs it.
 */
module Routers {

  import opened Options
  import opened PhpStrings
  import opened Config
  import opened Resolution
  import opened Dispatching
  import opened Controllers

  /** The languages the router recognises: the configured list, or `en`. */
  function RouterLanguages(configured: Option<seq<string>>): seq<string> {
    if configured.Some? then configured.value else [FallbackLanguage]
  }

  class Router {
    var controller: string
    var action: string
    var lang: string
    const languages: seq<string>
    var params: seq<string>
    const config: Configuration

    /** The route the router has settled on. */
    function CurrentRoute(): Route
      reads this
    {
      Route(lang, controller, action, params)
    }

    /** Controller and action name a controller file and a method. */
    predicate Valid()
      reads this
    {
      !Empty(controller) && '-' !in controller && !Empty(action) && '-' !in action
    }

    /** Loads the configuration through the store, then classifies the
        segments of `path` in one left-to-right pass. */
    constructor (path: string, source: ConfigSource, store: ConfigStore)
      modifies store
      ensures store.instance == config
      ensures old(store.instance) != null && source.NoSource? ==> config == old(store.instance)
      ensures old(store.instance) == null || source.Source? ==> fresh(config) && config.BuiltFrom(Loaded(source))
      ensures languages == RouterLanguages(config.languages)
      ensures CurrentRoute() == Resolve(path, languages, config.defaultLanguage)
      ensures Valid()
    {
      var shared := store.GetInstance(source);
      config := shared;
      // `default_language` is always set on a configuration, so it replaces
      // the field's initial "en".
      lang := shared.defaultLanguage;
      languages := RouterLanguages(shared.languages);
      controller, action, params := DefaultController, DefaultAction, [];
      new;
      var segments := Explode(ToLower(Trim(path, '/')), '/');
      var candidate: Option<string> := None;
      var actionCandidate: Option<string> := None;
      for i := 0 to |segments|
        modifies this
        invariant Scan(lang, candidate, actionCandidate, params) == ScanOf(segments[..i], languages, config.defaultLanguage)
        invariant controller == DefaultController && action == DefaultAction
      {
        var seg := segments[i];
        ScanOfPrefix(segments, i, languages, config.defaultLanguage);
        if Skipped(seg) {
          continue;
        }
        if candidate.None? {
          if seg in languages {
            lang := seg;
          } else {
            candidate := Some(seg);
          }
        } else if actionCandidate.None? {
          actionCandidate := Some(seg);
        } else {
          params := params + [seg];
        }
      }
      assert segments[..|segments|] == segments;
      if candidate.Some? {
        controller := ReplaceHyphens(candidate.value);
      }
      if actionCandidate.Some? {
        action := ReplaceHyphens(actionCandidate.value);
      }
      ResolveIdentifiers(path, languages, config.defaultLanguage);
    }

    /** Finds the controller in the registry, builds it for the current route
        and selects the one method to invoke: the action itself, else `index`
        with the action as its first argument, else a 404. */
    method Run(registry: Registry, store: ConfigStore) returns (outcome: Outcome, handler: Controller?)
      requires Valid()
      modifies store
      ensures outcome == Dispatch(registry, CurrentRoute())
      ensures controller !in registry ==> handler == null && store.instance == old(store.instance)
      ensures controller in registry ==> handler != null && fresh(handler)
      ensures handler != null ==>
        && handler.request == (if FallsBack(registry, CurrentRoute()) then CurrentRoute().(action := DefaultAction) else CurrentRoute())
        && handler.render == map["action" := handler.request.action, "controller" := controller]
        && store.instance == handler.config
        && (old(store.instance) != null ==> handler.config == old(store.instance))
      ensures outcome.Invoke? ==> handler != null && outcome.renderAction == handler.render["action"]
    {
      if controller !in registry {
        return NotFound, null;
      }
      var c := new Controller(lang, controller, action, params, store);
      handler := c;
      if HasMethod(registry, controller, action) {
        if action in ProtectedMethods {
          outcome := Inaccessible(action);
        } else {
          outcome := Invoke(action, params, c.render["action"]);
        }
      } else if HasMethod(registry, controller, DefaultAction) {
        c.request := c.request.(action := DefaultAction);
        c.render := c.render["action" := DefaultAction];
        outcome := Invoke(DefaultAction, [action] + params, c.render["action"]);
      } else {
        outcome := NotFound;
      }
    }
  }

  /** The front controller: a router for the request path and the
      configuration file, then one dispatch. */
  method Serve(path: string, loaded: Option<Document>, registry: Registry, store: ConfigStore)
    returns (outcome: Outcome)
    modifies store
    ensures outcome == Dispatch(registry,
      Resolve(path, RouterLanguages(if loaded.Some? then loaded.value.languages else None), DefaultLanguageOf(loaded)))
  {
    var router := new Router(path, Source(loaded), store);
    var handler;
    outcome, handler := router.Run(registry, store);
  }
}

/**
 * The dispatch rule of `Router::run`, over a registry that stands for the
 * controller files and classes the PHP code loads by name.
 */
module Dispatching {

  import opened PhpStrings
  import opened Resolution

  /** Controller name to the names of the methods its class declares. PHP
      matches method names without regard to case and routes are lower-case,
      so the names are kept lower-case. A name is present exactly when
      `controllers/<name>.php` exists. */
  type Registry = map<string, set<string>>

  /** The public methods every controller inherits from the base
      `Controller`; `method_exists` finds these as well. */
  const BaseMethods: set<string> := {
    "__construct", "get", "post", "request_as_json", "view", "partial", "no_cache",
    "json", "json_error", "json_ok", "json_data", "json_session_expired", "json_redirect",
    "not_found", "route_url", "redirect_url", "redirect",
    "render_scripts", "render_styles", "render_body", "get_lang"
  }

  /** The protected method of the base `Controller`: `method_exists` finds it,
      but calling it from the router fails. */
  const ProtectedMethods: set<string> := {"set_render_values"}

  /** `method_exists` on an instance of the controller's class. */
  predicate HasMethod(registry: Registry, controller: string, name: string)
    requires controller in registry
  {
    name in registry[controller] || name in BaseMethods || name in ProtectedMethods
  }

  /** What a request comes to: a 404, one invocation of one handler method
      (with its arguments and the action name the templates will use), or a
      call the PHP runtime refuses because the method is protected. */
  datatype Outcome =
    | NotFound
    | Invoke(handler: string, args: seq<string>, renderAction: string)
    | Inaccessible(handler: string)

  /** Whether the action is not a method but `index` is, so that the action
      becomes the first argument of `index`. */
  predicate FallsBack(registry: Registry, r: Route) {
    && r.controller in registry
    && !HasMethod(registry, r.controller, r.action)
    && HasMethod(registry, r.controller, DefaultAction)
  }

  /** The exact action when the controller has it, otherwise `index` with the
      action in front of the parameters, otherwise a 404; an unregistered
      controller is a 404 straight away. */
  function Dispatch(registry: Registry, r: Route): (o: Outcome)
    ensures o.NotFound? <==>
      r.controller !in registry ||
      (!HasMethod(registry, r.controller, r.action) && !HasMethod(registry, r.controller, DefaultAction))
    ensures o.Invoke? ==>
      && HasMethod(registry, r.controller, o.handler)
      && o.handler !in ProtectedMethods
      && o.renderAction == o.handler
      && |o.args| >= |r.params| && o.args[|o.args| - |r.params|..] == r.params
    ensures o.Invoke? && FallsBack(registry, r) ==> o.handler == DefaultAction && o.args == [r.action] + r.params
    ensures o.Invoke? && !FallsBack(registry, r) ==> o.handler == r.action && o.args == r.params
    ensures o.Inaccessible? ==> o.handler == r.action && r.action in ProtectedMethods
  {
    if r.controller !in registry then NotFound
    else if HasMethod(registry, r.controller, r.action) then
      if r.action in ProtectedMethods then Inaccessible(r.action)
      else Invoke(r.action, r.params, r.action)
    else if HasMethod(registry, r.controller, DefaultAction) then
      Invoke(DefaultAction, [r.action] + r.params, DefaultAction)
    else NotFound
  }

  /** A method the base `Controller` provides is always called as the action
      itself, so such an action name never reaches `index` as an argument. */
  lemma BaseMethodShadowsIndex(registry: Registry, r: Route)
    requires r.controller in registry && r.action in BaseMethods
    ensures Dispatch(registry, r) == Invoke(r.action, r.params, r.action)
  {
    assert r.action !in ProtectedMethods;
  }

  /** The registry of the sample site's `UserController`, which declares only
      `index($id)`. */
  const UserSite: Registry := map["user" := {"index"}]

  /** A path of two plain segments, the first not a language, names a
      controller and an action in the default language. */
  lemma ResolveControllerAction(c: string, a: string, languages: seq<string>, lang0: string)
    requires PlainSegment(c) && PlainSegment(a) && c !in languages
    ensures Resolve("/" + Implode([c, a], '/'), languages, lang0)
         == Route(lang0, ReplaceHyphens(c), ReplaceHyphens(a), [])
  {
    ResolveJoined([c, a], languages, lang0);
    assert LeadingLanguages([c, a], languages) == 0;
  }

  /** `/user/<segment>` is the path of the two segments `user` and `segment`. */
  lemma UserPath(segment: string)
    ensures "/user/" + segment == "/" + Implode(["user", segment], '/')
  {
    assert Implode(["user", segment], '/') == "user" + "/" + segment;
  }

  /** `/user/<segment>` routes to the user controller with action `segment`. */
  lemma UserRoute(segment: string, languages: seq<string>, lang0: string)
    requires PlainSegment(segment) && '-' !in segment
    requires "user" !in languages
    ensures Resolve("/user/" + segment, languages, lang0) == Route(lang0, "user", segment, [])
  {
    UserPath(segment);
    assert PlainSegment("user") && ReplaceHyphens("user") == "user";
    ResolveControllerAction("user", segment, languages, lang0);
  }

  /** `/user/<id>`, for an id that names no method, calls the user
      controller's `index` with the id and renders the `index` template. */
  lemma UserIdFallsBackToIndex(id: string, languages: seq<string>, lang0: string)
    requires PlainSegment(id) && '-' !in id
    requires id !in BaseMethods && id !in ProtectedMethods && id != DefaultAction
    requires "user" !in languages
    ensures Dispatch(UserSite, Resolve("/user/" + id, languages, lang0)) == Invoke(DefaultAction, [id], DefaultAction)
  {
    UserRoute(id, languages, lang0);
    UserSiteEntry();
  }

  lemma UserSiteEntry()
    ensures "user" in UserSite && UserSite["user"] == {DefaultAction}
  {
  }

  /** `/user/<m>`, for a method `m` of the base `Controller` such as `json`,
      calls that inherited method with no arguments rather than
      `index(m)`. */
  lemma UserBaseMethodCalledDirectly(m: string, languages: seq<string>, lang0: string)
    requires PlainSegment(m) && '-' !in m && m in BaseMethods
    requires "user" !in languages
    ensures Dispatch(UserSite, Resolve("/user/" + m, languages, lang0)) == Invoke(m, [], m)
  {
    UserRoute(m, languages, lang0);
    UserSiteEntry();
    BaseMethodShadowsIndex(UserSite, Route(lang0, "user", m, []));
  }
}

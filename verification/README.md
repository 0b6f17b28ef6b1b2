# one-php-mvc router, modelled in Dafny

one-php-mvc is a single-file PHP front controller (`samples/typical/index.php`).
A request path is resolved into a language, a controller, an action and
positional parameters. The controller is looked up by name and one of its
methods is called. Controllers inherit a base class whose `route_url` builds
links back into the same scheme. A `Configuration` singleton, loaded from a
JSON file, supplies the default language, the recognised languages, the
include files and the master layout.

The project models these parts:

- `Config`: the `Configuration` object and the cached instance behind
  `get_instance`. The cache is a `ConfigStore` object whose `instance` field
  plays the part of the PHP `static $instance`.
- `Resolution`: the meaning of the router's segment loop. `ScanOf` is the
  loop as a fold. `Classified` is a closed form: the leading language
  segments, the last of which wins, then the controller, the action and the
  parameters. The lemmas connect the two and derive routing facts from them.
- `Routers`:
  - the imperative `Router` class. Its constructor runs the loop and is
    proved to produce `Resolve(path, …)`. `Run` dispatches.
  - `Serve`: the front controller, which builds a router and runs it.
- `Dispatching`: what `run` does once the route is known, over a registry
  (controller name → names of its declared methods). Lookup sees the
  inherited base-controller methods as well, as `method_exists` does. It
  yields `NotFound`, `Invoke(handler, args, renderAction)`, or `Inaccessible`
  for the protected `set_render_values`.
- `Controllers`: the base `Controller`, meaning its constructor,
  `set_render_values` and the `route_url` loop.
- `UrlGeneration`: the link `route_url` builds (`Link`) and the round trip
  `Resolve(Link(…)) == Route(…)`.
- `PhpStrings`: the PHP string primitives the core uses:
  - `empty()` on strings, where `"0"` is empty;
  - ASCII `strtolower`;
  - `trim` with one character;
  - `explode` and `implode`, with their round trip;
  - `str_replace('-', '_', …)`.

Three places where the code and its usual description differ follow the
code:

- `/Users/index.php/ABOUT/` yields the segments `["users", "about"]`
  (`ScriptNameAndCaseExample`). Only `index.php` and empty segments are
  dropped, so `users` is kept as the controller.
- Every language segment before the controller is taken, not only the
  first, and the last one wins (`LastLeadingLanguageWins`).
- A method inherited from the base `Controller`, such as `json`, is routable
  as an action (`UserBaseMethodCalledDirectly`).

## Model

| member | source | states |
|---|---|---|
| PhpStrings.ToLower | samples/typical/index.php:92 | `strtolower` keeps the length, maps each ASCII upper-case letter to its lower-case letter and leaves all else alone; lower-case input is unchanged |
| PhpStrings.TrimStart | samples/typical/index.php:92 | the result is a suffix of the input; everything removed is the trimmed character; the result does not start with it |
| PhpStrings.TrimEnd | samples/typical/index.php:92 | the result is a prefix of the input; everything removed is the trimmed character; the result does not end with it |
| PhpStrings.Explode | samples/typical/index.php:93 | `explode` yields at least one piece, no piece holds the separator, and imploding the pieces gives back the input |
| PhpStrings.ExplodeImplode | samples/typical/index.php:93 | exploding the implosion of one or more separator-free pieces gives back the pieces |
| PhpStrings.ExplodeAfterPiece | samples/typical/index.php:93 | exploding a piece, the separator and a rest yields the piece followed by the explosion of the rest |
| PhpStrings.ExplodeSingle | samples/typical/index.php:93 | a string without the separator explodes into itself alone |
| PhpStrings.ReplaceHyphens | samples/typical/index.php:118-124 | `-` becomes `_` position by position, nothing else changes, no `-` remains, and a string is `empty()` after replacement exactly when it was before |
| Config.Configuration.constructor | samples/typical/index.php:19-41 | a configuration holds exactly the keys of the loaded document; `default_language` is the document's own, or `en` when the document is missing, unreadable or leaves it unset |
| Config.ConfigStore.constructor | samples/typical/index.php:52 | the cached instance starts out absent |
| Config.ConfigStore.GetInstance | samples/typical/index.php:51-57 | with no file argument an existing instance is returned unchanged; otherwise a fresh instance is built from the source; either way the result is the cached instance |
| Resolution.Meaningful | samples/typical/index.php:98-101 | the segments kept are exactly the non-skipped ones; with nothing to skip, the list is unchanged |
| Resolution.LeadingLanguages | samples/typical/index.php:102-105 | counts the language segments at the head of the list: all of those are languages and the next one is not |
| Resolution.LeadingLanguagesAppend | samples/typical/index.php:98-116 | appending a segment adds one leading language only when every earlier segment was a language and the new one is too |
| Resolution.ScanOfMeaningful | samples/typical/index.php:99-101 | empty segments and `index.php` make no difference to the loop's outcome |
| Resolution.ClassifiedStep | samples/typical/index.php:98-116 | one more unskipped segment changes the closed form exactly as one iteration of the loop changes its state |
| Resolution.ScanOfClassified | samples/typical/index.php:98-116 | on unskipped segments the loop's state equals the closed form: the last leading language, then controller, action and parameters in that order |
| Resolution.ResolveClassified | samples/typical/index.php:91-124 | the route of any path is the closed form applied to its meaningful segments |
| Resolution.ResolveIdentifiers | samples/typical/index.php:118-124 | every resolved controller and action is non-empty and free of `-` |
| Resolution.ClassifiedIdentifiers | samples/typical/index.php:118-124 | on unskipped segments the closed form's controller and action are non-empty and free of `-` |
| Resolution.ResolveJoined | samples/typical/index.php:92-116 | a path `/` + plain lower-case segments joined by `/` has exactly those segments and resolves by the closed form |
| Resolution.RootIsHome | samples/typical/index.php:68-69 | the empty path and `/` resolve to `home`/`index` in the default language |
| Resolution.LanguageOnlyIsHome | samples/typical/index.php:102-105 | a path of one language segment resolves to `home`/`index` in that language |
| Resolution.LastLeadingLanguageWins | samples/typical/index.php:102-105 | two language segments before the controller are both consumed and the second one sets the language |
| Resolution.ControllerNeverLanguage | samples/typical/index.php:102-108 | when no language contains `_`, the only way a configured language can be the controller is through the default `home` |
| Resolution.ScriptNameAndCaseExample | samples/typical/index.php:92-101 | `/Users/index.php/ABOUT/` yields the segments `users`, `about` |
| Resolution.ScriptNameAndCaseRoute | samples/typical/index.php:81-125 | `/Users/index.php/ABOUT/` routes to controller `users`, action `about` in the default language |
| Resolution.LanguageControllerActionRoute | samples/typical/index.php:81-125 | with `fr` a language, `/fr/about/team` routes to `fr`, `about`, `team` with no parameters |
| Routers.Router.constructor | samples/typical/index.php:81-125 | the router takes the shared configuration (falling back to `en`, then to `["en"]`), and its loop leaves exactly the route `Resolve` describes; controller and action are identifiers |
| Routers.Router.Run | samples/typical/index.php:131-165 | the outcome is `Dispatch` of the current route; an unregistered controller is a 404 with no controller built; otherwise a fresh controller is built whose request and render action say `index` exactly when the call fell back to it |
| Routers.Serve | samples/typical/index.php:3-4 | serving a path with a loaded configuration document comes to one dispatch of the route resolved with that document's languages and default language |
| Dispatching.Dispatch | samples/typical/index.php:140-164 | a 404 happens exactly when the controller is missing or has neither the action nor `index`; otherwise an existing method is called, either the action with the parameters or `index` with the action put before them, and the render action is the method called |
| Dispatching.BaseMethodShadowsIndex | samples/typical/index.php:152-153 | an action named like a public base-controller method is always called itself, never passed to `index` |
| Dispatching.ResolveControllerAction | samples/typical/index.php:102-112 | a two-segment path whose first segment is not a language names controller and action, even when the second segment is a language |
| Dispatching.UserRoute | samples/typical/index.php:92-124 | `/user/<segment>`, for a plain segment without `-`, routes to controller `user` with that action in the default language |
| Dispatching.UserIdFallsBackToIndex | samples/typical/controllers/user.php:4-13 | `/user/<id>`, for an id such as `42` that names no method, calls the user controller's `index` with the id and renders `index` |
| Dispatching.UserBaseMethodCalledDirectly | samples/typical/index.php:152-153 | `/user/<m>`, for a public base-controller method `m` such as `json`, calls `m` with no arguments instead of `index(m)` |
| Controllers.Controller.constructor | samples/typical/index.php:188-200 | the controller records the route, seeds `render` with the non-empty action and controller, takes the shared configuration without replacing it, and uses `master_layout` when it is set |
| Controllers.Controller.SetRenderValues | samples/typical/index.php:245-252 | `render['action']` and `render['controller']` are set exactly for the non-`empty()` arguments; every other entry is unchanged |
| Controllers.AppendParams | samples/typical/index.php:389-398 | the loop appends exactly the segments of `$params`: none for NULL, the value for a scalar, every element in order for an array |
| Controllers.Controller.RouteUrl | samples/typical/index.php:366-400 | the loop builds exactly `Link` of its arguments, the current request and the default language |
| UrlGeneration.Link | samples/typical/index.php:366-400 | every generated link is an absolute path starting with `/` |
| UrlGeneration.HomeLink | samples/typical/index.php:379-382 | the home link is `/` in the default language and `/<lang>` otherwise, whatever the current request |
| UrlGeneration.ClassifiedLink | samples/typical/index.php:384-398 | routing on the segments of a non-home link reads back its language, controller, action and parameters |
| UrlGeneration.HomeLinkRoute | samples/typical/index.php:379-382 | the home link of a known language routes to `home`/`index` in that language |
| UrlGeneration.PathRoute | samples/typical/index.php:384-399 | a link path of an optional language, a controller, an optional action and parameters routes back to exactly those parts |
| UrlGeneration.LinkRoundTrip | samples/typical/index.php:366-400 | routing a generated link gives back the route it was built from (`index` when no action was given) |

## Left out

- `parse_url` is not modelled. The router is given the path component of the request URI directly.
- Reading the configuration file, decoding its JSON and the warnings raised on failure are not modelled. The constructor receives the parsed document, or `None` when reading or decoding failed.
- Configuration keys other than `default_language`, `languages`, `includes` and `master_layout` (such as `meta`) are not modelled. Neither are values of other JSON types under these keys.
- The include files listed in `includes` are not loaded (`run`, index.php:133-137). Including is I/O.
- Including `controllers/<name>.php` and instantiating `<Name>Controller` by name are replaced by the registry. A controller file that lacks its class is not modelled, because it ends in a fatal error.
- Which method a handler runs, and what it does, is not modelled. `Invoke` names the call and its arguments.
- PHP's loose `==` and `in_array` treat numeric strings such as `"1"` and `"01"` as equal. This is not modelled: language and method comparisons are exact string equality on lower-case names.
- `strtolower` is modelled as ASCII-only and locale-independent.
- `header`, `exit`, `no_cache`, the `json*` helpers, `not_found`, `redirect_url` and `redirect` are not modelled. They are output and process control. Their names are still listed so that dispatch finds them.
- `get`, `post` and `request_as_json` are not modelled, because they read request globals.
- `view`, `partial` and `render_*` are not modelled, because they include templates and print. Their effect on `render` is the modelled `SetRenderValues`.
- `get_lang` is not modelled, because it reads language files.
- `meta`, `model`, `scripts` and `styles` are left out of `Controller`. `$this->meta` is copied from the configuration, which is outside the modelled keys.
- Concurrency around the singleton is not modelled. A PHP request runs on one thread.
- `RouteUrl` and `Link` take string parameters only. PHP would also accept numbers and objects.
- `views/_layout.php` is not part of this model beyond its calls to `route_url`.
- Routers.RouterLanguages carries no contract of its own. The router constructor states its role.
- UrlGeneration.LinkRoundTrip is stated only for links whose parts are plain lower-case segments and whose controller is not a language. Parameters need an action in front of them. Other links do not route back, because the router lower-cases segments, skips empty segments and `index.php`, and reads a language-named controller as the language.

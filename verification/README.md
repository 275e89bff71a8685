# Canteen client navigation core, modelled in Dafny

Canteen is a small client-side framework. It turns a server-rendered site
into an asynchronous one. The navigation coordinator `Canteen.Site` has
these jobs:

- keep the current state (the uri of the page shown);
- choose the page handler registered for a uri;
- issue content requests and ignore stale responses;
- drive the browser history;
- fire its lifecycle events (`enter`, `exit`, `ready`, `loading`, `loadingDone`).

Around it sit the pieces it depends on:

- the event dispatcher it inherits from;
- the `Page` handler defaults;
- the JSON gateway that builds request URLs and classifies responses;
- the query-string parser;
- the cookie helper `SavedData`;
- the formatting of fatal server errors;
- the `internalLink` jQuery plugin, which decides which links are bound and selected.

The model is a set of pure functions over immutable records:

- `Site.Coordinator` holds the module state of `src/Site.js`.
- Every public method and every callback is a transition. It returns the new record and a trace of `Site.Effect`s: events fired, handler calls, history and location changes, posts and log lines.
- A page request has two steps. `Site.UpdatePageContent` issues it. `Site.Deliver` is its response arriving later, possibly after other steps.
- `SiteProperties.Apply` is the step relation over all operations, and `SiteProperties.Run` folds it from the initial state.
- An invariant (`SiteProperties.Inv`) holds in every reachable state.

Outside facts are parameters, all inside `Site.Env` or passed to the functions:

- each handler's `refresh` answer;
- `RegExp#test` for registered patterns;
- the links each served document holds, and whether a regular-expression source compiles;
- `JSON.parse`;
- the document title;
- `history.pushState` support;
- the clock and the date formatter.

JavaScript values that matter to the control flow are modelled explicitly:

- `Js.Value` is null, undefined or a string;
- loose equality treats `null == undefined` as true;
- `String(null)` is `"null"`;
- truthiness;
- `split`, `indexOf`, `substr` and `join`, with their edge cases.

Modules:

| module | file | source |
|---|---|---|
| `Js` | js.dfy | JavaScript values and string built-ins |
| `EventDispatcher` | event_dispatcher.dfy | dist/canteen.js, `Canteen.EventDispatcher` |
| `Debug` | debug.dfy | src/Debug.js |
| `Gateway` | gateway.dfy | src/Canteen/Gateway.js, dist/canteen.js |
| `LocationUtils` | location_utils.dfy | src/utils/LocationUtils.js |
| `SavedData` | saved_data.dfy | src/Canteen/Utilities/SavedData.js |
| `InternalLink` | internal_link.dfy | src/plugins/InternalLink.js |
| `Page` | page.dfy | src/Canteen/Page.js |
| `Site` | site.dfy | src/Site.js |
| `SiteProperties` | site_properties.dfy | src/Site.js (properties across steps) |

The two gateway sources disagree. src/Canteen/Gateway.js:90 formats
`data.errors` for a fatal response. The 1.2.0 build, dist/canteen.js:892,
formats `data`, and so does the page-content callback at src/Site.js:567.
The model follows the build and records the source version as a finding below.

## Model

| member | source | states |
|---|---|---|
| EventDispatcher.CallbackIndex | dist/canteen.js:199-209 | -1 exactly when the callback is not registered under the name; otherwise the first position that holds it |
| EventDispatcher.RegisterSpec | dist/canteen.js:102-107 | one registration creates the name's list if missing and appends the callback only if it is absent; every other name keeps its list |
| EventDispatcher.RegisterAllSpec | dist/canteen.js:96-109 | `on(s, fn)` gives every space-separated name of `s` the callback once, at the end of its list, and leaves names outside `s` untouched |
| EventDispatcher.OnIdempotent | dist/canteen.js:82-119 | registering the same function twice leaves the table as registering it once |
| EventDispatcher.RegisterAllWellFormed | dist/canteen.js:102-107 | registration keeps every listener list free of duplicates |
| EventDispatcher.OnCallbackFlattens | dist/canteen.js:111-117 | `on(s, array)` registers the functions of the (possibly nested) array one after another in array order |
| EventDispatcher.OnEachFlattens | dist/canteen.js:111-117 | the array loop of `on` equals registering the flattened list of its elements' functions |
| EventDispatcher.OnTableSequential | dist/canteen.js:85-94 | `on(map)` registers its keys in order, each key after all keys before it; the callback argument is ignored |
| EventDispatcher.OffAllEmpties | dist/canteen.js:131-134 | `off()` with no name leaves the dispatcher with an empty table of its own, whatever the callback |
| EventDispatcher.OffNameEmpties | dist/canteen.js:145-155 | `off(name)` for one name empties that name's list, does not throw, and keeps every other name's list |
| EventDispatcher.OffNameRemoves | dist/canteen.js:156-163 | `off(name, fn)` for one name removes the first occurrence of `fn` and keeps the other listeners in order; if `fn` is absent the list is unchanged; in a duplicate-free table `fn` is gone afterwards |
| EventDispatcher.OffSeveralNamesThrows | dist/canteen.js:145-163 | with several names, `off(names, fn)` throws exactly when `fn` is registered under one of the names: the splice goes to `_listeners[name]` under the whole space-joined argument, and no list is registered under it |
| EventDispatcher.OffNamesThrows | dist/canteen.js:145-163 | the loop over the names throws exactly when `fn` is registered under one of the remaining names, as long as none of them is the whole argument |
| EventDispatcher.Trigger | dist/canteen.js:60-71 | every listener of the type is called with the payload, in registration order; each registered callback is called exactly once; a type with no list calls nothing |
| Debug.FatalError | src/Debug.js:14-25 | the text built in the loop is the header `message\non file (code: code)\n` followed by one numbered line per stack frame; it is the header alone without a stack trace |
| Debug.FrameNumbering | src/Debug.js:19-22 | frame `j` is printed as number `j + 1`, after all earlier frames and before all later ones |
| Debug.BoomExample | src/Debug.js:16-22 | a worked example with two frames, numbered `#1` and `#2` |
| Gateway.SniffSearch | src/Canteen/Gateway.js:81 | `response.search(/^{.*}$/)`, run as greedy matching with backtracking, returns 0 exactly when the text starts with `{`, ends with `}` and has no line terminator, and -1 otherwise |
| Gateway.Classify | src/Canteen/Gateway.js:76-93 | a response is no-data iff falsy or `"null"`; malformed iff it fails the object sniff; otherwise it is what `JSON.parse` gives, split into fatal (`type == 'fatalError'`), data, or a parse failure |
| Gateway.NormalizeUrl | src/Canteen/Gateway.js:39-44 | the gateway URL always ends with `/`; a URL that already does is unchanged, any other gains exactly one `/` |
| Gateway.NormalizeUrlIdempotent | src/Canteen/Gateway.js:39-44 | normalising twice is normalising once |
| Gateway.RequestUrl | src/Canteen/Gateway.js:66-70 | the request URL starts with `gateway + service + '/' + method`, and is exactly that when the parameters are omitted or `undefined`; any other parameters add a `/` and their text |
| Gateway.RequestUrlSegments | src/Canteen/Gateway.js:66-70 | after the gateway prefix, splitting the request URL on `/` gives back the service, the method and the array parameters, when none of them contains `/` |
| Gateway.RequestUrlNoParams | src/Canteen/Gateway.js:66-67 | without parameters, the tail of the request URL splits back into exactly the service and the method |
| Gateway.Get | dist/canteen.js:866-897 | the callback gets null for no data, a malformed body or a fatal error, and the parsed object otherwise. It runs unless `JSON.parse` throws. The malformed body is logged, and so is the formatted fatal error |
| Gateway.GetAsWritten | src/Canteen/Gateway.js:64-96 | as written in the source, a fatal payload without an `errors` field aborts the handler before the callback and logs nothing; one with `errors` logs the formatted `errors` (where the build formats the whole payload) and calls back with null; every response that is not fatal is handled as in the build |
| Gateway.AsWrittenDropsCallback | src/Canteen/Gateway.js:88-93 | for the documented fatal payload, the source's handler never calls back, while the build's handler calls back with null |
| Gateway.Bootstrap | src/Canteen/Gateway.js:46-53 | the ready callback runs exactly when a parsed object whose type is not `error` is delivered, and then always with `true`; otherwise the bootstrap throws |
| Gateway.ReadyMeansData | src/Canteen/Gateway.js:46-53 | the ready callback is reached only from a parsed data response whose type is not `error`, and then the response handler logs nothing |
| Gateway.Initialize | src/Canteen/Gateway.js:37-54 | the gateway URL is normalised and the bootstrap request goes to `time/get-server-time` under it |
| Gateway.BootstrapIgnoresFatalVariant | src/Canteen/Gateway.js:46-53 | at start-up it makes no difference whether the fatal branch formats `data` or `data.errors`: the ready callback is reached in exactly the same cases |
| LocationUtils.QueryText | src/utils/LocationUtils.js:40-42 | the query text is a prefix of what follows the first `?` and contains no `#` |
| LocationUtils.Parse | src/utils/LocationUtils.js:38 | an address without `?` has no parameters |
| LocationUtils.PairSpec | src/utils/LocationUtils.js:47-52 | a piece maps the text before its first `=` to the text between the first and second `=`; a piece without `=` is a key with an undefined value |
| LocationUtils.AssignKeys | src/utils/LocationUtils.js:45-53 | after the assignments a key is present exactly when it was before or some piece has it, except that `__proto__` never becomes a key |
| LocationUtils.AssignLastWins | src/utils/LocationUtils.js:45-53 | a key other than `__proto__` takes the value of the last piece that has it |
| LocationUtils.ParseSpec | src/utils/LocationUtils.js:27-55 | a parameter is present iff it is not `__proto__` and some `&`-piece of the query has it as key, and its value is that of the last such piece |
| LocationUtils.ProtoNeverParameter | src/utils/LocationUtils.js:52 | `?__proto__=x` never adds a parameter: the assignment goes to the prototype setter, which ignores a string or undefined value |
| LocationUtils.QueryTextOf | src/utils/LocationUtils.js:40-42 | the query text is exactly what lies between the first `?` and the first `#` after it |
| LocationUtils.EmptyQuery | src/utils/LocationUtils.js:38-53 | an address ending in `?`, or with `?` directly before `#`, yields one parameter: the empty key with an undefined value |
| LocationUtils.ExampleQuery | src/utils/LocationUtils.js:27-55 | `http://x/y?a=1&b=2#frag` yields `a=1` and `b=2` and drops the fragment |
| SavedData.Expiry | src/Canteen/Utilities/SavedData.js:52-62 | a cookie is a session cookie iff `days` is omitted or 0; `neverExpire` gives the fixed end of 32-bit time; a number of days is added to now in milliseconds |
| SavedData.ReadOwnAssignment | src/Canteen/Utilities/SavedData.js:49-90 | reading `name` back from the assignment text `write` builds gives `value`, for a name and value without `;` and a name that does not start with a space. This is about the text only, not about the cookie jar |
| SavedData.FirstSegmentValue | src/Canteen/Utilities/SavedData.js:83-89 | when the first `;`-segment is `name=value`, the value found is `value` |
| SavedData.ClearExpiresInPast | src/Canteen/Utilities/SavedData.js:35-38 | `clear` writes an empty value that expired one day before now |
| SavedData.NeverExpireIgnoresClock | src/Canteen/Utilities/SavedData.js:54-57 | writing with `neverExpire` does not depend on the clock |
| SavedData.StripLeadingSpaces | src/Canteen/Utilities/SavedData.js:86 | the stripped segment does not start with a space and is no longer than the segment |
| SavedData.StripLeadingSpacesSuffix | src/Canteen/Utilities/SavedData.js:86 | the stripped segment is what is left of the segment after removing a run of spaces at its front |
| SavedData.HoldsIsPrefix | src/Canteen/Utilities/SavedData.js:87 | `indexOf(name + "=") === 0` on the stripped segment holds exactly when the segment starts with `name=` |
| SavedData.FirstHolding | src/Canteen/Utilities/SavedData.js:83-88 | none iff no segment from `from` on holds `name=`; otherwise the first segment that does |
| SavedData.FirstValue | src/Canteen/Utilities/SavedData.js:83-89 | null iff no segment holds `name=`; otherwise the text after `name=` in the first segment that does |
| SavedData.Read | src/Canteen/Utilities/SavedData.js:77-90 | `read` gives null exactly when no `;`-segment of the cookie text holds `name=` |
| SavedData.LongerNameDoesNotMatch | src/Canteen/Utilities/SavedData.js:79-87 | a name is not found through a longer name it prefixes: reading `a` from `ab=1` gives null |
| SavedData.ReadSingle | src/Canteen/Utilities/SavedData.js:77-90 | reading a cookie text that is exactly `name=value` gives `value` |
| SavedData.ReadFirstWins | src/Canteen/Utilities/SavedData.js:83-88 | with two segments for the same name, the first one's value is returned |
| InternalLink.ProtocolScanIsTest | src/plugins/InternalLink.js:48 | the letter-run scan agrees with `/^([a-z]{3,}\:)/i` on every href |
| InternalLink.BindSpec | src/plugins/InternalLink.js:27-86 | a missing href throws. A link is skipped exactly when its href is empty, outside the base path or starts with a protocol. Otherwise its uri is the href after the base path, and it is bound when the parent pattern `^uri(/.*)?$` compiles, while `new RegExp` throws on it when the pattern does not. A bound link is selected iff it is the current page, a parent of the state, or the index with an empty state, and its class is `data-selected` or `selected` |
| InternalLink.BindAll | src/plugins/InternalLink.js:27-87 | the plugin handles the links in document order and stops at the first that throws: no handled link before the last throws, and fewer handled links than links means the last one threw |
| InternalLink.BindAllThrows | src/plugins/InternalLink.js:27-87 | the plugin throws on a list of links exactly when some link, handled on its own, throws |
| InternalLink.BindAllFirstAbort | src/plugins/InternalLink.js:27-87 | when link `i` is the first that throws, exactly the links up to `i` are handled and the exception is link `i`'s |
| InternalLink.BadPatternExample | src/plugins/InternalLink.js:78 | `/c++` under the base path `/` makes `new RegExp` throw on `^c++(/.*)?$`: the plugin stops at that link and never reaches the links after it |
| InternalLink.PrefixIsIndexZero | src/plugins/InternalLink.js:36 | `indexOf(basePath) === 0` is exactly "starts with the base path" |
| InternalLink.OnClick | src/plugins/InternalLink.js:16-75 | a `confirm` link asks with its `data-confirm` title or the default; a declined confirmation does nothing; otherwise a reload link navigates to the href and any other link soft-redirects to its uri |
| InternalLink.SelectedForChildren | src/plugins/InternalLink.js:78-86 | a link is selected on its own uri and on every state below `uri/` |
| InternalLink.SiblingNotParent | src/plugins/InternalLink.js:78-82 | a state that merely extends the uri without a `/` is not matched by the parent pattern |
| InternalLink.EmptyStateSelectsIndex | src/plugins/InternalLink.js:81-83 | with an empty state only the index link (or an empty uri) is selected |
| InternalLink.ProtocolSkipped | src/plugins/InternalLink.js:46-55 | an href that starts with a scheme is never bound |
| InternalLink.MissingHrefThrows | src/plugins/InternalLink.js:31-36 | a missing href throws in `substr` before the base-path check |
| Page.New | src/Canteen/Page.js:21-34 | a new page is not attached to a site, not active, and has a null uri |
| Page.Default | src/Canteen/Page.js:62-66 | the default `refresh` answers true for every uri |
| Site.Initial | src/Site.js:43-85 | before construction there is no instance, no current page, no registered page and no handler |
| Site.GetPageByUri | src/Site.js:462-483 | null iff no record matches; otherwise the first record in insertion order that matches, by strict equality for a string or by `test` for a RegExp |
| Site.AddPage | src/Site.js:421-435 | a `Page` is attached and appended to the registry and nothing else changes. An already adopted handler keeps its fields and is only marked attached; a new one is a fresh page with its `refresh`, marked attached. Anything else only logs the warning |
| Site.Resize | src/Site.js:407-413 | `resize` reaches the current page exactly when it exists and is active |
| Site.EnterPage | src/Site.js:442-454 | the first matching handler becomes the current page: its uri is set to the state, it is active, it is entered and resized. ENTER is fired with the state in every case. Other handlers are unchanged |
| Site.PostParams | src/Site.js:529-530 | the posted parameters always carry `async`, and keep every caller parameter besides it |
| Site.UpdatePageContent | src/Site.js:492-512 | EXIT fires first with the old state, then the state becomes `uri`. If the current handler matches `uri` and refuses a refresh, only its uri is updated and its `refresh` call is the one other effect; the last request is kept. Otherwise the request branch `Site.Issue` runs |
| Site.RefreshCall | src/Site.js:508 | `refresh(uri)` is called, on the current page, exactly when the first page matching `uri` is the current one |
| Site.Issue | src/Site.js:514-543 | the old page, if any, is exited and deactivated and no page is current; the state and the last request become `uri`; EXIT is the first effect and the post to `baseUrl + uri` the last; every other handler and every other field of the site is unchanged |
| Site.PostEffects | src/Site.js:514-543 | the effects after EXIT include the old page's `exit()`, end with the post, and never touch the history |
| Site.RedirectPath | src/Site.js:275-287 | the location starts with the base path and adds the uri as a string unless it loosely equals the site index, so a `null` uri adds the text `null` |
| Site.Refresh | src/Site.js:331-338 | an asynchronous refresh with history on reissues the current state; otherwise the document is reloaded and the site is unchanged |
| Site.Redirect | src/Site.js:273-323 | for a uri loosely equal to the current state: nothing, or a refresh when allowed. For another uri: exactly one effect, which pushes a new history id, replaces the current entry, or navigates when history is off; the site state is otherwise unchanged |
| Site.OnStateChange | src/Site.js:357-372 | a history change to the current uri does nothing; any other change requests the uri read from the history URL |
| Site.Deliver | src/Site.js:543-585 | a response for a uri other than the last request is ignored. Otherwise LOADING_DONE fires and loading ends first, and what follows is `Site.Respond` on the classified response, with the last request cleared |
| Site.DeliverNotData | src/Site.js:545-569 | an accepted response that is not page data clears the last request and, after LOADING_DONE and the loading end, logs `No data for` the uri, logs the malformed body, throws from `JSON.parse`, or logs the formatted fatal error |
| Site.DeliverRedirect | src/Site.js:571-575 | an accepted redirect clears the last request and then does exactly what `redirect(uri, true)` does |
| Site.DeliverPage | src/Site.js:577-584 | accepted page data is LOADING_DONE and the loading end followed by `Site.ApplyPage` on the site with the last request cleared |
| Site.Respond | src/Site.js:548-584 | by the classification of an accepted response: no data, a malformed body, a fatal error or a parse failure each give their one log line or throw and keep the site; a present `redirect`, `null` included, is followed; page data without one is `Site.ApplyPage` |
| Site.ApplyPage | src/Site.js:577-584 | the content is applied and `_fixInternalLinks` runs. When it throws (a link the plugin cannot handle, or `parameters` never set) the site is unchanged and the exception is the last effect; otherwise the page for the state is entered after it |
| Site.FixLinks | src/Site.js:345-350 | `_fixInternalLinks` throws exactly when a link of the document stops the plugin or `parameters` was never set; when no link stops the plugin the exception is the `parameters` error |
| Site.LinksThrowIff | src/Site.js:348 | the internal-link plugin throws on a document exactly when some link of it, handled on its own, throws |
| Site.FixLinksFirstAbort | src/Site.js:348-349 | when link `i` is the first the plugin cannot handle, `_fixInternalLinks` throws that link's exception and the forms set-up is not reached |
| Site.FixLinksWithoutParameters | src/Site.js:348-349 | without `parameters`, `_fixInternalLinks` always throws: the `parameters` error unless a link stops the plugin first |
| Site.NullRedirect | src/Site.js:571-575 | a payload with `redirect: null` takes the redirect branch. Against a string state it replaces the history entry with the base path followed by `null`; against a null or undefined state it does nothing. The page is not shown in either case |
| Site.RedirectNotRefresh | src/Site.js:572-576 | the redirect a response asks for never refreshes: at most one effect and no state change |
| Site.Initialize | src/Site.js:209-222 | a second construction throws and changes nothing. A disabled client only records the instance. Otherwise the site starts (`Site.Start`) |
| Site.Start | src/Site.js:223-246 | the state is the requested uri with id 1, `parameters` is the parsed address, and history follows browser support. With history on and a document link the plugin cannot handle, `_fixInternalLinks` throws before the gateway exists: the gateway URL is unchanged and the exception ends the effects. Otherwise the gateway URL is the normalised gateway path and the effects are the start sequence of `Site.StartEffectsOrder`. Registry, handlers and current page are untouched |
| Site.StartAbortsWithoutGateway | src/Site.js:237-246 | a construction with history on, over a document holding a link the plugin cannot handle, ends in that exception with no gateway and no bootstrap request |
| Site.EnableHistory | src/Site.js:255-261 | history is enabled exactly as asked, the state-change binding is redone, and nothing else changes |
| Site.StartEffectsOrder | src/Site.js:222-246 | construction shows the site loading first, fixes internal links iff history is supported, and ends with the bootstrap request to `time/get-server-time` under the normalised gateway URL |
| Site.ReadyEffects | src/Site.js:392-400 | READY is fired and the effects of `_enterPage` follow it directly; the ready sequence logs no error and exits no page |
| Site.GatewayReady | src/Site.js:380-401 | `_gatewayReady` logs the gateway error iff `success` is false, then fires READY and enters the page for the current state |
| Site.GatewayReadyLogsFailureOnly | src/Site.js:380-401 | the gateway error is logged iff `success` is false, and `_gatewayReady` never exits a page |
| Site.Boot | src/Site.js:243-246 | the bootstrap response either throws and leaves the site unchanged, or enters the page for the current state and fires READY without a gateway error |
| SiteProperties.InitialInv | src/Site.js:43-85 | the initial module state satisfies the invariant |
| SiteProperties.FirstMatchStable | src/Site.js:462-483 | appending a record does not change the first match of a uri that already had one |
| SiteProperties.AddPagePreservesInv | src/Site.js:421-435 | `addPage` preserves the invariant |
| SiteProperties.EnterPagePreservesInv | src/Site.js:442-454 | `_enterPage` preserves the invariant |
| SiteProperties.UpdatePreservesInv | src/Site.js:492-526 | issuing a request preserves the invariant, on both the short-circuit and the loading path |
| SiteProperties.ShortCircuitPreservesInv | src/Site.js:508-512 | the short circuit, which only updates the current handler's uri, preserves the invariant |
| SiteProperties.LoadingPreservesInv | src/Site.js:514-526 | the loading path, which exits and drops the current page, preserves the invariant |
| SiteProperties.RedirectPreservesInv | src/Site.js:273-323 | `redirect` preserves the invariant |
| SiteProperties.DeliverPreservesInv | src/Site.js:543-585 | a response, accepted or stale, preserves the invariant |
| SiteProperties.BootPreservesInv | src/Site.js:380-401 | the bootstrap response preserves the invariant |
| SiteProperties.ApplyPreservesInv | src/Site.js:209-586 | every method and callback preserves the invariant |
| SiteProperties.Run | src/Site.js:209-586 | every state reachable from construction by any sequence of steps satisfies the invariant |
| SiteProperties.AtMostOneActive | src/Site.js:442-454 | in every reachable state at most one page is active |
| SiteProperties.StaleResponseIgnored | src/Site.js:545 | after requests for `a` and then `b`, the response for `a` has no effect |
| SiteProperties.UriGuardAcceptsFirstOfRepeated | src/Site.js:545-546 | after requests for `a`, `b` and `a` again, a response for `a` is accepted, even if it answers the first request for `a` |
| SiteProperties.RequestArmsGuard | src/Site.js:525-546 | the response to a request that did not short-circuit is accepted when it arrives before any other request: LOADING_DONE is its first effect |
| SiteProperties.DisabledClientPageDataThrows | src/Site.js:221-227 | a construction with the client disabled, `refresh(true)` and page data in answer end with the content applied and `_fixInternalLinks` throwing: the `parameters` error unless a link of the new document stops the plugin first. No page is entered or current and the last request is cleared |
| SiteProperties.DeliverWithoutParameters | src/Site.js:577-584 | page data for the awaited request, with `parameters` never set, applies the content and then `_fixInternalLinks` throws (the `parameters` error unless a link stops the plugin first); the site is unchanged |
| SiteProperties.DeliverClearsLastRequest | src/Site.js:546 | an accepted response clears the last request |
| SiteProperties.AcceptedResponseDisarms | src/Site.js:545-546 | after an accepted response, a second response for the same string uri is ignored |
| SiteProperties.UndefinedRequestNeverDisarms | src/Site.js:545-546 | a request for an undefined uri is never disarmed, because `undefined == null`: every later response for it is accepted |
| SiteProperties.ShortCircuitKeepsPendingRequest | src/Site.js:508-512 | the short circuit keeps the last request, so a response still pending for an earlier request is applied after the state has moved on |
| SiteProperties.ExitBeforeRequest | src/Site.js:514-543 | on the loading path, the old page's `exit()` comes before the post |
| SiteProperties.DefaultHandlerNeverShortCircuits | src/Canteen/Page.js:62-66 | when every handler keeps the default `refresh`, no navigation takes the short circuit |
| SiteProperties.GatewayReadyReentersWithoutExit | src/Site.js:380-401 | when the gateway becomes ready with a page already current, that handler is entered again and no `exit()` is called |
| SiteProperties.EnterPageEntersCurrent | src/Site.js:442-454 | in a reachable state with a current page, `_enterPage` first enters that same page and keeps it current |
| SiteProperties.ResizeReachesCurrentPage | src/Site.js:407-413 | in a reachable state, `resize` reaches the current page whenever there is one |
| SiteProperties.RedirectRoundTrip | src/Site.js:283-318 | a redirect to another uri that is not the site index pushes one history entry with the next id and leaves the state alone; when the base URL is the origin followed by the base path, the pushed entry's URL is `baseUrl + uri` and `_onStateChange` on it requests that uri again |
| SiteProperties.RedirectToIndexRoundTrip | src/Site.js:283-318 | a redirect to the site index pushes the base path alone, so `_onStateChange` on that entry reads the empty uri, not the index, and requests it unless the state already loosely equals it |
| SiteProperties.StateUriOf | src/Site.js:359-360 | the uri read from `baseUrl + uri` is `uri` when the base URL does not occur inside it |
| SiteProperties.RedirectToCurrent | src/Site.js:289-304 | a redirect to the current state does nothing unless refresh is allowed. Then it issues a new request for the state or reloads, and never touches the history |
| SiteProperties.UpdateHasNoHistoryEffect | src/Site.js:492-543 | issuing a request never pushes or replaces a history entry |
| SiteProperties.IssueHasNoHistoryEffect | src/Site.js:514-543 | the request branch never pushes or replaces a history entry |
| SiteProperties.SecondConstructionThrows | src/Site.js:211-214 | constructing the site a second time throws and changes nothing |

## Left out

- DOM, jQuery and CSS classes are out of scope. The loading classes, content insertion, meta tags and event binding appear only as effects in the trace.
- History.js and `document.location` appear only as effects. The history URL is an input to `_onStateChange`.
- The network and `$.get`/`$.post` are not modelled. A request is an effect and its response is a later step.
- Site.Respond: a `redirect` field holding a number, boolean, array or object is not modelled. The parsed `redirect` is a string, `null`, or absent (`Undefined`).
- SiteProperties.RedirectRoundTrip: the settings do not tie `baseUrl` to `basePath`. The round trip assumes the base URL is the page's origin followed by the base path, and takes the origin as a parameter.
- `JSON.parse` is a parser oracle. Its throwing is modelled as the parser returning nothing, which becomes an uncaught exception.
- `RegExp#test` for patterns registered with `addPage` is an oracle, and a pure one: patterns with the `g` or `y` flag, whose `test` depends on `lastIndex`, are assumed absent. The invariant relies on this, because it asks the same question of the oracle at different steps.
- The internal-link parent pattern is evaluated literally for uris without regular-expression metacharacters. For other uris, matching goes to the same kind of oracle and whether the pattern compiles at all goes to a `compiles` oracle.
- The links a served document holds are an oracle of `Site.Env` (`links`), since the document is DOM. The `confirmLink` plugin that `_fixInternalLinks` runs first is assumed not to throw.
- The handler methods `enter`, `exit` and `resize` are effects. Handler code that calls back into the site during them is not modelled.
- The `Fire` effects of the site are not linked to `EventDispatcher.Trigger`. The dispatcher is modelled on its own.
- `Debug.log`, `Debug.info` and `Debug.enabled`, and everything under `DEBUG`, are left out because they only produce diagnostics. `Debug.error` and `Debug.warn` appear as log effects.
- Forms (`Forms.setup`, `Forms.destroy`) and the `confirmLink` plugin are left out. They are not part of the navigation core and appear only as effects.
- The site options and their selectors are left out because they only name DOM elements.
- The cookie jar is not modelled: `SavedData.Write` returns the assignment text and `SavedData.Read` takes the cookie text. No write-then-read round trip is claimed, because the browser decides what `document.cookie` returns.
- `Date`, `toGMTString` and the clock are parameters of `SavedData.Write`.
- SavedData.Expiry: a `days` string other than `neverExpire`, which JavaScript would coerce to a number, is not modelled.
- EventDispatcher.Trigger: a listener that throws, or that changes the table during `trigger`, is not modelled.
- EventDispatcher.Trigger: a type that names a property every array has (`length`, `push`, `constructor` and the like) is not modelled. The table is an array (dist/canteen.js:52), so `trigger` reads the inherited value and typically throws. The model treats such a type as one without listeners.
- EventDispatcher.RegisterSpec: registering under an inherited name is not modelled. `_listeners[n] || []` keeps the inherited value, and the `push` that follows throws or changes something that is not a listener list (dist/canteen.js:102-106). The set of such names depends on the JavaScript engine.
- EventDispatcher.RegisterAllSpec: the same holds for every name of a space-separated list.
- EventDispatcher.OffSeveralNamesThrows: whether a multi-name `off` throws is stated. The partial removals before the throw are modelled but not characterised.
- The listener table is declared on the prototype (dist/canteen.js:52), so every dispatcher shares it until `off()` assigns an own empty table on the instance (dist/canteen.js:133). The model gives each dispatcher its own table, so that sharing is not modelled.
- SiteProperties.Apply: a history change is accepted as a step even when no `statechange` handler is bound, that is, with history off or after a disabled construction. The step relation over-approximates what the browser can deliver.
- SiteProperties.Apply: a page response is accepted as a step when no request is outstanding. After a disabled construction the last request is null, and `null == null` lets a response for `null` through that no post asked for.
- SiteProperties.Apply: the bootstrap response is accepted as a step before any gateway exists, and more than once. In the source it arrives once, after construction created the gateway.
- Site.FixLinks: the click handlers and classes the plugins set before an exception appear only as the one `FixInternalLinks` effect.
- The `type()` helper of the dispatcher appears only as the shape of `Callback` and `NameArg`: a function, an array, undefined, another value, or an object map.
- Site.Deliver: page fields are copied as opaque values. The HTML decoding of `fullTitle` into `document.title` is not modelled.
- Site.Initialize: `history.pushState` support is a boolean input, and the settings object is the `Site.Settings` record.
- The site-level `this.currentState` and `this.currentPage` mirrors are merged with `_currentState` and `_currentPage`, because they are always assigned together.

## Findings

| source | as written | input that shows it | evidently intended | confidence | as-written member | corrected member |
|---|---|---|---|---|---|---|
| src/Canteen/Gateway.js:90 | `Debug.fatalError(data.errors)` formats the `errors` field of the fatal payload | a response `{"type":"fatalError","message":"Boom","file":"f.js","code":500}`, which has no `errors` field: `fatalError(undefined)` throws when reading `.message`, so `callback(null)` is never reached | `Debug.fatalError(data)`, as in dist/canteen.js:892 and src/Site.js:567: log the formatted error and call back with null | not executed | Gateway.AsWrittenDropsCallback | Gateway.Get |

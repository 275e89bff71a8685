/** `Canteen.Site` (src/Site.js): the navigation coordinator. The site is
    an immutable record; every public method and every callback is a pure
    transition returning the new record and the trace of effects it causes
    (events fired, handler calls, history and location changes, requests,
    log lines). A page request is split in two steps: `UpdatePageContent`
    issues it, `Deliver` is its response arriving later, in any order
    relative to other steps. Handler `refresh`, RegExp tests and
    `JSON.parse` are oracles. */
module Site {
  import opened Js
  import LocationUtils
  import Gateway
  import Debug
  import Page
  import InternalLink

  /** The identity of a page handler object. */
  type HandlerId = nat

  /** The identity of a RegExp registered with `addPage`. */
  type PatternId = nat

  /** The server-provided `Canteen.settings` the site reads.
      `clientEnabled` is `None` when undefined, otherwise its truthiness. */
  datatype Settings = Settings(clientEnabled: Option<bool>, uriRequest: string, basePath: string,
                               siteIndex: string, baseUrl: string, gatewayPath: string)

  /** The first argument of `addPage`: a uri string or a RegExp. */
  datatype Matcher = Exact(uri: string) | Pattern(id: PatternId)

  /** One registry record `{uri, content}`. */
  datatype Entry = Entry(matcher: Matcher, handler: HandlerId)

  /** The second argument of `addPage`: a fresh `Page` instance with the
      given identity and `refresh`, or anything that is not a `Page`. */
  datatype PageArg = Instance(id: HandlerId, refresh: Value -> bool) | NotAPage

  /** The module state of src/Site.js. `created` is `_instance != null`;
      `currentState` stands for both `_currentState` and
      `this.currentState`, which are always assigned together, and
      `currentPage` likewise for `_currentPage` and `this.currentPage`.
      `handlers` holds every page object the site has adopted. */
  datatype Coordinator = Coordinator(
    created: bool,
    parameters: Option<LocationUtils.Parameters>,
    currentState: Value,
    currentPage: Option<HandlerId>,
    currentId: Option<int>,
    lastRequest: Value,
    historyEnabled: bool,
    pages: seq<Entry>,
    handlers: map<HandlerId, Page.Handler>,
    gatewayUrl: Option<string>)

  /** What the outside world supplies: the settings, the document title
      used for history entries, the RegExp oracle and `JSON.parse`, and the
      document's internal links: `links(doc)` lists the `a[data-internal]`
      elements, in document order, of the page as served (`None`) or once
      the content of `doc` is in place; `linkTest` and `compiles` are the
      RegExp oracles of the `internalLink` plugin. */
  datatype Env = Env(settings: Settings, title: string,
                     test: (PatternId, string) -> bool, parse: Gateway.Parser,
                     links: Option<Gateway.PageFields> -> seq<InternalLink.Link>,
                     linkTest: (string, string) -> bool, compiles: string -> bool)

  const EnterEvent: string := "enter"
  const ExitEvent: string := "exit"
  const ReadyEvent: string := "ready"
  const LoadingEvent: string := "loading"
  const LoadingDoneEvent: string := "loadingDone"

  const AlreadyCreated: string := "Site has already been created. Use Canteen.Site.instance"
  const NotAPageWarning: string := "The page your trying to add needs to extend Canteen.Page"
  const GatewayFailed: string := "Unable to setup gateway."
  /** The TypeError `Forms.setup` raises reading `debugForms` from the
      `parameters` a disabled construction never set. */
  const ParametersNull: string := "TypeError: this.parameters is null"

  /** One observable effect. */
  datatype Effect =
    | Fire(event: string, payload: Value)              // this.trigger(event, payload)
    | CallEnter(h: HandlerId)
    | CallExit(h: HandlerId)
    | CallResize(h: HandlerId)
    | CallRefresh(h: HandlerId, uri: Value)
    | PushState(id: int, title: string, path: string)
    | ReplaceState(stateId: Option<int>, title: string, path: string)
    | Navigate(href: string)                           // document.location.href = href
    | Reload                                           // document.location.reload(true)
    | Post(url: string, params: map<string, string>)
    | SiteLoading(on: bool)                            // loading class on the body
    | PageLoading(on: bool)                            // loading class on the article
    | ApplyContent(fields: Gateway.PageFields)
    | FixInternalLinks
    | DestroyForms
    | BindStateChange(enabled: bool)                   // unbind, then bind iff enabled
    | BindResize
    | GatewayRequest(url: string)
    | LogError(text: string)
    | LogWarning(text: string)
    | Uncaught(reason: string)                         // an exception leaves the step

  datatype Outcome = Outcome(site: Coordinator, effects: seq<Effect>)

  /** The module state before the constructor runs. */
  function Initial(): (c: Coordinator)
    ensures !c.created && c.currentPage.None? && c.pages == [] && c.handlers == map[]
  {
    Coordinator(false, None, Null, None, None, Null, true, [], map[], None)
  }

  /** `_currentId++`: `null` counts as 0. */
  function Increment(id: Option<int>): (r: int)
    ensures r == (if id.None? then 1 else id.value + 1)
  {
    match id
    case None => 1
    case Some(n) => n + 1
  }

  // ---------------------------------------------------------------------
  // Registry

  /** The test `getPageByUri` applies to one record: strict equality for a
      string, `RegExp#test` (which stringifies its argument) for a RegExp. */
  predicate Matches(e: Entry, uri: Value, test: (PatternId, string) -> bool)
  {
    match e.matcher
    case Exact(s) => uri == Str(s)
    case Pattern(p) => test(p, ToString(uri))
  }

  /** The index of the first record at or after `from` that matches. */
  function FirstMatchFrom(pages: seq<Entry>, uri: Value, test: (PatternId, string) -> bool, from: nat): (r: Option<nat>)
    requires from <= |pages|
    ensures r.None? <==> forall i :: from <= i < |pages| ==> !Matches(pages[i], uri, test)
    ensures r.Some? ==> from <= r.value < |pages| && Matches(pages[r.value], uri, test)
                        && forall j :: from <= j < r.value ==> !Matches(pages[j], uri, test)
    decreases |pages| - from
  {
    if from == |pages| then None
    else if Matches(pages[from], uri, test) then Some(from)
    else FirstMatchFrom(pages, uri, test, from + 1)
  }

  /** `getPageByUri(uri)`: the first record in insertion order that
      matches, or `None` (null), which includes the empty registry. */
  function GetPageByUri(pages: seq<Entry>, uri: Value, test: (PatternId, string) -> bool): (r: Option<nat>)
    ensures r.None? <==> forall i :: 0 <= i < |pages| ==> !Matches(pages[i], uri, test)
    ensures r.Some? ==> r.value < |pages| && Matches(pages[r.value], uri, test)
                        && forall j :: 0 <= j < r.value ==> !Matches(pages[j], uri, test)
  {
    if |pages| == 0 then None else FirstMatchFrom(pages, uri, test, 0)
  }

  /** `addPage(uriOrRegExp, pageInstance)`: a `Page` is adopted and
      appended; anything else only logs a warning. */
  function AddPage(site: Coordinator, matcher: Matcher, arg: PageArg): (r: Outcome)
    ensures arg.NotAPage? ==> r.site == site && r.effects == [LogWarning(NotAPageWarning)]
    ensures arg.Instance? ==> r.effects == []
                              && r.site.pages == site.pages + [Entry(matcher, arg.id)]
                              && arg.id in r.site.handlers && r.site.handlers[arg.id].attached
                              && r.site.handlers.Keys == site.handlers.Keys + {arg.id}
                              && (forall h :: h in site.handlers && h != arg.id ==> r.site.handlers[h] == site.handlers[h])
                              && r.site.(pages := site.pages, handlers := site.handlers) == site
    ensures arg.Instance? && arg.id in site.handlers ==>
              r.site.handlers[arg.id] == site.handlers[arg.id].(attached := true)
    ensures arg.Instance? && arg.id !in site.handlers ==>
              r.site.handlers[arg.id] == Page.New(arg.refresh).(attached := true)
  {
    match arg
    case NotAPage => Outcome(site, [LogWarning(NotAPageWarning)])
    case Instance(id, refresh) =>
      var page := if id in site.handlers then site.handlers[id] else Page.New(refresh);
      Outcome(site.(pages := site.pages + [Entry(matcher, id)],
                    handlers := site.handlers[id := page.(attached := true)]), [])
  }

  // ---------------------------------------------------------------------
  // Entering and resizing

  /** `resize()`: forwarded only to a current page that is active. */
  function Resize(site: Coordinator): (r: seq<Effect>)
    ensures |r| <= 1
    ensures |r| == 1 <==> site.currentPage.Some? && site.currentPage.value in site.handlers
                           && site.handlers[site.currentPage.value].active
    ensures |r| == 1 ==> r[0] == CallResize(site.currentPage.value)
  {
    match site.currentPage
    case Some(h) => if h in site.handlers && site.handlers[h].active then [CallResize(h)] else []
    case None => []
  }

  /** `_enterPage()`: adopt the handler matching the current state as the
      current page (uri, active, `enter()`, `resize()`), then fire ENTER
      with the current state whether or not a handler matched. */
  function EnterPage(site: Coordinator, test: (PatternId, string) -> bool): (r: Outcome)
    requires forall e :: e in site.pages ==> e.handler in site.handlers
    ensures r.site.currentState == site.currentState && r.site.lastRequest == site.lastRequest
    ensures |r.effects| >= 1 && r.effects[|r.effects| - 1] == Fire(EnterEvent, site.currentState)
    ensures forall k :: 0 <= k < |r.effects| ==> r.effects[k].CallEnter? || r.effects[k].CallResize? || r.effects[k].Fire?
    ensures GetPageByUri(site.pages, site.currentState, test).None? ==> r == Outcome(site, [Fire(EnterEvent, site.currentState)])
    ensures GetPageByUri(site.pages, site.currentState, test).Some? ==>
              var h := site.pages[GetPageByUri(site.pages, site.currentState, test).value].handler;
              && r.site.currentPage == Some(h)
              && r.site.handlers.Keys == site.handlers.Keys
              && r.site.handlers[h].active && r.site.handlers[h].uri == site.currentState
              && (forall g :: g in site.handlers && g != h ==> r.site.handlers[g] == site.handlers[g])
              && r.effects == [CallEnter(h), CallResize(h), Fire(EnterEvent, site.currentState)]
  {
    match GetPageByUri(site.pages, site.currentState, test)
    case None => Outcome(site, [Fire(EnterEvent, site.currentState)])
    case Some(i) =>
      assert site.pages[i] in site.pages;
      var h := site.pages[i].handler;
      var entered := site.(currentPage := Some(h),
                           handlers := site.handlers[h := site.handlers[h].(uri := site.currentState, active := true)]);
      Outcome(entered, [CallEnter(h)] + Resize(entered) + [Fire(EnterEvent, site.currentState)])
  }

  // ---------------------------------------------------------------------
  // Requesting page content

  /** The parameters posted with a page request: the given ones (or none)
      with `async` set. */
  function PostParams(params: Option<map<string, string>>): (r: map<string, string>)
    ensures "async" in r && r["async"] == "true"
    ensures params.Some? ==> forall k :: k in params.value && k != "async" ==> k in r && r[k] == params.value[k]
    ensures params.None? ==> r.Keys == {"async"}
  {
    (if params.None? then map[] else params.value)["async" := "true"]
  }

  /** The special case of `_updatePageContent`: the handler matching `uri`
      is already the current page and its `refresh(uri)` answers false. */
  predicate ShortCircuits(site: Coordinator, uri: Value, test: (PatternId, string) -> bool)
  {
    var m := GetPageByUri(site.pages, uri, test);
    && m.Some?
    && site.currentPage == Some(site.pages[m.value].handler)
    && site.pages[m.value].handler in site.handlers
    && !site.handlers[site.pages[m.value].handler].refresh(uri)
  }

  /** `_updatePageContent(uri, params)`, the issuing half: fire EXIT with the
      old state, take `uri` as the state, then either only update the
      current handler's uri (short circuit) or exit the current page, clean
      up forms, remember `uri` as the last request, fire LOADING and post. */
  function UpdatePageContent(site: Coordinator, env: Env, uri: Value, params: Option<map<string, string>>): (r: Outcome)
    requires forall e :: e in site.pages ==> e.handler in site.handlers
    requires site.currentPage.Some? ==> site.currentPage.value in site.handlers
    ensures r.site.currentState == uri
    ensures |r.effects| >= 1 && r.effects[0] == Fire(ExitEvent, site.currentState)
    ensures r.site.pages == site.pages && r.site.handlers.Keys == site.handlers.Keys
    ensures ShortCircuits(site, uri, env.test) ==>
              var h := site.currentPage.value;
              && r.site == site.(currentState := uri, handlers := site.handlers[h := site.handlers[h].(uri := uri)])
              && r.effects == [Fire(ExitEvent, site.currentState), CallRefresh(h, uri)]
    ensures !ShortCircuits(site, uri, env.test) ==> r == Issue(site, env, uri, params)
  {
    if ShortCircuits(site, uri, env.test) then
      var h := site.currentPage.value;
      var m := GetPageByUri(site.pages, uri, env.test);
      assert site.pages[m.value].handler == h;
      Outcome(site.(currentState := uri, handlers := site.handlers[h := site.handlers[h].(uri := uri)]),
              [Fire(ExitEvent, site.currentState), CallRefresh(h, uri)])
    else
      Issue(site, env, uri, params)
  }

  /** The request branch of `_updatePageContent`: after EXIT (and `refresh`
      on a current page that matches but asked for a reload), deactivate and
      drop the current page, remember `uri` as the state and the last
      request, and post. Nothing else in the coordinator changes. */
  function Issue(site: Coordinator, env: Env, uri: Value, params: Option<map<string, string>>): (r: Outcome)
    requires site.currentPage.Some? ==> site.currentPage.value in site.handlers
    ensures r.site.(handlers := site.handlers, currentPage := site.currentPage,
                    lastRequest := site.lastRequest, currentState := site.currentState) == site
    ensures r.site.currentState == uri && r.site.lastRequest == uri && r.site.currentPage.None?
    ensures r.site.handlers.Keys == site.handlers.Keys
    ensures |r.effects| >= 1 && r.effects[0] == Fire(ExitEvent, site.currentState)
    ensures r.effects[|r.effects| - 1] == Post(env.settings.baseUrl + ToString(uri), PostParams(params))
    ensures site.currentPage.Some? ==>
              var c := site.currentPage.value;
              && !r.site.handlers[c].active
              && (forall g :: g in site.handlers && g != c ==> r.site.handlers[g] == site.handlers[g])
              && CallExit(c) in r.effects
    ensures site.currentPage.None? ==> r.site.handlers == site.handlers
  {
    var handlers :=
      match site.currentPage
      case Some(c) => site.handlers[c := site.handlers[c].(active := false)]
      case None => site.handlers;
    var pre := [Fire(ExitEvent, site.currentState)] + RefreshCall(site, uri, env.test);
    var post := PostEffects(site.currentPage, env, uri, params);
    Outcome(site.(currentState := uri, lastRequest := uri, currentPage := None, handlers := handlers), pre + post)
  }

  /** The `refresh(uri)` call `_updatePageContent` makes when the page
      matching `uri` is the current page: on that page, with `uri`. */
  function RefreshCall(site: Coordinator, uri: Value, test: (PatternId, string) -> bool): (e: seq<Effect>)
    ensures |e| <= 1
    ensures |e| == 1 <==> var m := GetPageByUri(site.pages, uri, test);
                          m.Some? && site.currentPage == Some(site.pages[m.value].handler)
    ensures |e| == 1 ==> e[0] == CallRefresh(site.currentPage.value, uri)
  {
    var m := GetPageByUri(site.pages, uri, test);
    if m.Some? && site.currentPage == Some(site.pages[m.value].handler)
    then [CallRefresh(site.pages[m.value].handler, uri)] else []
  }

  /** The issuing tail of `_updatePageContent`: exit the current page if
      there is one, clean up forms, fire LOADING, mark the article as
      loading and post the request for `uri`. It never touches the history. */
  function PostEffects(current: Option<HandlerId>, env: Env, uri: Value, params: Option<map<string, string>>): (e: seq<Effect>)
    ensures |e| >= 4 && e[|e| - 1] == Post(env.settings.baseUrl + ToString(uri), PostParams(params))
    ensures current.Some? ==> CallExit(current.value) in e
    ensures NoHistory(e)
  {
    (if current.Some? then [CallExit(current.value)] else [])
    + [DestroyForms, Fire(LoadingEvent, Undefined), PageLoading(true),
       Post(env.settings.baseUrl + ToString(uri), PostParams(params))]
  }

  /** No effect of `e` pushes or replaces a history entry. */
  predicate NoHistory(e: seq<Effect>)
  {
    forall k :: 0 <= k < |e| ==> !e[k].PushState? && !e[k].ReplaceState?
  }

  /** A concatenation leaves the history alone iff both parts do. */
  lemma NoHistoryConcat(a: seq<Effect>, b: seq<Effect>)
    ensures NoHistory(a + b) <==> NoHistory(a) && NoHistory(b)
  {
    if NoHistory(a + b) {
      forall k | 0 <= k < |a| ensures !a[k].PushState? && !a[k].ReplaceState? {
        assert a[k] == (a + b)[k];
      }
      forall k | 0 <= k < |b| ensures !b[k].PushState? && !b[k].ReplaceState? {
        assert b[k] == (a + b)[|a| + k];
      }
    }
    if NoHistory(a) && NoHistory(b) {
      forall k | 0 <= k < |a + b| ensures !(a + b)[k].PushState? && !(a + b)[k].ReplaceState? {
        if k < |a| {
          assert (a + b)[k] == a[k];
        } else {
          assert (a + b)[k] == b[k - |a|];
        }
      }
    }
  }

  /** `refresh(async, params)`: reissue the current state's content when
      asynchronous and history is on, otherwise reload the document. */
  function Refresh(site: Coordinator, env: Env, async: bool, params: Option<map<string, string>>): (r: Outcome)
    requires forall e :: e in site.pages ==> e.handler in site.handlers
    requires site.currentPage.Some? ==> site.currentPage.value in site.handlers
    ensures async && site.historyEnabled ==> r == UpdatePageContent(site, env, site.currentState, params)
    ensures !(async && site.historyEnabled) ==> r == Outcome(site, [Reload])
  {
    if async && site.historyEnabled then UpdatePageContent(site, env, site.currentState, params)
    else Outcome(site, [Reload])
  }

  /** The location `redirect` goes to: the base path, followed by the uri
      as a string unless the uri loosely equals the site index. */
  function RedirectPath(settings: Settings, uri: Value): (path: string)
    ensures StartsWith(path, settings.basePath)
    ensures LooseEquals(Str(settings.siteIndex), uri) ==> path == settings.basePath
    ensures !LooseEquals(Str(settings.siteIndex), uri) ==> path == settings.basePath + ToString(uri)
  {
    if !LooseEquals(Str(settings.siteIndex), uri) then settings.basePath + ToString(uri) else settings.basePath
  }

  /** `redirect(uri, replaceInHistory, allowRefresh, asyncRefresh)`. */
  function Redirect(site: Coordinator, env: Env, uri: Value, replace: bool, allowRefresh: bool, async: bool): (r: Outcome)
    requires forall e :: e in site.pages ==> e.handler in site.handlers
    requires site.currentPage.Some? ==> site.currentPage.value in site.handlers
    ensures LooseEquals(site.currentState, uri) && !allowRefresh ==> r == Outcome(site, [])
    ensures LooseEquals(site.currentState, uri) && allowRefresh ==> r == Refresh(site, env, async, None)
    ensures !LooseEquals(site.currentState, uri) ==>
              && |r.effects| == 1
              && r.site.(currentId := site.currentId) == site
              && (site.historyEnabled && !replace ==>
                    r.site.currentId == Some(Increment(site.currentId))
                    && r.effects[0] == PushState(Increment(site.currentId), env.title, RedirectPath(env.settings, uri)))
              && (site.historyEnabled && replace ==>
                    r.site == site && r.effects[0] == ReplaceState(site.currentId, env.title, RedirectPath(env.settings, uri)))
              && (!site.historyEnabled ==> r.site == site && r.effects[0] == Navigate(RedirectPath(env.settings, uri)))
  {
    var path := RedirectPath(env.settings, uri);
    if LooseEquals(site.currentState, uri) then
      if allowRefresh then Refresh(site, env, async, None) else Outcome(site, [])
    else if site.historyEnabled then
      if replace then Outcome(site, [ReplaceState(site.currentId, env.title, path)])
      else
        var id := Increment(site.currentId);
        Outcome(site.(currentId := Some(id)), [PushState(id, env.title, path)])
    else Outcome(site, [Navigate(path)])
  }

  /** The uri `_onStateChange` reads from the new history url: the text
      after the first occurrence of the base url, up to the next one, or
      `undefined` when the base url does not occur. */
  function StateUri(url: string, baseUrl: string): Value
  {
    var pieces := Split(url, baseUrl);
    if |pieces| > 1 then Str(pieces[1]) else Undefined
  }

  /** `_onStateChange()` for the history url `url`. */
  function OnStateChange(site: Coordinator, env: Env, url: string): (r: Outcome)
    requires forall e :: e in site.pages ==> e.handler in site.handlers
    requires site.currentPage.Some? ==> site.currentPage.value in site.handlers
    ensures LooseEquals(site.currentState, StateUri(url, env.settings.baseUrl)) ==> r == Outcome(site, [])
    ensures !LooseEquals(site.currentState, StateUri(url, env.settings.baseUrl)) ==>
              r == UpdatePageContent(site, env, StateUri(url, env.settings.baseUrl), None)
  {
    var uri := StateUri(url, env.settings.baseUrl);
    if LooseEquals(site.currentState, uri) then Outcome(site, [])
    else UpdatePageContent(site, env, uri, None)
  }

  // ---------------------------------------------------------------------
  // Internal links

  /** The bindings `$('a[data-internal]').internalLink(site)` makes on the
      document holding `doc`, when the site's state is `state`. */
  function LinkBindings(env: Env, state: Value, doc: Option<Gateway.PageFields>): seq<InternalLink.Binding>
  {
    InternalLink.BindAll(env.links(doc), env.settings.basePath, env.settings.siteIndex, state,
                         env.linkTest, env.compiles)
  }

  /** The link plugin throws on the document holding `doc`: the last
      binding it made aborted. */
  predicate LinksThrow(env: Env, state: Value, doc: Option<Gateway.PageFields>)
  {
    InternalLink.PluginThrows(env.links(doc), env.settings.basePath, env.settings.siteIndex, state,
                              env.linkTest, env.compiles)
  }

  /** Some link of the document aborts the plugin on its own. */
  predicate SomeLinkAborts(env: Env, state: Value, doc: Option<Gateway.PageFields>)
  {
    InternalLink.SomeAborts(env.links(doc), env.settings.basePath, env.settings.siteIndex, state,
                            env.linkTest, env.compiles)
  }

  /** Link `i` of the document is the first that aborts the plugin. */
  predicate FirstLinkAbort(env: Env, state: Value, doc: Option<Gateway.PageFields>, i: int)
  {
    InternalLink.FirstAbortAt(env.links(doc), env.settings.basePath, env.settings.siteIndex, state,
                              env.linkTest, env.compiles, i)
  }

  /** The plugin throws exactly when some link of the document would make
      it throw on its own. */
  lemma LinksThrowIff(env: Env, state: Value, doc: Option<Gateway.PageFields>)
    ensures LinksThrow(env, state, doc) <==> SomeLinkAborts(env, state, doc)
  {
    InternalLink.BindAllThrows(env.links(doc), env.settings.basePath, env.settings.siteIndex, state,
                               env.linkTest, env.compiles);
  }

  /** `_fixInternalLinks()` throws: a link aborts the plugin, or the
      forms set-up finds no `parameters`. */
  predicate FixFails(site: Coordinator, env: Env, doc: Option<Gateway.PageFields>)
  {
    LinksThrow(env, site.currentState, doc) || site.parameters.None?
  }

  /** `_fixInternalLinks()`: bind the confirmation links, bind the internal
      links, then set up the forms with `parameters.debugForms`. The
      internal-link plugin throws on the first link whose href is missing
      or whose parent pattern does not compile; failing that, the forms
      set-up throws when `parameters` was never set. The effects are the
      binding followed by the exception, if any. */
  function FixLinks(site: Coordinator, env: Env, doc: Option<Gateway.PageFields>): (e: seq<Effect>)
    ensures |e| >= 1 && e[0] == FixInternalLinks
    ensures |e| == 1 || |e| == 2
    ensures |e| == 2 <==> FixFails(site, env, doc)
    ensures |e| == 2 ==> e[1].Uncaught?
    ensures !LinksThrow(env, site.currentState, doc) && site.parameters.None? ==>
              e == [FixInternalLinks, Uncaught(ParametersNull)]
  {
    var b := LinkBindings(env, site.currentState, doc);
    if LinksThrow(env, site.currentState, doc) then [FixInternalLinks, Uncaught(InternalLink.AbortReason(b[|b| - 1]))]
    else if site.parameters.None? then [FixInternalLinks, Uncaught(ParametersNull)]
    else [FixInternalLinks]
  }

  /** Without `parameters`, `_fixInternalLinks()` always throws: the link
      plugin's exception if some link aborts it, the forms set-up's
      otherwise. */
  lemma FixLinksWithoutParameters(site: Coordinator, env: Env, doc: Option<Gateway.PageFields>)
    requires site.parameters.None?
    ensures var e := FixLinks(site, env, doc);
            && |e| == 2 && e[1].Uncaught?
            && (!SomeLinkAborts(env, site.currentState, doc) ==> e[1] == Uncaught(ParametersNull))
  {
    LinksThrowIff(env, site.currentState, doc);
  }

  /** The exception `_fixInternalLinks()` raises when link `i` is the first
      that cannot be bound is that link's: the plugin stops there, before
      the forms set-up. */
  lemma FixLinksFirstAbort(site: Coordinator, env: Env, doc: Option<Gateway.PageFields>, i: int)
    requires FirstLinkAbort(env, site.currentState, doc, i)
    ensures FixLinks(site, env, doc) == [FixInternalLinks, Uncaught(InternalLink.AbortReason(
              InternalLink.Bind(env.links(doc)[i], env.settings.basePath, env.settings.siteIndex,
                                site.currentState, env.linkTest, env.compiles)))]
  {
    InternalLink.BindAllFirstAbort(env.links(doc), env.settings.basePath, env.settings.siteIndex,
                                   site.currentState, env.linkTest, env.compiles, i);
  }

  // ---------------------------------------------------------------------
  // Responses

  /** The response callback of `_updatePageContent` for the request issued
      for `uri`, delivered with body `response`. */
  function Deliver(site: Coordinator, env: Env, uri: Value, response: Value): (r: Outcome)
    requires forall e :: e in site.pages ==> e.handler in site.handlers
    requires site.currentPage.Some? ==> site.currentPage.value in site.handlers
    ensures !LooseEquals(uri, site.lastRequest) ==> r == Outcome(site, [])
    ensures LooseEquals(uri, site.lastRequest) ==>
              && |r.effects| >= 2
              && r.effects[0] == Fire(LoadingDoneEvent, Undefined)
              && r.effects[1] == PageLoading(false)
              && site.pages == r.site.pages
    ensures LooseEquals(uri, site.lastRequest) ==>
              var o := Respond(site.(lastRequest := Null), env, uri, Gateway.Classify(response, env.parse));
              r.site == o.site && r.effects[2..] == o.effects
  {
    if !LooseEquals(uri, site.lastRequest) then Outcome(site, [])
    else
      var s := site.(lastRequest := Null);
      var done := [Fire(LoadingDoneEvent, Undefined), PageLoading(false)];
      var o := Respond(s, env, uri, Gateway.Classify(response, env.parse));
      Outcome(o.site, done + o.effects)
  }

  /** An accepted response that is not page data clears the last request
      and, after LOADING_DONE, logs or throws by its kind: no data, a body
      that is not an object, `JSON.parse` failing, or a fatal error. */
  lemma DeliverNotData(site: Coordinator, env: Env, uri: Value, response: Value)
    requires forall e :: e in site.pages ==> e.handler in site.handlers
    requires site.currentPage.Some? ==> site.currentPage.value in site.handlers
    requires LooseEquals(uri, site.lastRequest) && !Gateway.Classify(response, env.parse).Data?
    ensures var r := Deliver(site, env, uri, response);
            var c := Gateway.Classify(response, env.parse);
            var done := [Fire(LoadingDoneEvent, Undefined), PageLoading(false)];
            && r.site == site.(lastRequest := Null)
            && (c.NoData? ==> r.effects == done + [LogError("No data for " + ToString(uri))])
            && (c.Malformed? ==> r.effects == done + [LogError(c.body)])
            && (c.Unparseable? ==> r.effects == done + [Uncaught("JSON.parse")])
            && (c.Fatal? ==> r.effects == done + [LogError(Debug.Format(c.data.fatal))])
  {
    var r := Deliver(site, env, uri, response);
    assert r.effects == r.effects[..2] + r.effects[2..];
  }

  /** An accepted response asking for a redirect clears the last request
      and, after LOADING_DONE, replaces the history entry without refresh. */
  lemma DeliverRedirect(site: Coordinator, env: Env, uri: Value, response: Value)
    requires forall e :: e in site.pages ==> e.handler in site.handlers
    requires site.currentPage.Some? ==> site.currentPage.value in site.handlers
    requires LooseEquals(uri, site.lastRequest)
    requires Gateway.Classify(response, env.parse).Data? && !Gateway.Classify(response, env.parse).data.redirect.Undefined?
    ensures var r := Deliver(site, env, uri, response);
            var s := site.(lastRequest := Null);
            && r.site == s
            && r.effects == [Fire(LoadingDoneEvent, Undefined), PageLoading(false)]
                            + Redirect(s, env, Gateway.Classify(response, env.parse).data.redirect, true, false, true).effects
  {
    var r := Deliver(site, env, uri, response);
    assert r.effects == r.effects[..2] + r.effects[2..];
  }

  /** A payload whose `redirect` is `null` still takes the redirect branch.
      Against a string state, `redirect(null, true)` replaces the history
      entry with the base path followed by the text `null`. Against a state
      that is null or undefined it sees the current page and does nothing.
      The page is not shown either way. */
  lemma NullRedirect(s: Coordinator, env: Env, uri: Value, data: Gateway.JsonObject)
    requires forall e :: e in s.pages ==> e.handler in s.handlers
    requires s.currentPage.Some? ==> s.currentPage.value in s.handlers
    requires data.redirect == Null
    ensures s.historyEnabled && s.currentState.Str? ==>
              Respond(s, env, uri, Gateway.Data(data))
              == Outcome(s, [ReplaceState(s.currentId, env.title, env.settings.basePath + "null")])
    ensures !s.currentState.Str? ==> Respond(s, env, uri, Gateway.Data(data)) == Outcome(s, [])
  {
  }

  /** Accepted page data clears the last request and is applied after
      LOADING_DONE; then `_fixInternalLinks` runs, and the page for the
      state is entered unless it threw, in which case the site is left as
      it was. */
  lemma DeliverPage(site: Coordinator, env: Env, uri: Value, response: Value)
    requires forall e :: e in site.pages ==> e.handler in site.handlers
    requires site.currentPage.Some? ==> site.currentPage.value in site.handlers
    requires LooseEquals(uri, site.lastRequest)
    requires Gateway.Classify(response, env.parse).Data? && Gateway.Classify(response, env.parse).data.redirect.Undefined?
    ensures var a := ApplyPage(site.(lastRequest := Null), env, Gateway.Classify(response, env.parse).data.page);
            Deliver(site, env, uri, response) == Outcome(a.site, [Fire(LoadingDoneEvent, Undefined), PageLoading(false)] + a.effects)
  {
    var s := site.(lastRequest := Null);
    var c := Gateway.Classify(response, env.parse);
    var o := Respond(s, env, uri, c);
    assert o == ApplyPage(s, env, c.data.page);
    var r := Deliver(site, env, uri, response);
    assert r.effects == r.effects[..2] + o.effects;
  }

  /** What the response callback does once the request is known to be the
      current one, by the classification of the body. Page data is applied,
      then `_fixInternalLinks` runs on the new document; when it throws (a
      link it cannot bind, or the `parameters` a disabled construction
      never set) the page is not entered. */
  function Respond(s: Coordinator, env: Env, uri: Value, c: Gateway.Classification): (r: Outcome)
    requires forall e :: e in s.pages ==> e.handler in s.handlers
    requires s.currentPage.Some? ==> s.currentPage.value in s.handlers
    ensures s.pages == r.site.pages
    ensures !c.Data? ==> r.site == s
    ensures c.NoData? ==> r.effects == [LogError("No data for " + ToString(uri))]
    ensures c.Malformed? ==> r.effects == [LogError(c.body)]
    ensures c.Unparseable? ==> r.effects == [Uncaught("JSON.parse")]
    ensures c.Fatal? ==> r.effects == [LogError(Debug.Format(c.data.fatal))]
    ensures c.Data? && !c.data.redirect.Undefined? ==>
              r.site == s && r.effects == Redirect(s, env, c.data.redirect, true, false, true).effects
    ensures c.Data? && c.data.redirect.Undefined? ==> r == ApplyPage(s, env, c.data.page)
  {
    match c
    case NoData => Outcome(s, [LogError("No data for " + ToString(uri))])
    case Malformed(body) => Outcome(s, [LogError(body)])
    case Unparseable(_) => Outcome(s, [Uncaught("JSON.parse")])
    case Fatal(data) => Outcome(s, [LogError(Debug.Format(data.fatal))])
    case Data(data) =>
      if !data.redirect.Undefined? then
        var red := Redirect(s, env, data.redirect, true, false, true);
        RedirectNotRefresh(s, env, data.redirect);
        red
      else ApplyPage(s, env, data.page)
  }

  /** Page data: write the page fields into the document, run
      `_fixInternalLinks` on it, then enter the page for the state. When the
      link fixing throws the page is not entered and the site is as it was. */
  function ApplyPage(s: Coordinator, env: Env, page: Gateway.PageFields): (r: Outcome)
    requires forall e :: e in s.pages ==> e.handler in s.handlers
    ensures s.pages == r.site.pages
    ensures FixFails(s, env, Some(page)) ==>
              r.site == s && r.effects == [ApplyContent(page)] + FixLinks(s, env, Some(page))
    ensures !FixFails(s, env, Some(page)) ==>
              && r.site == EnterPage(s, env.test).site
              && r.effects == [ApplyContent(page), FixInternalLinks] + EnterPage(s, env.test).effects
  {
    var fix := FixLinks(s, env, Some(page));
    if FixFails(s, env, Some(page)) then Outcome(s, [ApplyContent(page)] + fix)
    else
      var entered := EnterPage(s, env.test);
      Outcome(entered.site, [ApplyContent(page)] + fix + entered.effects)
  }

  /** A redirect without `allowRefresh` causes at most one effect. */
  lemma RedirectNotRefresh(site: Coordinator, env: Env, uri: Value)
    requires forall e :: e in site.pages ==> e.handler in site.handlers
    requires site.currentPage.Some? ==> site.currentPage.value in site.handlers
    ensures |Redirect(site, env, uri, true, false, true).effects| <= 1
    ensures Redirect(site, env, uri, true, false, true).site == site
  {
  }

  // ---------------------------------------------------------------------
  // Start-up

  /** `_enableHistory(enable)`. */
  function EnableHistory(site: Coordinator, enable: bool): (r: Outcome)
    ensures r.site == site.(historyEnabled := enable) && r.effects == [BindStateChange(enable)]
  {
    Outcome(site.(historyEnabled := enable), [BindStateChange(enable)])
  }

  /** The constructor's `initialize()`, with the page address `href` and
      whether the browser supports `history.pushState`. `Failure` is the
      throw before anything happens; a disabled client returns right after
      the instance is recorded; otherwise the site starts (`Start`). */
  function Initialize(site: Coordinator, env: Env, href: string, historySupported: bool): (r: Result<Outcome>)
    ensures site.created <==> r.Failure?
    ensures r.Failure? ==> r.error == AlreadyCreated
    ensures r.Success? && env.settings.clientEnabled == Some(false) ==>
              r.value == Outcome(site.(created := true), [])
    ensures r.Success? && env.settings.clientEnabled != Some(false) ==>
              r.value == Start(site.(created := true), env, href, historySupported)
  {
    if site.created then Failure(AlreadyCreated)
    else
      var s := site.(created := true);
      if env.settings.clientEnabled == Some(false) then Success(Outcome(s, []))
      else Success(Start(s, env, href, historySupported))
  }

  /** The enabled part of `initialize()`: set up the parameters, the state
      and the history; with history on, fix the served document's links,
      which ends the constructor when a link cannot be bound, before the
      gateway is created (the exception is then the last effect); then
      create the gateway. The registry, the handlers and the current page
      are untouched. */
  function Start(s: Coordinator, env: Env, href: string, historySupported: bool): (r: Outcome)
    ensures r.site.(currentId := s.currentId, currentState := s.currentState, historyEnabled := s.historyEnabled,
                    parameters := s.parameters, gatewayUrl := s.gatewayUrl) == s
    ensures r.site.currentId == Some(1)
    ensures r.site.currentState == Str(env.settings.uriRequest)
    ensures r.site.historyEnabled == historySupported
    ensures r.site.parameters == Some(LocationUtils.Parse(href))
    ensures historySupported && LinksThrow(env, Str(env.settings.uriRequest), None) ==>
              && r.site.gatewayUrl == s.gatewayUrl
              && r.effects == [SiteLoading(true), BindStateChange(true)] + FixLinks(r.site, env, None)
    ensures !(historySupported && LinksThrow(env, Str(env.settings.uriRequest), None)) ==>
              && r.site.gatewayUrl == Some(Gateway.NormalizeUrl(env.settings.gatewayPath))
              && r.effects == StartEffects(env.settings.gatewayPath, historySupported)
  {
    var s1 := s.(parameters := Some(LocationUtils.Parse(href)), currentId := Some(1),
                 currentState := Str(env.settings.uriRequest));
    var h := EnableHistory(s1, historySupported);
    if historySupported && LinksThrow(env, Str(env.settings.uriRequest), None) then
      Outcome(h.site, [SiteLoading(true), BindStateChange(true)] + FixLinks(h.site, env, None))
    else
      Outcome(h.site.(gatewayUrl := Some(Gateway.Initialize(env.settings.gatewayPath).0)),
              StartEffects(env.settings.gatewayPath, historySupported))
  }

  /** A construction with history on whose served document holds a link
      the plugin cannot bind throws before the gateway exists: no
      bootstrap request is made. */
  lemma StartAbortsWithoutGateway(site: Coordinator, env: Env, href: string)
    requires !site.created && env.settings.clientEnabled != Some(false)
    requires SomeLinkAborts(env, Str(env.settings.uriRequest), None)
    ensures var r := Initialize(site, env, href, true);
            && r.Success?
            && r.value.site.gatewayUrl == site.gatewayUrl
            && r.value.effects[|r.value.effects| - 1].Uncaught?
            && forall k :: 0 <= k < |r.value.effects| ==> !r.value.effects[k].GatewayRequest?
  {
    LinksThrowIff(env, Str(env.settings.uriRequest), None);
    var r := Initialize(site, env, href, true);
    var s := r.value.site;
    var fix := FixLinks(s, env, None);
    assert r.value.effects == [SiteLoading(true), BindStateChange(true)] + fix;
    forall k | 0 <= k < |r.value.effects| ensures !r.value.effects[k].GatewayRequest? {
      if k >= 2 {
        assert r.value.effects[k] == fix[k - 2];
      }
    }
  }

  /** The effects of a construction with the client enabled: show the
      loading, bind the history, fix the links if history is on, and
      request the gateway bootstrap. */
  function StartEffects(gatewayPath: string, historySupported: bool): seq<Effect>
  {
    [SiteLoading(true), BindStateChange(historySupported)]
    + (if historySupported then [FixInternalLinks] else [])
    + [GatewayRequest(Gateway.Initialize(gatewayPath).1)]
  }

  /** Construction shows the loading first and ends with the bootstrap
      request to `time/get-server-time` under the normalised gateway URL;
      internal links are fixed exactly when history is on. */
  lemma StartEffectsOrder(gatewayPath: string, historySupported: bool)
    ensures var e := StartEffects(gatewayPath, historySupported);
            && |e| >= 3
            && e[0] == SiteLoading(true)
            && e[|e| - 1] == GatewayRequest(Gateway.NormalizeUrl(gatewayPath) + "time/get-server-time")
            && (FixInternalLinks in e <==> historySupported)
  {
  }

  /** What `_gatewayReady` does after its log line: end the site loading,
      bind and run `resize`, fire READY, then enter the page for the
      current state. It neither logs nor exits a page. */
  function ReadyEffects(site: Coordinator, test: (PatternId, string) -> bool): (e: seq<Effect>)
    requires forall e :: e in site.pages ==> e.handler in site.handlers
    ensures exists i :: 0 <= i < |e| && e[i] == Fire(ReadyEvent, Undefined)
                        && e[i + 1..] == EnterPage(site, test).effects
    ensures forall k :: 0 <= k < |e| ==> !e[k].LogError? && !e[k].CallExit?
  {
    var pre := [SiteLoading(false), BindResize] + Resize(site);
    var e := pre + [Fire(ReadyEvent, Undefined)] + EnterPage(site, test).effects;
    assert e[|pre|] == Fire(ReadyEvent, Undefined);
    assert e[|pre| + 1..] == EnterPage(site, test).effects;
    e
  }

  /** `_gatewayReady(success)`: log the gateway error unless `success`,
      then the ready sequence; the site ends as `_enterPage` leaves it. */
  function GatewayReady(site: Coordinator, env: Env, success: bool): (r: Outcome)
    requires forall e :: e in site.pages ==> e.handler in site.handlers
    ensures r.site == EnterPage(site, env.test).site
    ensures r.effects == (if success then [] else [LogError(GatewayFailed)]) + ReadyEffects(site, env.test)
  {
    var log := if success then [] else [LogError(GatewayFailed)];
    Outcome(EnterPage(site, env.test).site, log + ReadyEffects(site, env.test))
  }

  /** `_gatewayReady` logs the gateway error exactly when `success` is
      false and never exits a page. */
  lemma GatewayReadyLogsFailureOnly(site: Coordinator, env: Env, success: bool)
    requires forall e :: e in site.pages ==> e.handler in site.handlers
    ensures LogError(GatewayFailed) in GatewayReady(site, env, success).effects <==> !success
    ensures forall h :: CallExit(h) !in GatewayReady(site, env, success).effects
  {
    QuietAfterLog(success, ReadyEffects(site, env.test));
  }

  /** The optional log line followed by effects that neither log nor exit. */
  lemma QuietAfterLog(success: bool, ready: seq<Effect>)
    requires forall k :: 0 <= k < |ready| ==> !ready[k].LogError? && !ready[k].CallExit?
    ensures var effects := (if success then [] else [LogError(GatewayFailed)]) + ready;
            && (LogError(GatewayFailed) in effects <==> !success)
            && forall h :: CallExit(h) !in effects
  {
    var effects := (if success then [] else [LogError(GatewayFailed)]) + ready;
    if !success {
      assert effects[0] == LogError(GatewayFailed);
    }
    assert forall k :: 0 <= k < |effects| ==> !effects[k].CallExit?;
  }

  /** The log lines of the gateway's response handler, as log effects. */
  function LogEffects(logs: seq<Gateway.Log>): (r: seq<Effect>)
    ensures |r| == |logs| && forall i :: 0 <= i < |logs| ==> r[i] == LogError(logs[i].text)
  {
    seq(|logs|, i requires 0 <= i < |logs| => LogError(logs[i].text))
  }

  /** The bootstrap response arriving: the gateway's response handler
      feeds its bootstrap callback, which either throws or calls
      `_gatewayReady` with `true` after a clean data response. */
  function Boot(site: Coordinator, env: Env, response: Value): (r: Outcome)
    requires forall e :: e in site.pages ==> e.handler in site.handlers
    ensures Gateway.Bootstrap(Gateway.Get(response, env.parse).delivery).BootThrew? ==>
              r.site == site && |r.effects| >= 1 && r.effects[|r.effects| - 1].Uncaught?
    ensures Gateway.Bootstrap(Gateway.Get(response, env.parse).delivery).ReadyCalled? ==>
              r == GatewayReady(site, env, true) && LogError(GatewayFailed) !in r.effects
  {
    var got := Gateway.Get(response, env.parse);
    match Gateway.Bootstrap(got.delivery)
    case BootThrew(reason) => Outcome(site, LogEffects(got.logs) + [Uncaught(reason)])
    case ReadyCalled(success) =>
      Gateway.ReadyMeansData(response, env.parse);
      GatewayReadyLogsFailureOnly(site, env, success);
      var ready := GatewayReady(site, env, success);
      Outcome(ready.site, LogEffects(got.logs) + ready.effects)
  }
}

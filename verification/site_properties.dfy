/** Properties of the navigation coordinator across steps: the step
    relation over all of its methods and callbacks, the invariant every step
    preserves, and the ordering hazards of src/Site.js. */
module SiteProperties {
  import opened Js
  import opened Site
  import Gateway
  import Page

  /** One thing that can happen to the site: a call of one of its public
      methods, or one of the callbacks it registers firing. */
  datatype Op =
    | Construct(href: string, historySupported: bool)
    | AddPageOp(matcher: Matcher, arg: PageArg)
    | RedirectOp(uri: Value, replace: bool, allowRefresh: bool, async: bool)
    | RefreshOp(async: bool, params: Option<map<string, string>>)
    | StateChangeOp(url: string)
    | ResponseOp(requested: Value, response: Value)
    | BootResponseOp(response: Value)
    | ResizeOp

  /** The invariant of the module state, for a fixed RegExp oracle:
      - every record's handler is an adopted page;
      - the current page, if any, is the handler of the first record that
        matches the current state, is active and holds the current state
        as its uri;
      - no other page is active;
      - before the constructor runs nothing has been entered. */
  ghost predicate Inv(site: Coordinator, test: (PatternId, string) -> bool)
  {
    && (forall e :: e in site.pages ==> e.handler in site.handlers)
    && (site.currentPage.Some? ==>
          var cp := site.currentPage.value;
          && cp in site.handlers
          && site.handlers[cp].active
          && site.handlers[cp].uri == site.currentState
          && GetPageByUri(site.pages, site.currentState, test).Some?
          && site.pages[GetPageByUri(site.pages, site.currentState, test).value].handler == cp)
    && (forall h :: h in site.handlers && site.handlers[h].active ==> site.currentPage == Some(h))
    && (!site.created ==> site.currentPage.None?)
  }

  /** One step. Until the constructor has run there is no instance whose
      methods could be called and no callback has been registered, so only
      the constructor does anything; a second construction throws. */
  function Apply(site: Coordinator, env: Env, op: Op): (r: Outcome)
    requires Inv(site, env.test)
  {
    if !site.created && !op.Construct? then Outcome(site, [])
    else
      match op
      case Construct(href, hs) =>
        (match Initialize(site, env, href, hs)
         case Success(o) => o
         case Failure(e) => Outcome(site, [Uncaught(e)]))
      case AddPageOp(m, arg) => AddPage(site, m, arg)
      case RedirectOp(uri, replace, allowRefresh, async) => Redirect(site, env, uri, replace, allowRefresh, async)
      case RefreshOp(async, params) => Refresh(site, env, async, params)
      case StateChangeOp(url) => OnStateChange(site, env, url)
      case ResponseOp(uri, response) => Deliver(site, env, uri, response)
      case BootResponseOp(response) => Boot(site, env, response)
      case ResizeOp => Outcome(site, Resize(site))
  }

  // ---------------------------------------------------------------------
  // The invariant

  lemma InitialInv(test: (PatternId, string) -> bool)
    ensures Inv(Initial(), test)
  {
  }

  /** Appending a record does not change the first match of a uri that
      already had one. */
  lemma {:induction false} FirstMatchStable(pages: seq<Entry>, e: Entry, uri: Value, test: (PatternId, string) -> bool)
    requires GetPageByUri(pages, uri, test).Some?
    ensures GetPageByUri(pages + [e], uri, test) == GetPageByUri(pages, uri, test)
  {
    var i := GetPageByUri(pages, uri, test).value;
    var p := pages + [e];
    assert p[i] == pages[i];
    forall j | 0 <= j < i ensures !Matches(p[j], uri, test) {
      assert p[j] == pages[j];
    }
  }

  lemma AddPagePreservesInv(site: Coordinator, m: Matcher, arg: PageArg, test: (PatternId, string) -> bool)
    requires Inv(site, test)
    ensures Inv(AddPage(site, m, arg).site, test)
  {
    if arg.Instance? {
      var r := AddPage(site, m, arg).site;
      if site.currentPage.Some? {
        FirstMatchStable(site.pages, Entry(m, arg.id), site.currentState, test);
      }
      forall e | e in r.pages ensures e.handler in r.handlers {
        if e !in site.pages {
          assert e == Entry(m, arg.id);
        }
      }
      forall h | h in r.handlers && r.handlers[h].active ensures r.currentPage == Some(h) {
        if h in site.handlers {
          assert site.handlers[h].active;
        }
      }
    }
  }

  lemma EnterPagePreservesInv(site: Coordinator, test: (PatternId, string) -> bool)
    requires Inv(site, test) && site.created
    ensures Inv(EnterPage(site, test).site, test)
  {
    var m := GetPageByUri(site.pages, site.currentState, test);
    if m.Some? {
      var h := site.pages[m.value].handler;
      var r := EnterPage(site, test).site;
      forall g | g in r.handlers && r.handlers[g].active ensures r.currentPage == Some(g) {
        if g != h {
          assert site.handlers[g].active;
          assert site.currentPage == Some(g);
        }
      }
    }
  }

  lemma UpdatePreservesInv(site: Coordinator, env: Env, uri: Value, params: Option<map<string, string>>)
    requires Inv(site, env.test)
    ensures Inv(UpdatePageContent(site, env, uri, params).site, env.test)
  {
    if ShortCircuits(site, uri, env.test) {
      ShortCircuitPreservesInv(site, env, uri, params);
    } else {
      LoadingPreservesInv(site, env, uri, params);
    }
  }

  /** The short circuit keeps the current page, which matches the new
      state and now holds it as its uri. */
  lemma ShortCircuitPreservesInv(site: Coordinator, env: Env, uri: Value, params: Option<map<string, string>>)
    requires Inv(site, env.test) && ShortCircuits(site, uri, env.test)
    ensures Inv(UpdatePageContent(site, env, uri, params).site, env.test)
  {
    var h := site.currentPage.value;
    var r := UpdatePageContent(site, env, uri, params).site;
    assert r == site.(currentState := uri, handlers := site.handlers[h := site.handlers[h].(uri := uri)]);
    forall g | g in r.handlers && r.handlers[g].active ensures r.currentPage == Some(g) {
      if g != h {
        assert site.handlers[g].active;
      }
    }
  }

  /** On the loading path no page is current and none stays active. */
  lemma LoadingPreservesInv(site: Coordinator, env: Env, uri: Value, params: Option<map<string, string>>)
    requires Inv(site, env.test) && !ShortCircuits(site, uri, env.test)
    ensures Inv(UpdatePageContent(site, env, uri, params).site, env.test)
  {
    var r := UpdatePageContent(site, env, uri, params).site;
    assert r.currentPage.None? && r.pages == site.pages && r.handlers.Keys == site.handlers.Keys;
    forall g | g in r.handlers ensures !r.handlers[g].active {
      if site.currentPage != Some(g) {
        assert r.handlers[g] == site.handlers[g];
        assert !site.handlers[g].active;
      }
    }
  }

  lemma RedirectPreservesInv(site: Coordinator, env: Env, uri: Value, replace: bool, allowRefresh: bool, async: bool)
    requires Inv(site, env.test)
    ensures Inv(Redirect(site, env, uri, replace, allowRefresh, async).site, env.test)
  {
    if LooseEquals(site.currentState, uri) && allowRefresh && async && site.historyEnabled {
      UpdatePreservesInv(site, env, site.currentState, None);
    }
  }

  lemma DeliverPreservesInv(site: Coordinator, env: Env, uri: Value, response: Value)
    requires Inv(site, env.test) && site.created
    ensures Inv(Deliver(site, env, uri, response).site, env.test)
  {
    if LooseEquals(uri, site.lastRequest) {
      var s := site.(lastRequest := Null);
      assert Inv(s, env.test);
      var c := Gateway.Classify(response, env.parse);
      assert Deliver(site, env, uri, response).site == Respond(s, env, uri, c).site;
      if c.Data? && c.data.redirect.Undefined? && !FixFails(s, env, Some(c.data.page)) {
        EnterPagePreservesInv(s, env.test);
      }
    }
  }

  lemma BootPreservesInv(site: Coordinator, env: Env, response: Value)
    requires Inv(site, env.test) && site.created
    ensures Inv(Boot(site, env, response).site, env.test)
  {
    EnterPagePreservesInv(site, env.test);
  }

  /** Every step preserves the invariant. */
  lemma ApplyPreservesInv(site: Coordinator, env: Env, op: Op)
    requires Inv(site, env.test)
    ensures Inv(Apply(site, env, op).site, env.test)
  {
    if site.created || op.Construct? {
      match op
      case Construct(href, hs) =>
      case AddPageOp(m, arg) => AddPagePreservesInv(site, m, arg, env.test);
      case RedirectOp(uri, replace, allowRefresh, async) =>
        RedirectPreservesInv(site, env, uri, replace, allowRefresh, async);
      case RefreshOp(async, params) =>
        if async && site.historyEnabled {
          UpdatePreservesInv(site, env, site.currentState, params);
        }
      case StateChangeOp(url) =>
        UpdatePreservesInv(site, env, StateUri(url, env.settings.baseUrl), None);
      case ResponseOp(uri, response) => DeliverPreservesInv(site, env, uri, response);
      case BootResponseOp(response) => BootPreservesInv(site, env, response);
      case ResizeOp =>
    }
  }

  /** The state after a sequence of steps from the initial state, and the
      concatenated trace. */
  function Run(env: Env, ops: seq<Op>): (r: Outcome)
    ensures Inv(r.site, env.test)
    decreases |ops|
  {
    if |ops| == 0 then
      InitialInv(env.test);
      Outcome(Initial(), [])
    else
      var before := Run(env, ops[..|ops| - 1]);
      var step := Apply(before.site, env, ops[|ops| - 1]);
      ApplyPreservesInv(before.site, env, ops[|ops| - 1]);
      Outcome(step.site, before.effects + step.effects)
  }

  /** In every reachable state at most one page is active, and it is the
      current page. */
  lemma AtMostOneActive(env: Env, ops: seq<Op>, g: HandlerId, h: HandlerId)
    ensures var s := Run(env, ops).site;
            g in s.handlers && h in s.handlers && s.handlers[g].active && s.handlers[h].active ==> g == h
  {
  }

  // ---------------------------------------------------------------------
  // Requests and responses

  /** A construction with the client disabled returns before `parameters`
      is set, yet `refresh(true)` still posts (history starts enabled), and
      when page data comes back `_fixInternalLinks` throws: on the missing
      `parameters` unless a link of the new document already made it throw.
      The content is applied but no page is entered. */
  lemma DisabledClientPageDataThrows(env: Env, href: string, hs: bool, response: Value)
    requires env.settings.clientEnabled == Some(false)
    requires Gateway.Classify(response, env.parse).Data?
    requires Gateway.Classify(response, env.parse).data.redirect.Undefined?
    ensures var s1 := Initialize(Initial(), env, href, hs).value.site;
            var u := Refresh(s1, env, true, None);
            var d := Deliver(u.site, env, Null, response);
            var page := Gateway.Classify(response, env.parse).data.page;
            && u.site == Initial().(created := true, lastRequest := Null, currentState := Null)
            && d.site == u.site
            && d.effects == [Fire(LoadingDoneEvent, Undefined), PageLoading(false), ApplyContent(page),
                             FixInternalLinks, d.effects[4]]
            && d.effects[4].Uncaught?
            && (!SomeLinkAborts(env, u.site.currentState, Some(page)) ==> d.effects[4] == Uncaught(ParametersNull))
            && (forall h :: CallEnter(h) !in u.effects + d.effects)
  {
    var s1 := Initial().(created := true);
    assert Initialize(Initial(), env, href, hs).value.site == s1;
    RefreshAfterDisabledStart(s1, env);
    var u := Refresh(s1, env, true, None);
    DeliverWithoutParameters(u.site, env, response);
    var d := Deliver(u.site, env, Null, response);
    forall h ensures CallEnter(h) !in u.effects + d.effects {
      assert CallEnter(h) !in u.effects;
    }
  }

  /** After a disabled construction `refresh(true)` issues a request for
      the `null` state without entering anything. */
  lemma RefreshAfterDisabledStart(s1: Coordinator, env: Env)
    requires s1 == Initial().(created := true)
    ensures var u := Refresh(s1, env, true, None);
            && u.site == s1.(lastRequest := Null, currentState := Null)
            && (forall h :: CallEnter(h) !in u.effects)
  {
    assert !ShortCircuits(s1, Null, env.test);
  }

  /** Page data for the awaited request when `parameters` was never set. */
  lemma DeliverWithoutParameters(s: Coordinator, env: Env, response: Value)
    requires s.created && s.parameters.None? && s.lastRequest == Null && s.currentPage.None?
    requires forall e :: e in s.pages ==> e.handler in s.handlers
    requires Gateway.Classify(response, env.parse).Data?
    requires Gateway.Classify(response, env.parse).data.redirect.Undefined?
    ensures var d := Deliver(s, env, Null, response);
            var page := Gateway.Classify(response, env.parse).data.page;
            && d.site == s
            && d.effects == [Fire(LoadingDoneEvent, Undefined), PageLoading(false), ApplyContent(page)]
                            + FixLinks(s, env, Some(page))
            && d.effects == [Fire(LoadingDoneEvent, Undefined), PageLoading(false), ApplyContent(page),
                             FixInternalLinks, d.effects[4]]
            && d.effects[4].Uncaught?
            && (!SomeLinkAborts(env, s.currentState, Some(page)) ==> d.effects[4] == Uncaught(ParametersNull))
  {
    var page := Gateway.Classify(response, env.parse).data.page;
    FixLinksWithoutParameters(s, env, Some(page));
    DeliverPage(s, env, Null, response);
    var fix := FixLinks(s, env, Some(page));
    var a := ApplyPage(s, env, page);
    assert FixFails(s, env, Some(page));
    assert a == Outcome(s, [ApplyContent(page)] + fix);
    var d := Deliver(s, env, Null, response);
    assert d.effects == [Fire(LoadingDoneEvent, Undefined), PageLoading(false), ApplyContent(page),
                         FixInternalLinks, fix[1]];
  }

  /** Issuing a request for `a` and then for `b` (different, neither
      short-circuiting) makes the response for `a` a no-op. */
  lemma StaleResponseIgnored(site: Coordinator, env: Env, a: string, b: string, response: Value)
    requires Inv(site, env.test)
    requires a != b
    requires !ShortCircuits(site, Str(a), env.test)
    ensures var s1 := UpdatePageContent(site, env, Str(a), None).site;
            !ShortCircuits(s1, Str(b), env.test) ==>
              var s2 := UpdatePageContent(s1, env, Str(b), None).site;
              Deliver(s2, env, Str(a), response) == Outcome(s2, [])
  {
    UpdatePreservesInv(site, env, Str(a), None);
  }

  /** The stale guard compares uris, not requests: after requests for
      `a`, `b` and `a` again, a response for `a` is accepted, so the answer
      to the first request for `a` is applied if it arrives first. */
  lemma UriGuardAcceptsFirstOfRepeated(site: Coordinator, env: Env, a: string, b: string, response: Value)
    requires Inv(site, env.test)
    requires a != b
    requires !ShortCircuits(site, Str(a), env.test)
    ensures var s1 := UpdatePageContent(site, env, Str(a), None).site;
            !ShortCircuits(s1, Str(b), env.test) ==>
              var s2 := UpdatePageContent(s1, env, Str(b), None).site;
              !ShortCircuits(s2, Str(a), env.test) ==>
                var s3 := UpdatePageContent(s2, env, Str(a), None).site;
                Deliver(s3, env, Str(a), response).effects[0] == Fire(LoadingDoneEvent, Undefined)
  {
    var s1 := UpdatePageContent(site, env, Str(a), None).site;
    UpdatePreservesInv(site, env, Str(a), None);
    if !ShortCircuits(s1, Str(b), env.test) {
      var s2 := UpdatePageContent(s1, env, Str(b), None).site;
      UpdatePreservesInv(s1, env, Str(b), None);
      if !ShortCircuits(s2, Str(a), env.test) {
        RequestArmsGuard(s2, env, Str(a), response);
      }
    }
  }

  /** The response to a request that did not short-circuit is accepted
      when no other request was issued in between. */
  lemma RequestArmsGuard(site: Coordinator, env: Env, uri: Value, response: Value)
    requires Inv(site, env.test)
    requires !ShortCircuits(site, uri, env.test)
    ensures var s := UpdatePageContent(site, env, uri, None).site;
            Deliver(s, env, uri, response).effects[0] == Fire(LoadingDoneEvent, Undefined)
  {
    var s := UpdatePageContent(site, env, uri, None).site;
    UpdatePreservesInv(site, env, uri, None);
    assert LooseEquals(uri, s.lastRequest);
  }

  /** An accepted response clears the last request, whatever it holds. */
  lemma DeliverClearsLastRequest(site: Coordinator, env: Env, uri: Value, response: Value)
    requires Inv(site, env.test) && site.created
    requires LooseEquals(uri, site.lastRequest)
    ensures Deliver(site, env, uri, response).site.lastRequest == Null
    ensures Inv(Deliver(site, env, uri, response).site, env.test)
  {
    var s := site.(lastRequest := Null);
    var c := Gateway.Classify(response, env.parse);
    assert Deliver(site, env, uri, response).site == Respond(s, env, uri, c).site;
    if c.Data? && !c.data.redirect.Undefined? {
      RedirectNotRefresh(s, env, c.data.redirect);
    } else if c.Data? && !FixFails(s, env, Some(c.data.page)) {
      EnterPageKeepsLastRequest(s, env.test);
    }
    DeliverPreservesInv(site, env, uri, response);
  }

  /** An accepted response for a string uri disarms the guard: a second
      response for the same uri is then a no-op. */
  lemma AcceptedResponseDisarms(site: Coordinator, env: Env, uri: string, r1: Value, r2: Value)
    requires Inv(site, env.test)
    requires site.created && site.lastRequest == Str(uri)
    ensures var s := Deliver(site, env, Str(uri), r1).site;
            s.lastRequest == Null && Deliver(s, env, Str(uri), r2) == Outcome(s, [])
  {
    DeliverClearsLastRequest(site, env, Str(uri), r1);
  }

  lemma EnterPageKeepsLastRequest(site: Coordinator, test: (PatternId, string) -> bool)
    requires forall e :: e in site.pages ==> e.handler in site.handlers
    ensures EnterPage(site, test).site.lastRequest == site.lastRequest
  {
  }

  /** A request whose uri is `undefined` (a history url without the base
      url) is never disarmed: `undefined == null`, so after the first
      response sets the last request to null a second response for the
      same uri is accepted too. */
  lemma UndefinedRequestNeverDisarms(site: Coordinator, env: Env, r1: Value, r2: Value)
    requires Inv(site, env.test)
    requires site.created && site.lastRequest == Undefined
    ensures var s := Deliver(site, env, Undefined, r1).site;
            Deliver(s, env, Undefined, r2).effects[0] == Fire(LoadingDoneEvent, Undefined)
  {
    DeliverClearsLastRequest(site, env, Undefined, r1);
    var s := Deliver(site, env, Undefined, r1).site;
    assert LooseEquals(Undefined, s.lastRequest);
  }

  /** The short circuit leaves the last request as it was: a response still
      pending for an earlier request is accepted afterwards, although the
      state has moved on. */
  lemma ShortCircuitKeepsPendingRequest(site: Coordinator, env: Env, uri: Value, pending: string, response: Value)
    requires Inv(site, env.test)
    requires site.lastRequest == Str(pending)
    requires ShortCircuits(site, uri, env.test)
    ensures var s := UpdatePageContent(site, env, uri, None).site;
            && s.lastRequest == Str(pending) && s.currentState == uri
            && Deliver(s, env, Str(pending), response).effects[0] == Fire(LoadingDoneEvent, Undefined)
  {
    UpdatePreservesInv(site, env, uri, None);
  }

  /** EXIT carries the old state and precedes the state change; on the
      loading path the old page's `exit()` comes before the request. */
  lemma ExitBeforeRequest(site: Coordinator, env: Env, uri: Value)
    requires Inv(site, env.test)
    requires !ShortCircuits(site, uri, env.test) && site.currentPage.Some?
    ensures var r := UpdatePageContent(site, env, uri, None);
            exists i, j :: 0 <= i < j < |r.effects|
                           && r.effects[i] == CallExit(site.currentPage.value)
                           && r.effects[j] == Post(env.settings.baseUrl + ToString(uri), PostParams(None))
  {
    var r := UpdatePageContent(site, env, uri, None);
    var i :| 0 <= i < |r.effects| && r.effects[i] == CallExit(site.currentPage.value);
    assert i < |r.effects| - 1;
  }

  // ---------------------------------------------------------------------
  // Handlers

  /** A handler keeping the default `refresh` never takes the short
      circuit: every navigation to its uri exits and reloads it. */
  lemma DefaultHandlerNeverShortCircuits(site: Coordinator, env: Env, uri: Value)
    requires Inv(site, env.test)
    requires forall h :: h in site.handlers ==> site.handlers[h].refresh == Page.DefaultRefresh
    ensures !ShortCircuits(site, uri, env.test)
  {
  }

  /** `_enterPage` does not exit the page it replaces: when the bootstrap
      response arrives after a navigation has already entered a page, the
      same handler is entered a second time with no `exit()` in between. */
  lemma GatewayReadyReentersWithoutExit(site: Coordinator, env: Env, success: bool)
    requires Inv(site, env.test)
    requires site.currentPage.Some?
    ensures var r := GatewayReady(site, env, success);
            && CallEnter(site.currentPage.value) in r.effects
            && (forall h :: CallExit(h) !in r.effects)
            && r.site.currentPage == site.currentPage
  {
    EnterPageEntersCurrent(site, env.test);
    GatewayReadyLogsFailureOnly(site, env, success);
    EnterInReady(ReadyEffects(site, env.test), EnterPage(site, env.test).effects, CallEnter(site.currentPage.value));
  }

  /** The first effect of `_enterPage` occurs in the ready sequence. */
  lemma EnterInReady(ready: seq<Effect>, e: seq<Effect>, x: Effect)
    requires exists i :: 0 <= i < |ready| && ready[i] == Fire(ReadyEvent, Undefined) && ready[i + 1..] == e
    requires |e| > 0 && e[0] == x
    ensures x in ready
  {
    var i :| 0 <= i < |ready| && ready[i] == Fire(ReadyEvent, Undefined) && ready[i + 1..] == e;
    assert ready[i + 1] == e[0];
  }

  /** With a current page, `_enterPage` enters that same page again. */
  lemma EnterPageEntersCurrent(site: Coordinator, test: (PatternId, string) -> bool)
    requires Inv(site, test) && site.currentPage.Some?
    ensures |EnterPage(site, test).effects| > 1
    ensures EnterPage(site, test).effects[0] == CallEnter(site.currentPage.value)
    ensures EnterPage(site, test).site.currentPage == site.currentPage
  {
  }

  /** `resize` reaches the current page exactly when it is active, which in
      a reachable state is whenever there is a current page. */
  lemma ResizeReachesCurrentPage(site: Coordinator, test: (PatternId, string) -> bool)
    requires Inv(site, test)
    ensures Resize(site) == (if site.currentPage.Some? then [CallResize(site.currentPage.value)] else [])
  {
  }

  // ---------------------------------------------------------------------
  // Navigation

  /** A redirect to a different uri that is not the site index pushes one
      history entry whose id is one more than before, and leaves the state
      and page alone. When the base url is the page's origin followed by the
      base path, the url of the pushed entry is `baseUrl + uri`, and
      `_onStateChange` on it requests that uri again. */
  lemma RedirectRoundTrip(site: Coordinator, env: Env, origin: string, uri: string)
    requires Inv(site, env.test)
    requires site.historyEnabled && !LooseEquals(site.currentState, Str(uri))
    requires uri != env.settings.siteIndex
    requires env.settings.baseUrl == origin + env.settings.basePath && env.settings.baseUrl != []
    requires forall i :: !OccursAt(uri, env.settings.baseUrl, i)
    ensures var r := Redirect(site, env, Str(uri), false, false, true);
            && r.effects == [PushState(Increment(site.currentId), env.title, RedirectPath(env.settings, Str(uri)))]
            && r.site.currentState == site.currentState && r.site.currentPage == site.currentPage
            && origin + r.effects[0].path == env.settings.baseUrl + uri
            && StateUri(origin + r.effects[0].path, env.settings.baseUrl) == Str(uri)
            && OnStateChange(r.site, env, origin + r.effects[0].path)
               == UpdatePageContent(r.site, env, Str(uri), None)
  {
    var r := Redirect(site, env, Str(uri), false, false, true);
    assert origin + r.effects[0].path == env.settings.baseUrl + uri;
    StateUriOf(env.settings.baseUrl, uri);
  }

  /** A redirect to the site index pushes the base path alone, so the url
      of the pushed entry is the base url itself and `_onStateChange` reads
      the empty uri back, not the index: it requests `""` unless the state
      already loosely equals it. */
  lemma RedirectToIndexRoundTrip(site: Coordinator, env: Env, origin: string)
    requires Inv(site, env.test)
    requires site.historyEnabled && !LooseEquals(site.currentState, Str(env.settings.siteIndex))
    requires env.settings.baseUrl == origin + env.settings.basePath && env.settings.baseUrl != []
    ensures var r := Redirect(site, env, Str(env.settings.siteIndex), false, false, true);
            && r.effects == [PushState(Increment(site.currentId), env.title, env.settings.basePath)]
            && origin + r.effects[0].path == env.settings.baseUrl
            && StateUri(origin + r.effects[0].path, env.settings.baseUrl) == Str("")
            && (LooseEquals(site.currentState, Str("")) ==>
                  OnStateChange(r.site, env, origin + r.effects[0].path) == Outcome(r.site, []))
            && (!LooseEquals(site.currentState, Str("")) ==>
                  OnStateChange(r.site, env, origin + r.effects[0].path)
                  == UpdatePageContent(r.site, env, Str(""), None))
  {
    var url := env.settings.baseUrl;
    StateUriOf(url, "");
    assert url + "" == url;
  }

  /** The uri `_onStateChange` reads from `baseUrl + uri` is `uri`, when the
      base url does not occur inside `uri`. */
  lemma StateUriOf(baseUrl: string, uri: string)
    requires baseUrl != []
    requires forall i :: !OccursAt(uri, baseUrl, i)
    ensures StateUri(baseUrl + uri, baseUrl) == Str(uri)
  {
    var url := baseUrl + uri;
    assert OccursAt(url, baseUrl, 0) by {
      assert url[..|baseUrl|] == baseUrl;
    }
    assert IndexOf(url, baseUrl) == 0;
    assert url[|baseUrl|..] == uri;
    assert IndexOf(uri, baseUrl) == -1;
    assert SplitOn(url, baseUrl) == [url[..0]] + SplitOn(uri, baseUrl);
  }

  /** A redirect to the current state does nothing unless refreshing is
      allowed, and then refreshes: a new request for the same state when
      asynchronous with history on, a reload otherwise. */
  lemma RedirectToCurrent(site: Coordinator, env: Env, uri: Value, replace: bool, allowRefresh: bool, async: bool)
    requires Inv(site, env.test)
    requires LooseEquals(site.currentState, uri)
    ensures var r := Redirect(site, env, uri, replace, allowRefresh, async);
            && (!allowRefresh ==> r == Outcome(site, []))
            && (allowRefresh && async && site.historyEnabled ==>
                  r.site.lastRequest == site.currentState || ShortCircuits(site, site.currentState, env.test))
            && (allowRefresh && !(async && site.historyEnabled) ==> r == Outcome(site, [Reload]))
            && (forall k :: 0 <= k < |r.effects| ==> !r.effects[k].PushState? && !r.effects[k].ReplaceState?)
  {
    var r := Redirect(site, env, uri, replace, allowRefresh, async);
    if allowRefresh && async && site.historyEnabled {
      UpdateHasNoHistoryEffect(site, env, site.currentState, None);
    }
  }

  /** Issuing a request never touches the history. */
  lemma UpdateHasNoHistoryEffect(site: Coordinator, env: Env, uri: Value, params: Option<map<string, string>>)
    requires Inv(site, env.test)
    ensures var r := UpdatePageContent(site, env, uri, params);
            NoHistory(r.effects)
  {
    if !ShortCircuits(site, uri, env.test) {
      IssueHasNoHistoryEffect(site, env, uri, params);
    }
  }

  /** The request branch never touches the history. */
  lemma IssueHasNoHistoryEffect(site: Coordinator, env: Env, uri: Value, params: Option<map<string, string>>)
    requires site.currentPage.Some? ==> site.currentPage.value in site.handlers
    ensures NoHistory(Issue(site, env, uri, params).effects)
  {
    var pre := [Fire(ExitEvent, site.currentState)] + RefreshCall(site, uri, env.test);
    assert NoHistory(pre);
    NoHistoryConcat(pre, PostEffects(site.currentPage, env, uri, params));
  }

  /** A second construction throws and changes nothing. */
  lemma SecondConstructionThrows(site: Coordinator, env: Env, href: string, hs: bool)
    requires Inv(site, env.test) && site.created
    ensures Apply(site, env, Construct(href, hs)) == Outcome(site, [Uncaught(AlreadyCreated)])
  {
  }
}

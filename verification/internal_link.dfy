/** `$.fn.internalLink` (src/plugins/InternalLink.js): for each link, the
    decision whether it is bound as an internal link, the uri it maps to,
    whether it is marked selected, and what a click on it does. jQuery, the
    DOM and `window.confirm` are outside the model: the link's attributes
    are inputs and the user's answer to the confirmation is a boolean. */
module InternalLink {
  import opened Js

  /** The attributes of one link that the plugin reads. */
  datatype Link = Link(
    href: Value,            // attr('href'); `Undefined` when absent
    selectedData: Value,    // data('selected')
    reload: bool,           // truthiness of data('reload')
    confirmClass: bool,     // hasClass('confirm')
    confirmData: Value)     // data('confirm')

  /** The per-link outcome: `substr` on a missing href throws; a link
      outside the site or with a protocol is left alone; otherwise the click
      handler is bound and the selected class removed, and then either the
      parent pattern for `uri` compiles and the link carries the selected
      class iff `selected`, or `new RegExp` throws on it. */
  datatype Binding =
    | Throws
    | Skipped
    | Bound(uri: string, selectedClass: string, selected: bool)
    | BadPattern(uri: string, selectedClass: string)

  /** What a click on a bound link does. */
  datatype Click =
    | NoAction                   // the confirmation was declined
    | HardNavigate(href: string) // `document.location.href = href`
    | SoftRedirect(uri: string)  // `site.redirect(uri, false, true)`

  const DefaultConfirmTitle: string := "Are you sure you wish to continue?"
  /** The TypeError of `href.substr` on a missing href. */
  const MissingHrefError: string := "TypeError: href is undefined"
  /** The SyntaxError of `new RegExp` on a pattern it cannot compile. */
  const BadPatternError: string := "SyntaxError: Invalid regular expression"

  predicate IsAsciiLetter(c: char)
  {
    ('a' <= c <= 'z') || ('A' <= c <= 'Z')
  }

  /** `/^([a-z]{3,}\:)/i`: at least three letters from the start, then `:`. */
  predicate HasProtocol(href: string)
  {
    exists k :: 3 <= k < |href| && href[k] == ':' && forall i :: 0 <= i < k ==> IsAsciiLetter(href[i])
  }

  /** The length of the run of letters at the start of `s`. */
  function LetterRun(s: string): (n: nat)
    ensures n <= |s|
    ensures forall i :: 0 <= i < n ==> IsAsciiLetter(s[i])
    ensures n < |s| ==> !IsAsciiLetter(s[n])
  {
    if |s| == 0 || !IsAsciiLetter(s[0]) then 0
    else 1 + LetterRun(s[1..])
  }

  /** The protocol test as a scan: the letter run is the only candidate,
      because `:` is not a letter. */
  function ProtocolScan(href: string): bool
  {
    var n := LetterRun(href);
    n >= 3 && n < |href| && href[n] == ':'
  }

  lemma ProtocolScanIsTest(href: string)
    ensures ProtocolScan(href) <==> HasProtocol(href)
  {
    var n := LetterRun(href);
    if HasProtocol(href) {
      var k :| 3 <= k < |href| && href[k] == ':' && forall i :: 0 <= i < k ==> IsAsciiLetter(href[i]);
      assert !IsAsciiLetter(href[k]);
    }
  }

  /** Characters with a special meaning in a regular expression source. */
  predicate IsRegexMeta(c: char)
  {
    c in {'\\', '^', '$', '.', '|', '?', '*', '+', '(', ')', '[', ']', '{', '}'}
  }

  /** The source of the pattern `^uri(/.*)?$`. `uri.replace("/", "\/")`
      leaves `uri` unchanged: in a string literal `"\/"` is just `/`. */
  function ParentPattern(uri: string): string
  {
    "^" + uri + "(/.*)?$"
  }

  /** Whether `new RegExp("^" + uri + "(/.*)?$")` compiles. A uri without
      metacharacters always gives a valid pattern; for any other uri the
      answer comes from the `compiles` oracle, which receives the pattern
      source (`c++` and `a(` are uris it rejects). */
  predicate PatternCompiles(uri: string, compiles: string -> bool)
  {
    (forall i :: 0 <= i < |uri| ==> !IsRegexMeta(uri[i])) || compiles(ParentPattern(uri))
  }

  /** What `^uri(/.*)?$` matches when `uri` is free of metacharacters:
      `uri` itself, or `uri/` followed by a line without terminators. */
  predicate LiteralParentMatch(uri: string, s: string)
  {
    s == uri
    || (StartsWith(s, uri + "/") && forall i :: |uri| < i < |s| ==> !IsLineTerminator(s[i]))
  }

  /** `parent.test(state)`: `RegExp#test` converts its argument with
      `String`. For a uri without metacharacters the pattern is a literal
      and is evaluated here; any other pattern goes to the `test` oracle,
      which receives the pattern source and the subject. */
  function ParentTest(uri: string, state: Value, test: (string, string) -> bool): bool
  {
    var subject := ToString(state);
    if forall i :: 0 <= i < |uri| ==> !IsRegexMeta(uri[i]) then LiteralParentMatch(uri, subject)
    else test(ParentPattern(uri), subject)
  }

  /** The three ways a link is marked selected: it is the current page, the
      current page is below it, or it is the index and the state is empty. */
  predicate Selected(uri: string, state: Value, siteIndex: string, test: (string, string) -> bool)
  {
    state == Str(uri)
    || (state != Str("") && ParentTest(uri, state, test))
    || (uri == siteIndex && state == Str(""))
  }

  /** The href passes the plugin's checks: present, non-empty, under the
      base path and without a protocol. */
  predicate Internal(link: Link, basePath: string)
  {
    link.href.Str? && Truthy(link.href) && StartsWith(link.href.s, basePath) && !HasProtocol(link.href.s)
  }

  /** The outcome of the plugin for one link (specified by `BindSpec`). */
  function Bind(link: Link, basePath: string, siteIndex: string, state: Value,
                test: (string, string) -> bool, compiles: string -> bool): (b: Binding)
  {
    match link.href
    case Str(href) =>
      if href == "" || IndexOf(href, basePath) != 0 then
        Skipped
      else if ProtocolScan(href) then
        Skipped
      else
        var uri := Substr(href, |basePath|);
        var cls := if Truthy(link.selectedData) then link.selectedData.s else "selected";
        if PatternCompiles(uri, compiles) then Bound(uri, cls, Selected(uri, state, siteIndex, test))
        else BadPattern(uri, cls)
    case _ => Throws
  }

  /** The outcome of the plugin for one link: a missing href throws, an
      href that fails the checks is skipped, and an internal link is bound
      to the text after the base path, or makes `new RegExp` throw when its
      parent pattern does not compile. */
  lemma BindSpec(link: Link, basePath: string, siteIndex: string, state: Value,
                 test: (string, string) -> bool, compiles: string -> bool)
    ensures var b := Bind(link, basePath, siteIndex, state, test, compiles);
            && (b == Throws <==> !link.href.Str?)
            && (b == Skipped <==> link.href.Str? && !Internal(link, basePath))
            && ((b.Bound? || b.BadPattern?) ==> Internal(link, basePath) && link.href.s == basePath + b.uri)
            && (Internal(link, basePath) ==>
                  var uri := link.href.s[|basePath|..];
                  (b.Bound? <==> PatternCompiles(uri, compiles)) && (b.BadPattern? <==> !PatternCompiles(uri, compiles)))
            && (b.Bound? ==> (b.selected <==> Selected(b.uri, state, siteIndex, test)))
            && ((b.Bound? || b.BadPattern?) ==>
                  b.selectedClass == (if Truthy(link.selectedData) then link.selectedData.s else "selected"))
  {
    if link.href.Str? {
      ProtocolScanIsTest(link.href.s);
      PrefixIsIndexZero(link.href.s, basePath);
    }
  }

  /** The link's binding throws, which ends the whole `.each`. */
  predicate Aborts(b: Binding)
  {
    b.Throws? || b.BadPattern?
  }

  /** The exception an aborting binding raises. */
  function AbortReason(b: Binding): string
  {
    if b.Throws? then MissingHrefError else BadPatternError
  }

  /** `this.each(...)` over the selected links: the bindings made, in
      document order, up to and including the first that throws. */
  function BindAll(links: seq<Link>, basePath: string, siteIndex: string, state: Value,
                   test: (string, string) -> bool, compiles: string -> bool): (r: seq<Binding>)
    ensures |r| <= |links|
    ensures forall i :: 0 <= i < |r| ==> r[i] == Bind(links[i], basePath, siteIndex, state, test, compiles)
    ensures forall i :: 0 <= i < |r| - 1 ==> !Aborts(r[i])
    ensures |r| < |links| ==> |r| > 0 && Aborts(r[|r| - 1])
    decreases |links|
  {
    if |links| == 0 then []
    else
      var b := Bind(links[0], basePath, siteIndex, state, test, compiles);
      if Aborts(b) then [b]
      else
        var rest := BindAll(links[1..], basePath, siteIndex, state, test, compiles);
        var r := [b] + rest;
        assert forall i :: 1 <= i < |r| ==> r[i] == rest[i - 1] && links[i] == links[1..][i - 1];
        r
  }

  /** The plugin throws on `links`: the last binding it made aborted. */
  predicate PluginThrows(links: seq<Link>, basePath: string, siteIndex: string, state: Value,
                         test: (string, string) -> bool, compiles: string -> bool)
  {
    var r := BindAll(links, basePath, siteIndex, state, test, compiles);
    |r| > 0 && Aborts(r[|r| - 1])
  }

  /** Some link, bound on its own, aborts the plugin. */
  predicate SomeAborts(links: seq<Link>, basePath: string, siteIndex: string, state: Value,
                       test: (string, string) -> bool, compiles: string -> bool)
  {
    exists i :: 0 <= i < |links| && Aborts(Bind(links[i], basePath, siteIndex, state, test, compiles))
  }

  /** Link `i` is the first that aborts the plugin. */
  predicate FirstAbortAt(links: seq<Link>, basePath: string, siteIndex: string, state: Value,
                         test: (string, string) -> bool, compiles: string -> bool, i: int)
  {
    && 0 <= i < |links|
    && Aborts(Bind(links[i], basePath, siteIndex, state, test, compiles))
    && forall j :: 0 <= j < i ==> !Aborts(Bind(links[j], basePath, siteIndex, state, test, compiles))
  }

  /** The plugin throws exactly when some link's binding aborts. */
  lemma BindAllThrows(links: seq<Link>, basePath: string, siteIndex: string, state: Value,
                      test: (string, string) -> bool, compiles: string -> bool)
    ensures PluginThrows(links, basePath, siteIndex, state, test, compiles)
            <==> SomeAborts(links, basePath, siteIndex, state, test, compiles)
  {
    var r := BindAll(links, basePath, siteIndex, state, test, compiles);
    if |r| > 0 && Aborts(r[|r| - 1]) {
      assert r[|r| - 1] == Bind(links[|r| - 1], basePath, siteIndex, state, test, compiles);
    }
    forall i | 0 <= i < |links| && Aborts(Bind(links[i], basePath, siteIndex, state, test, compiles))
      ensures |r| > 0 && Aborts(r[|r| - 1])
    {
      if |r| == |links| {
        assert r[i] == Bind(links[i], basePath, siteIndex, state, test, compiles);
      }
    }
  }

  /** When link `i` is the first to abort, the plugin stops there: it
      binds exactly the links up to `i`, and the exception is link `i`'s. */
  lemma BindAllFirstAbort(links: seq<Link>, basePath: string, siteIndex: string, state: Value,
                          test: (string, string) -> bool, compiles: string -> bool, i: int)
    requires FirstAbortAt(links, basePath, siteIndex, state, test, compiles, i)
    ensures var r := BindAll(links, basePath, siteIndex, state, test, compiles);
            |r| == i + 1 && r[i] == Bind(links[i], basePath, siteIndex, state, test, compiles)
    ensures PluginThrows(links, basePath, siteIndex, state, test, compiles)
  {
  }

  /** `indexOf(prefix) === 0` is exactly "starts with". */
  lemma PrefixIsIndexZero(s: string, prefix: string)
    ensures IndexOf(s, prefix) == 0 <==> StartsWith(s, prefix)
  {
    if StartsWith(s, prefix) {
      assert OccursAt(s, prefix, 0);
    }
  }

  /** The click handler: confirm first when the link asks for it, then a
      hard navigation for reload links and a soft redirect otherwise. The
      second component is the title shown in the confirmation, if any. */
  function OnClick(link: Link, uri: string, confirmed: bool): (r: (Click, Option<string>))
    requires link.href.Str?
    ensures link.confirmClass <==> r.1.Some?
    ensures r.1.Some? ==> r.1.value == (if Truthy(link.confirmData) then link.confirmData.s else DefaultConfirmTitle)
    ensures r.0 == NoAction <==> link.confirmClass && !confirmed
    ensures r.0.HardNavigate? <==> (!link.confirmClass || confirmed) && link.reload
    ensures r.0.HardNavigate? ==> r.0.href == link.href.s
    ensures r.0.SoftRedirect? ==> r.0.uri == uri
  {
    var prompt := if link.confirmClass
                  then Some(if Truthy(link.confirmData) then link.confirmData.s else DefaultConfirmTitle)
                  else None;
    if link.confirmClass && !confirmed then (NoAction, prompt)
    else if link.reload then (HardNavigate(link.href.s), prompt)
    else (SoftRedirect(uri), prompt)
  }

  /** A link bound to `uri` is selected whenever the state is `uri` itself
      or lies below `uri/` on one line, for a uri without metacharacters. */
  lemma SelectedForChildren(uri: string, child: string, siteIndex: string, test: (string, string) -> bool)
    requires forall i :: 0 <= i < |uri| ==> !IsRegexMeta(uri[i])
    requires forall i :: 0 <= i < |child| ==> !IsLineTerminator(child[i])
    ensures Selected(uri, Str(uri), siteIndex, test)
    ensures Selected(uri, Str(uri + "/" + child), siteIndex, test)
  {
    var s := uri + "/" + child;
    assert s[..|uri + "/"|] == uri + "/";
    assert s != "";
    forall i | |uri| < i < |s| ensures !IsLineTerminator(s[i]) {
      assert s[i] == child[i - |uri| - 1];
    }
  }

  /** A sibling whose name merely extends `uri` is not selected through the
      parent test: `/about` does not select on state `/aboutus`. */
  lemma SiblingNotParent(uri: string, sibling: string, test: (string, string) -> bool)
    requires forall i :: 0 <= i < |uri| ==> !IsRegexMeta(uri[i])
    requires StartsWith(sibling, uri) && |sibling| > |uri| && sibling[|uri|] != '/'
    ensures !ParentTest(uri, Str(sibling), test)
  {
    assert (uri + "/")[|uri|] == '/';
  }

  /** With an empty state only the index link is selected (or a link whose
      uri is itself empty). */
  lemma EmptyStateSelectsIndex(uri: string, siteIndex: string, test: (string, string) -> bool)
    ensures Selected(uri, Str(""), siteIndex, test) <==> uri == "" || uri == siteIndex
  {
  }

  /** Any href under the base path that starts with a scheme such as
      `http:` is skipped, even when it lies under the base path. */
  lemma ProtocolSkipped(link: Link, basePath: string, siteIndex: string, state: Value,
                        test: (string, string) -> bool, compiles: string -> bool)
    requires link.href.Str? && HasProtocol(link.href.s)
    ensures Bind(link, basePath, siteIndex, state, test, compiles) == Skipped
  {
    BindSpec(link, basePath, siteIndex, state, test, compiles);
  }

  /** A missing href throws before the base-path check can skip it. */
  lemma MissingHrefThrows(link: Link, basePath: string, siteIndex: string, state: Value,
                          test: (string, string) -> bool, compiles: string -> bool)
    requires link.href == Undefined
    ensures Bind(link, basePath, siteIndex, state, test, compiles) == Throws
  {
    BindSpec(link, basePath, siteIndex, state, test, compiles);
  }

  /** `/c++` under the base path `/` asks for the pattern `^c++(/.*)?$`,
      whose second `+` has nothing to repeat: `new RegExp` throws and the
      plugin aborts on that link, before looking at the ones after it. */
  lemma BadPatternExample(rest: seq<Link>, siteIndex: string, state: Value,
                          test: (string, string) -> bool, compiles: string -> bool)
    requires !compiles("^c++(/.*)?$")
    ensures var link := Link(Str("/c++"), Undefined, false, false, Undefined);
            && Bind(link, "/", siteIndex, state, test, compiles) == BadPattern("c++", "selected")
            && BindAll([link] + rest, "/", siteIndex, state, test, compiles) == [BadPattern("c++", "selected")]
  {
    var link := Link(Str("/c++"), Undefined, false, false, Undefined);
    assert ParentPattern("c++") == "^c++(/.*)?$";
    assert IsRegexMeta("c++"[1]);
    assert !HasProtocol("/c++");
    BindSpec(link, "/", siteIndex, state, test, compiles);
    assert link.href.s[|"/"|..] == "c++";
    assert ([link] + rest)[0] == link;
  }
}

/** `Canteen.Gateway` (src/Canteen/Gateway.js): building request URLs for
    the JSON gateway and classifying the text a request returns. The same
    classification is used by the site for page content. The network and
    `JSON.parse` are outside the model: the response text is an input and
    the parser is an oracle. */
module Gateway {
  import opened Js
  import Debug

  /** The fields of a page payload that the site copies into the document. */
  datatype PageFields = PageFields(pageId: Value, title: Value, content: Value,
                                   fullTitle: Value, keywords: Value, description: Value)

  /** A parsed JSON object, as far as the core reads it: `type`, `redirect`
      (`Undefined` when the field is absent, since JSON has no undefined
      value of its own), `errors`, its own fatal-error fields and the page
      fields. */
  datatype JsonObject = JsonObject(typ: Value, redirect: Value, errors: Option<Debug.ErrorFields>,
                                   fatal: Debug.ErrorFields, page: PageFields)

  /** `JSON.parse`: `None` when it throws. */
  type Parser = string -> Option<JsonObject>

  /** The four-way reading of a response, plus a body that passes the sniff
      but does not parse (where `JSON.parse` throws). */
  datatype Classification =
    | NoData
    | Malformed(body: string)
    | Unparseable(body: string)
    | Fatal(data: JsonObject)
    | Data(data: JsonObject)

  /** A log line written through `Debug`. */
  datatype Log = ErrorLog(text: string)

  /** What the callback passed to `get` receives, or `Aborted` when an
      exception ends the response handler before the callback runs. */
  datatype Delivery = Delivered(data: Option<JsonObject>) | Aborted

  datatype GetResult = GetResult(logs: seq<Log>, delivery: Delivery)

  /** The bootstrap outcome: the ready callback is called, or the response
      handler throws. */
  datatype Boot = ReadyCalled(success: bool) | BootThrew(reason: string)

  /** Parameters of `get`: none, an array (joined with `/`) or one value. */
  datatype Params = NoParams | List(items: seq<string>) | Scalar(v: Value)

  /** The object sniff `/^{.*}$/`: a `{` first, a `}` last and no line
      terminator anywhere (`.` does not match one and no flag is given). */
  predicate LooksLikeObject(s: string)
  {
    && |s| >= 2
    && s[0] == '{'
    && s[|s| - 1] == '}'
    && forall i :: 0 <= i < |s| ==> !IsLineTerminator(s[i])
  }

  /** `response.search(/^{.*}$/)` as the regular-expression engine runs it:
      the anchor `^` allows only position 0, `{` must be there, `.*` then
      takes the longest run without a line terminator and gives characters
      back one at a time until `}$` matches the rest. The result is 0 on a
      match and -1 otherwise. */
  method SniffSearch(s: string) returns (r: int)
    ensures r == 0 || r == -1
    ensures r == 0 <==> LooksLikeObject(s)
  {
    if |s| == 0 || s[0] != '{' {
      return -1;
    }
    // greedy `.*`: the longest run of non-terminators after the `{`
    var k := 1;
    while k < |s| && !IsLineTerminator(s[k])
      invariant 1 <= k <= |s|
      invariant forall i :: 1 <= i < k ==> !IsLineTerminator(s[i])
    {
      k := k + 1;
    }
    // backtrack: `}` at position e, end of input right after it
    var e := k - 1;
    while e >= 1
      invariant 0 <= e <= k - 1
      invariant forall x :: e < x < k ==> !(s[x] == '}' && x + 1 == |s|)
    {
      if s[e] == '}' && e + 1 == |s| {
        assert forall i :: 0 <= i < |s| ==> !IsLineTerminator(s[i]) by {
          assert k == |s|;
        }
        return 0;
      }
      e := e - 1;
    }
    return -1;
  }

  /** Classification of a response text, shared by `get` and the site:
      falsy or the text "null" means no data, a failed sniff means
      malformed, `type == 'fatalError'` means fatal, anything else is data. */
  function Classify(response: Value, parse: Parser): (c: Classification)
    ensures c.NoData? <==> !Truthy(response) || response == Str("null")
    ensures c.Malformed? <==> Truthy(response) && response != Str("null") && !LooksLikeObject(response.s)
    ensures (c.Fatal? || c.Data? || c.Unparseable?) <==>
              Truthy(response) && response != Str("null") && LooksLikeObject(response.s)
    ensures c.Unparseable? ==> parse(response.s).None?
    ensures c.Fatal? ==> parse(response.s) == Some(c.data) && c.data.typ == Str("fatalError")
    ensures c.Data? ==> parse(response.s) == Some(c.data) && c.data.typ != Str("fatalError")
  {
    if !Truthy(response) || response == Str("null") then NoData
    else if !LooksLikeObject(response.s) then Malformed(response.s)
    else
      match parse(response.s)
      case None => Unparseable(response.s)
      case Some(data) => if data.typ == Str("fatalError") then Fatal(data) else Data(data)
  }

  /** `initialize`: the gateway URL always ends with `/`, and is the input
      itself when the input already did. */
  function NormalizeUrl(url: string): (r: string)
    ensures |r| > 0 && r[|r| - 1] == '/'
    ensures |url| > 0 && url[|url| - 1] == '/' ==> r == url
    ensures !(|url| > 0 && url[|url| - 1] == '/') ==> r == url + "/"
  {
    if |url| > 0 && url[|url| - 1] == '/' then url else url + "/"
  }

  lemma NormalizeUrlIdempotent(url: string)
    ensures NormalizeUrl(NormalizeUrl(url)) == NormalizeUrl(url)
  {
  }

  /** The URL `get` requests: `service/method` under the gateway URL, then
      one more segment unless the parameters are `undefined` (omitted or
      passed explicitly). An array is joined with `/`; any other value is
      stringified, so `null` gives `/null`. */
  function RequestUrl(gatewayUrl: string, service: string, method_: string, params: Params): (r: string)
    ensures StartsWith(r, gatewayUrl + service + "/" + method_)
    ensures r == gatewayUrl + service + "/" + method_ <==> params.NoParams? || params == Scalar(Undefined)
  {
    var base := gatewayUrl + service + "/" + method_;
    var r := base + match params
      case NoParams => ""
      case List(items) => "/" + Join(items, "/")
      case Scalar(v) => if v == Undefined then "" else "/" + ToString(v);
    assert r[..|base|] == base;
    r
  }

  /** Reading a request URL back: after the gateway prefix, splitting on `/`
      gives the service, the method and the array parameters, provided none
      of them contains a `/` (an empty array gives one empty segment). */
  lemma RequestUrlSegments(gatewayUrl: string, service: string, method_: string, items: seq<string>)
    requires '/' !in service && '/' !in method_
    requires forall k :: 0 <= k < |items| ==> '/' !in items[k]
    ensures var url := RequestUrl(gatewayUrl, service, method_, List(items));
            && StartsWith(url, gatewayUrl)
            && Split(url[|gatewayUrl|..], "/") == [service, method_] + (if |items| == 0 then [""] else items)
  {
    var ps := if |items| == 0 then [""] else items;
    var parts := [service, method_] + ps;
    assert Join(items, "/") == Join(ps, "/");
    var tail := service + "/" + (method_ + "/" + Join(ps, "/"));
    RequestUrlShape(gatewayUrl, service, method_, items);
    JoinTwoFirst(service, method_, ps, "/");
    assert forall k :: 0 <= k < |parts| ==> '/' !in parts[k];
    SplitJoin(parts, '/');
    PrefixTail(gatewayUrl, tail);
  }

  /** The request URL for an array parameter, with the concatenation
      grouped after the gateway prefix. */
  lemma RequestUrlShape(gatewayUrl: string, service: string, method_: string, items: seq<string>)
    ensures RequestUrl(gatewayUrl, service, method_, List(items))
            == gatewayUrl + (service + "/" + (method_ + "/" + Join(items, "/")))
  {
  }

  lemma JoinTwoFirst(a: string, b: string, ps: seq<string>, sep: string)
    requires |ps| >= 1
    ensures Join([a, b] + ps, sep) == a + sep + (b + sep + Join(ps, sep))
  {
    JoinCons(b, ps, sep);
    JoinCons(a, [b] + ps, sep);
    assert [a] + ([b] + ps) == [a, b] + ps;
  }

  lemma PrefixTail(prefix: string, tail: string)
    ensures StartsWith(prefix + tail, prefix) && (prefix + tail)[|prefix|..] == tail
  {
    assert (prefix + tail)[..|prefix|] == prefix;
  }

  /** Without parameters the request URL is the gateway URL followed by
      `service/method`, and splitting that tail on `/` recovers both. */
  lemma RequestUrlNoParams(gatewayUrl: string, service: string, method_: string)
    requires '/' !in service && '/' !in method_
    ensures var url := RequestUrl(gatewayUrl, service, method_, NoParams);
            && StartsWith(url, gatewayUrl)
            && Split(url[|gatewayUrl|..], "/") == [service, method_]
  {
    var tail := service + "/" + method_;
    assert RequestUrl(gatewayUrl, service, method_, NoParams) == gatewayUrl + tail;
    JoinCons(service, [method_], "/");
    assert [service] + [method_] == [service, method_];
    SplitJoin([service, method_], '/');
    PrefixTail(gatewayUrl, tail);
  }

  /** The response handler of `get`, with `Debug.fatalError(data)` as in
      the 1.2.0 build: the callback receives null for no data, a malformed
      body or a fatal error, and the parsed object otherwise. It runs
      exactly once unless `JSON.parse` throws. */
  function Get(response: Value, parse: Parser): (r: GetResult)
    ensures r.delivery.Aborted? <==> Classify(response, parse).Unparseable?
    ensures r.delivery == Delivered(None) <==>
              (Classify(response, parse).NoData? || Classify(response, parse).Malformed?
               || Classify(response, parse).Fatal?)
    ensures forall d :: r.delivery == Delivered(Some(d)) <==> Classify(response, parse) == Data(d)
    ensures Classify(response, parse).Malformed? ==> r.logs == [ErrorLog(response.s)]
    ensures Classify(response, parse).Fatal? ==> r.logs == [ErrorLog(Debug.Format(Classify(response, parse).data.fatal))]
    ensures !Classify(response, parse).Malformed? && !Classify(response, parse).Fatal? ==> r.logs == []
  {
    match Classify(response, parse)
    case NoData => GetResult([], Delivered(None))
    case Malformed(body) => GetResult([ErrorLog(body)], Delivered(None))
    case Unparseable(_) => GetResult([], Aborted)
    case Fatal(data) => GetResult([ErrorLog(Debug.Format(data.fatal))], Delivered(None))
    case Data(data) => GetResult([], Delivered(Some(data)))
  }

  /** The response handler exactly as src/Canteen/Gateway.js writes it: the
      fatal branch formats `data.errors`, and `fatalError(undefined)` throws
      when it reads `.message`, so the callback is never called. */
  function GetAsWritten(response: Value, parse: Parser): (r: GetResult)
    ensures Classify(response, parse).Fatal? && Classify(response, parse).data.errors.None? ==>
              r.delivery.Aborted? && r.logs == []
    ensures Classify(response, parse).Fatal? && Classify(response, parse).data.errors.Some? ==>
              && r.logs == [ErrorLog(Debug.Format(Classify(response, parse).data.errors.value))]
              && r.delivery == Delivered(None)
    ensures !Classify(response, parse).Fatal? ==> r == Get(response, parse)
  {
    var c := Classify(response, parse);
    if c.Fatal? then
      if c.data.errors.None? then GetResult([], Aborted)
      else GetResult([ErrorLog(Debug.Format(c.data.errors.value))], Delivered(None))
    else Get(response, parse)
  }

  /** The documented fatal payload `{"type":"fatalError", ...}` carries no
      `errors` field: the handler as written never calls back, while the
      handler of the build calls back with null. */
  lemma AsWrittenDropsCallback(parse: Parser, body: string, data: JsonObject)
    requires LooksLikeObject(body)
    requires parse(body) == Some(data)
    requires data.typ == Str("fatalError") && data.errors.None?
    ensures GetAsWritten(Str(body), parse).delivery == Aborted
    ensures Get(Str(body), parse).delivery == Delivered(None)
  {
  }

  /** The bootstrap callback of `initialize`: null or `type == 'error'`
      throws "Couldn't connect to gateway"; otherwise the ready callback
      runs with `!ifError`, which is always true. */
  function Bootstrap(delivery: Delivery): (r: Boot)
    ensures r.ReadyCalled? ==> r.success
    ensures r.ReadyCalled? <==> (exists d :: delivery == Delivered(Some(d)) && d.typ != Str("error"))
  {
    match delivery
    case Aborted => BootThrew("response handler threw")
    case Delivered(None) => BootThrew("Couldn't connect to gateway")
    case Delivered(Some(d)) =>
      if d.typ == Str("error") then BootThrew("Couldn't connect to gateway") else ReadyCalled(true)
  }

  /** The ready callback runs only for a response carrying data, and then
      nothing has been logged. */
  lemma ReadyMeansData(response: Value, parse: Parser)
    ensures Bootstrap(Get(response, parse).delivery).ReadyCalled? ==>
              Classify(response, parse).Data? && Classify(response, parse).data.typ != Str("error")
              && Get(response, parse).logs == []
  {
    var g := Get(response, parse);
    if Bootstrap(g.delivery).ReadyCalled? {
      var d :| g.delivery == Delivered(Some(d)) && d.typ != Str("error");
      assert Classify(response, parse) == Data(d);
    }
  }

  /** `initialize(gatewayUrl, callback)`: the normalised gateway URL and
      the URL of the bootstrap request `time/get-server-time`. */
  function Initialize(gatewayPath: string): (r: (string, string))
    ensures r.0 == NormalizeUrl(gatewayPath)
    ensures r.1 == r.0 + "time/get-server-time"
  {
    var url := NormalizeUrl(gatewayPath);
    (url, RequestUrl(url, "time", "get-server-time", NoParams))
  }

  /** For the bootstrap request it makes no difference whether the fatal
      branch formats `data` or `data.errors`: a fatal response never calls
      the ready callback either way. */
  lemma BootstrapIgnoresFatalVariant(response: Value, parse: Parser)
    ensures Bootstrap(Get(response, parse).delivery).ReadyCalled?
        <==> Bootstrap(GetAsWritten(response, parse).delivery).ReadyCalled?
  {
  }
}

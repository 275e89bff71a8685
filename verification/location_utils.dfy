/** `LocationUtils.getParameters` (src/utils/LocationUtils.js) as a pure
    function of the page address. */
module LocationUtils {
  import opened Js

  /** Parameter name to value; `None` is the `undefined` a piece without
      `=` produces. Nothing is percent-decoded. */
  type Parameters = map<string, Option<string>>

  /** The text after the first `?`, cut before the first `#` in it. */
  function QueryText(href: string): (q: string)
    requires '?' in href
    ensures '#' !in q
    ensures exists i :: 0 <= i < |href| && href[i] == '?' && '?' !in href[..i] && StartsWith(href[i + 1..], q)
  {
    var mark := IndexOfElem(href, '?');
    var vars := href[mark + 1..];
    var pound := IndexOfElem(vars, '#');
    var q := if pound < 0 then vars else vars[..pound];
    assert href[mark] == '?' && '?' !in href[..mark] && StartsWith(href[mark + 1..], q);
    q
  }

  /** One `&`-piece: `split("=")`, key = piece 0, value = piece 1. */
  function Pair(piece: string): (string, Option<string>)
  {
    var kv := Split(piece, "=");
    (kv[0], if |kv| > 1 then Some(kv[1]) else None)
  }

  /** A piece read as a key and an optional value. */
  type Entry = (string, Option<string>)

  /** The key whose assignment goes to the object's prototype setter:
      with a string or `undefined` value it changes nothing. */
  const ProtoKey: string := "__proto__"

  /** `output[key] = value` for each entry, in order; an assignment to
      `__proto__` adds no parameter. */
  function Assign(out: Parameters, entries: seq<Entry>): Parameters
    decreases |entries|
  {
    if |entries| == 0 then out
    else
      var p := entries[|entries| - 1];
      var before := Assign(out, entries[..|entries| - 1]);
      if p.0 == ProtoKey then before else before[p.0 := p.1]
  }

  function Entries(pieces: seq<string>): (r: seq<Entry>)
    ensures |r| == |pieces| && forall i :: 0 <= i < |pieces| ==> r[i] == Pair(pieces[i])
  {
    seq(|pieces|, i requires 0 <= i < |pieces| => Pair(pieces[i]))
  }

  /** `getParameters()` for the address `href`. */
  function Parse(href: string): (r: Parameters)
    ensures '?' !in href ==> r == map[]
  {
    if IndexOfElem(href, '?') == -1 then map[]
    else Assign(map[], Entries(Split(QueryText(href), "&")))
  }

  /** A piece maps the text before its first `=` to the text between the
      first and the second `=` (or to the end); with no `=` the whole piece
      is the key and the value is absent. */
  lemma PairSpec(piece: string)
    ensures var i := IndexOfElem(piece, '=');
            && (i == -1 ==> Pair(piece) == (piece, None))
            && (i != -1 ==>
                  var rest := piece[i + 1..];
                  var j := IndexOfElem(rest, '=');
                  Pair(piece) == (piece[..i], Some(if j == -1 then rest else rest[..j])))
  {
    var kv := Split(piece, "=");
    assert kv == SplitOn(piece, ['=']);
    SplitOnCharStep(piece, '=');
    var i := IndexOfElem(piece, '=');
    if i != -1 {
      var rest := piece[i + 1..];
      SplitOnCharStep(rest, '=');
      assert kv[1] == SplitOn(rest, ['='])[0];
    }
  }

  /** A key is present after the assignments exactly when it was before or
      some entry has it, `__proto__` aside. */
  lemma {:induction false} AssignKeys(out: Parameters, entries: seq<Entry>, k: string)
    ensures k in Assign(out, entries) <==>
              k in out || (k != ProtoKey && exists i :: 0 <= i < |entries| && entries[i].0 == k)
    decreases |entries|
  {
    if |entries| > 0 {
      var n := |entries| - 1;
      var init := entries[..n];
      AssignKeys(out, init, k);
      if exists i :: 0 <= i < |entries| && entries[i].0 == k {
        var i :| 0 <= i < |entries| && entries[i].0 == k;
        if i < n {
          assert init[i] == entries[i];
        }
      }
      if exists i :: 0 <= i < n && init[i].0 == k {
        var i :| 0 <= i < n && init[i].0 == k;
        assert entries[i] == init[i];
      }
    }
  }

  /** A later entry overwrites an earlier one: the value of a key is that
      of the last entry that has it. */
  lemma {:induction false} AssignLastWins(out: Parameters, entries: seq<Entry>, k: string, i: nat)
    requires k != ProtoKey
    requires i < |entries| && entries[i].0 == k
    requires forall j :: i < j < |entries| ==> entries[j].0 != k
    ensures k in Assign(out, entries) && Assign(out, entries)[k] == entries[i].1
    decreases |entries|
  {
    var n := |entries| - 1;
    if i < n {
      var init := entries[..n];
      assert init[i] == entries[i];
      forall j | i < j < |init| ensures init[j].0 != k {
        assert init[j] == entries[j];
      }
      AssignLastWins(out, init, k, i);
      assert entries[n].0 != k;
    }
  }

  /** For a whole address: a parameter is present exactly when some
      `&`-piece of the query has it as key, and its value comes from the
      last such piece; `__proto__` is never a parameter. */
  lemma ParseSpec(href: string, k: string)
    requires '?' in href
    ensures var pieces := Split(QueryText(href), "&");
            && (k in Parse(href) <==> k != ProtoKey && exists i :: 0 <= i < |pieces| && Pair(pieces[i]).0 == k)
            && forall i :: 0 <= i < |pieces| && Pair(pieces[i]).0 == k && k != ProtoKey
                 && (forall j :: i < j < |pieces| ==> Pair(pieces[j]).0 != k)
                 ==> Parse(href)[k] == Pair(pieces[i]).1
  {
    var pieces := Split(QueryText(href), "&");
    var es := Entries(pieces);
    assert Parse(href) == Assign(map[], es);
    AssignKeys(map[], es, k);
    forall i | 0 <= i < |pieces| && Pair(pieces[i]).0 == k && k != ProtoKey
                 && (forall j :: i < j < |pieces| ==> Pair(pieces[j]).0 != k)
      ensures Parse(href)[k] == Pair(pieces[i]).1
    {
      AssignLastWins(map[], es, k, i);
    }
  }

  /** `?__proto__=x` adds no parameter, wherever it appears in the query. */
  lemma ProtoNeverParameter(href: string)
    ensures ProtoKey !in Parse(href)
  {
    if '?' in href {
      AssignKeys(map[], Entries(Split(QueryText(href), "&")), ProtoKey);
    }
  }

  /** The query text is exactly what lies between the first `?` and the
      first `#` after it. */
  lemma QueryTextOf(before: string, query: string, after: string)
    requires '?' !in before && '#' !in query
    requires after == [] || after[0] == '#'
    ensures '?' in before + "?" + query + after
    ensures QueryText(before + "?" + query + after) == query
  {
    var href := before + "?" + query + after;
    assert href[|before|] == '?';
    assert href[..|before|] == before;
    IndexOfElemAt(href, '?', |before|);
    var vars := href[|before| + 1..];
    assert vars == query + after;
    if after == [] {
      assert vars == query;
    } else {
      assert vars[|query|] == '#';
      assert vars[..|query|] == query;
      IndexOfElemAt(vars, '#', |query|);
    }
  }

  lemma ParseOf(before: string, query: string, after: string)
    requires '?' !in before && '#' !in query
    requires after == [] || after[0] == '#'
    ensures Parse(before + "?" + query + after) == Assign(map[], Entries(Split(query, "&")))
  {
    QueryTextOf(before, query, after);
  }

  /** An address whose first `?` is last, or directly followed by `#`,
      yields exactly one parameter: the empty key with no value. */
  lemma EmptyQuery(before: string, after: string)
    requires '?' !in before
    requires after == [] || after[0] == '#'
    ensures Parse(before + "?" + after) == map["" := None]
  {
    var href := before + "?" + after;
    assert href == before + "?" + "" + after;
    ParseOf(before, "", after);
    EmptyQueryText();
    calc {
      Parse(href);
      Assign(map[], Entries(Split("", "&")));
      map["" := None];
    }
  }

  /** The empty query text is one piece, the empty key without a value. */
  lemma EmptyQueryText()
    ensures Assign(map[], Entries(Split("", "&"))) == map["" := None]
  {
    assert Split("", "&") == [""] by {
      NoCharNoOccurrence("", '&');
    }
    assert Pair("") == ("", None) by {
      NoCharNoOccurrence("", '=');
    }
    assert Entries([""]) == [("", None)];
    SingleAssign("", None);
  }

  /** A single entry with an ordinary key gives a one-parameter map. */
  lemma SingleAssign(key: string, value: Option<string>)
    requires key != ProtoKey
    ensures Assign(map[], [(key, value)]) == map[key := value]
  {
    assert [(key, value)][..0] == [];
  }

  /** The worked example `http://x/y?a=1&b=2#frag`: two parameters, the
      fragment dropped. */
  lemma ExampleQuery(before: string, query: string, after: string)
    requires before == "http://x/y" && query == "a=1&b=2" && after == "#frag"
    ensures Parse(before + "?" + query + after) == map["a" := Some("1"), "b" := Some("2")]
  {
    ParseOf(before, query, after);
    var parts := ExampleSplit(query);
    var es := ExampleEntries(parts);
    ExampleAssign(es);
  }

  lemma ExampleAssign(es: seq<Entry>)
    requires es == [("a", Some("1")), ("b", Some("2"))]
    ensures Assign(map[], es) == map["a" := Some("1"), "b" := Some("2")]
  {
    assert es[..1] == [("a", Some("1"))];
    assert es[..1][..0] == [];
    assert Assign(map[], es[..1][..0]) == map[];
    assert Assign(map[], es[..1]) == map["a" := Some("1")];
  }

  lemma ExampleSplit(query: string) returns (parts: seq<string>)
    requires query == "a=1&b=2"
    ensures parts == Split(query, "&") == ["a=1", "b=2"]
  {
    parts := ["a=1", "b=2"];
    JoinCons("a=1", ["b=2"], "&");
    assert [parts[0]] + [parts[1]] == parts;
    assert Join(parts, "&") == query;
    SplitJoin(parts, '&');
  }

  lemma ExampleEntries(parts: seq<string>) returns (es: seq<Entry>)
    requires parts == ["a=1", "b=2"]
    ensures es == Entries(parts) == [("a", Some("1")), ("b", Some("2"))]
  {
    ExamplePair(parts[0], 'a', '1');
    ExamplePair(parts[1], 'b', '2');
    es := Entries(parts);
  }

  lemma ExamplePair(piece: string, key: char, value: char)
    requires piece == [key, '=', value] && key != '=' && value != '='
    ensures Pair(piece) == ([key], Some([value]))
  {
    PairSpec(piece);
    assert piece[..1] == [key];
    IndexOfElemAt(piece, '=', 1);
    assert piece[2..] == [value];
    assert IndexOfElem([value], '=') == -1;
  }
}

/** JavaScript values and the string operations of the JavaScript standard
    library that the navigation core relies on (`indexOf`, `split`, `join`,
    `substr`, number-to-string), stated once and shared by every module. */
module Js {

  /** The conventional Some/None wrapper, used where the source returns
      `null` or leaves a property `undefined`. */
  datatype Option<+T> = None | Some(value: T)

  /** A thrown exception or a normal result. */
  datatype Result<+T> = Success(value: T) | Failure(error: string)

  /** A JavaScript value as far as the core needs one: `null`,
      `undefined` or a string. */
  datatype Value = Null | Undefined | Str(s: string)

  /** JavaScript's loose equality `==` on these values: `null == undefined`
      holds, a string equals only the same string. */
  predicate LooseEquals(a: Value, b: Value)
  {
    match (a, b)
    case (Str(x), Str(y)) => x == y
    case (Str(_), _) => false
    case (_, Str(_)) => false
    case _ => true
  }

  /** `String(v)`. */
  function ToString(v: Value): string
  {
    match v
    case Null => "null"
    case Undefined => "undefined"
    case Str(s) => s
  }

  /** JavaScript truthiness: only non-empty strings are truthy. */
  predicate Truthy(v: Value)
  {
    v.Str? && v.s != ""
  }

  lemma LooseEqualsIsEquivalence(a: Value, b: Value, c: Value)
    ensures LooseEquals(a, a)
    ensures LooseEquals(a, b) == LooseEquals(b, a)
    ensures LooseEquals(a, b) && LooseEquals(b, c) ==> LooseEquals(a, c)
  {
  }

  /** The line terminators of ECMAScript regular expressions, which `.`
      does not match. */
  predicate IsLineTerminator(c: char)
  {
    c == '\n' || c == '\r' || c == '\U{2028}' || c == '\U{2029}'
  }

  predicate StartsWith<T(==)>(s: seq<T>, prefix: seq<T>)
  {
    |prefix| <= |s| && s[..|prefix|] == prefix
  }

  /** `s.indexOf(x)` for a single element: the first position of `x`, or -1. */
  function IndexOfElem<T(==)>(s: seq<T>, x: T): (r: int)
    ensures r == -1 <==> x !in s
    ensures r != -1 ==> 0 <= r < |s| && s[r] == x && x !in s[..r]
  {
    if |s| == 0 then -1
    else if s[0] == x then 0
    else
      var k := IndexOfElem(s[1..], x);
      if k == -1 then -1
      else
        assert s[..k + 1] == [s[0]] + s[1..][..k];
        k + 1
  }

  /** The position of an element is determined by where it first occurs. */
  lemma IndexOfElemAt<T>(s: seq<T>, x: T, i: nat)
    requires i < |s| && s[i] == x && x !in s[..i]
    ensures IndexOfElem(s, x) == i
  {
    assert s[..i + 1] == s[..i] + [x];
  }

  /** `sub` occurs in `s` starting at position `i`. */
  predicate OccursAt<T(==)>(s: seq<T>, sub: seq<T>, i: int)
  {
    0 <= i && i + |sub| <= |s| && s[i..i + |sub|] == sub
  }

  /** `s.indexOf(sub)`: the first position where `sub` occurs, or -1. */
  function IndexOf<T(==)>(s: seq<T>, sub: seq<T>): (r: int)
    ensures r == -1 <==> forall i :: !OccursAt(s, sub, i)
    ensures r != -1 ==> OccursAt(s, sub, r) && forall j :: 0 <= j < r ==> !OccursAt(s, sub, j)
  {
    IndexOfFrom(s, sub, 0)
  }

  /** The first occurrence of `sub` at or after position `from`, or -1. */
  function IndexOfFrom<T(==)>(s: seq<T>, sub: seq<T>, from: nat): (r: int)
    ensures r == -1 <==> forall i :: from <= i ==> !OccursAt(s, sub, i)
    ensures r != -1 ==> from <= r && OccursAt(s, sub, r)
    ensures r != -1 ==> forall j :: from <= j < r ==> !OccursAt(s, sub, j)
    decreases |s| - from
  {
    if from + |sub| > |s| then -1
    else if s[from..from + |sub|] == sub then
      assert OccursAt(s, sub, from);
      from
    else
      assert !OccursAt(s, sub, from);
      IndexOfFrom(s, sub, from + 1)
  }

  /** `s.split(sep)`, including JavaScript's rule that an empty separator
      splits a string into its single characters. */
  function Split<T(==)>(s: seq<T>, sep: seq<T>): (r: seq<seq<T>>)
    ensures sep != [] ==> |r| >= 1
  {
    if sep == [] then seq(|s|, i requires 0 <= i < |s| => [s[i]])
    else SplitOn(s, sep)
  }

  /** `s.split(sep)` for a non-empty separator: the text before the first
      occurrence, then the split of the text after it. */
  function SplitOn<T(==)>(s: seq<T>, sep: seq<T>): (r: seq<seq<T>>)
    requires sep != []
    ensures |r| >= 1
    decreases |s|
  {
    var i := IndexOf(s, sep);
    if i == -1 then [s] else [s[..i]] + SplitOn(s[i + |sep|..], sep)
  }

  /** `parts.join(sep)`. */
  function Join<T>(parts: seq<seq<T>>, sep: seq<T>): seq<T>
  {
    if |parts| == 0 then []
    else if |parts| == 1 then parts[0]
    else parts[0] + sep + Join(parts[1..], sep)
  }

  lemma JoinCons<T>(p: seq<T>, tail: seq<seq<T>>, sep: seq<T>)
    requires |tail| >= 1
    ensures Join([p] + tail, sep) == p + sep + Join(tail, sep)
  {
    assert ([p] + tail)[1..] == tail;
  }

  /** Splitting on a non-empty separator and joining with it again gives
      the original string back. */
  lemma {:induction false} JoinSplit<T>(s: seq<T>, sep: seq<T>)
    requires sep != []
    ensures Join(SplitOn(s, sep), sep) == s
    decreases |s|
  {
    var i := IndexOf(s, sep);
    if i == -1 {
      assert SplitOn(s, sep) == [s];
    } else {
      var rest := s[i + |sep|..];
      var tail := SplitOn(rest, sep);
      JoinSplit(rest, sep);
      JoinCons(s[..i], tail, sep);
      assert s[i..i + |sep|] == sep by {
        assert OccursAt(s, sep, i);
      }
      SplitAround(s, i, |sep|);
      calc {
        Join(SplitOn(s, sep), sep);
        Join([s[..i]] + tail, sep);
        s[..i] + sep + Join(tail, sep);
        s[..i] + sep + rest;
      }
    }
  }

  lemma SplitAround<T>(s: seq<T>, i: nat, n: nat)
    requires i + n <= |s|
    ensures s == s[..i] + s[i..i + n] + s[i + n..]
  {
  }

  /** Joining pieces that do not contain a one-character separator and
      splitting the result again recovers the pieces. */
  lemma {:induction false} SplitJoin<T>(parts: seq<seq<T>>, c: T)
    requires |parts| >= 1
    requires forall k :: 0 <= k < |parts| ==> c !in parts[k]
    ensures SplitOn(Join(parts, [c]), [c]) == parts
    decreases |parts|
  {
    var s := Join(parts, [c]);
    var p := parts[0];
    if |parts| == 1 {
      NoCharNoOccurrence(p, c);
    } else {
      var rest := Join(parts[1..], [c]);
      assert s == p + [c] + rest;
      assert OccursAt(s, [c], |p|) by {
        assert s[|p|..|p| + 1] == [c];
      }
      forall j | 0 <= j < |p| ensures !OccursAt(s, [c], j) {
        assert s[j] == p[j];
        assert s[j..j + 1] == [s[j]];
      }
      var i := IndexOf(s, [c]);
      assert i == |p|;
      assert s[..i] == p;
      assert s[i + 1..] == rest;
      SplitJoin(parts[1..], c);
    }
  }

  lemma NoCharNoOccurrence<T>(s: seq<T>, c: T)
    requires c !in s
    ensures IndexOf(s, [c]) == -1
  {
    forall i ensures !OccursAt(s, [c], i) {
      if 0 <= i < |s| {
        assert s[i..i + 1] == [s[i]];
      }
    }
  }

  /** Splitting on one character: the whole sequence when the character is
      absent, otherwise the part before its first position followed by the
      split of what comes after. */
  lemma SplitOnCharStep<T>(s: seq<T>, c: T)
    ensures var i := IndexOfElem(s, c);
            && (i == -1 ==> SplitOn(s, [c]) == [s])
            && (i != -1 ==> SplitOn(s, [c]) == [s[..i]] + SplitOn(s[i + 1..], [c]))
  {
    if c in s {
      FirstCharOccurrence(s, c);
    } else {
      NoCharNoOccurrence(s, c);
    }
  }

  /** The first occurrence of a one-character string is the first position
      of that character. */
  lemma FirstCharOccurrence<T>(s: seq<T>, c: T)
    requires c in s
    ensures IndexOf(s, [c]) == IndexOfElem(s, c)
  {
    var i := IndexOfElem(s, c);
    assert s[i..i + 1] == [c];
    assert OccursAt(s, [c], i);
    var r := IndexOf(s, [c]);
    assert r <= i;
    assert s[r] == s[r..r + 1][0] == c;
  }

  /** Every piece of a split on a one-character separator is free of it. */
  lemma {:induction false} SplitPiecesFree<T>(s: seq<T>, c: T)
    ensures forall k :: 0 <= k < |SplitOn(s, [c])| ==> c !in SplitOn(s, [c])[k]
    decreases |s|
  {
    var i := IndexOf(s, [c]);
    if i == -1 {
      forall j | 0 <= j < |s| ensures s[j] != c {
        assert s[j..j + 1] == [s[j]];
        assert !OccursAt(s, [c], j);
      }
    } else {
      SplitPiecesFree(s[i + 1..], c);
      forall j | 0 <= j < i ensures s[j] != c {
        assert s[j..j + 1] == [s[j]];
        assert !OccursAt(s, [c], j);
      }
      var r := SplitOn(s, [c]);
      assert r == [s[..i]] + SplitOn(s[i + 1..], [c]);
      forall k | 0 <= k < |r| ensures c !in r[k] {
        if k > 0 {
          assert r[k] == SplitOn(s[i + 1..], [c])[k - 1];
        }
      }
    }
  }

  /** `s.substring(start)` / `s.substr(start)` for a non-negative start:
      positions past the end give the empty string. */
  function Substr<T>(s: seq<T>, start: nat): (r: seq<T>)
    ensures start <= |s| ==> s == s[..start] + r
    ensures start >= |s| ==> r == []
  {
    if start <= |s| then s[start..] else []
  }

  function DigitChar(d: nat): (c: char)
    requires d < 10
  {
    ('0' as int + d) as char
  }

  function DigitValue(c: char): int
  {
    c as int - '0' as int
  }

  /** The decimal text of a whole number, as `String(n)` produces it. */
  function NatToString(n: nat): (r: string)
    ensures |r| >= 1
    ensures forall k :: 0 <= k < |r| ==> '0' <= r[k] <= '9'
    ensures r[0] == '0' ==> n == 0
  {
    if n < 10 then [DigitChar(n)]
    else NatToString(n / 10) + [DigitChar(n % 10)]
  }

  /** The number a string of decimal digits denotes. */
  function DecimalValue(s: string): int
  {
    if |s| == 0 then 0 else DecimalValue(s[..|s| - 1]) * 10 + DigitValue(s[|s| - 1])
  }

  /** Reading the decimal text of `n` back gives `n`. */
  lemma {:induction false} NatToStringRoundTrip(n: nat)
    ensures DecimalValue(NatToString(n)) == n
  {
    if n >= 10 {
      NatToStringRoundTrip(n / 10);
      var r := NatToString(n);
      assert r[..|r| - 1] == NatToString(n / 10);
    }
  }
}

/** `Canteen.SavedData` (src/Canteen/Utilities/SavedData.js): the cookie
    text `write` assigns and the lookup `read` performs. The cookie jar is
    not modelled: `write` returns the assignment string, `read` takes the
    `document.cookie` text as an input, and the clock and
    `Date.prototype.toGMTString` are parameters. */
module SavedData {
  import opened Js

  /** Milliseconds in a day. */
  const DaysToMs: int := 24 * 60 * 60 * 1000

  /** The date used for `NEVER_EXPIRE`: the end of 32-bit Unix time, in ms. */
  const NeverExpireInstant: int := 2147483646000

  /** The `days` argument: omitted, a number of days, or `"neverExpire"`. */
  datatype Days = Omitted | Number(n: int) | NeverExpire

  /** The expiry instant in milliseconds, or `None` for a session cookie
      (`days` falsy: omitted or 0). */
  function Expiry(days: Days, now: int): (r: Option<int>)
    ensures r.None? <==> days == Omitted || days == Number(0)
    ensures days == NeverExpire ==> r == Some(NeverExpireInstant)
    ensures days.Number? && days.n != 0 ==> r == Some(now + days.n * DaysToMs)
  {
    match days
    case Omitted => None
    case Number(n) => if n == 0 then None else Some(now + n * DaysToMs)
    case NeverExpire => Some(NeverExpireInstant)
  }

  /** The `; expires=...` attribute, empty for a session cookie. */
  function ExpiresAttribute(days: Days, now: int, gmt: int -> string): string
  {
    match Expiry(days, now)
    case None => ""
    case Some(ms) => "; expires=" + gmt(ms)
  }

  /** `write(name, value, days)`: the string assigned to `document.cookie`,
      given the current time `now` and the date formatter `gmt`. */
  function Write(name: string, value: string, days: Days, now: int, gmt: int -> string): string
  {
    name + "=" + value + ExpiresAttribute(days, now, gmt) + "; path=/"
  }

  /** `clear(name)`: an empty value that expired a day ago. */
  function Clear(name: string, now: int, gmt: int -> string): string
  {
    Write(name, "", Number(-1), now, gmt)
  }

  /** `clear` writes an empty value whose expiry lies one day before now,
      so the browser drops the cookie. */
  lemma ClearExpiresInPast(name: string, now: int, gmt: int -> string)
    ensures Expiry(Number(-1), now) == Some(now - DaysToMs)
    ensures Expiry(Number(-1), now).value < now
    ensures Clear(name, now, gmt) == name + "=; expires=" + gmt(now - DaysToMs) + "; path=/"
  {
    var ms := now - DaysToMs;
    var x := gmt(ms);
    assert ExpiresAttribute(Number(-1), now, gmt) == "; expires=" + x;
    assert name + "=" + "" == name + "=";
    assert Clear(name, now, gmt) == name + "=" + ("; expires=" + x) + "; path=/";
    assert "=" + ("; expires=" + x) == "=; expires=" + x;
  }

  /** `NEVER_EXPIRE` does not depend on the clock. */
  lemma NeverExpireIgnoresClock(name: string, value: string, now1: int, now2: int, gmt: int -> string)
    ensures Write(name, value, NeverExpire, now1, gmt) == Write(name, value, NeverExpire, now2, gmt)
  {
  }

  /** One cookie segment with its leading spaces removed. */
  function StripLeadingSpaces(c: string): (r: string)
    ensures |r| <= |c|
    ensures |r| == 0 || r[0] != ' '
  {
    if |c| > 0 && c[0] == ' ' then StripLeadingSpaces(c[1..]) else c
  }

  /** What `StripLeadingSpaces` removes is a run of spaces at the front:
      the result is a suffix of the segment. */
  lemma {:induction false} StripLeadingSpacesSuffix(c: string)
    ensures var r := StripLeadingSpaces(c);
            exists k :: 0 <= k <= |c| && r == c[k..] && forall i :: 0 <= i < k ==> c[i] == ' '
  {
    var r := StripLeadingSpaces(c);
    if |c| > 0 && c[0] == ' ' {
      StripLeadingSpacesSuffix(c[1..]);
      var k :| 0 <= k <= |c[1..]| && r == c[1..][k..] && forall i :: 0 <= i < k ==> c[1..][i] == ' ';
      assert r == c[k + 1..];
    } else {
      assert r == c[0..];
    }
  }

  /** The segment, once its leading spaces are stripped, starts with
      `name=`. */
  predicate Holds(segment: string, name: string)
  {
    StartsWith(StripLeadingSpaces(segment), name + "=")
  }

  /** The test `read` makes, `c.indexOf(nameEQ) === 0`, is exactly `Holds`. */
  lemma HoldsIsPrefix(segment: string, name: string)
    ensures IndexOf(StripLeadingSpaces(segment), name + "=") == 0 <==> Holds(segment, name)
  {
    var c := StripLeadingSpaces(segment);
    if StartsWith(c, name + "=") {
      assert OccursAt(c, name + "=", 0);
    }
  }

  /** A segment that holds `name=` is long enough to cut the value from. */
  lemma HoldsLength(segment: string, name: string)
    requires Holds(segment, name)
    ensures |name| + 1 <= |StripLeadingSpaces(segment)|
  {
  }

  /** The position of the first segment at or after `from` that holds
      `name=`, or `None`. */
  function FirstHolding(segments: seq<string>, name: string, from: nat): (r: Option<nat>)
    requires from <= |segments|
    ensures r.None? <==> forall i :: from <= i < |segments| ==> !Holds(segments[i], name)
    ensures r.Some? ==> from <= r.value < |segments| && Holds(segments[r.value], name)
                        && forall j :: from <= j < r.value ==> !Holds(segments[j], name)
    decreases |segments| - from
  {
    if from == |segments| then None
    else if Holds(segments[from], name) then Some(from)
    else FirstHolding(segments, name, from + 1)
  }

  /** The value in the first segment that holds `name=`, or `None` (null). */
  function FirstValue(segments: seq<string>, name: string): (r: Option<string>)
    ensures r.None? <==> forall i :: 0 <= i < |segments| ==> !Holds(segments[i], name)
    ensures r.Some? ==>
              exists i :: 0 <= i < |segments| && Holds(segments[i], name)
                && (forall j :: 0 <= j < i ==> !Holds(segments[j], name))
                && r.value == StripLeadingSpaces(segments[i])[|name| + 1..]
  {
    match FirstHolding(segments, name, 0)
    case None => None
    case Some(i) =>
      HoldsLength(segments[i], name);
      Some(StripLeadingSpaces(segments[i])[|name| + 1..])
  }

  /** `read(name)` against the cookie text `cookie`. */
  function Read(cookie: string, name: string): (r: Option<string>)
    ensures r.None? <==> forall i :: 0 <= i < |Split(cookie, ";")| ==> !Holds(Split(cookie, ";")[i], name)
  {
    FirstValue(Split(cookie, ";"), name)
  }

  /** A cookie text without `;` is a single segment. */
  lemma OneSegment(cookie: string, name: string)
    requires ';' !in cookie
    ensures Split(cookie, ";") == [cookie]
    ensures Read(cookie, name) == FirstValue([cookie], name)
  {
    NoCharNoOccurrence(cookie, ';');
  }

  /** A name is never found through a longer name that it prefixes:
      reading `a` from `ab=1` gives null. */
  lemma LongerNameDoesNotMatch(name: string, extra: char, value: string)
    requires extra != '=' && extra != ';' && ';' !in name && ';' !in value
    requires |name| > 0 && name[0] != ' '
    ensures Read(name + [extra] + "=" + value, name) == None
  {
    var cookie := name + [extra] + "=" + value;
    assert ';' !in cookie;
    OneSegment(cookie, name);
    assert cookie[0] == name[0];
    assert StripLeadingSpaces(cookie) == cookie;
    HoldsIsPrefix(cookie, name);
    assert !StartsWith(cookie, name + "=") by {
      assert cookie[|name|] == extra;
      assert (name + "=")[|name|] == '=';
    }
    assert !Holds([cookie][0], name);
  }

  /** Reading a cookie text that is exactly one assignment `name=value`
      gives the value, provided the name does not start with a space and
      neither part contains `;`. */
  lemma ReadSingle(name: string, value: string)
    requires ';' !in name && ';' !in value
    requires |name| == 0 || name[0] != ' '
    ensures Read(name + "=" + value, name) == Some(value)
  {
    var cookie := name + "=" + value;
    assert ';' !in cookie;
    OneSegment(cookie, name);
    assert cookie[0] == if |name| == 0 then '=' else name[0];
    assert StripLeadingSpaces(cookie) == cookie;
    assert cookie[..|name + "="|] == name + "=";
    HoldsIsPrefix(cookie, name);
    assert cookie[|name| + 1..] == value;
  }

  /** The first matching segment wins: with `name=first` before
      `name=second` in the cookie text, `read` returns `first`. */
  lemma ReadFirstWins(name: string, first: string, second: string)
    requires ';' !in name && ';' !in first && ';' !in second
    requires |name| > 0 && name[0] != ' '
    ensures Read(name + "=" + first + "; " + name + "=" + second, name) == Some(first)
  {
    var a := name + "=" + first;
    var b := " " + name + "=" + second;
    var cookie := name + "=" + first + "; " + name + "=" + second;
    var parts: seq<string> := [a, b];
    JoinCons(a, [b], ";");
    assert [a] + [b] == parts;
    assert cookie == Join(parts, ";");
    assert forall k :: 0 <= k < |parts| ==> ';' !in parts[k];
    SplitJoin(parts, ';');
    assert StripLeadingSpaces(a) == a;
    assert a[..|name + "="|] == name + "=";
    HoldsIsPrefix(a, name);
    assert a[|name| + 1..] == first;
  }

  /** The assignment text `write` produces, read back as a cookie string,
      gives the value for the name: the `expires` and `path` attributes
      that follow never hide it. This holds when the name does not start
      with a space and neither part contains `;`. It is a statement about
      the text, not about what the browser's cookie jar later returns. */
  lemma ReadOwnAssignment(name: string, value: string, days: Days, now: int, gmt: int -> string)
    requires ';' !in name && ';' !in value
    requires |name| == 0 || name[0] != ' '
    ensures Read(Write(name, value, days, now, gmt), name) == Some(value)
  {
    var head := name + "=" + value;
    var rest := ExpiresAttribute(days, now, gmt) + "; path=/";
    assert Write(name, value, days, now, gmt) == head + rest;
    assert rest[0] == ';' by {
      if Expiry(days, now).None? {
        assert rest == "; path=/";
      }
    }
    FirstSegment(head, rest, ';');
    FirstSegmentValue(Split(head + rest, ";"), name, value);
  }

  /** Text without `c`, followed by text starting with `c`: splitting on
      `c` gives the first part as the first piece. */
  lemma FirstSegment(head: string, rest: string, c: char)
    requires c !in head && |rest| > 0 && rest[0] == c
    ensures |Split(head + rest, [c])| > 0 && Split(head + rest, [c])[0] == head
  {
    var w := head + rest;
    assert w[|head|] == c;
    assert w[..|head|] == head;
    IndexOfElemAt(w, c, |head|);
    SplitOnCharStep(w, c);
  }

  /** When the first segment is exactly `name=value`, that value is read. */
  lemma FirstSegmentValue(segments: seq<string>, name: string, value: string)
    requires |segments| > 0 && segments[0] == name + "=" + value
    requires |name| == 0 || name[0] != ' '
    ensures FirstValue(segments, name) == Some(value)
  {
    var head := segments[0];
    assert head[0] == if |name| == 0 then '=' else name[0];
    assert StripLeadingSpaces(head) == head;
    assert head[..|name + "="|] == name + "=";
    HoldsIsPrefix(head, name);
    assert FirstHolding(segments, name, 0) == Some(0);
    assert head[|name| + 1..] == value;
  }
}

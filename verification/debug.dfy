/** `Debug.fatalError` (src/Debug.js): the text logged for a fatal error
    reported by the server. Only the string is modelled; handing it to
    `Debug.error` is a log effect. */
module Debug {
  import opened Js

  /** The fields `fatalError` reads from its argument. `stackTrace` is
      `None` when it is absent (falsy); an array, even an empty one, is
      truthy. Numbers such as `code` are kept as their `String` text. */
  datatype ErrorFields = ErrorFields(message: Value, file: Value, code: Value, stackTrace: Option<seq<string>>)

  function Header(e: ErrorFields): string
  {
    ToString(e.message) + "\non " + ToString(e.file) + " (code: " + ToString(e.code) + ")\n"
  }

  /** The line appended for stack frame number `n`. */
  function FrameLine(n: nat, frame: string): string
  {
    "\n\t #" + NatToString(n) + ". " + frame
  }

  /** The frames of `st`, numbered from `first` upwards. */
  function Frames(st: seq<string>, first: nat): string
    decreases |st|
  {
    if |st| == 0 then "" else FrameLine(first, st[0]) + Frames(st[1..], first + 1)
  }

  /** The full diagnostic text. */
  function Format(e: ErrorFields): string
  {
    Header(e) + if e.stackTrace.Some? then Frames(e.stackTrace.value, 1) else ""
  }

  /** Appending a frame to the trace appends its line, numbered after the
      frames before it. */
  lemma {:induction false} FramesSnoc(st: seq<string>, frame: string, first: nat)
    ensures Frames(st + [frame], first) == Frames(st, first) + FrameLine(first + |st|, frame)
    decreases |st|
  {
    if |st| == 0 {
      assert st + [frame] == [frame];
      assert Frames([frame], first) == FrameLine(first, frame) + Frames([], first + 1);
    } else {
      assert (st + [frame])[1..] == st[1..] + [frame];
      FramesSnoc(st[1..], frame, first + 1);
    }
  }

  /** `fatalError(error)` builds its text as the source does: the header,
      then one line per frame in a loop. The result is the diagnostic
      `Format(e)`, produced once. */
  method FatalError(e: ErrorFields) returns (result: string)
    ensures result == Format(e)
    ensures StartsWith(result, Header(e))
    ensures e.stackTrace.None? ==> result == Header(e)
  {
    result := Header(e);
    if e.stackTrace.Some? {
      var st := e.stackTrace.value;
      var j := 0;
      while j < |st|
        invariant 0 <= j <= |st|
        invariant result == Header(e) + Frames(st[..j], 1)
      {
        FramesSnoc(st[..j], st[j], 1);
        assert st[..j + 1] == st[..j] + [st[j]];
        result := result + FrameLine(j + 1, st[j]);
        j := j + 1;
      }
      assert st[..j] == st;
    }
    assert result[..|Header(e)|] == Header(e);
  }

  /** Frame `j` (0-based) of the trace is printed as number `j + 1`, after
      the lines of all frames before it and before those of all frames after
      it: numbering is consecutive from 1 and follows the input order. */
  lemma {:induction false} FrameNumbering(st: seq<string>, j: nat)
    requires j < |st|
    ensures Frames(st, 1) == Frames(st[..j], 1) + FrameLine(j + 1, st[j]) + Frames(st[j + 1..], j + 2)
  {
    var rest := st[j..];
    FramesAppend(st[..j], rest, 1);
    assert st[..j] + rest == st;
    assert rest[0] == st[j] && rest[1..] == st[j + 1..];
    var a, l, b := Frames(st[..j], 1), FrameLine(j + 1, st[j]), Frames(st[j + 1..], j + 2);
    assert Frames(rest, j + 1) == l + b;
    assert a + (l + b) == a + l + b;
  }

  lemma {:induction false} FramesAppend(a: seq<string>, b: seq<string>, first: nat)
    ensures Frames(a + b, first) == Frames(a, first) + Frames(b, first + |a|)
    decreases |a|
  {
    if |a| == 0 {
      assert a + b == b;
    } else {
      assert (a + b)[0] == a[0];
      assert (a + b)[1..] == a[1..] + b;
      FramesAppend(a[1..], b, first + 1);
    }
  }

  /** The worked example: message "Boom" from f.js with code 500 and the
      frames "a" and "b" gives the header and two frames numbered #1 and #2. */
  lemma BoomExample()
    ensures Format(ErrorFields(Str("Boom"), Str("f.js"), Str("500"), Some(["a", "b"])))
         == "Boom\non f.js (code: 500)\n\n\t #1. a\n\t #2. b"
  {
    BoomFrames();
    var e := ErrorFields(Str("Boom"), Str("f.js"), Str("500"), Some(["a", "b"]));
    assert Header(e) == "Boom\non f.js (code: 500)\n";
  }

  /** The two frame lines of the worked example. */
  lemma BoomFrames()
    ensures Frames(["a", "b"], 1) == "\n\t #1. a\n\t #2. b"
  {
    var st := ["a", "b"];
    assert NatToString(1) == "1";
    assert NatToString(2) == "2";
    assert FrameLine(2, "b") == "\n\t #2. b";
    assert FrameLine(1, "a") == "\n\t #1. a";
    assert st[1..] == ["b"];
    assert Frames(["b"], 2) == FrameLine(2, "b") + Frames([], 3);
  }
}

/** `Canteen.EventDispatcher` of the 1.2.0 build: a table from event name to
    the ordered list of registered callbacks. The model's table belongs to
    one dispatcher (the site); that the source's table lives on the
    prototype, and is shared by every dispatcher until `off()` gives the
    instance its own, is not modelled. Callbacks are opaque function
    identities: two registrations are the same callback exactly when `===`
    holds between them, which is equality of ids here. */
module EventDispatcher {
  import opened Js

  /** The identity of a JavaScript function object. */
  type CallbackId = nat

  type Listeners = map<string, seq<CallbackId>>

  /** The `callback` argument of `on`/`off`: a function, an array of
      callback arguments (arrays may nest), `undefined`, or any other value. */
  datatype Callback = Fn(id: CallbackId) | Many(items: seq<Callback>) | Missing | NotCallable

  /** The `name` argument of `on`: a string of space-separated event names,
      or an object whose own keys (in order) map names to callbacks. */
  datatype NameArg = Names(names: string) | Table(entries: seq<(string, Callback)>)

  /** The table after `off`, and whether `off` threw part-way. */
  datatype Outcome = Outcome(table: Listeners, threw: bool)

  /** One call made by `trigger`. */
  datatype Call = Call(callback: CallbackId, payload: Value)

  predicate NoDuplicates(s: seq<CallbackId>)
  {
    forall i, j :: 0 <= i < j < |s| ==> s[i] != s[j]
  }

  /** Every list is free of duplicates, which `on` maintains. */
  predicate WellFormed(t: Listeners)
  {
    forall n :: n in t ==> NoDuplicates(t[n])
  }

  /** `this._listeners[n] || []`. */
  function Get(t: Listeners, n: string): seq<CallbackId>
  {
    if n in t then t[n] else []
  }

  function EventNames(s: string): seq<string>
  {
    Split(s, " ")
  }

  /** `_callbackIndex(name, callback)`: the first position holding a
      callback identical to `fn`, or -1. */
  method CallbackIndex(t: Listeners, name: string, fn: CallbackId) returns (r: int)
    requires name in t
    ensures r == -1 <==> fn !in t[name]
    ensures r != -1 ==> 0 <= r < |t[name]| && t[name][r] == fn && fn !in t[name][..r]
  {
    var l := t[name];
    var i := 0;
    while i < |l|
      invariant 0 <= i <= |l|
      invariant fn !in l[..i]
    {
      if l[i] == fn {
        return i;
      }
      assert l[..i + 1] == l[..i] + [l[i]];
      i := i + 1;
    }
    assert l[..i] == l;
    return -1;
  }

  // ---------------------------------------------------------------- on

  /** The body of the loop in `on` for one name `n` and one function. */
  function Register(t: Listeners, n: string, fn: CallbackId): Listeners
  {
    var l := Get(t, n);
    if IndexOfElem(l, fn) == -1 then t[n := l + [fn]] else t[n := l]
  }

  /** `on(s, fn)` for a function: register `fn` under every space-separated name. */
  function RegisterAll(t: Listeners, names: seq<string>, fn: CallbackId): Listeners
    decreases |names|
  {
    if |names| == 0 then t else RegisterAll(Register(t, names[0], fn), names[1..], fn)
  }

  /** `on(s, callback)` for a string `s`. */
  function OnCallback(t: Listeners, s: string, cb: Callback): Listeners
    decreases cb
  {
    match cb
    case Fn(id) => RegisterAll(t, EventNames(s), id)
    case Many(items) => OnEach(t, s, items, cb)
    case Missing => t
    case NotCallable => t
  }

  /** The array branch of `on`: `on(s, items[f])` for each element in order. */
  function OnEach(t: Listeners, s: string, items: seq<Callback>, ghost parent: Callback): Listeners
    requires forall k :: 0 <= k < |items| ==> items[k] < parent
    decreases parent, |items|
  {
    if |items| == 0 then t
    else OnEach(OnCallback(t, s, items[0]), s, items[1..], parent)
  }

  /** The object branch of `on`: `on(key, map[key])` for each own key. */
  function OnEntries(t: Listeners, entries: seq<(string, Callback)>): Listeners
    decreases |entries|
  {
    if |entries| == 0 then t
    else OnEntries(OnCallback(t, entries[0].0, entries[0].1), entries[1..])
  }

  /** `on(name, callback)`; the callback argument is ignored for an object. */
  function On(t: Listeners, name: NameArg, cb: Callback): Listeners
  {
    match name
    case Table(entries) => OnEntries(t, entries)
    case Names(s) => OnCallback(t, s, cb)
  }

  /** The functions an (arbitrarily nested) callback argument denotes, in order. */
  function Fns(cb: Callback): seq<CallbackId>
    decreases cb
  {
    match cb
    case Fn(id) => [id]
    case Many(items) => FnsOf(items, cb)
    case Missing => []
    case NotCallable => []
  }

  function FnsOf(items: seq<Callback>, ghost parent: Callback): seq<CallbackId>
    requires forall k :: 0 <= k < |items| ==> items[k] < parent
    decreases parent, |items|
  {
    if |items| == 0 then [] else Fns(items[0]) + FnsOf(items[1..], parent)
  }

  /** Registering a list of functions one after the other. */
  function RegisterEach(t: Listeners, s: string, fns: seq<CallbackId>): Listeners
    decreases |fns|
  {
    if |fns| == 0 then t else RegisterEach(RegisterAll(t, EventNames(s), fns[0]), s, fns[1..])
  }

  function Add(l: seq<CallbackId>, fn: CallbackId): seq<CallbackId>
  {
    if fn in l then l else l + [fn]
  }

  /** One registration: the function is appended under `n` unless present,
      every other name keeps its list. */
  lemma RegisterSpec(t: Listeners, n: string, fn: CallbackId)
    ensures Register(t, n, fn).Keys == t.Keys + {n}
    ensures Register(t, n, fn)[n] == Add(Get(t, n), fn)
    ensures forall m :: m in t && m != n ==> Register(t, n, fn)[m] == t[m]
  {
  }

  /** `on(s, fn)`: every name of `s` gains `fn` at the end of its list
      unless already present; names outside `s` are untouched. */
  lemma RegisterAllSpec(t: Listeners, names: seq<string>, fn: CallbackId)
    ensures forall n :: n in RegisterAll(t, names, fn) <==> n in t || n in names
    ensures forall n :: n in names ==> RegisterAll(t, names, fn)[n] == Add(Get(t, n), fn)
    ensures forall n :: n in t && n !in names ==> RegisterAll(t, names, fn)[n] == t[n]
  {
    var r := RegisterAll(t, names, fn);
    forall n ensures n in r <==> n in t || n in names {
      RegisterAllOne(t, names, fn, n);
    }
    forall n | n in names ensures r[n] == Add(Get(t, n), fn) {
      RegisterAllOne(t, names, fn, n);
    }
    forall n | n in t && n !in names ensures r[n] == t[n] {
      RegisterAllOne(t, names, fn, n);
    }
  }

  /** The three facts of `RegisterAllSpec` about one name `n`. */
  predicate RegisterAllAt(t: Listeners, names: seq<string>, fn: CallbackId, n: string)
  {
    var r := RegisterAll(t, names, fn);
    && (n in r <==> n in t || n in names)
    && (n in names ==> r[n] == Add(Get(t, n), fn))
    && (n in t && n !in names ==> r[n] == t[n])
  }

  /** `RegisterAllSpec` for one name. */
  lemma {:induction false} RegisterAllOne(t: Listeners, names: seq<string>, fn: CallbackId, n: string)
    ensures RegisterAllAt(t, names, fn, n)
    decreases |names|
  {
    if |names| > 0 {
      var n0 := names[0];
      var rest := names[1..];
      var t1 := Register(t, n0, fn);
      RegisterSpec(t, n0, fn);
      RegisterAllOne(t1, rest, fn, n);
      assert RegisterAll(t, names, fn) == RegisterAll(t1, rest, fn);
      assert n in names <==> n == n0 || n in rest by {
        assert names == [n0] + rest;
      }
      if n in rest && n == n0 {
        AddTwice(Get(t, n), fn);
      }
    }
  }

  lemma AddTwice(l: seq<CallbackId>, fn: CallbackId)
    ensures Add(Add(l, fn), fn) == Add(l, fn)
  {
  }

  /** Registering the same function twice is the same as registering it
      once: `on(s, fn)` is idempotent. */
  lemma OnIdempotent(t: Listeners, s: string, fn: CallbackId)
    ensures On(On(t, Names(s), Fn(fn)), Names(s), Fn(fn)) == On(t, Names(s), Fn(fn))
  {
    var ns := EventNames(s);
    var once := RegisterAll(t, ns, fn);
    var twice := RegisterAll(once, ns, fn);
    forall n ensures n in twice <==> n in once {
      RegisterAllOne(t, ns, fn, n);
      RegisterAllOne(once, ns, fn, n);
    }
    forall n | n in once ensures twice[n] == once[n] {
      RegisterAllOne(t, ns, fn, n);
      RegisterAllOne(once, ns, fn, n);
      AddTwice(Get(t, n), fn);
    }
    assert twice == once;
  }

  /** Registration keeps every list free of duplicates. */
  lemma {:induction false} RegisterAllWellFormed(t: Listeners, names: seq<string>, fn: CallbackId)
    requires WellFormed(t)
    ensures WellFormed(RegisterAll(t, names, fn))
    decreases |names|
  {
    if |names| > 0 {
      var t1 := Register(t, names[0], fn);
      RegisterSpec(t, names[0], fn);
      assert WellFormed(t1);
      RegisterAllWellFormed(t1, names[1..], fn);
    }
  }

  /** `on(s, array)` registers the functions of the array, flattened, one
      after the other in array order. */
  lemma {:induction false} OnCallbackFlattens(t: Listeners, s: string, cb: Callback)
    ensures OnCallback(t, s, cb) == RegisterEach(t, s, Fns(cb))
    decreases cb, 1
  {
    match cb
    case Fn(id) =>
      assert RegisterEach(t, s, [id]) == RegisterEach(RegisterAll(t, EventNames(s), id), s, []);
    case Many(items) => OnEachFlattens(t, s, items, cb);
    case Missing =>
    case NotCallable =>
  }

  lemma {:induction false} OnEachFlattens(t: Listeners, s: string, items: seq<Callback>, parent: Callback)
    requires forall k :: 0 <= k < |items| ==> items[k] < parent
    ensures OnEach(t, s, items, parent) == RegisterEach(t, s, FnsOf(items, parent))
    decreases parent, 0, |items|
  {
    if |items| > 0 {
      var t1 := OnCallback(t, s, items[0]);
      OnCallbackFlattens(t, s, items[0]);
      OnEachFlattens(t1, s, items[1..], parent);
      RegisterEachAppend(t, s, Fns(items[0]), FnsOf(items[1..], parent));
    }
  }

  lemma {:induction false} RegisterEachAppend(t: Listeners, s: string, a: seq<CallbackId>, b: seq<CallbackId>)
    ensures RegisterEach(t, s, a + b) == RegisterEach(RegisterEach(t, s, a), s, b)
    decreases |a|
  {
    if |a| == 0 {
      assert a + b == b;
    } else {
      assert (a + b)[0] == a[0];
      assert (a + b)[1..] == a[1..] + b;
      RegisterEachAppend(RegisterAll(t, EventNames(s), a[0]), s, a[1..], b);
    }
  }

  /** `on(map)` is `on(key, map[key])` for each own key in order: one more
      key registers after all the keys before it, and the callback argument
      beside a map is ignored. */
  lemma {:induction false} OnTableSequential(t: Listeners, entries: seq<(string, Callback)>,
                                             e: (string, Callback), cb: Callback)
    ensures On(t, Table(entries + [e]), cb) == On(On(t, Table(entries), cb), Names(e.0), e.1)
    decreases |entries|
  {
    if |entries| == 0 {
      assert entries + [e] == [e];
      assert OnEntries(t, [e]) == OnEntries(OnCallback(t, e.0, e.1), [e][1..]);
      assert [e][1..] == [];
    } else {
      assert (entries + [e])[0] == entries[0];
      assert (entries + [e])[1..] == entries[1..] + [e];
      OnTableSequential(OnCallback(t, entries[0].0, entries[0].1), entries[1..], e, cb);
    }
  }

  // ---------------------------------------------------------------- off

  /** `Array.prototype.splice(i, 1)`: remove position `i` if it exists. */
  function SpliceOne(l: seq<CallbackId>, i: nat): seq<CallbackId>
  {
    if i < |l| then l[..i] + l[i + 1..] else l
  }

  /** The string branch of `off(s, callback)` for a callback that is not an
      array: for every name `n` of `s` the list is created if missing, then
      emptied (no callback) or the found callback is spliced out of
      `_listeners[s]` (the whole argument, not `n`), which throws when that
      list does not exist. */
  function OffNames(t: Listeners, s: string, names: seq<string>, cb: Callback): Outcome
    decreases |names|
  {
    if |names| == 0 then Outcome(t, false)
    else
      var n := names[0];
      var t1 := t[n := Get(t, n)];
      match cb
      case Missing => OffNames(t1[n := []], s, names[1..], cb)
      case Fn(f) =>
        var index := IndexOfElem(t1[n], f);
        if index == -1 then OffNames(t1, s, names[1..], cb)
        else if s in t1 then OffNames(t1[s := SpliceOne(t1[s], index)], s, names[1..], cb)
        else Outcome(t1, true)
      case _ => OffNames(t1, s, names[1..], cb)
  }

  /** `off(name, callback)`; `name == None` stands for `undefined`. */
  function Off(t: Listeners, name: Option<string>, cb: Callback): Outcome
    decreases cb, 1
  {
    match name
    case None => Outcome(map[], false)
    case Some(s) =>
      match cb
      case Many(items) => OffEach(t, s, items, cb)
      case _ => OffNames(t, s, EventNames(s), cb)
  }

  /** The array branch of `off`: `off(s, items[f])` for each element, until one throws. */
  function OffEach(t: Listeners, s: string, items: seq<Callback>, ghost parent: Callback): Outcome
    requires forall k :: 0 <= k < |items| ==> items[k] < parent
    decreases parent, 0, |items|
  {
    if |items| == 0 then Outcome(t, false)
    else
      var o := Off(t, Some(s), items[0]);
      if o.threw then o else OffEach(o.table, s, items[1..], parent)
  }

  /** `off()` with no name empties the whole table, whatever the callback. */
  lemma OffAllEmpties(t: Listeners, cb: Callback)
    ensures Off(t, None, cb) == Outcome(map[], false)
    ensures forall n :: Get(Off(t, None, cb).table, n) == []
  {
  }

  /** `off(name)` for a single name empties that name's list and leaves
      every other name untouched. */
  lemma OffNameEmpties(t: Listeners, name: string)
    requires ' ' !in name
    ensures !Off(t, Some(name), Missing).threw
    ensures Off(t, Some(name), Missing).table == t[name := []]
    ensures forall n :: n in t && n != name ==> Off(t, Some(name), Missing).table[n] == t[n]
  {
    SingleName(name);
    var t1 := t[name := Get(t, name)];
    assert Off(t, Some(name), Missing) == OffNames(t, name, [name], Missing);
    assert OffNames(t, name, [name], Missing) == OffNames(t1[name := []], name, [], Missing);
    assert t1[name := []] == t[name := []];
  }

  lemma SingleName(name: string)
    requires ' ' !in name
    ensures EventNames(name) == [name]
  {
    SplitJoin([name], ' ');
  }

  /** `off(name, fn)` for a single name removes the first occurrence of
      `fn` and keeps the others in order; an absent `fn` changes no list. Other
      names are untouched. */
  lemma OffNameRemoves(t: Listeners, name: string, fn: CallbackId)
    requires ' ' !in name
    ensures !Off(t, Some(name), Fn(fn)).threw
    ensures var l := Get(t, name);
            var r := Off(t, Some(name), Fn(fn)).table;
            && name in r
            && (fn !in l ==> r[name] == l)
            && (fn in l ==> exists i :: 0 <= i < |l| && l[i] == fn && fn !in l[..i] && r[name] == l[..i] + l[i + 1..])
            && (forall n :: n in t && n != name ==> n in r && r[n] == t[n])
    ensures WellFormed(t) ==> fn !in Off(t, Some(name), Fn(fn)).table[name]
  {
    SingleName(name);
    var l := Get(t, name);
    var t1 := t[name := l];
    var o := Off(t, Some(name), Fn(fn));
    var r := o.table;
    var i := IndexOfElem(l, fn);
    assert o == OffNames(t, name, [name], Fn(fn));
    if i == -1 {
      assert o == OffNames(t1, name, [], Fn(fn));
    } else {
      assert name in t1;
      assert o == OffNames(t1[name := SpliceOne(t1[name], i)], name, [], Fn(fn));
      assert r[name] == l[..i] + l[i + 1..];
      if WellFormed(t) {
        assert name in t;
        forall k | 0 <= k < |l| && k != i ensures l[k] != fn {
          if k < i {
            assert l[k] != l[i];
          } else {
            assert l[i] != l[k];
          }
        }
        var m := l[..i] + l[i + 1..];
        forall k | 0 <= k < |m| ensures m[k] != fn {
          if k < i {
            assert m[k] == l[k];
          } else {
            assert m[k] == l[k + 1];
          }
        }
      }
    }
  }

  /** With several names, `off(s, fn)` splices `_listeners[s]`, the list
      under the whole space-joined argument. When there is no such list
      (keys that come from `on` are pieces of a split on spaces, so none
      holds a space), `off` throws exactly when `fn` is registered under one
      of the names. */
  lemma OffSeveralNamesThrows(t: Listeners, s: string, fn: CallbackId)
    requires s !in t
    requires |EventNames(s)| >= 2
    ensures Off(t, Some(s), Fn(fn)).threw <==>
              exists i :: 0 <= i < |EventNames(s)| && fn in Get(t, EventNames(s)[i])
  {
    var names := EventNames(s);
    if ' ' !in s {
      SingleName(s);
    }
    SplitPiecesFree(s, ' ');
    assert forall i :: 0 <= i < |names| ==> names[i] != s;
    OffNamesThrows(t, s, names, fn);
  }

  /** Along the names of a multi-name `off`, the first name whose list holds
      `fn` throws, and the names before it change no list. */
  lemma {:induction false} OffNamesThrows(t: Listeners, s: string, names: seq<string>, fn: CallbackId)
    requires s !in t
    requires forall i :: 0 <= i < |names| ==> names[i] != s
    ensures OffNames(t, s, names, Fn(fn)).threw <==> exists i :: 0 <= i < |names| && fn in Get(t, names[i])
    decreases |names|
  {
    if |names| > 0 {
      var n := names[0];
      var t1 := t[n := Get(t, n)];
      if fn !in Get(t, n) {
        assert forall m :: Get(t1, m) == Get(t, m);
        OffNamesThrows(t1, s, names[1..], fn);
        assert OffNames(t, s, names, Fn(fn)) == OffNames(t1, s, names[1..], Fn(fn));
        if exists i :: 0 <= i < |names| && fn in Get(t, names[i]) {
          var i :| 0 <= i < |names| && fn in Get(t, names[i]);
          assert names[1..][i - 1] == names[i];
        }
      }
    }
  }

  // ---------------------------------------------------------------- trigger

  lemma NoDuplicatesCount(l: seq<CallbackId>, f: CallbackId)
    requires NoDuplicates(l)
    ensures multiset(l)[f] == if f in l then 1 else 0
    decreases |l|
  {
    if |l| > 0 {
      assert l == [l[0]] + l[1..];
      assert multiset(l) == multiset{l[0]} + multiset(l[1..]);
      assert NoDuplicates(l[1..]) by {
        forall i, j | 0 <= i < j < |l[1..]| ensures l[1..][i] != l[1..][j] {
          assert l[1..][i] == l[i + 1] && l[1..][j] == l[j + 1];
        }
      }
      NoDuplicatesCount(l[1..], f);
      if l[0] == f {
        assert f !in l[1..] by {
          forall k | 0 <= k < |l[1..]| ensures l[1..][k] != f {
            assert l[0] != l[k + 1];
          }
        }
      }
    }
  }

  /** `trigger(type, payload)`: every listener of `type` is called with the
      payload, once, in registration order; an unknown type calls nothing. */
  method Trigger(t: Listeners, type_: string, payload: Value) returns (calls: seq<Call>)
    ensures type_ !in t ==> calls == []
    ensures type_ in t ==> |calls| == |t[type_]|
    ensures forall i :: 0 <= i < |calls| ==> calls[i] == Call(t[type_][i], payload)
    ensures WellFormed(t) ==> forall f :: multiset(CallbackIds(calls))[f] == if f in Get(t, type_) then 1 else 0
  {
    calls := [];
    if type_ in t {
      var listeners := t[type_];
      var i := 0;
      while i < |listeners|
        invariant 0 <= i <= |listeners|
        invariant |calls| == i
        invariant forall k :: 0 <= k < i ==> calls[k] == Call(listeners[k], payload)
        invariant CallbackIds(calls) == listeners[..i]
      {
        calls := calls + [Call(listeners[i], payload)];
        assert listeners[..i + 1] == listeners[..i] + [listeners[i]];
        i := i + 1;
      }
      assert listeners[..i] == listeners;
      if WellFormed(t) {
        forall f ensures multiset(CallbackIds(calls))[f] == if f in Get(t, type_) then 1 else 0 {
          NoDuplicatesCount(listeners, f);
        }
      }
    }
  }

  function CallbackIds(calls: seq<Call>): (ids: seq<CallbackId>)
    ensures |ids| == |calls|
  {
    if |calls| == 0 then [] else CallbackIds(calls[..|calls| - 1]) + [calls[|calls| - 1].callback]
  }
}

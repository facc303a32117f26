/**
 * The JavaScript built-ins the comparison UI leans on, stated as values:
 * dynamic values and their truthiness, `String(...)` and `Array.prototype.join`,
 * `String.prototype.trim`, `substring`, `split` and `join` on one separator,
 * `toUpperCase` on one character, the iteration order of a `Set`, and plain
 * objects as ordered field lists (the order `Object.keys` reports).
 */
module Js {

  /** An absent value (`null` / `undefined` where the source uses `?.`). */
  datatype Option<T> = None | Some(value: T)

  /** How a JavaScript call ends: with a value, or by throwing a TypeError. */
  datatype Completion<T> = Normal(value: T) | Throw(message: string)

  /** A JavaScript value, as far as the UI inspects one. Numbers are integers. */
  datatype Value =
    | Undefined
    | Null
    | Bool(b: bool)
    | Num(n: int)
    | Str(s: string)
    | Obj                    // any object that is not an array
    | Arr(elems: seq<Value>)

  /** JavaScript truthiness: `undefined`, `null`, `false`, `0` and `""` are falsy. */
  predicate Truthy(v: Value)
    ensures !Truthy(v) <==> v in {Undefined, Null, Bool(false), Num(0), Str("")}
  {
    match v
    case Undefined => false
    case Null => false
    case Bool(b) => b
    case Num(n) => n != 0
    case Str(s) => s != ""
    case Obj => true
    case Arr(_) => true
  }

  function DigitChar(d: nat): char
    requires d < 10
  {
    "0123456789"[d]
  }

  /** `${n}`: decimal digits, with no leading zero. */
  function NatToString(n: nat): (r: string)
    ensures |r| >= 1
    ensures forall i | 0 <= i < |r| :: '0' <= r[i] <= '9'
    ensures r[0] == '0' ==> n == 0
  {
    if n < 10 then
      assert "0123456789"[n] == '0' ==> n == 0;
      [DigitChar(n)]
    else
      var prefix := NatToString(n / 10);
      assert (prefix + [DigitChar(n % 10)])[0] == prefix[0];
      prefix + [DigitChar(n % 10)]
  }

  /** The number a string of decimal digits denotes. */
  function DigitsValue(s: string): nat
    requires forall i | 0 <= i < |s| :: '0' <= s[i] <= '9'
  {
    if s == [] then 0 else 10 * DigitsValue(s[..|s| - 1]) + (s[|s| - 1] as int - '0' as int)
  }

  /** Reading back the decimal digits of `n` gives `n`. */
  lemma {:induction false} NatToStringRoundTrip(n: nat)
    ensures DigitsValue(NatToString(n)) == n
  {
    if n >= 10 {
      NatToStringRoundTrip(n / 10);
      var s, prefix := NatToString(n), NatToString(n / 10);
      assert s == prefix + [DigitChar(n % 10)];
      assert s[..|s| - 1] == prefix;
      assert s[|s| - 1] as int - '0' as int == n % 10 by {
        assert "0123456789"[n % 10] as int == '0' as int + n % 10;
      }
    }
  }

  function IntToString(n: int): string {
    if n < 0 then "-" + NatToString(-n) else NatToString(n)
  }

  /** `String(v)`: an array converts by joining its elements with ",". */
  function ToString(v: Value): string
    decreases v, 1
  {
    match v
    case Undefined => "undefined"
    case Null => "null"
    case Bool(b) => if b then "true" else "false"
    case Num(n) => IntToString(n)
    case Str(s) => s
    case Obj => "[object Object]"
    case Arr(elems) => ArrayJoin(elems, ",")
  }

  /** `Array.prototype.join(sep)`: `null` and `undefined` elements become "". */
  function ArrayJoin(elems: seq<Value>, sep: string): (r: string)
    ensures elems == [] ==> r == ""
    ensures |elems| >= 1 ==> |r| >= (|elems| - 1) * |sep|
    decreases elems, 0
  {
    if elems == [] then ""
    else
      var head := if elems[0].Undefined? || elems[0].Null? then "" else ToString(elems[0]);
      if |elems| == 1 then head else head + sep + ArrayJoin(elems[1..], sep)
  }

  /** One own property of a plain object. */
  datatype Field = Field(key: string, value: Value)

  /** A plain object, its own properties in `Object.keys` order. */
  type Fields = seq<Field>

  predicate NoDuplicates<T(==)>(s: seq<T>) {
    forall i, j | 0 <= i < j < |s| :: s[i] != s[j]
  }

  /** `Object.keys(o)`. */
  function Keys(o: Fields): (r: seq<string>)
    ensures |r| == |o| && forall i | 0 <= i < |o| :: r[i] == o[i].key
  {
    seq(|o|, i requires 0 <= i < |o| => o[i].key)
  }

  /** `o[key]`: the property's value, or `undefined` when there is none. */
  function Get(o: Fields, key: string): (r: Value)
    ensures key !in Keys(o) ==> r == Undefined
    ensures NoDuplicates(Keys(o)) ==>
              forall i | 0 <= i < |o| && o[i].key == key :: r == o[i].value
  {
    if o == [] then Undefined
    else if o[0].key == key then o[0].value
    else
      assert forall i | 0 <= i < |o| - 1 :: Keys(o[1..])[i] == Keys(o)[i + 1];
      Get(o[1..], key)
  }

  /**
   * Adding the elements of `xs` one by one to a `Set` whose elements are
   * `seen` (in iteration order): an element already present is skipped.
   */
  function SetAddAll<T(==)>(seen: seq<T>, xs: seq<T>): (r: seq<T>)
    ensures forall x | x in r :: x in seen || x in xs
    ensures forall x | x in seen :: x in r
    ensures forall x | x in xs :: x in r
    decreases |xs|
  {
    if xs == [] then seen
    else SetAddAll(if xs[0] in seen then seen else seen + [xs[0]], xs[1..])
  }

  /** The iteration order of `new Set(xs)`. */
  function InsertionOrder<T(==)>(xs: seq<T>): seq<T> {
    SetAddAll([], xs)
  }

  /** The elements of `s` that are not in `seen`, in their order in `s`. */
  function Unseen<T(==)>(s: seq<T>, seen: seq<T>): (r: seq<T>)
    ensures forall x | x in r :: x in s && x !in seen
    ensures forall x | x in s && x !in seen :: x in r
  {
    if s == [] then []
    else (if s[0] in seen then [] else [s[0]]) + Unseen(s[1..], seen)
  }

  /** A `Set` holds each element once. */
  lemma {:induction false} SetAddAllDistinct<T>(seen: seq<T>, xs: seq<T>)
    requires NoDuplicates(seen)
    ensures NoDuplicates(SetAddAll(seen, xs))
    decreases |xs|
  {
    if xs != [] {
      SetAddAllDistinct(if xs[0] in seen then seen else seen + [xs[0]], xs[1..]);
    }
  }

  /** Adding `a + b` is adding `a`, then `b`. */
  lemma {:induction false} SetAddAllAppend<T>(seen: seq<T>, a: seq<T>, b: seq<T>)
    ensures SetAddAll(seen, a + b) == SetAddAll(SetAddAll(seen, a), b)
    decreases |a|
  {
    if a == [] {
      assert a + b == b;
    } else {
      assert (a + b)[0] == a[0] && (a + b)[1..] == a[1..] + b;
      SetAddAllAppend(if a[0] in seen then seen else seen + [a[0]], a[1..], b);
    }
  }

  /** Filtering against one more element changes nothing if that element is not in `s`. */
  lemma {:induction false} UnseenIgnores<T>(s: seq<T>, seen: seq<T>, z: T)
    requires z !in s
    ensures Unseen(s, seen + [z]) == Unseen(s, seen)
  {
    if s != [] {
      UnseenIgnores(s[1..], seen, z);
    }
  }

  /** Adding distinct elements appends exactly those not yet present, in their order. */
  lemma {:induction false} SetAddAllDistinctElems<T>(seen: seq<T>, xs: seq<T>)
    requires NoDuplicates(xs)
    ensures SetAddAll(seen, xs) == seen + Unseen(xs, seen)
    decreases |xs|
  {
    if xs != [] {
      var x, rest := xs[0], xs[1..];
      assert NoDuplicates(rest);
      if x in seen {
        SetAddAllDistinctElems(seen, rest);
      } else {
        SetAddAllDistinctElems(seen + [x], rest);
        assert x !in rest;
        UnseenIgnores(rest, seen, x);
        UnseenCons(xs, seen);
      }
    }
  }

  lemma UnseenCons<T>(xs: seq<T>, seen: seq<T>)
    requires xs != [] && xs[0] !in seen
    ensures seen + [xs[0]] + Unseen(xs[1..], seen) == seen + Unseen(xs, seen)
  {
    var u := Unseen(xs[1..], seen);
    assert Unseen(xs, seen) == [xs[0]] + u;
    assert seen + [xs[0]] + u == seen + ([xs[0]] + u);
  }

  /** A `Set` built from `a` then `b`: `a` in its own order, then `b`'s elements not in `a`. */
  lemma InsertionOrderAppend<T>(a: seq<T>, b: seq<T>)
    requires NoDuplicates(a) && NoDuplicates(b)
    ensures InsertionOrder(a + b) == a + Unseen(b, a)
  {
    assert SetAddAll([], a) == a by {
      SetAddAllDistinctElems([], a);
      UnseenNothing(a);
      assert [] + a == a;
    }
    calc {
      InsertionOrder(a + b);
      SetAddAll([], a + b);
      { SetAddAllAppend([], a, b); }
      SetAddAll(SetAddAll([], a), b);
      SetAddAll(a, b);
      { SetAddAllDistinctElems(a, b); }
      a + Unseen(b, a);
    }
  }

  lemma {:induction false} UnseenNothing<T>(s: seq<T>)
    ensures Unseen(s, []) == s
  {
    if s != [] {
      UnseenNothing(s[1..]);
    }
  }

  /** Every element of the `Set` appears exactly once, and nothing else does. */
  lemma InsertionOrderMembers<T>(xs: seq<T>)
    ensures NoDuplicates(InsertionOrder(xs))
    ensures forall x | x in InsertionOrder(xs) :: x in xs
    ensures forall x | x in xs :: x in InsertionOrder(xs)
  {
    SetAddAllDistinct([], xs);
  }

  /** Characters removed by `String.prototype.trim`: white space and line terminators. */
  predicate IsWhitespace(c: char) {
    || c == '\t' || c == '\n' || c == '\U{B}' || c == '\U{C}' || c == '\r' || c == ' '
    || c == '\U{A0}' || c == '\U{1680}' || ('\U{2000}' <= c <= '\U{200A}')
    || c == '\U{2028}' || c == '\U{2029}' || c == '\U{202F}' || c == '\U{205F}'
    || c == '\U{3000}' || c == '\U{FEFF}'
  }

  function TrimStart(s: string): (r: string)
    ensures |r| <= |s| && r == s[|s| - |r|..]
    ensures forall k | 0 <= k < |s| - |r| :: IsWhitespace(s[k])
    ensures r == [] || !IsWhitespace(r[0])
  {
    if s != [] && IsWhitespace(s[0]) then TrimStart(s[1..]) else s
  }

  function TrimEnd(s: string): (r: string)
    ensures |r| <= |s| && r == s[..|r|]
    ensures forall k | |r| <= k < |s| :: IsWhitespace(s[k])
    ensures r == [] || !IsWhitespace(r[|r| - 1])
  {
    if s != [] && IsWhitespace(s[|s| - 1]) then TrimEnd(s[..|s| - 1]) else s
  }

  /** `s[i..j]` is `s` without a white-space prefix of length `i` and a white-space suffix from `j`. */
  predicate Stripped(s: string, i: nat, j: nat) {
    && i <= j <= |s|
    && (forall k | 0 <= k < i :: IsWhitespace(s[k]))
    && (forall k | j <= k < |s| :: IsWhitespace(s[k]))
  }

  /**
   * `s.trim()`: `s` with its leading and trailing white space removed and
   * everything between kept; the result neither starts nor ends with white space.
   */
  function Trim(s: string): (r: string)
    ensures exists i: nat, j: nat | Stripped(s, i, j) :: r == s[i..j]
    ensures r == [] || (!IsWhitespace(r[0]) && !IsWhitespace(r[|r| - 1]))
  {
    var t := TrimStart(s);
    var r := TrimEnd(t);
    TrimSlice(s, t, r);
    r
  }

  /** Dropping a white-space prefix (leaving `t`) and then a white-space suffix (leaving `r`) is a strip. */
  lemma TrimSlice(s: string, t: string, r: string)
    requires |t| <= |s| && t == s[|s| - |t|..] && forall k | 0 <= k < |s| - |t| :: IsWhitespace(s[k])
    requires |r| <= |t| && r == t[..|r|] && forall k | |r| <= k < |t| :: IsWhitespace(t[k])
    ensures exists i: nat, j: nat | Stripped(s, i, j) :: r == s[i..j]
  {
    var i := |s| - |t|;
    forall k | i + |r| <= k < |s| ensures IsWhitespace(s[k]) {
      assert s[k] == t[k - i];
    }
    assert Stripped(s, i, i + |r|) && r == s[i..i + |r|];
  }

  lemma TrimIdempotent(s: string)
    ensures Trim(Trim(s)) == Trim(s)
  {
    var t := Trim(s);
    assert TrimStart(t) == t;
  }

  function Clamp(i: int, len: nat): (r: nat)
    ensures r <= len
  {
    if i < 0 then 0 else if i > len then len else i
  }

  /** `s.substring(start, end)`: both ends clamped to `[0, |s|]`, swapped if out of order. */
  function Substring(s: string, start: int, end: int): (r: string)
    ensures |r| <= |s|
    ensures 0 <= start <= end <= |s| ==> r == s[start..end]
    ensures 0 <= end <= start <= |s| ==> r == s[end..start]
    ensures start <= 0 && |s| <= end ==> r == s
  {
    var a := Clamp(start, |s|);
    var b := Clamp(end, |s|);
    if a <= b then s[a..b] else s[b..a]
  }

  /** `s.split(sep)` for a one-character separator: never empty, "" gives [""]. */
  function Split(s: string, sep: char): (r: seq<string>)
    ensures |r| >= 1
  {
    if s == [] then [""]
    else
      var rest := Split(s[1..], sep);
      if s[0] == sep then [""] + rest else [[s[0]] + rest[0]] + rest[1..]
  }

  /** `ws.join(sep)` for a one-character separator. */
  function Join(ws: seq<string>, sep: char): string {
    if ws == [] then ""
    else if |ws| == 1 then ws[0]
    else ws[0] + [sep] + Join(ws[1..], sep)
  }

  /** `toUpperCase` on one character; only ASCII letters are mapped. */
  function ToUpper(c: char): (r: char)
    ensures r == c || ('a' <= c <= 'z' && 'A' <= r <= 'Z')
  {
    if 'a' <= c <= 'z' then (c as int - 32) as char else c
  }
}

/** The few JavaScript built-ins that the drawing-checker core relies on:
    the values `JSON.parse` can produce (plus `undefined`), truthiness, property
    reads, the coercion of a value to a number, the whitespace class shared by
    `\s` and `String.prototype.trim`, decimal number text, `indexOf` and
    `Math.round`. */
module JsRuntime {

  datatype Option<T> = None | Some(value: T)

  /** A JavaScript value as produced by `JSON.parse`, plus `undefined` for a
      property that is absent. */
  datatype Value =
    | Undefined
    | Null
    | Bool(b: bool)
    | Num(n: real)
    | Str(s: string)
    | Arr(items: seq<Value>)
    | Obj(fields: map<string, Value>)

  /** JavaScript truthiness: `undefined`, `null`, `false`, `0` and `""` are falsy. */
  predicate Truthy(v: Value) {
    match v
    case Undefined => false
    case Null => false
    case Bool(b) => b
    case Num(n) => n != 0.0
    case Str(s) => s != ""
    case Arr(_) => true
    case Obj(_) => true
  }

  /** `v.key` for one of the keys the core reads (none of them is a built-in
      property of strings, arrays or objects); None when JavaScript throws a
      TypeError, which it does on `null` and `undefined`. */
  function Property(v: Value, key: string): (r: Option<Value>)
    ensures r.None? <==> v.Null? || v.Undefined?
    ensures v.Obj? && key in v.fields ==> r == Some(v.fields[key])
    ensures r.Some? && !(v.Obj? && key in v.fields) ==> r == Some(Undefined)
  {
    match v
    case Undefined => None
    case Null => None
    case Obj(fields) => Some(if key in fields then fields[key] else Undefined)
    case _ => Some(Undefined)
  }

  /** A JavaScript number that arithmetic on a JSON value can yield: a finite
      value or NaN. (JSON numbers are finite; only division by a non-zero
      constant, multiplication and subtraction are needed.) */
  datatype Number = Finite(r: real) | NaN

  function Sub(a: Number, b: Number): (r: Number)
    ensures r.Finite? <==> a.Finite? && b.Finite?
    ensures r.Finite? ==> r.r == a.r - b.r
  {
    if a.Finite? && b.Finite? then Finite(a.r - b.r) else NaN
  }

  function Add(a: Number, k: real): (r: Number)
    ensures r.Finite? <==> a.Finite?
    ensures r.Finite? ==> r.r == a.r + k
  {
    if a.Finite? then Finite(a.r + k) else NaN
  }

  function Mul(a: Number, k: real): (r: Number)
    ensures r.Finite? <==> a.Finite?
    ensures r.Finite? ==> r.r == a.r * k
  {
    if a.Finite? then Finite(a.r * k) else NaN
  }

  function Div(a: Number, k: real): (r: Number)
    requires k != 0.0
    ensures r.Finite? <==> a.Finite?
    ensures r.Finite? ==> r.r == a.r / k
  {
    if a.Finite? then Finite(a.r / k) else NaN
  }

  /** `a === b`. Primitives compare by value. Arrays and objects compare by
      reference, which values do not carry, so here they never compare equal. */
  predicate StrictEquals(a: Value, b: Value) {
    match a
    case Undefined => b.Undefined?
    case Null => b.Null?
    case Bool(x) => b.Bool? && b.b == x
    case Num(x) => b.Num? && b.n == x
    case Str(x) => b.Str? && b.s == x
    case _ => false
  }

  /** On primitives `===` is equality, symmetric both ways, and it never relates
      a primitive to an array or an object. */
  lemma StrictEqualsPrimitives(a: Value, b: Value)
    ensures !a.Arr? && !a.Obj? ==> (StrictEquals(a, b) <==> a == b)
    ensures StrictEquals(a, b) <==> StrictEquals(b, a)
    ensures a.Arr? || a.Obj? ==> !StrictEquals(a, b)
  {
  }

  /** The number a value becomes under arithmetic (`ToNumber`). Strings and
      arrays, whose text JavaScript would parse, become NaN here. */
  function ToNumber(v: Value): (r: Number)
    ensures v.Num? ==> r == Finite(v.n)
    ensures v.Null? ==> r == Finite(0.0)
    ensures v.Bool? ==> r == Finite(if v.b then 1.0 else 0.0)
    ensures v.Undefined? || v.Obj? || v.Str? || v.Arr? ==> r == NaN
  {
    match v
    case Num(n) => Finite(n)
    case Null => Finite(0.0)
    case Bool(b) => Finite(if b then 1.0 else 0.0)
    case _ => NaN
  }

  /** The characters matched by `\s` and removed by `trim`: the ECMAScript
      WhiteSpace and LineTerminator code points. */
  predicate IsSpace(c: char) {
    || c == '\t' || c == '\n' || c == '\U{000B}' || c == '\U{000C}' || c == '\r'
    || c == ' ' || c == '\U{00A0}' || c == '\U{1680}'
    || ('\U{2000}' <= c <= '\U{200A}')
    || c == '\U{2028}' || c == '\U{2029}' || c == '\U{202F}' || c == '\U{205F}'
    || c == '\U{3000}' || c == '\U{FEFF}'
  }

  predicate AllSpace(s: string) {
    forall i :: 0 <= i < |s| ==> IsSpace(s[i])
  }

  predicate StartsWith(s: string, prefix: string) {
    |prefix| <= |s| && s[..|prefix|] == prefix
  }

  predicate EndsWith(s: string, suffix: string) {
    |suffix| <= |s| && s[|s| - |suffix|..] == suffix
  }

  // The suffix left after removing the leading whitespace (the `^\s+` match).
  function TrimStart(s: string): (r: string)
    ensures |r| <= |s| && r == s[|s| - |r|..]
    ensures AllSpace(s[..|s| - |r|])
    ensures r == [] || !IsSpace(r[0])
    decreases |s|
  {
    if s != [] && IsSpace(s[0]) then
      var r := TrimStart(s[1..]);
      assert s[..|s| - |r|] == [s[0]] + s[1..][..|s| - 1 - |r|];
      r
    else s
  }

  /** The prefix left after the trailing whitespace. */
  function TrimEnd(s: string): (r: string)
    ensures |r| <= |s| && r == s[..|r|]
    ensures AllSpace(s[|r|..])
    ensures r == [] || !IsSpace(r[|r| - 1])
    decreases |s|
  {
    if s != [] && IsSpace(s[|s| - 1]) then
      var r := TrimEnd(s[..|s| - 1]);
      assert s[|r|..] == s[..|s| - 1][|r|..] + [s[|s| - 1]];
      r
    else s
  }

  /** `String.prototype.trim`. */
  function Trim(s: string): (r: string)
    ensures r == [] || (!IsSpace(r[0]) && !IsSpace(r[|r| - 1]))
  {
    TrimEnd(TrimStart(s))
  }

  /** Trimming removes whitespace only: `s` is `r` with whitespace around it. */
  lemma TrimIsSlice(s: string)
    ensures exists a, b :: 0 <= a <= b <= |s| && Trim(s) == s[a..b] && AllSpace(s[..a]) && AllSpace(s[b..])
  {
    var t := TrimStart(s);
    var a := |s| - |t|;
    var b := a + |TrimEnd(t)|;
    assert t == s[a..];
    assert TrimEnd(t) == s[a..b];
    assert s[b..] == t[|TrimEnd(t)|..];
  }

  /** Leading whitespace makes no difference to trimming. */
  lemma {:induction false} TrimStartAbsorbs(ws: string, s: string)
    requires AllSpace(ws)
    ensures TrimStart(ws + s) == TrimStart(s)
    decreases |ws|
  {
    if ws != [] {
      assert (ws + s)[1..] == ws[1..] + s;
      TrimStartAbsorbs(ws[1..], s);
    } else {
      assert ws + s == s;
    }
  }

  /** Trailing whitespace makes no difference to trimming from the end. */
  lemma {:induction false} TrimEndAbsorbs(s: string, ws: string)
    requires AllSpace(ws)
    ensures TrimEnd(s + ws) == TrimEnd(s)
    decreases |ws|
  {
    if ws != [] {
      var w' := ws[..|ws| - 1];
      assert (s + ws)[..|s + ws| - 1] == s + w';
      TrimEndAbsorbs(s, w');
    } else {
      assert s + ws == s;
    }
  }

  /** Trimming twice is trimming once. */
  lemma TrimIdempotent(s: string)
    ensures Trim(Trim(s)) == Trim(s)
  {
    var t := Trim(s);
    if t != [] {
      assert TrimStart(t) == t;
      assert TrimEnd(t) == t;
    }
  }

  // ---- decimal text of numbers -------------------------------------------

  predicate IsDigit(c: char) {
    '0' <= c <= '9'
  }

  predicate AllDigits(s: string) {
    forall i :: 0 <= i < |s| ==> IsDigit(s[i])
  }

  function DigitChar(d: nat): (c: char)
    requires d < 10
    ensures IsDigit(c) && (c as int) - ('0' as int) == d
  {
    ('0' as int + d) as char
  }

  /** The decimal digits of `n`, most significant first, without leading zeros. */
  function NatText(n: nat): (r: string)
    ensures |r| > 0 && AllDigits(r)
    ensures |r| > 1 ==> r[0] != '0'
  {
    if n < 10 then [DigitChar(n)] else NatText(n / 10) + [DigitChar(n % 10)]
  }

  /** The number a string of decimal digits denotes. */
  function DigitsValue(s: string): nat
    requires AllDigits(s)
  {
    if s == [] then 0
    else DigitsValue(s[..|s| - 1]) * 10 + ((s[|s| - 1] as int) - ('0' as int))
  }

  /** Reading the digits back gives the number: the text is an exact decimal encoding. */
  lemma {:induction false} NatTextRoundTrip(n: nat)
    ensures DigitsValue(NatText(n)) == n
  {
    if n >= 10 {
      NatTextRoundTrip(n / 10);
      var t := NatText(n);
      assert t[..|t| - 1] == NatText(n / 10);
    }
  }

  lemma NatTextInjective(m: nat, n: nat)
    ensures NatText(m) == NatText(n) ==> m == n
  {
    NatTextRoundTrip(m);
    NatTextRoundTrip(n);
  }

  /** The text of an integer: a minus sign for negative values, then its digits. */
  function IntText(i: int): (r: string)
    ensures i >= 0 ==> r == NatText(i)
    ensures i < 0 ==> r == "-" + NatText(-i)
  {
    if i < 0 then "-" + NatText(-i) else NatText(i)
  }

  /** `String(n)` for a number value. Integral values below 10^21 in magnitude
      print as plain decimal integers; the others (fractions, exponent notation)
      use JavaScript's shortest round-trip formatting, supplied as `numText`. */
  function NumberText(n: real, numText: real -> string): (r: string)
    ensures n == n.Floor as real && -1.0e21 < n < 1.0e21 ==> r == IntText(n.Floor)
  {
    if n == n.Floor as real && -1.0e21 < n < 1.0e21 then IntText(n.Floor) else numText(n)
  }

  /** `${v}`: the string conversion used by a template literal. Array elements
      that are `null` or `undefined` print as empty strings, joined by commas. */
  function ToText(v: Value, numText: real -> string): (r: string)
    ensures v.Str? ==> r == v.s
    ensures v.Undefined? ==> r == "undefined"
    ensures v.Null? ==> r == "null"
    ensures v.Bool? ==> r == if v.b then "true" else "false"
    ensures v.Num? ==> r == NumberText(v.n, numText)
  {
    match v
    case Undefined => "undefined"
    case Null => "null"
    case Bool(b) => if b then "true" else "false"
    case Num(n) => NumberText(n, numText)
    case Str(s) => s
    case Arr(items) =>
      JoinComma(seq(|items|, i requires 0 <= i < |items| =>
        if items[i].Null? || items[i].Undefined? then "" else ToText(items[i], numText)))
    case Obj(_) => "[object Object]"
  }

  function JoinComma(parts: seq<string>): string {
    if |parts| == 0 then ""
    else if |parts| == 1 then parts[0]
    else JoinComma(parts[..|parts| - 1]) + "," + parts[|parts| - 1]
  }

  // ---- searching and rounding --------------------------------------------

  /** `s.indexOf(c)`: the position of the first `c`, or None when there is none. */
  function IndexOf(s: string, c: char): (r: Option<nat>)
    ensures r.None? <==> c !in s
    ensures r.Some? ==> r.value < |s| && s[r.value] == c && c !in s[..r.value]
  {
    if s == [] then None
    else if s[0] == c then Some(0)
    else match IndexOf(s[1..], c)
      case None => None
      case Some(k) => assert s[..k + 1] == [s[0]] + s[1..][..k]; Some(k + 1)
  }

  /** The first `c` after a prefix free of `c` is the one right after that prefix. */
  lemma {:induction false} IndexOfAfter(p: string, c: char, q: string)
    requires c !in p
    ensures IndexOf(p + [c] + q, c) == Some(|p|)
  {
    if p != [] {
      assert (p + [c] + q)[1..] == p[1..] + [c] + q;
      IndexOfAfter(p[1..], c, q);
    } else {
      assert (p + [c] + q)[0] == c;
    }
  }

  /** `Math.round`: the nearest integer, halves rounded up. */
  function Round(x: real): (r: int)
    ensures r as real - 0.5 <= x < r as real + 0.5
  {
    (x + 0.5).Floor
  }

  function Max(a: real, b: real): (r: real)
    ensures r >= a && r >= b && (r == a || r == b)
  {
    if a >= b then a else b
  }

  function Min(a: real, b: real): (r: real)
    ensures r <= a && r <= b && (r == a || r == b)
  {
    if a <= b then a else b
  }
}

/**
 * The slice of Python's runtime the server relies on: dynamically typed
 * scalar values, their truthiness, `str`, `float`, `int` and `==`, and the
 * string methods `strip`, `lower`, `startswith`, `endswith` and `in`.
 *
 * float(str) and str(float) belong to the C runtime and are taken as the
 * parameters `parse` and `repr`; int(str) is modelled in full.
 */
module PyValues {

  datatype Option<+T> = None | Some(value: T) {
    function GetOr(default: T): T {
      match this
      case Some(v) => v
      case None => default
    }
  }

  /** A scalar JSON value; JSON arrays and objects are not represented. */
  datatype Value = Null | Bool(b: bool) | Int(i: int) | Num(r: real) | Str(s: string)

  /** `float(s)` for a string; None stands for the ValueError it raises. */
  type FloatParse = string -> Option<real>

  /** `str(x)` for a float (its shortest round-tripping repr). */
  type FloatRepr = real -> string

  // ---------------------------------------------------------------- truthiness, conversions

  /** `bool(v)` */
  predicate Truthy(v: Value) {
    match v
    case Null => false
    case Bool(b) => b
    case Int(i) => i != 0
    case Num(r) => r != 0.0
    case Str(s) => s != ""
  }

  /** `str(v)` */
  function PyStr(v: Value, repr: FloatRepr): string {
    match v
    case Null => "None"
    case Bool(b) => if b then "True" else "False"
    case Int(i) => IntToString(i)
    case Num(r) => repr(r)
    case Str(s) => s
  }

  /** `str(v or "")` */
  function TextOrEmpty(v: Value, repr: FloatRepr): (r: string)
    ensures !Truthy(v) ==> r == ""
  {
    if Truthy(v) then PyStr(v, repr) else ""
  }

  /** `float(v)`; None stands for the TypeError or ValueError it raises. */
  function ToFloat(v: Value, parse: FloatParse): Option<real> {
    match v
    case Null => None
    case Bool(b) => Some(if b then 1.0 else 0.0)
    case Int(i) => Some(i as real)
    case Num(r) => Some(r)
    case Str(s) => parse(s)
  }

  /** `int(x)` for a float truncates toward zero. */
  function TruncateReal(r: real): (n: int)
    ensures r >= 0.0 ==> n as real <= r < n as real + 1.0
    ensures r < 0.0 ==> n as real - 1.0 < r <= n as real
  {
    if r >= 0.0 then r.Floor else -((-r).Floor)
  }

  /** `int(v)`; None stands for the TypeError or ValueError it raises. */
  function ToInt(v: Value): Option<int> {
    match v
    case Null => None
    case Bool(b) => Some(if b then 1 else 0)
    case Int(i) => Some(i)
    case Num(r) => Some(TruncateReal(r))
    case Str(s) => ParseInt(s)
  }

  /** The numeric reading of a bool, int or float, as Python's `==` sees it. */
  function NumericOf(v: Value): Option<real> {
    match v
    case Bool(b) => Some(if b then 1.0 else 0.0)
    case Int(i) => Some(i as real)
    case Num(r) => Some(r)
    case _ => None
  }

  /** Python's `a == b` on scalars: bool, int and float compare by value. */
  predicate PyEq(a: Value, b: Value) {
    if NumericOf(a).Some? || NumericOf(b).Some? then NumericOf(a) == NumericOf(b)
    else a == b
  }

  lemma PyEqReflexive(a: Value)
    ensures PyEq(a, a)
  {
  }

  // ---------------------------------------------------------------- characters and strings

  /** The characters `str.isspace` accepts below U+0100. */
  predicate IsSpace(c: char) {
    9 <= c as int <= 13 || 28 <= c as int <= 32 || c as int == 0x85 || c as int == 0xA0
  }

  predicate IsDigit(c: char) { '0' <= c <= '9' }
  predicate IsUpper(c: char) { 'A' <= c <= 'Z' }
  predicate IsLower(c: char) { 'a' <= c <= 'z' }

  function LowerChar(c: char): (d: char)
    ensures !IsUpper(d)
    ensures !IsUpper(c) ==> d == c
  {
    if IsUpper(c) then (c as int + 32) as char else c
  }

  /** `s.lower()` on ASCII letters. */
  function Lower(s: string): (r: string)
    ensures |r| == |s|
  {
    if s == [] then [] else [LowerChar(s[0])] + Lower(s[1..])
  }

  /** `lower` works character by character. */
  lemma {:induction false} LowerAt(s: string, i: int)
    requires 0 <= i < |s|
    ensures Lower(s)[i] == LowerChar(s[i])
  {
    if i > 0 {
      LowerAt(s[1..], i - 1);
    }
  }

  function StripLeft(s: string): (r: string)
    ensures |r| <= |s| && r == s[|s| - |r|..]
    ensures r == [] || !IsSpace(r[0])
  {
    if s != [] && IsSpace(s[0]) then StripLeft(s[1..]) else s
  }

  function StripRight(s: string): (r: string)
    ensures |r| <= |s| && r == s[..|r|]
    ensures r == [] || !IsSpace(r[|r| - 1])
  {
    if s != [] && IsSpace(s[|s| - 1]) then StripRight(s[..|s| - 1]) else s
  }

  lemma {:induction false} StripLeftSkipsSpaces(s: string)
    ensures forall i :: 0 <= i < |s| - |StripLeft(s)| ==> IsSpace(s[i])
    decreases |s|
  {
    if s != [] && IsSpace(s[0]) {
      StripLeftSkipsSpaces(s[1..]);
      forall i | 1 <= i < |s| - |StripLeft(s)|
        ensures IsSpace(s[i])
      {
        assert s[i] == s[1..][i - 1];
      }
    }
  }

  lemma {:induction false} StripRightSkipsSpaces(s: string)
    ensures forall i :: |StripRight(s)| <= i < |s| ==> IsSpace(s[i])
    decreases |s|
  {
    if s != [] && IsSpace(s[|s| - 1]) {
      StripRightSkipsSpaces(s[..|s| - 1]);
    }
  }

  /** `s.strip()` */
  function Strip(s: string): (r: string)
    ensures r == [] || (!IsSpace(r[0]) && !IsSpace(r[|r| - 1]))
  {
    StripRight(StripLeft(s))
  }

  /** `str(v or "").strip().lower()`: the text the server compares keys and words by. */
  function LowerText(v: Value, repr: FloatRepr): string {
    Lower(Strip(TextOrEmpty(v, repr)))
  }

  lemma {:induction false} StripIdempotent(s: string)
    ensures Strip(Strip(s)) == Strip(s)
  {
    var t := Strip(s);
    if t != [] {
      NoSpaceUnstripped(t);
    }
  }

  lemma LowerIdempotent(s: string)
    ensures Lower(Lower(s)) == Lower(s)
  {
    var u := Lower(s);
    forall i | 0 <= i < |u|
      ensures Lower(u)[i] == u[i]
    {
      LowerAt(s, i);
      LowerAt(u, i);
    }
  }

  lemma LowerCharSpace(c: char)
    ensures IsSpace(LowerChar(c)) == IsSpace(c)
  {
  }

  lemma LowerPrefix(s: string, n: nat)
    requires n <= |s|
    ensures Lower(s[..n]) == Lower(s)[..n]
  {
    forall i | 0 <= i < n
      ensures Lower(s[..n])[i] == Lower(s)[i]
    {
      LowerAt(s[..n], i);
      LowerAt(s, i);
    }
  }

  lemma {:induction false} StripLeftLower(s: string)
    ensures StripLeft(Lower(s)) == Lower(StripLeft(s))
    decreases |s|
  {
    if s != [] {
      LowerCharSpace(s[0]);
      assert Lower(s)[1..] == Lower(s[1..]);
      StripLeftLower(s[1..]);
    }
  }

  lemma {:induction false} StripRightLower(s: string)
    ensures StripRight(Lower(s)) == Lower(StripRight(s))
    decreases |s|
  {
    if s != [] {
      var n := |s| - 1;
      LowerAt(s, n);
      LowerCharSpace(s[n]);
      LowerPrefix(s, n);
      StripRightLower(s[..n]);
    }
  }

  /** Stripping and lower-casing can be done in either order. */
  lemma StripLower(s: string)
    ensures Strip(Lower(s)) == Lower(Strip(s))
  {
    StripLeftLower(s);
    StripRightLower(StripLeft(s));
  }

  /** Lowering never makes or unmakes a space, so it commutes with `strip`. */
  lemma LowerKeepsEnds(t: string)
    requires t == [] || (!IsSpace(t[0]) && !IsSpace(t[|t| - 1]))
    ensures Strip(Lower(t)) == Lower(t)
  {
    var u := Lower(t);
    if u != [] {
      LowerAt(t, 0);
      LowerAt(t, |t| - 1);
      LowerCharSpace(t[0]);
      LowerCharSpace(t[|t| - 1]);
      NoSpaceUnstripped(u);
    }
  }

  /** Normalising a normalised key changes nothing. */
  lemma LowerTextIdempotent(v: Value, repr: FloatRepr)
    ensures LowerText(Str(LowerText(v, repr)), repr) == LowerText(v, repr)
  {
    var t := Strip(TextOrEmpty(v, repr));
    var u := Lower(t);
    assert TextOrEmpty(Str(u), repr) == u;
    LowerKeepsEnds(t);
    LowerIdempotent(t);
  }

  predicate StartsWith(s: string, prefix: string) {
    |prefix| <= |s| && s[..|prefix|] == prefix
  }

  predicate EndsWith(s: string, suffix: string) {
    |suffix| <= |s| && s[|s| - |suffix|..] == suffix
  }

  /** `sub in s` */
  predicate Contains(s: string, sub: string)
    decreases |s|
  {
    StartsWith(s, sub) || (s != [] && Contains(s[1..], sub))
  }

  /** `sub` occurs in `s` at index `i`. */
  predicate OccursAt(s: string, sub: string, i: nat) {
    i + |sub| <= |s| && s[i..i + |sub|] == sub
  }

  /** `sub in s` finds an occurrence. */
  lemma {:induction false} ContainsFound(s: string, sub: string)
    requires Contains(s, sub)
    ensures exists i: nat :: OccursAt(s, sub, i)
    decreases |s|
  {
    if StartsWith(s, sub) {
      assert OccursAt(s, sub, 0);
    } else {
      ContainsFound(s[1..], sub);
      var j: nat :| OccursAt(s[1..], sub, j);
      assert s[1..][j..j + |sub|] == s[j + 1..j + 1 + |sub|];
      assert OccursAt(s, sub, j + 1);
    }
  }

  lemma ContainsWitness(s: string, sub: string, i: nat)
    requires i + |sub| <= |s| && s[i..i + |sub|] == sub
    ensures Contains(s, sub)
    decreases i
  {
    if i > 0 {
      assert s[1..][i - 1..i - 1 + |sub|] == sub;
      ContainsWitness(s[1..], sub, i - 1);
    }
  }

  /** `s.replace(c, "")` for a single character c. */
  function RemoveChar(s: string, c: char): (r: string)
    ensures forall i :: 0 <= i < |r| ==> r[i] != c
  {
    if s == [] then [] else (if s[0] == c then [] else [s[0]]) + RemoveChar(s[1..], c)
  }

  /** `s.replace(a, b)` for single characters a and b. */
  function ReplaceChar(s: string, a: char, b: char): (r: string)
    ensures |r| == |s|
  {
    if s == [] then [] else [if s[0] == a then b else s[0]] + ReplaceChar(s[1..], a, b)
  }

  lemma {:induction false} ReplaceCharAt(s: string, a: char, b: char, i: nat)
    requires i < |s|
    ensures ReplaceChar(s, a, b)[i] == if s[i] == a then b else s[i]
  {
    if i > 0 {
      ReplaceCharAt(s[1..], a, b, i - 1);
    }
  }

  /** Python's `<` on strings: lexicographic by code point. */
  predicate StrLess(a: string, b: string)
    decreases |a|
  {
    if a == [] then b != []
    else if b == [] then false
    else if a[0] != b[0] then a[0] < b[0]
    else StrLess(a[1..], b[1..])
  }

  lemma {:induction false} StrLessIrreflexive(a: string)
    ensures !StrLess(a, a)
    decreases |a|
  {
    if a != [] { StrLessIrreflexive(a[1..]); }
  }

  lemma {:induction false} StrLessTransitive(a: string, b: string, c: string)
    requires StrLess(a, b) && StrLess(b, c)
    ensures StrLess(a, c)
    decreases |a|
  {
    if a != [] && b != [] && c != [] && a[0] == b[0] && b[0] == c[0] {
      StrLessTransitive(a[1..], b[1..], c[1..]);
    }
  }

  lemma {:induction false} StrLessTotal(a: string, b: string)
    requires a != b
    ensures StrLess(a, b) || StrLess(b, a)
    decreases |a|
  {
    if a != [] && b != [] && a[0] == b[0] {
      assert a == [a[0]] + a[1..];
      assert b == [b[0]] + b[1..];
      StrLessTotal(a[1..], b[1..]);
    }
  }

  // ---------------------------------------------------------------- integers as text

  function DigitChar(d: nat): (c: char)
    requires d < 10
    ensures IsDigit(c)
  {
    ('0' as int + d) as char
  }

  function DigitValue(c: char): (d: nat)
    requires IsDigit(c)
    ensures d < 10
  {
    c as int - '0' as int
  }

  /** Decimal text of a natural number, most significant digit first. */
  function NatToString(n: nat): (s: string)
    ensures s != [] && forall i :: 0 <= i < |s| ==> IsDigit(s[i])
    decreases n
  {
    if n < 10 then [DigitChar(n)] else NatToString(n / 10) + [DigitChar(n % 10)]
  }

  /** `str(n)` for an int. */
  function IntToString(n: int): string {
    (if n < 0 then "-" else "") + NatToString(if n < 0 then -n else n)
  }

  /** The value of a string of digits and underscores, underscores skipped. */
  function DigitsValue(s: string): nat
    requires forall i :: 0 <= i < |s| ==> IsDigit(s[i]) || s[i] == '_'
  {
    if s == [] then 0
    else if s[|s| - 1] == '_' then DigitsValue(s[..|s| - 1])
    else DigitsValue(s[..|s| - 1]) * 10 + DigitValue(s[|s| - 1])
  }

  /** A digit group as `int()` accepts it: digits, with single underscores between digits. */
  predicate WellFormedDigits(s: string) {
    && s != []
    && IsDigit(s[0]) && IsDigit(s[|s| - 1])
    && (forall i :: 0 <= i < |s| ==> IsDigit(s[i]) || s[i] == '_')
    && (forall i :: 0 <= i < |s| - 1 ==> !(s[i] == '_' && s[i + 1] == '_'))
  }

  /** `int(s)` for a string: surrounding whitespace, an optional sign, a digit group. */
  function ParseInt(s: string): (r: Option<int>)
    ensures r.Some? ==> Strip(s) != []
  {
    var t := Strip(s);
    if t == [] then None
    else
      var negative := t[0] == '-';
      var body := if t[0] == '-' || t[0] == '+' then t[1..] else t;
      if !WellFormedDigits(body) then None
      else
        var v: int := DigitsValue(body);
        Some(if negative then -v else v)
  }

  lemma {:induction false} NatToStringValue(n: nat)
    ensures DigitsValue(NatToString(n)) == n
    decreases n
  {
    if n >= 10 {
      var s := NatToString(n);
      assert s[..|s| - 1] == NatToString(n / 10);
      NatToStringValue(n / 10);
    }
  }

  lemma NoSpaceUnstripped(s: string)
    requires s != [] && !IsSpace(s[0]) && !IsSpace(s[|s| - 1])
    ensures Strip(s) == s
  {
  }

  lemma AllDigitsWellFormed(s: string)
    requires s != [] && forall i :: 0 <= i < |s| ==> IsDigit(s[i])
    ensures WellFormedDigits(s)
  {
  }

  lemma ParseSignedDigits(t: string, body: string, negative: bool)
    requires WellFormedDigits(body)
    requires t == if negative then "-" + body else body
    ensures ParseInt(t) == Some(if negative then -(DigitsValue(body) as int) else DigitsValue(body))
  {
    assert !IsSpace(t[0]) && !IsSpace(t[|t| - 1]);
    NoSpaceUnstripped(t);
    var b := if t[0] == '-' || t[0] == '+' then t[1..] else t;
    if negative {
      assert b == body;
    } else {
      assert t[0] != '-' && t[0] != '+';
    }
  }

  /** int(str(n)) == n: the text `IntToString` writes is read back by `ParseInt`. */
  lemma {:induction false} ParseIntRoundTrip(n: int)
    ensures ParseInt(IntToString(n)) == Some(n)
  {
    var m: nat := if n < 0 then -n else n;
    NatToStringValue(m);
    AllDigitsWellFormed(NatToString(m));
    ParseSignedDigits(IntToString(n), NatToString(m), n < 0);
  }

  // ---------------------------------------------------------------- filtering comprehensions

  /** `[o]` for Some(o), `[]` for None. */
  function OptionSeq<T>(o: Option<T>): (r: seq<T>)
    ensures |r| <= 1
  {
    if o.Some? then [o.value] else []
  }

  /** The results `f` gives for the rows, skipping the rows it gives none for. */
  function Somes<R, P>(rows: seq<R>, f: R -> Option<P>): (r: seq<P>)
    ensures |r| <= |rows|
    decreases |rows|
  {
    if rows == [] then [] else Somes(rows[..|rows| - 1], f) + OptionSeq(f(rows[|rows| - 1]))
  }

  lemma SomesNext<R, P>(rows: seq<R>, i: nat, f: R -> Option<P>)
    requires i < |rows|
    ensures Somes(rows[..i + 1], f) == Somes(rows[..i], f) + OptionSeq(f(rows[i]))
  {
    assert rows[..i + 1][..i] == rows[..i];
  }

  /** A result is kept exactly when some row gives it. */
  lemma {:induction false} SomesSpec<R, P>(rows: seq<R>, f: R -> Option<P>, p: P)
    ensures p in Somes(rows, f) <==> exists i :: 0 <= i < |rows| && f(rows[i]) == Some(p)
    decreases |rows|
  {
    if rows != [] {
      var n := |rows| - 1;
      var init := rows[..n];
      assert Somes(rows, f) == Somes(init, f) + OptionSeq(f(rows[n]));
      SomesSpec(init, f, p);
      if exists i :: 0 <= i < |rows| && f(rows[i]) == Some(p) {
        var i :| 0 <= i < |rows| && f(rows[i]) == Some(p);
        if i < n {
          assert init[i] == rows[i];
        }
      }
      if p in Somes(init, f) {
        var i :| 0 <= i < |init| && f(init[i]) == Some(p);
        assert rows[i] == init[i];
      }
    }
  }
}

/**
 * JavaScript values and the string primitives of the language that the
 * application relies on: truthiness (`||` defaults), strict equality (`===`),
 * `String(v)`, `parseInt`, `trim`, ASCII case mapping, `startsWith`,
 * `includes`, `padStart` and the `<` order on strings.
 */
module JsValues {

  datatype Option<+T> = None | Some(value: T)

  /** The outcome of an operation that can throw: the value, or the message
      of the error it throws. */
  datatype Result<+T> = Ok(value: T) | Err(error: string)

  /** A JavaScript value as held in component state or read from a document.
      Numbers are integers: no value in this system is fractional. */
  datatype JsValue = Undefined | Null | Bool(b: bool) | Num(n: int) | NaN | Str(s: string)

  /** One property of a plain object; an object is its properties in
      insertion order, with distinct keys. */
  datatype Field = Field(key: string, value: JsValue)

  function Keys(o: seq<Field>): (ks: seq<string>)
    ensures |ks| == |o| && forall i :: 0 <= i < |o| ==> ks[i] == o[i].key
  {
    seq(|o|, i requires 0 <= i < |o| => o[i].key)
  }

  /** `o[key]`: the value of the first property with that key, else undefined. */
  function Get(o: seq<Field>, key: string): (v: JsValue)
    ensures (forall i :: 0 <= i < |o| ==> o[i].key != key) ==> v == Undefined
    ensures |o| > 0 && o[0].key == key ==> v == o[0].value
  {
    if o == [] then Undefined else if o[0].key == key then o[0].value else Get(o[1..], key)
  }

  /** `delete o[key]` */
  function Delete(o: seq<Field>, key: string): (r: seq<Field>)
    ensures forall i :: 0 <= i < |r| ==> r[i].key != key
    ensures (forall i :: 0 <= i < |o| ==> o[i].key != key) ==> r == o
  {
    if o == [] then [] else if o[0].key == key then Delete(o[1..], key) else [o[0]] + Delete(o[1..], key)
  }

  /** ToBoolean: the values `||` treats as missing are exactly the falsy ones. */
  predicate Truthy(v: JsValue)
  {
    match v
    case Undefined => false
    case Null => false
    case Bool(b) => b
    case Num(n) => n != 0
    case NaN => false
    case Str(s) => s != ""
  }

  /** `a || d` */
  function Or(a: JsValue, d: JsValue): (r: JsValue)
    ensures Truthy(a) ==> r == a
    ensures !Truthy(a) ==> r == d
  {
    if Truthy(a) then a else d
  }

  /** `a ?? d`: only undefined and null are replaced. */
  function Coalesce(a: JsValue, d: JsValue): (r: JsValue)
    ensures (a == Undefined || a == Null) ==> r == d
    ensures !(a == Undefined || a == Null) ==> r == a
  {
    if a.Undefined? || a.Null? then d else a
  }

  /** `a === b`: NaN is the one value unequal to itself. */
  predicate StrictEquals(a: JsValue, b: JsValue)
  {
    !a.NaN? && a == b
  }

  lemma StrictEqualsMeansEqualOtherThanNaN(a: JsValue, b: JsValue)
    ensures StrictEquals(a, b) ==> a == b
    ensures a == b && a != NaN ==> StrictEquals(a, b)
    ensures !StrictEquals(NaN, NaN)
  {
  }

  // ---------------------------------------------------------------- digits

  predicate IsDecimalDigit(c: char)
  {
    '0' <= c <= '9'
  }

  predicate AllDecimalDigits(s: string)
  {
    forall i :: 0 <= i < |s| ==> IsDecimalDigit(s[i])
  }

  function DigitValue(c: char): (d: nat)
    requires IsDecimalDigit(c)
    ensures d < 10
  {
    (c as int) - ('0' as int)
  }

  function DigitChar(d: nat): (c: char)
    requires d < 10
    ensures IsDecimalDigit(c) && DigitValue(c) == d
  {
    (('0' as int) + d) as char
  }

  /** The decimal numeral of n (`n.toString()`), without leading zeros. */
  function NatToDecimal(n: nat): (r: string)
    ensures |r| > 0 && AllDecimalDigits(r)
    ensures n >= 10 ==> r[0] != '0'
    decreases n
  {
    if n < 10 then [DigitChar(n)] else NatToDecimal(n / 10) + [DigitChar(n % 10)]
  }

  /** `String(n)` for an integer n. */
  function IntToString(n: int): (r: string)
    ensures |r| > 0
  {
    if n < 0 then "-" + NatToDecimal(-n) else NatToDecimal(n)
  }

  /** The value of a string of decimal digits, most significant first. */
  function DecimalValue(d: string): nat
    requires AllDecimalDigits(d)
    decreases |d|
  {
    if |d| == 0 then 0 else DecimalValue(d[..|d| - 1]) * 10 + DigitValue(d[|d| - 1])
  }

  lemma {:induction false} DecimalValueOfNatToDecimal(n: nat)
    ensures DecimalValue(NatToDecimal(n)) == n
    decreases n
  {
    var r := NatToDecimal(n);
    if n >= 10 {
      DecimalValueOfNatToDecimal(n / 10);
      assert r[..|r| - 1] == NatToDecimal(n / 10);
    } else {
      assert r[..|r| - 1] == [];
    }
  }

  /** `String(v)`, as used by template literals and `parseInt`. */
  function ToJsString(v: JsValue): string
  {
    match v
    case Undefined => "undefined"
    case Null => "null"
    case Bool(b) => if b then "true" else "false"
    case Num(n) => IntToString(n)
    case NaN => "NaN"
    case Str(s) => s
  }

  // ------------------------------------------------------------ whitespace

  /** The WhiteSpace and LineTerminator characters of ECMAScript: what `\s`,
      `trim` and `parseInt` skip. */
  predicate IsJsSpace(c: char)
  {
    c == '\t' || c == '\n' || c == '\U{000B}' || c == '\U{000C}' || c == '\r' || c == ' '
    || c == '\U{00A0}' || c == '\U{1680}' || ('\U{2000}' <= c <= '\U{200A}')
    || c == '\U{2028}' || c == '\U{2029}' || c == '\U{202F}' || c == '\U{205F}'
    || c == '\U{3000}' || c == '\U{FEFF}'
  }

  function TrimStart(s: string): (r: string)
    ensures |r| <= |s| && r == s[|s| - |r|..]
    ensures r == [] || !IsJsSpace(r[0])
    ensures forall i :: 0 <= i < |s| - |r| ==> IsJsSpace(s[i])
    decreases |s|
  {
    if |s| > 0 && IsJsSpace(s[0]) then TrimStart(s[1..]) else s
  }

  function TrimEnd(s: string): (r: string)
    ensures |r| <= |s| && r == s[..|r|]
    ensures r == [] || !IsJsSpace(r[|r| - 1])
    ensures forall i :: |r| <= i < |s| ==> IsJsSpace(s[i])
    decreases |s|
  {
    if |s| > 0 && IsJsSpace(s[|s| - 1]) then TrimEnd(s[..|s| - 1]) else s
  }

  /** `s.trim()` */
  function Trim(s: string): string
  {
    TrimEnd(TrimStart(s))
  }

  lemma {:induction false} TrimStartOfSpaces(s: string)
    requires forall i :: 0 <= i < |s| ==> IsJsSpace(s[i])
    ensures TrimStart(s) == []
    decreases |s|
  {
    if |s| > 0 { TrimStartOfSpaces(s[1..]); }
  }

  /** `s.trim()` is empty exactly when s is made of whitespace only. */
  lemma TrimIsEmptyIffAllSpace(s: string)
    ensures Trim(s) == [] <==> forall i :: 0 <= i < |s| ==> IsJsSpace(s[i])
  {
    if forall i :: 0 <= i < |s| ==> IsJsSpace(s[i]) {
      TrimStartOfSpaces(s);
    } else {
      var k :| 0 <= k < |s| && !IsJsSpace(s[k]);
      NonSpaceSurvivesTrim(s, k);
    }
  }

  lemma NonSpaceSurvivesTrim(s: string, k: int)
    requires 0 <= k < |s| && !IsJsSpace(s[k])
    ensures Trim(s) != []
  {
    TrimStartKeepsNonSpace(s, k);
    var t := TrimStart(s);
    TrimEndKeepsNonSpace(t, k - (|s| - |t|));
  }

  /** A character other than white space survives `trimStart`. */
  lemma TrimStartKeepsNonSpace(s: string, k: int)
    requires 0 <= k < |s| && !IsJsSpace(s[k])
    ensures var t := TrimStart(s); k >= |s| - |t| && t[k - (|s| - |t|)] == s[k]
  {
    var t := TrimStart(s);
    assert k >= |s| - |t|;
  }

  /** A character other than white space survives `trimEnd`. */
  lemma TrimEndKeepsNonSpace(t: string, j: int)
    requires 0 <= j < |t| && !IsJsSpace(t[j])
    ensures TrimEnd(t) != []
  {
  }

  // -------------------------------------------------------------- parseInt

  /** The longest prefix of s made of decimal digits. */
  function DigitPrefix(s: string): (r: string)
    ensures r <= s && AllDecimalDigits(r)
    ensures |r| < |s| ==> !IsDecimalDigit(s[|r|])
    decreases |s|
  {
    if |s| > 0 && IsDecimalDigit(s[0]) then [s[0]] + DigitPrefix(s[1..]) else []
  }

  predicate IsHexDigit(c: char)
  {
    IsDecimalDigit(c) || 'a' <= c <= 'f' || 'A' <= c <= 'F'
  }

  function HexDigitValue(c: char): (d: nat)
    requires IsHexDigit(c)
    ensures d < 16
  {
    if IsDecimalDigit(c) then DigitValue(c)
    else if 'a' <= c <= 'f' then (c as int) - ('a' as int) + 10
    else (c as int) - ('A' as int) + 10
  }

  /** The longest prefix of s made of hexadecimal digits. */
  function HexPrefix(s: string): (r: string)
    ensures r <= s && forall i :: 0 <= i < |r| ==> IsHexDigit(r[i])
    decreases |s|
  {
    if |s| > 0 && IsHexDigit(s[0]) then [s[0]] + HexPrefix(s[1..]) else []
  }

  function HexValue(d: string): nat
    requires forall i :: 0 <= i < |d| ==> IsHexDigit(d[i])
    decreases |d|
  {
    if |d| == 0 then 0 else HexValue(d[..|d| - 1]) * 16 + HexDigitValue(d[|d| - 1])
  }

  /** `parseInt(s)` without a radix: leading whitespace, an optional sign, then
      a `0x`/`0X` prefix selects base 16, otherwise base 10; the longest digit
      prefix is read and the rest ignored; no digit at all gives NaN. */
  function ParseIntString(s: string): (r: JsValue)
    ensures r.Num? || r.NaN?
  {
    ParseSigned(TrimStart(s))
  }

  function ParseSigned(t: string): (r: JsValue)
    ensures r.Num? || r.NaN?
  {
    if |t| > 0 && t[0] == '-' then Negate(ParseUnsigned(t[1..]))
    else if |t| > 0 && t[0] == '+' then ParseUnsigned(t[1..])
    else ParseUnsigned(t)
  }

  function Negate(v: JsValue): JsValue
  {
    if v.Num? then Num(-v.n) else v
  }

  function ParseUnsigned(t: string): (r: JsValue)
    ensures r.Num? || r.NaN?
    ensures r.Num? ==> r.n >= 0
  {
    if |t| >= 2 && t[0] == '0' && (t[1] == 'x' || t[1] == 'X') then
      var h := HexPrefix(t[2..]);
      if h == [] then NaN else Num(HexValue(h))
    else
      var d := DigitPrefix(t);
      if d == [] then NaN else Num(DecimalValue(d))
  }

  /** `parseInt(v)`: the argument is first converted with `String(v)`. */
  function ParseInt(v: JsValue): (r: JsValue)
    ensures r.Num? || r.NaN?
  {
    ParseIntString(ToJsString(v))
  }

  lemma {:induction false} DigitPrefixOfDigits(s: string)
    requires AllDecimalDigits(s)
    ensures DigitPrefix(s) == s
    decreases |s|
  {
    if |s| > 0 { DigitPrefixOfDigits(s[1..]); }
  }

  lemma TrimStartKeeps(s: string)
    requires |s| > 0 && (IsDecimalDigit(s[0]) || s[0] == '-')
    ensures TrimStart(s) == s
  {
    assert !IsJsSpace(s[0]);
  }

  lemma ParseUnsignedOfDigits(d: string)
    requires |d| > 0 && AllDecimalDigits(d)
    ensures ParseUnsigned(d) == Num(DecimalValue(d))
  {
    DigitPrefixOfDigits(d);
    assert !(|d| >= 2 && d[0] == '0' && (d[1] == 'x' || d[1] == 'X')) by {
      if |d| >= 2 { assert IsDecimalDigit(d[1]); }
    }
  }

  /** A numeral without sign or whitespace parses to its decimal value. */
  lemma ParseIntOfDigits(d: string)
    requires |d| > 0 && AllDecimalDigits(d)
    ensures ParseIntString(d) == Num(DecimalValue(d))
  {
    ParseUnsignedOfDigits(d);
    TrimStartKeeps(d);
    assert ParseSigned(d) == ParseUnsigned(d);
  }

  /** A minus sign before a numeral negates its value. */
  lemma ParseIntOfNegatedDigits(d: string)
    requires |d| > 0 && AllDecimalDigits(d)
    ensures ParseIntString("-" + d) == Num(-(DecimalValue(d) as int))
  {
    TrimStartKeeps("-" + d);
    ParseSignedOfNegatedDigits(d);
  }

  lemma ParseSignedOfNegatedDigits(d: string)
    requires |d| > 0 && AllDecimalDigits(d)
    ensures ParseSigned("-" + d) == Num(-(DecimalValue(d) as int))
  {
    var m := "-" + d;
    assert m[1..] == d;
    ParseUnsignedOfDigits(d);
  }

  /** `parseInt(String(n)) == n`: the numeral of an integer reads back as it. */
  lemma ParseIntOfIntToString(n: int)
    ensures ParseIntString(IntToString(n)) == Num(n)
  {
    var m: nat := if n < 0 then -n else n;
    if n < 0 {
      ParseIntOfNegatedDigits(NatToDecimal(m));
    } else {
      ParseIntOfDigits(NatToDecimal(m));
    }
    DecimalValueOfNatToDecimal(m);
  }

  // ------------------------------------------------------------ case, order

  /** `toUpperCase` on the ASCII letters; every other character is kept. */
  function UpperChar(c: char): char
  {
    if 'a' <= c <= 'z' then ((c as int) - 32) as char else c
  }

  function LowerChar(c: char): char
  {
    if 'A' <= c <= 'Z' then ((c as int) + 32) as char else c
  }

  function ToUpper(s: string): (r: string)
    ensures |r| == |s| && forall i :: 0 <= i < |s| ==> r[i] == UpperChar(s[i])
  {
    seq(|s|, i requires 0 <= i < |s| => UpperChar(s[i]))
  }

  function ToLower(s: string): (r: string)
    ensures |r| == |s| && forall i :: 0 <= i < |s| ==> r[i] == LowerChar(s[i])
  {
    seq(|s|, i requires 0 <= i < |s| => LowerChar(s[i]))
  }

  lemma ToUpperIdempotent(s: string)
    ensures ToUpper(ToUpper(s)) == ToUpper(s)
  {
  }

  /** `s.startsWith(p)` */
  predicate StartsWith(s: string, p: string)
  {
    p <= s
  }

  /** `s.includes(sub)`: sub occurs in s at some position. */
  predicate Contains(s: string, sub: string)
    decreases |s|
  {
    sub <= s || (|s| > 0 && Contains(s[1..], sub))
  }

  predicate OccursAt(s: string, sub: string, i: int)
  {
    0 <= i <= |s| - |sub| && s[i..i + |sub|] == sub
  }

  lemma {:induction false} ContainsAt(s: string, sub: string)
    ensures Contains(s, sub) <==> exists i :: OccursAt(s, sub, i)
    decreases |s|
  {
    if sub <= s {
      assert OccursAt(s, sub, 0);
    } else if |s| > 0 {
      ContainsAt(s[1..], sub);
      if exists i :: OccursAt(s, sub, i) {
        var i :| OccursAt(s, sub, i);
        assert i != 0 && OccursAt(s[1..], sub, i - 1);
      }
      if Contains(s[1..], sub) {
        var j :| OccursAt(s[1..], sub, j);
        assert OccursAt(s, sub, j + 1);
      }
    }
  }

  /** `s.padStart(n, c)` with a one-character pad. */
  function PadStart(s: string, n: nat, c: char): (r: string)
    ensures |s| >= n ==> r == s
    ensures |s| < n ==> |r| == n
    ensures r[|r| - |s|..] == s
    ensures forall i :: 0 <= i < |r| - |s| ==> r[i] == c
  {
    if |s| >= n then s else seq(n - |s|, _ => c) + s
  }

  /** `a < b` on strings: the first differing character decides, and a proper
      prefix is smaller. (JavaScript compares UTF-16 code units; the strings
      compared here are ASCII, where the two agree.) */
  predicate LexLess(a: string, b: string)
  {
    LexLessFrom(a, b, 0)
  }

  /** The comparison from position i on. */
  predicate LexLessFrom(a: string, b: string, i: nat)
    decreases |b| - i
  {
    if i >= |b| then false
    else if i >= |a| then true
    else if a[i] != b[i] then a[i] < b[i]
    else LexLessFrom(a, b, i + 1)
  }

  /** One position of the comparison. */
  lemma LexLessFromStep(a: string, b: string, i: nat)
    requires i < |a| && i < |b|
    ensures LexLessFrom(a, b, i) == if a[i] != b[i] then a[i] < b[i] else LexLessFrom(a, b, i + 1)
  {
  }

  /** `a <= b` on strings, which JavaScript evaluates as `!(b < a)`. */
  predicate LexLessEq(a: string, b: string)
  {
    !LexLess(b, a)
  }

  lemma {:induction false} LexLessFromIrreflexive(a: string, i: nat)
    ensures !LexLessFrom(a, a, i)
    decreases |a| - i
  {
    if i < |a| { LexLessFromIrreflexive(a, i + 1); }
  }

  lemma LexLessIrreflexive(a: string)
    ensures !LexLess(a, a)
  {
    LexLessFromIrreflexive(a, 0);
  }

  lemma {:induction false} LexLessFromTrichotomy(a: string, b: string, i: nat)
    requires i <= |a| && i <= |b| && a[..i] == b[..i]
    ensures a == b || LexLessFrom(a, b, i) || LexLessFrom(b, a, i)
    ensures !(LexLessFrom(a, b, i) && LexLessFrom(b, a, i))
    decreases |a| - i
  {
    if i < |a| && i < |b| && a[i] == b[i] {
      assert a[..i + 1] == a[..i] + [a[i]] && b[..i + 1] == b[..i] + [b[i]];
      LexLessFromTrichotomy(a, b, i + 1);
    } else if i == |a| && i == |b| {
      assert a == a[..i] && b == b[..i];
    }
  }

  lemma LexLessTrichotomy(a: string, b: string)
    ensures a == b || LexLess(a, b) || LexLess(b, a)
    ensures !(LexLess(a, b) && LexLess(b, a))
  {
    LexLessFromTrichotomy(a, b, 0);
  }

  lemma {:induction false} LexLessFromTransitive(a: string, b: string, c: string, i: nat)
    requires LexLessFrom(a, b, i) && LexLessFrom(b, c, i)
    ensures LexLessFrom(a, c, i)
    decreases |a| - i
  {
    if i < |a| && i < |b| && i < |c| && a[i] == b[i] && b[i] == c[i] {
      LexLessFromTransitive(a, b, c, i + 1);
    }
  }

  lemma LexLessTransitive(a: string, b: string, c: string)
    requires LexLess(a, b) && LexLess(b, c)
    ensures LexLess(a, c)
  {
    LexLessFromTransitive(a, b, c, 0);
  }

  /** `a <= b` is a == b or a < b. */
  lemma LexLessEqIsLessOrEqual(a: string, b: string)
    ensures LexLessEq(a, b) <==> (a == b || LexLess(a, b))
  {
    LexLessTrichotomy(a, b);
    if a == b { LexLessIrreflexive(a); }
  }
}

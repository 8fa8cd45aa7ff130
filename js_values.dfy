/** The JavaScript values the vector library handles, and the parts of the
    language's arithmetic it relies on.

    A number is an IEEE double without rounding: a finite value is an exact
    real, and the special values Infinity, -Infinity and NaN follow the IEEE
    rules. Negative zero is not distinguished from zero. */
module JsValues {

  /** A JavaScript number. As the content of a vector component, `NaN` also
      stands for any value that is not of number type at all (the string that
      `+=` produces from an object operand, a boolean stored by `set`): every
      operation of the library treats such a component as "not a number". */
  datatype Num = Finite(r: real) | PosInf | NegInf | NaN

  /** The values an operand can be. Reading a property such as `.x` finds
      something only on a plain object (`Record`); other values have no such
      own property. A vector passed as an operand is the record of its
      fields, converted to a number as a plain object is. A `Vector3`
      converts the same way, through its `toString`; a `Vector2` instance
      instead throws in its `toString`, which this model does not cover. */
  datatype JsValue =
    | Undefined
    | Null
    | Bool(b: bool)
    | Number(n: Num)
    | Str(s: string)
    | Array(elems: seq<JsValue>)
    | Record(fields: map<string, JsValue>)

  // ---------------------------------------------------------------- numbers

  predicate IsNegative(a: Num) {
    (a.Finite? && a.r < 0.0) || a.NegInf?
  }

  predicate IsZero(a: Num) {
    a.Finite? && a.r == 0.0
  }

  function Infinity(negative: bool): Num {
    if negative then NegInf else PosInf
  }

  /** Unary minus. */
  function Negate(a: Num): Num {
    match a
    case Finite(r) => Finite(-r)
    case PosInf => NegInf
    case NegInf => PosInf
    case NaN => NaN
  }

  /** `a + b` on numbers. */
  function Plus(a: Num, b: Num): Num {
    match (a, b)
    case (NaN, _) => NaN
    case (_, NaN) => NaN
    case (Finite(p), Finite(q)) => Finite(p + q)
    case (Finite(_), _) => b
    case (_, Finite(_)) => a
    case _ => if a == b then a else NaN
  }

  /** `a - b` on numbers. */
  function Minus(a: Num, b: Num): Num {
    Plus(a, Negate(b))
  }

  /** `a * b` on numbers. */
  function Times(a: Num, b: Num): Num {
    match (a, b)
    case (NaN, _) => NaN
    case (_, NaN) => NaN
    case (Finite(p), Finite(q)) => Finite(p * q)
    case _ =>
      if IsZero(a) || IsZero(b) then NaN
      else Infinity(IsNegative(a) != IsNegative(b))
  }

  /** `a / b` on numbers; a zero divisor is taken to be +0. */
  function Quotient(a: Num, b: Num): Num {
    match (a, b)
    case (NaN, _) => NaN
    case (_, NaN) => NaN
    case (Finite(p), Finite(q)) =>
      if q != 0.0 then Finite(p / q)
      else if p == 0.0 then NaN
      else Infinity(p < 0.0)
    case (Finite(_), _) => Finite(0.0)
    case (_, Finite(q)) => Infinity(IsNegative(a) != (q < 0.0))
    case _ => NaN
  }

  /** `a < b` on numbers: false whenever NaN is involved. */
  predicate Less(a: Num, b: Num) {
    match (a, b)
    case (NaN, _) => false
    case (_, NaN) => false
    case (Finite(p), Finite(q)) => p < q
    case (NegInf, _) => b != NegInf
    case (_, PosInf) => a != PosInf
    case _ => false
  }

  /** `a === b` on numbers: NaN equals nothing. */
  predicate StrictEquals(a: Num, b: Num) {
    !a.NaN? && a == b
  }

  // ---------------------------------------------------------- values

  /** JavaScript truthiness. */
  predicate Truthy(v: JsValue) {
    match v
    case Undefined => false
    case Null => false
    case Bool(b) => b
    case Number(n) => !(n.NaN? || IsZero(n))
    case Str(s) => s != ""
    case Array(_) => true
    case Record(_) => true
  }

  /** `v || fallback`. */
  function Or(v: JsValue, fallback: real): JsValue {
    if Truthy(v) then v else Number(Finite(fallback))
  }

  /** The property read `v[key]`. */
  function Get(v: JsValue, key: string): JsValue {
    if v.Record? && key in v.fields then v.fields[key] else Undefined
  }

  /** The element read `v[i]` on an array. */
  function At(v: JsValue, i: nat): JsValue {
    if v.Array? && i < |v.elems| then v.elems[i] else Undefined
  }

  /** What a vector component holds after `v` is stored in it. */
  function AsNum(v: JsValue): Num {
    if v.Number? then v.n else NaN
  }

  /** The component `v.key`, as a vector would hold it. */
  function Field(v: JsValue, key: string): Num {
    AsNum(Get(v, key))
  }

  /** The real value of `v.key` when it is a finite number (0 otherwise). */
  function FieldReal(v: JsValue, key: string): real {
    var n := Field(v, key);
    if n.Finite? then n.r else 0.0
  }

  /** The values of `key` across a list of operands, in order. */
  function Column(vs: seq<JsValue>, key: string): (c: seq<real>)
    ensures |c| == |vs|
    ensures forall i :: 0 <= i < |vs| ==> c[i] == FieldReal(vs[i], key)
  {
    seq(|vs|, i requires 0 <= i < |vs| => FieldReal(vs[i], key))
  }

  // ------------------------------------------------ conversion to number

  datatype Option<T> = None | Some(value: T)

  /** The white space and line terminators that `Number(string)` ignores at
      either end of its argument. */
  predicate IsStrWhiteSpace(c: char) {
    c == '\t' || c == '\n' || c == '\U{000B}' || c == '\U{000C}' || c == '\r' || c == ' ' ||
    c == '\U{00A0}' || c == '\U{1680}' || ('\U{2000}' <= c <= '\U{200A}') ||
    c == '\U{2028}' || c == '\U{2029}' || c == '\U{202F}' || c == '\U{205F}' ||
    c == '\U{3000}' || c == '\U{FEFF}'
  }

  predicate AllWhiteSpace(s: string) {
    forall i :: 0 <= i < |s| ==> IsStrWhiteSpace(s[i])
  }

  /** `s` without its leading white space. */
  function TrimStart(s: string): string {
    if s != [] && IsStrWhiteSpace(s[0]) then TrimStart(s[1..]) else s
  }

  /** `s` without its trailing white space. */
  function TrimEnd(s: string): string {
    if s != [] && IsStrWhiteSpace(s[|s| - 1]) then TrimEnd(s[..|s| - 1]) else s
  }

  /** `TrimStart` drops a prefix made only of white space and keeps the
      rest, which does not start with white space. */
  lemma {:induction false} TrimStartShape(s: string)
    ensures |TrimStart(s)| <= |s| && TrimStart(s) == s[|s| - |TrimStart(s)|..]
    ensures TrimStart(s) == [] || !IsStrWhiteSpace(TrimStart(s)[0])
    ensures AllWhiteSpace(s[..|s| - |TrimStart(s)|])
  {
    if s != [] && IsStrWhiteSpace(s[0]) {
      TrimStartShape(s[1..]);
      var k := |s| - |TrimStart(s)|;
      assert s[..k] == [s[0]] + s[1..][..k - 1];
    }
  }

  /** `TrimEnd` drops a suffix made only of white space and keeps the
      rest, which does not end with white space. */
  lemma {:induction false} TrimEndShape(s: string)
    ensures |TrimEnd(s)| <= |s| && TrimEnd(s) == s[..|TrimEnd(s)|]
    ensures TrimEnd(s) == [] || !IsStrWhiteSpace(TrimEnd(s)[|TrimEnd(s)| - 1])
    ensures AllWhiteSpace(s[|TrimEnd(s)|..])
  {
    if s != [] && IsStrWhiteSpace(s[|s| - 1]) {
      TrimEndShape(s[..|s| - 1]);
      var k := |TrimEnd(s)|;
      assert s[k..] == s[..|s| - 1][k..] + [s[|s| - 1]];
    }
  }

  /** The value of a digit in the bases up to 16, or -1 for a character
      that is no digit. */
  function DigitValue(c: char): int {
    if '0' <= c <= '9' then c as int - '0' as int
    else if 'a' <= c <= 'f' then c as int - 'a' as int + 10
    else if 'A' <= c <= 'F' then c as int - 'A' as int + 10
    else -1
  }

  predicate AllDigits(ds: string, base: nat) {
    forall i :: 0 <= i < |ds| ==> 0 <= DigitValue(ds[i]) < base
  }

  /** The value of a string of digits in `base`, most significant first. */
  function DigitsValue(ds: string, base: nat): nat
    requires AllDigits(ds, base)
  {
    if ds == [] then 0
    else DigitsValue(ds[..|ds| - 1], base) * base + DigitValue(ds[|ds| - 1])
  }

  function Pow10(n: nat): (r: real)
    ensures r >= 1.0
  {
    if n == 0 then 1.0 else 10.0 * Pow10(n - 1)
  }

  /** `m * 10 ** e`. */
  function Scaled(m: nat, e: int): real {
    if e >= 0 then m as real * Pow10(e) else m as real / Pow10(-e)
  }

  /** The position of the first character of `s` that is in `cs`, or `|s|`
      when there is none. */
  function Find(s: string, cs: set<char>): (k: nat)
    ensures k <= |s|
    ensures k < |s| ==> s[k] in cs
    ensures forall i :: 0 <= i < k ==> s[i] !in cs
  {
    if s == [] || s[0] in cs then 0 else 1 + Find(s[1..], cs)
  }

  /** The signed integer of an exponent part: an optional sign and at least
      one decimal digit. */
  function SignedInteger(s: string): Option<int> {
    var negative := s != [] && s[0] == '-';
    var digits := if s != [] && (s[0] == '+' || s[0] == '-') then s[1..] else s;
    if digits == [] || !AllDigits(digits, 10) then None
    else Some(if negative then -(DigitsValue(digits, 10) as int) else DigitsValue(digits, 10))
  }

  /** An unsigned decimal literal other than `Infinity`: at least one
      digit, at most one point among them, and an optional exponent part
      `e` or `E` followed by a signed integer. Any other text is NaN. */
  function UnsignedDecimal(s: string): Num {
    var k := Find(s, {'e', 'E'});
    var mantissa := s[..k];
    var exponent := if k < |s| then SignedInteger(s[k + 1..]) else Some(0);
    var p := Find(mantissa, {'.'});
    var whole := mantissa[..p];
    var fraction := if p < |mantissa| then mantissa[p + 1..] else [];
    if exponent.None? || |whole| + |fraction| == 0 || !AllDigits(whole, 10) || !AllDigits(fraction, 10) then NaN
    else
      assert AllDigits(whole + fraction, 10) by {
        forall i | 0 <= i < |whole + fraction|
          ensures 0 <= DigitValue((whole + fraction)[i]) < 10
        {
          if i >= |whole| {
            assert (whole + fraction)[i] == fraction[i - |whole|];
          }
        }
      }
      Finite(Scaled(DigitsValue(whole + fraction, 10), exponent.value - |fraction|))
  }

  /** A binary, octal or hexadecimal integer literal `0b…`, `0o…`, `0x…`
      (either case of the letter, no sign). */
  function NonDecimalInteger(s: string): Num {
    if |s| < 3 || s[0] != '0' then NaN
    else
      var base := if s[1] in "bB" then 2 else if s[1] in "oO" then 8 else if s[1] in "xX" then 16 else 0;
      if base == 0 || !AllDigits(s[2..], base) then NaN
      else Finite(DigitsValue(s[2..], base) as real)
  }

  function UnsignedLiteral(s: string): Num {
    if s == "Infinity" then PosInf else UnsignedDecimal(s)
  }

  /** A numeric literal with its white space already removed: a
      non-decimal integer, or a decimal literal or `Infinity` with an
      optional sign. */
  function NumericLiteral(t: string): Num {
    if |t| >= 2 && t[0] == '0' && t[1] in "bBoOxX" then NonDecimalInteger(t)
    else if t != [] && t[0] == '-' then Negate(UnsignedLiteral(t[1..]))
    else if t != [] && t[0] == '+' then UnsignedLiteral(t[1..])
    else UnsignedLiteral(t)
  }

  /** `Number(s)` on a string: white space around the literal is ignored,
      and a string of white space alone is 0. */
  function StringToNumber(s: string): Num {
    var t := TrimEnd(TrimStart(s));
    if t == [] then Finite(0.0) else NumericLiteral(t)
  }

  /** `Number(v)`, the conversion the arithmetic operators apply to an
      operand. An array is converted through `join(",")`: the empty array
      is 0, two or more elements give a comma and so NaN, and a single
      element gives the conversion of its text (empty for null and
      undefined). A plain object's text is `"[object Object]"`, which is
      NaN. */
  function ToNumber(v: JsValue): Num {
    match v
    case Undefined => NaN
    case Null => Finite(0.0)
    case Bool(b) => Finite(if b then 1.0 else 0.0)
    case Number(n) => n
    case Str(s) => StringToNumber(s)
    case Array(elems) =>
      if |elems| == 0 then Finite(0.0)
      else if |elems| > 1 then NaN
      else
        (match elems[0]
         case Undefined => Finite(0.0)
         case Null => Finite(0.0)
         case Bool(_) => NaN
         case Number(n) => n
         case Str(s) => StringToNumber(s)
         case Array(_) => ToNumber(elems[0])
         case Record(_) => NaN)
    case Record(_) => NaN
  }

  /** The digits `String(n)` writes for a natural number. */
  function DecimalText(n: nat): (s: string)
    ensures s != [] && AllDigits(s, 10)
    ensures |s| > 1 ==> s[0] != '0'
  {
    var d := ['0' + (n % 10) as char];
    if n < 10 then d else DecimalText(n / 10) + d
  }

  /** Reading the digits of `n` back gives `n`. */
  lemma {:induction false} DecimalTextValue(n: nat)
    ensures DigitsValue(DecimalText(n), 10) == n
  {
    if n >= 10 {
      DecimalTextValue(n / 10);
      var s := DecimalText(n);
      assert s[..|s| - 1] == DecimalText(n / 10);
    }
  }

  /** A decimal digit is one of `0` to `9`. */
  lemma DecimalDigitChar(c: char)
    requires 0 <= DigitValue(c) < 10
    ensures '0' <= c <= '9'
  {
  }

  /** Digits contain no point and no exponent letter, so `Number` reads
      them as an integer. */
  lemma {:induction false} DigitsAreDecimal(s: string)
    requires s != [] && AllDigits(s, 10)
    ensures UnsignedDecimal(s) == Finite(DigitsValue(s, 10) as real)
  {
    var k := Find(s, {'e', 'E'});
    if k < |s| {
      DecimalDigitChar(s[k]);
    }
    var p := Find(s, {'.'});
    if p < |s| {
      DecimalDigitChar(s[p]);
    }
    assert s[..k] == s && s[..p] == s;
    assert s + [] == s;
    assert Scaled(DigitsValue(s, 10), 0) == DigitsValue(s, 10) as real;
  }

  /** Digits are no white space, so there is nothing to trim. */
  lemma {:induction false} DigitsNeedNoTrim(s: string)
    requires s != [] && AllDigits(s, 10)
    ensures TrimEnd(TrimStart(s)) == s
  {
    DecimalDigitChar(s[0]);
    DecimalDigitChar(s[|s| - 1]);
  }

  /** `Number(String(n))` is `n`: conversion inverts the decimal text of
      a natural number. */
  lemma {:induction false} IntegerTextRoundTrip(n: nat)
    ensures StringToNumber(DecimalText(n)) == Finite(n as real)
  {
    DecimalTextValue(n);
    DigitsAreLiteral(DecimalText(n));
  }

  /** `Number("-" + String(n))` is `-n`. */
  lemma {:induction false} NegativeTextRoundTrip(n: nat)
    ensures StringToNumber("-" + DecimalText(n)) == Finite(-(n as real))
  {
    DecimalTextValue(n);
    NegatedDigitsAreLiteral(DecimalText(n));
  }

  /** A decimal text without sign is read as its digits' value. */
  lemma {:induction false} DigitsAreLiteral(s: string)
    requires s != [] && AllDigits(s, 10) && (|s| > 1 ==> s[0] != '0')
    ensures StringToNumber(s) == Finite(DigitsValue(s, 10) as real)
  {
    DigitsNeedNoTrim(s);
    DecimalDigitChar(s[0]);
    UnsignedDigits(s);
    LiteralWithoutSign(s);
    Untrimmed(s);
  }

  /** With a minus sign in front, it is read as the negated value. */
  lemma {:induction false} NegatedDigitsAreLiteral(s: string)
    requires s != [] && AllDigits(s, 10)
    ensures StringToNumber("-" + s) == Finite(-(DigitsValue(s, 10) as real))
  {
    SignedDigitsUntrimmed(s);
    SignedDigitsLiteral(s);
    UnsignedDigits(s);
  }

  lemma {:induction false} SignedDigitsUntrimmed(s: string)
    requires s != [] && AllDigits(s, 10)
    ensures StringToNumber("-" + s) == NumericLiteral("-" + s)
  {
    var t := "-" + s;
    assert t[|t| - 1] == s[|s| - 1];
    DecimalDigitChar(s[|s| - 1]);
    NothingToTrim(t);
    Untrimmed(t);
  }

  lemma {:induction false} SignedDigitsLiteral(s: string)
    requires s != [] && AllDigits(s, 10)
    ensures NumericLiteral("-" + s) == Negate(UnsignedLiteral(s))
  {
    var t := "-" + s;
    assert t[1..] == s;
    LiteralWithMinus(t);
  }

  /** Digits are an unsigned literal. */
  lemma {:induction false} UnsignedDigits(s: string)
    requires s != [] && AllDigits(s, 10)
    ensures UnsignedLiteral(s) == Finite(DigitsValue(s, 10) as real)
  {
    DigitsAreDecimal(s);
    DecimalDigitChar(s[0]);
    assert s != "Infinity" by {
      assert "Infinity"[0] == 'I';
    }
  }

  /** A string that neither starts nor ends with white space is its own
      trimmed text. */
  lemma {:induction false} NothingToTrim(t: string)
    requires t != [] && !IsStrWhiteSpace(t[0]) && !IsStrWhiteSpace(t[|t| - 1])
    ensures TrimEnd(TrimStart(t)) == t
  {
  }

  /** A string with nothing to trim is read as a literal. */
  lemma {:induction false} Untrimmed(t: string)
    requires t != [] && TrimEnd(TrimStart(t)) == t
    ensures StringToNumber(t) == NumericLiteral(t)
  {
  }

  lemma {:induction false} LiteralWithoutSign(t: string)
    requires t != [] && '0' <= t[0] <= '9' && (|t| > 1 ==> t[0] != '0')
    ensures NumericLiteral(t) == UnsignedLiteral(t)
  {
  }

  lemma {:induction false} LiteralWithMinus(t: string)
    requires t != [] && t[0] == '-'
    ensures NumericLiteral(t) == Negate(UnsignedLiteral(t[1..]))
  {
  }

  /** White space before and after a literal does not change its value. */
  lemma {:induction false} SurroundingWhiteSpace(before: string, t: string, after: string)
    requires AllWhiteSpace(before) && AllWhiteSpace(after)
    requires t != [] && !IsStrWhiteSpace(t[0]) && !IsStrWhiteSpace(t[|t| - 1])
    ensures StringToNumber(before + t + after) == StringToNumber(t)
  {
    TrimStartSkips(before, t + after);
    assert before + t + after == before + (t + after);
    TrimEndSkips(t, after);
    assert TrimStart(t) == t;
    assert TrimEnd(t) == t;
  }

  lemma {:induction false} TrimStartSkips(w: string, s: string)
    requires AllWhiteSpace(w)
    requires s != [] && !IsStrWhiteSpace(s[0])
    ensures TrimStart(w + s) == s
  {
    if w != [] {
      assert (w + s)[1..] == w[1..] + s;
      TrimStartSkips(w[1..], s);
    } else {
      assert w + s == s;
    }
  }

  lemma {:induction false} TrimEndSkips(s: string, w: string)
    requires AllWhiteSpace(w)
    requires s != [] && !IsStrWhiteSpace(s[|s| - 1])
    ensures TrimEnd(s + w) == s
  {
    if w != [] {
      assert (s + w)[..|s + w| - 1] == s + w[..|w| - 1];
      TrimEndSkips(s, w[..|w| - 1]);
    } else {
      assert s + w == s;
    }
  }

  /** How the operands the library is given convert: booleans are 1 and
      0, null and the empty array are 0, undefined and objects are NaN, a
      one-element array converts like its element, and a longer array is
      NaN. */
  lemma ToNumberRules(n: Num, v: JsValue, vs: seq<JsValue>, m: map<string, JsValue>)
    requires |vs| >= 2
    ensures ToNumber(Number(n)) == n
    ensures ToNumber(Bool(true)) == Finite(1.0) && ToNumber(Bool(false)) == Finite(0.0)
    ensures ToNumber(Null) == Finite(0.0) && ToNumber(Undefined) == NaN
    ensures ToNumber(Array([])) == Finite(0.0) && ToNumber(Array(vs)) == NaN
    ensures ToNumber(Array([Number(n)])) == n
    ensures v.Str? || v.Array? ==> ToNumber(Array([v])) == ToNumber(v)
    ensures ToNumber(Record(m)) == NaN
  {
  }

  /** A decimal literal with a point and an exponent is worth its digits
      scaled by ten to the exponent less the number of fraction digits. */
  lemma {:induction false} PointAndExponent(whole: string, fraction: string, e: string)
    requires AllDigits(whole, 10) && AllDigits(fraction, 10) && |whole| + |fraction| > 0
    requires e != [] && AllDigits(e, 10)
    ensures UnsignedDecimal(whole + "." + fraction + "e" + e) ==
      Finite(Scaled(DigitsValue(whole + fraction, 10), DigitsValue(e, 10) - |fraction|))
  {
    var mantissa := whole + "." + fraction;
    var s := mantissa + "e" + e;
    ExponentSplit(whole, fraction, e);
    PointSplit(whole, fraction);
    assert s[..|mantissa|] == mantissa && s[|mantissa| + 1..] == e;
    assert mantissa[..|whole|] == whole && mantissa[|whole| + 1..] == fraction;
    assert e[0] != '+' && e[0] != '-' by {
      DecimalDigitChar(e[0]);
    }
  }

  /** The exponent letter of such a literal is the first `e` or `E`. */
  lemma {:induction false} ExponentSplit(whole: string, fraction: string, e: string)
    requires AllDigits(whole, 10) && AllDigits(fraction, 10)
    ensures Find(whole + "." + fraction + "e" + e, {'e', 'E'}) == |whole| + 1 + |fraction|
  {
    var mantissa := whole + "." + fraction;
    var s := mantissa + "e" + e;
    forall i | 0 <= i < |mantissa|
      ensures s[i] !in {'e', 'E'}
    {
      if i < |whole| {
        DecimalDigitChar(whole[i]);
      } else if i > |whole| {
        DecimalDigitChar(fraction[i - |whole| - 1]);
      }
    }
    assert s[|mantissa|] == 'e';
  }

  /** The point of such a literal is the first point. */
  lemma {:induction false} PointSplit(whole: string, fraction: string)
    requires AllDigits(whole, 10)
    ensures Find(whole + "." + fraction, {'.'}) == |whole|
  {
    var mantissa := whole + "." + fraction;
    forall i | 0 <= i < |whole|
      ensures mantissa[i] !in {'.'}
    {
      DecimalDigitChar(whole[i]);
    }
    assert mantissa[|whole|] == '.';
  }

  /** Some strings and what `Number` makes of them. */
  lemma StringExamples()
    ensures StringToNumber("3") == Finite(3.0)
    ensures StringToNumber("") == Finite(0.0) && StringToNumber(" \n") == Finite(0.0)
  {
    assert StringToNumber("3") == Finite(3.0) by {
      assert AllDigits("3", 10);
      assert DigitsValue("3", 10) == 3 by {
        assert "3"[..0] == [];
      }
      DigitsAreLiteral("3");
    }
    assert TrimStart(" \n") == [] by {
      assert " \n"[1..] == "\n" && "\n"[1..] == [];
    }
  }

  // ------------------------------------------------- compound assignments

  /** The four arithmetic compound assignments. */
  datatype Op = PlusAssign | MinusAssign | TimesAssign | DivideAssign

  /** `a op= b` with a number on the right. */
  function Apply(op: Op, a: Num, b: Num): Num {
    match op
    case PlusAssign => Plus(a, b)
    case MinusAssign => Minus(a, b)
    case TimesAssign => Times(a, b)
    case DivideAssign => Quotient(a, b)
  }

  /** What `ToPrimitive` (section 7.1.1 of ECMAScript) makes of an operand
      before an arithmetic operator applies. A primitive stays itself; an
      array becomes its `join(",")` and a plain object `"[object Object]"`,
      both strings. Of a string only the number its text converts to is
      kept, which is all the numeric operators read of it. */
  datatype Primitive =
    | PrimUndefined
    | PrimNull
    | PrimBool(b: bool)
    | PrimNumber(n: Num)
    | PrimString(asNumber: Num)

  function ToPrimitive(v: JsValue): Primitive {
    match v
    case Undefined => PrimUndefined
    case Null => PrimNull
    case Bool(b) => PrimBool(b)
    case Number(n) => PrimNumber(n)
    case Str(s) => PrimString(StringToNumber(s))
    case Array(_) => PrimString(ToNumber(v))
    case Record(_) => PrimString(NaN)
  }

  /** `ToNumber` of a primitive. */
  function PrimitiveToNumber(p: Primitive): Num {
    match p
    case PrimUndefined => NaN
    case PrimNull => Finite(0.0)
    case PrimBool(b) => Finite(if b then 1.0 else 0.0)
    case PrimNumber(n) => n
    case PrimString(n) => n
  }

  /** `l op r` as section 13.15.3 of ECMAScript evaluates it: both sides
      are made primitive; `+` with a string on either side concatenates,
      and the result is no number (`None`); otherwise both primitives are
      converted to numbers and the operation applies. */
  function BinaryOperator(op: Op, l: JsValue, r: JsValue): Option<Num> {
    var lp := ToPrimitive(l);
    var rp := ToPrimitive(r);
    if op == PlusAssign && (lp.PrimString? || rp.PrimString?) then None
    else Some(Apply(op, PrimitiveToNumber(lp), PrimitiveToNumber(rp)))
  }

  /** `ToNumber` of any value is `ToNumber` of its primitive. */
  lemma ToNumberThroughPrimitive(v: JsValue)
    ensures ToNumber(v) == PrimitiveToNumber(ToPrimitive(v))
  {
  }

  /** `a op= s` with an arbitrary value on the right. A string, an array
      or an object turns `+=` into string concatenation, which leaves a
      component that is not a number; otherwise, and always for `-=`, `*=`
      and `/=`, the operand is first converted by `ToNumber`. */
  function ApplyValue(op: Op, a: Num, s: JsValue): Num {
    if op == PlusAssign && (s.Str? || s.Array? || s.Record?) then NaN
    else Apply(op, a, ToNumber(s))
  }

  /** `a op= s` is the binary operator's result stored back: a number when
      the operator gives one, and no number (NaN) when `+` concatenates.
      NaN on either side gives NaN. */
  lemma ApplyValueIsBinaryOperator(op: Op, a: Num, s: JsValue)
    ensures BinaryOperator(op, Number(a), s).Some? ==> ApplyValue(op, a, s) == BinaryOperator(op, Number(a), s).value
    ensures BinaryOperator(op, Number(a), s).None? ==> ApplyValue(op, a, s) == NaN
    ensures a.NaN? || ToNumber(s).NaN? ==> ApplyValue(op, a, s) == NaN
  {
  }

  /** On finite numbers the four operations are those of the reals. */
  lemma FiniteArithmetic(p: real, q: real)
    ensures Plus(Finite(p), Finite(q)) == Finite(p + q)
    ensures Minus(Finite(p), Finite(q)) == Finite(p - q)
    ensures Times(Finite(p), Finite(q)) == Finite(p * q)
    ensures q != 0.0 ==> Quotient(Finite(p), Finite(q)) == Finite(p / q)
  {
  }

  /** Negation undoes itself, on every number. */
  lemma NegateInvolution(a: Num)
    ensures Negate(Negate(a)) == a
  {
  }

  /** Multiplying by -1 is negation, for every number. */
  lemma TimesMinusOne(a: Num)
    ensures Times(a, Finite(-1.0)) == Negate(a)
  {
    match a
    case Finite(r) =>
    case PosInf =>
    case NegInf =>
    case NaN =>
  }

  /** `k || 0` is `k` for every finite `k`, zero included. */
  lemma OrZeroKeepsNumber(k: real)
    ensures Or(Number(Finite(k)), 0.0) == Number(Finite(k))
  {
  }

  /** A non-zero square is positive. */
  lemma SquarePositive(a: real)
    requires a != 0.0
    ensures a * a > 0.0
  {
    if a > 0.0 {
      assert a * a > 0.0 * a;
    } else {
      assert (-a) * (-a) > 0.0 * (-a);
    }
  }

  /** A product of non-zero numbers is not zero. */
  lemma NonZeroProduct(a: real, b: real, p: real)
    requires a != 0.0 && b != 0.0 && p == a * b
    ensures p != 0.0
  {
    assert p / b == a;
  }

  /** A sum of two squares is never negative, and positive unless both are
      zero. */
  lemma SumOfSquares(a: real, b: real)
    ensures a * a + b * b >= 0.0
    ensures a != 0.0 || b != 0.0 ==> a * a + b * b > 0.0
  {
    if a != 0.0 {
      SquarePositive(a);
    } else {
      assert a * a == 0.0;
    }
    if b != 0.0 {
      SquarePositive(b);
    } else {
      assert b * b == 0.0;
    }
  }

  /** The same for three squares. */
  lemma SumOfSquares3(a: real, b: real, c: real)
    ensures a * a + b * b + c * c >= 0.0
    ensures a != 0.0 || b != 0.0 || c != 0.0 ==> a * a + b * b + c * c > 0.0
  {
    SumOfSquares(a, b);
    if c != 0.0 {
      SquarePositive(c);
    } else {
      assert c * c == 0.0;
    }
  }

  /** `a ** 2 + b ** 2` of two finite numbers is finite and never
      negative. */
  lemma SquaresOfFinite(a: Num, b: Num)
    requires a.Finite? && b.Finite?
    ensures Plus(Times(a, a), Times(b, b)) == Finite(a.r * a.r + b.r * b.r)
    ensures a.r * a.r + b.r * b.r >= 0.0
  {
    FiniteArithmetic(a.r, a.r);
    FiniteArithmetic(b.r, b.r);
    FiniteArithmetic(a.r * a.r, b.r * b.r);
    SumOfSquares(a.r, b.r);
  }

  /** `a ** 2 + b ** 2 + c ** 2` of finite numbers, in real arithmetic. */
  lemma SquaresOfFinite3(a: real, b: real, c: real)
    ensures Plus(Plus(Times(Finite(a), Finite(a)), Times(Finite(b), Finite(b))), Times(Finite(c), Finite(c))) ==
      Finite(a * a + b * b + c * c)
  {
    FiniteArithmetic(a, a);
    FiniteArithmetic(b, b);
    FiniteArithmetic(c, c);
    FiniteArithmetic(a * a, b * b);
    FiniteArithmetic(a * a + b * b, c * c);
  }

  /** `n ** 2` is finite exactly when `n` is, and never -Infinity. */
  lemma SquareKind(n: Num)
    ensures Times(n, n).Finite? <==> n.Finite?
    ensures !Times(n, n).NegInf?
  {
    match n
    case Finite(r) => FiniteArithmetic(r, r);
    case PosInf =>
    case NegInf =>
    case NaN =>
  }

  /** A sum of terms that are not -Infinity is not -Infinity either, and it
      is finite exactly when both terms are. */
  lemma SumKind(a: Num, b: Num)
    requires !a.NegInf? && !b.NegInf?
    ensures !Plus(a, b).NegInf?
    ensures Plus(a, b).Finite? <==> a.Finite? && b.Finite?
  {
  }

  /** Adding, subtracting or dividing by the neutral element changes nothing,
      whatever the component holds. */
  lemma NeutralOperand(a: Num)
    ensures Plus(a, Finite(0.0)) == a
    ensures Minus(a, Finite(0.0)) == a
    ensures Quotient(a, Finite(1.0)) == a
    ensures Times(a, Finite(1.0)) == a
  {
  }
}

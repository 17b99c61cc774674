/** The few pieces of JavaScript number and string formatting the core relies on:
    `${n}` for whole numbers, `String(n).padStart(2, "0")`, `s.slice(0, n)`,
    `Number(s)` on digit strings, and `Number(s)` on the text of a number field. */
module Text {

  import opened Types

  predicate IsDigit(c: char) {
    '0' <= c <= '9'
  }

  predicate AllDigits(s: string) {
    forall i :: 0 <= i < |s| ==> IsDigit(s[i])
  }

  function DigitValue(c: char): nat
    requires IsDigit(c)
  {
    c as int - '0' as int
  }

  function DigitChar(d: nat): (c: char)
    requires d < 10
    ensures IsDigit(c) && DigitValue(c) == d
  {
    ('0' as int + d) as char
  }

  /** Decimal text of a natural number, as `${n}` prints it. */
  function NatToString(n: nat): (s: string)
    ensures |s| >= 1 && AllDigits(s)
    ensures n < 10 <==> |s| == 1
    decreases n
  {
    if n < 10 then [DigitChar(n)] else NatToString(n / 10) + [DigitChar(n % 10)]
  }

  /** The value of a string of decimal digits (the empty string reads as 0). */
  function DigitsValue(s: string): nat
    requires AllDigits(s)
  {
    if s == [] then 0 else DigitsValue(s[..|s| - 1]) * 10 + DigitValue(s[|s| - 1])
  }

  /** Reading back the decimal text of `n` gives `n`. */
  lemma {:induction false} DigitsRoundTrip(n: nat)
    ensures DigitsValue(NatToString(n)) == n
    decreases n
  {
    if n >= 10 {
      var s := NatToString(n);
      var init := NatToString(n / 10);
      assert s == init + [DigitChar(n % 10)];
      assert s[..|s| - 1] == init;
      DigitsRoundTrip(n / 10);
    }
  }

  /** A leading zero does not change the value of a digit string. */
  lemma {:induction false} LeadingZero(s: string)
    requires AllDigits(s)
    ensures AllDigits("0" + s) && DigitsValue("0" + s) == DigitsValue(s)
    decreases |s|
  {
    if s != [] {
      var t := "0" + s;
      assert t[..|t| - 1] == "0" + s[..|s| - 1];
      LeadingZero(s[..|s| - 1]);
    }
  }

  /** `${i}` for a whole number. */
  function IntToString(i: int): (s: string)
    ensures |s| >= 1
    ensures i >= 0 ==> AllDigits(s)
  {
    if i < 0 then "-" + NatToString(-i) else NatToString(i)
  }

  /** `String(i).padStart(2, "0")`: one-character texts get a leading "0". */
  function PadStart2(i: int): (s: string)
    ensures |s| >= 2
    ensures |IntToString(i)| <= |s| && s[|s| - |IntToString(i)|..] == IntToString(i)
  {
    var t := IntToString(i);
    if |t| < 2 then "0" + t else t
  }

  /** The padded text of a natural number still reads back as that number. */
  lemma PadStart2RoundTrip(n: nat)
    ensures AllDigits(PadStart2(n)) && DigitsValue(PadStart2(n)) == n
  {
    var t := NatToString(n);
    DigitsRoundTrip(n);
    if |t| < 2 {
      LeadingZero(t);
    }
  }

  /** `s.slice(0, n)`: the first `n` characters, or all of `s` when it is shorter. */
  function Slice(s: string, n: nat): (r: string)
    ensures |r| == if |s| < n then |s| else n
    ensures r <= s
  {
    if |s| < n then s else s[..n]
  }

  /** `Number(s)` for the texts the core reads: "" is 0, a digit string is its value,
      anything else is NaN (None). */
  function NumberOf(s: string): (r: Option<nat>)
    ensures AllDigits(s) <==> r.Some?
    ensures r.Some? ==> r.value == DigitsValue(s)
  {
    if AllDigits(s) then Some(DigitsValue(s)) else None
  }

  /** `${Number(s)}`: the number's decimal text, or "NaN". */
  function NumberText(s: string): (r: string)
    ensures AllDigits(s) ==> r == NatToString(DigitsValue(s))
    ensures !AllDigits(s) ==> r == "NaN"
  {
    match NumberOf(s)
    case Some(n) => NatToString(n)
    case None => "NaN"
  }

  /** `10 ** n`. */
  function Pow10(n: nat): (r: nat)
    ensures r >= 1
  {
    if n == 0 then 1 else 10 * Pow10(n - 1)
  }

  /** `10 ** x` for any whole exponent. */
  function Scale(x: int): (r: real)
    ensures r > 0.0
  {
    if x >= 0 then Pow10(x) as real else 1.0 / Pow10(-x) as real
  }

  /** The position of the first character of `s` that is one of `marks`, or `|s|`. */
  function IndexOfAny(s: string, marks: set<char>): (i: nat)
    ensures i <= |s| && (i < |s| ==> s[i] in marks)
    ensures forall k :: 0 <= k < i ==> s[k] !in marks
  {
    if s == [] then 0
    else if s[0] in marks then 0
    else 1 + IndexOfAny(s[1..], marks)
  }

  /** In `a + b`, where `a` holds none of `marks`, the first mark is at `|a|`: the head
      of `b` when that is a mark, the end when `b` is empty. */
  lemma IndexOfAnyAt(a: string, b: string, marks: set<char>)
    requires forall k :: 0 <= k < |a| ==> a[k] !in marks
    requires b == [] || b[0] in marks
    ensures IndexOfAny(a + b, marks) == |a|
  {
    var s := a + b;
    assert forall k :: 0 <= k < |a| ==> s[k] == a[k];
    if b != [] {
      assert s[|a|] == b[0];
    }
  }

  /** A decimal number as it is written: the digits before and after the point, the
      power of ten, and the sign. */
  datatype Parts = Parts(negative: bool, whole: string, fraction: string, exponent: int)

  predicate DigitParts(p: Parts) {
    AllDigits(p.whole) && AllDigits(p.fraction)
  }

  /** `±(whole.fraction) × 10^exponent`, exactly. */
  function PartsValue(p: Parts): real
    requires DigitParts(p)
  {
    var m := (DigitsValue(p.whole) as real + FractionValue(p.fraction)) * Scale(p.exponent);
    if p.negative then -m else m
  }

  /** The value of the digits after a decimal point. */
  function FractionValue(f: string): (r: real)
    requires AllDigits(f)
    ensures r >= 0.0
    ensures f == [] ==> r == 0.0
  {
    DigitsValue(f) as real / Pow10(|f|) as real
  }

  /** The digits before and after an optional '.' (`1`, `1.5`, `.5`, `1.`), with at
      least one digit; None for anything else. */
  function MantissaParts(t: string): (r: Option<(string, string)>)
    ensures r.Some? ==> AllDigits(r.value.0) && AllDigits(r.value.1)
  {
    var d := IndexOfAny(t, {'.'});
    var whole := t[..d];
    var fraction := if d == |t| then "" else t[d + 1..];
    if AllDigits(whole) && AllDigits(fraction) && |whole| + |fraction| > 0
    then Some((whole, fraction))
    else None
  }

  /** An exponent after 'e' or 'E': an optional sign and at least one digit. */
  function ExponentValue(t: string): Option<int>
  {
    var digits := if t != [] && (t[0] == '+' || t[0] == '-') then t[1..] else t;
    if digits != [] && AllDigits(digits)
    then var v: int := DigitsValue(digits); Some(if t[0] == '-' then -v else v)
    else None
  }

  /** An unsigned decimal literal: a mantissa, then 'e' or 'E' and an exponent if
      there is one. */
  function UnsignedParse(body: string): (r: Option<(string, string, int)>)
    ensures r.Some? ==> AllDigits(r.value.0) && AllDigits(r.value.1)
  {
    var e := IndexOfAny(body, {'e', 'E'});
    var m := MantissaParts(body[..e]);
    var x := if e == |body| then Some(0) else ExponentValue(body[e + 1..]);
    if m.None? || x.None? then None else Some((m.value.0, m.value.1, x.value))
  }

  /** A decimal literal: an optional sign before an unsigned one. */
  function LiteralParse(s: string): (r: Option<Parts>)
    ensures r.Some? ==> DigitParts(r.value)
  {
    var body := if s != [] && (s[0] == '+' || s[0] == '-') then s[1..] else s;
    match UnsignedParse(body)
    case None => None
    case Some(u) => Some(Parts(s != [] && s[0] == '-', u.0, u.1, u.2))
  }

  /** `Number(s)` on the text a `<input type="number">` holds: "" reads as 0, a decimal
      literal (an optional sign, digits with an optional fraction, an optional
      exponent) as its value, and any other text as NaN (None). */
  function NumberField(s: string): (r: Option<real>)
    ensures s == [] ==> r == Some(0.0)
  {
    if s == [] then Some(0.0)
    else
      match LiteralParse(s)
      case None => None
      case Some(p) => Some(PartsValue(p))
  }

  datatype Sign = NoSign | Plus | Minus

  /** The exponent part of a literal: 'e' or 'E', a sign, and its digits. */
  datatype Exponent = Exponent(upper: bool, sign: Sign, digits: string)

  /** A decimal literal given by its parts: `-12.5e3` is
      `Literal(Minus, "12", Some("5"), Some(Exponent(false, NoSign, "3")))`. */
  datatype Literal = Literal(sign: Sign, whole: string, fraction: Option<string>, exponent: Option<Exponent>)

  /** Digits only, with at least one digit in the whole part or the fraction, and at
      least one in the exponent. */
  predicate WellFormed(l: Literal) {
    && AllDigits(l.whole)
    && (l.fraction.Some? ==> AllDigits(l.fraction.value))
    && (|l.whole| > 0 || (l.fraction.Some? && |l.fraction.value| > 0))
    && (l.exponent.Some? ==> l.exponent.value.digits != [] && AllDigits(l.exponent.value.digits))
  }

  function SignText(s: Sign): string {
    match s
    case NoSign => ""
    case Plus => "+"
    case Minus => "-"
  }

  function MantissaText(l: Literal): string {
    l.whole + (if l.fraction.Some? then "." + l.fraction.value else "")
  }

  function ExponentText(x: Option<Exponent>): string {
    if x.None? then "" else (if x.value.upper then "E" else "e") + SignText(x.value.sign) + x.value.digits
  }

  /** How the literal is written. */
  function LiteralText(l: Literal): string {
    SignText(l.sign) + MantissaText(l) + ExponentText(l.exponent)
  }

  function ExponentOf(x: Option<Exponent>): int
    requires x.Some? ==> AllDigits(x.value.digits)
  {
    if x.None? then 0
    else
      var v: int := DigitsValue(x.value.digits);
      if x.value.sign == Minus then -v else v
  }

  /** The parts a literal is made of. */
  function LiteralParts(l: Literal): (p: Parts)
    requires WellFormed(l)
    ensures DigitParts(p)
  {
    Parts(l.sign == Minus, l.whole, if l.fraction.Some? then l.fraction.value else "", ExponentOf(l.exponent))
  }

  /** What the literal stands for: sign × (whole + fraction) × 10^exponent. */
  function LiteralValue(l: Literal): real
    requires WellFormed(l)
  {
    PartsValue(LiteralParts(l))
  }

  /** The mantissa is digits and at most one '.', and is not empty. */
  lemma MantissaChars(l: Literal)
    requires WellFormed(l)
    ensures var mt := MantissaText(l);
            mt != [] && mt[0] != '+' && mt[0] != '-'
            && forall k :: 0 <= k < |mt| ==> mt[k] !in {'e', 'E'}
  {
    var mt := MantissaText(l);
    if l.fraction.Some? {
      var f := "." + l.fraction.value;
      assert forall k :: 0 <= k < |f| ==> f[k] == '.' || IsDigit(f[k]);
      assert forall k :: |l.whole| <= k < |mt| ==> mt[k] == f[k - |l.whole|];
    }
    assert forall k :: 0 <= k < |l.whole| ==> mt[k] == l.whole[k];
  }

  lemma MantissaReads(l: Literal)
    requires WellFormed(l)
    ensures MantissaParts(MantissaText(l)) == Some((l.whole, if l.fraction.Some? then l.fraction.value else ""))
  {
    var t := MantissaText(l);
    var rest := if l.fraction.Some? then "." + l.fraction.value else "";
    IndexOfAnyAt(l.whole, rest, {'.'});
    assert t[..|l.whole|] == l.whole;
    if l.fraction.Some? {
      assert t[|l.whole| + 1..] == l.fraction.value;
    }
  }

  lemma ExponentReads(x: Exponent)
    requires x.digits != [] && AllDigits(x.digits)
    ensures ExponentValue(SignText(x.sign) + x.digits) == Some(ExponentOf(Some(x)))
  {
    var t := SignText(x.sign) + x.digits;
    if x.sign == NoSign {
      assert t == x.digits;
    } else {
      assert t[1..] == x.digits;
    }
  }

  /** A mantissa without exponent marks, followed by nothing or by a mark and an
      exponent text, splits at that mark. */
  lemma UnsignedParseSplit(mt: string, mark: char, rest: string, marked: bool)
    requires forall k :: 0 <= k < |mt| ==> mt[k] !in {'e', 'E'}
    requires mark in {'e', 'E'}
    ensures var body := mt + (if marked then [mark] + rest else "");
            var m := MantissaParts(mt);
            var x := if marked then ExponentValue(rest) else Some(0);
            UnsignedParse(body) == if m.None? || x.None? then None else Some((m.value.0, m.value.1, x.value))
  {
    var tail := if marked then [mark] + rest else "";
    var body := mt + tail;
    IndexOfAnyAt(mt, tail, {'e', 'E'});
    assert body[..|mt|] == mt;
    if marked {
      assert body[|mt| + 1..] == rest;
    }
  }

  /** Parsing the unsigned part of a literal gives its digits and exponent. */
  lemma UnsignedReads(l: Literal)
    requires WellFormed(l)
    ensures UnsignedParse(MantissaText(l) + ExponentText(l.exponent))
            == Some((l.whole, if l.fraction.Some? then l.fraction.value else "", ExponentOf(l.exponent)))
  {
    MantissaChars(l);
    MantissaReads(l);
    if l.exponent.Some? {
      var x := l.exponent.value;
      var mark := if x.upper then 'E' else 'e';
      assert ExponentText(l.exponent) == [mark] + (SignText(x.sign) + x.digits);
      UnsignedParseSplit(MantissaText(l), mark, SignText(x.sign) + x.digits, true);
      ExponentReads(x);
    } else {
      UnsignedParseSplit(MantissaText(l), 'e', "", false);
      assert MantissaText(l) + ExponentText(l.exponent) == MantissaText(l) + "";
    }
  }

  /** A sign in front of an unsigned body is read off and the body is parsed alone. */
  lemma SignSplit(sign: Sign, body: string)
    requires body != [] && body[0] != '+' && body[0] != '-'
    ensures LiteralParse(SignText(sign) + body) ==
              match UnsignedParse(body)
              case None => None
              case Some(u) => Some(Parts(sign == Minus, u.0, u.1, u.2))
  {
    var s := SignText(sign) + body;
    if sign == NoSign {
      assert s == body;
    } else {
      assert s[0] == SignText(sign)[0] && s[1..] == body;
    }
  }

  /** Parsing the text of a literal gives back its parts. */
  lemma LiteralParseReads(l: Literal)
    requires WellFormed(l)
    ensures LiteralParse(LiteralText(l)) == Some(LiteralParts(l))
  {
    var body := MantissaText(l) + ExponentText(l.exponent);
    assert LiteralText(l) == SignText(l.sign) + body by {
      var a, b, c := SignText(l.sign), MantissaText(l), ExponentText(l.exponent);
      assert a + b + c == a + (b + c);
    }
    MantissaChars(l);
    SignSplit(l.sign, body);
    UnsignedReads(l);
  }

  /** Reading the text of a literal gives its value: `Number` reads exactly what a
      number field can hold. */
  lemma NumberFieldReadsLiteral(l: Literal)
    requires WellFormed(l)
    ensures NumberField(LiteralText(l)) == Some(LiteralValue(l))
  {
    LiteralParseReads(l);
    MantissaChars(l);
  }

  /** A whole number written without sign, point or exponent. */
  lemma WholeLiteral(sign: Sign, s: string)
    requires AllDigits(s) && s != []
    ensures WellFormed(Literal(sign, s, None, None))
    ensures LiteralText(Literal(sign, s, None, None)) == SignText(sign) + s
    ensures LiteralValue(Literal(sign, s, None, None)) == if sign == Minus then -(DigitsValue(s) as real) else DigitsValue(s) as real
  {
    assert MantissaText(Literal(sign, s, None, None)) == s + "" == s;
    assert FractionValue("") == 0.0 && Scale(0) == 1.0;
  }

  /** On a digit string the two readings of `Number` agree. */
  lemma NumberFieldOfDigits(s: string)
    requires AllDigits(s)
    ensures NumberField(s) == Some(DigitsValue(s) as real)
  {
    if s != [] {
      WholeLiteral(NoSign, s);
      assert SignText(NoSign) + s == s;
      NumberFieldReadsLiteral(Literal(NoSign, s, None, None));
    }
  }

  /** The literal that writes `-n`. */
  lemma NegativeLiteral(n: nat) returns (l: Literal)
    ensures WellFormed(l) && LiteralText(l) == "-" + NatToString(n) && LiteralValue(l) == -(n as real)
  {
    l := Literal(Minus, NatToString(n), None, None);
    WholeLiteral(Minus, NatToString(n));
    DigitsRoundTrip(n);
  }

  /** A minus sign in front of the decimal text of `n` reads as `-n`. */
  lemma NumberFieldNegative(n: nat)
    ensures NumberField("-" + NatToString(n)) == Some(-(n as real))
  {
    var l := NegativeLiteral(n);
    NumberFieldReadsLiteral(l);
  }

  /** A fraction after the point counts in tenths. */
  lemma NumberFieldFraction()
    ensures NumberField("12.5") == Some(12.5)
  {
    var l := Literal(NoSign, "12", Some("5"), None);
    assert WellFormed(l) && LiteralText(l) == "12.5";
    assert LiteralValue(l) == 12.5 by {
      assert "12"[..1] == "1" && DigitsValue("12") == 12;
      assert FractionValue("5") == 0.5 && Scale(0) == 1.0;
    }
    NumberFieldReadsLiteral(l);
  }

  /** The same above 100. */
  lemma NumberFieldLargeFraction()
    ensures NumberField("150.5") == Some(150.5)
  {
    var l := Literal(NoSign, "150", Some("5"), None);
    assert WellFormed(l) && LiteralText(l) == "150.5";
    assert LiteralValue(l) == 150.5 by {
      assert "150"[..2] == "15" && "15"[..1] == "1" && DigitsValue("150") == 150;
      assert FractionValue("5") == 0.5 && Scale(0) == 1.0;
    }
    NumberFieldReadsLiteral(l);
  }

  /** "1e3" is a thousand. */
  lemma NumberFieldExponent()
    ensures NumberField("1e3") == Some(1000.0)
  {
    var l := Literal(NoSign, "1", None, Some(Exponent(false, NoSign, "3")));
    assert WellFormed(l) && LiteralText(l) == "1e3";
    assert LiteralValue(l) == 1000.0 by {
      assert DigitsValue("1") == 1 && DigitsValue("3") == 3;
      assert FractionValue("") == 0.0 && Scale(3) == 1000.0;
    }
    NumberFieldReadsLiteral(l);
  }

  /** A lone sign and letters are NaN. */
  lemma NumberFieldNaN()
    ensures NumberField("-") == None && NumberField("abc") == None
  {
    assert "-"[1..] == "";
    assert IndexOfAny("", {'e', 'E'}) == 0;
    assert IndexOfAny("abc", {'e', 'E'}) == 3;
    assert "abc"[..3] == "abc";
    assert !IsDigit("abc"[0]);
  }
}

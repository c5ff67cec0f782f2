/**
  JavaScript numbers as the thali functions use them. A finite number is kept
  as an exact count of hundredths (a price of Rs.250 is `Finite(25000)`), so
  `toFixed(2)` is exact; NaN and the two infinities are kept as themselves,
  which is what `Number.isFinite` tells apart.

  The module gives the three conversions the source relies on:
  `toFixed(2)`, `String(number)` and `Number(string)`, and proves that
  `Number(string)` reads back what the other two write.
 */
module JsNumber {
  import opened Seqs
  import opened Text

  datatype Number = Finite(hundredths: int) | NaN | PosInfinity | NegInfinity

  // ------------------------------------------------------------ digit strings

  predicate IsDigit(c: char)
  {
    '0' <= c <= '9'
  }

  predicate AllDigits(s: string)
  {
    forall i :: 0 <= i < |s| ==> IsDigit(s[i])
  }

  function DigitChar(d: nat): (c: char)
    requires d < 10
    ensures IsDigit(c)
  {
    ('0' as int + d) as char
  }

  function DigitValue(c: char): (d: nat)
    requires IsDigit(c)
    ensures d < 10 && DigitChar(d) == c
  {
    c as int - '0' as int
  }

  /** The decimal numeral of `n`, without leading zeros. */
  function NatToString(n: nat): (s: string)
    ensures |s| >= 1 && AllDigits(s)
    ensures s[0] == '0' ==> n == 0
  {
    if n < 10 then [DigitChar(n)] else NatToString(n / 10) + [DigitChar(n % 10)]
  }

  /** The value of a numeral, most significant digit first. */
  function DigitsToNat(s: string): nat
    requires AllDigits(s)
  {
    if |s| == 0 then 0 else DigitsToNat(s[..|s| - 1]) * 10 + DigitValue(s[|s| - 1])
  }

  lemma {:induction false} NatToStringRoundTrip(n: nat)
    ensures DigitsToNat(NatToString(n)) == n
  {
    if n >= 10 {
      NatToStringRoundTrip(n / 10);
      var s := NatToString(n);
      assert s[..|s| - 1] == NatToString(n / 10);
    }
  }

  /** Two digits with a leading zero, as `toFixed(2)` writes the fraction. */
  function TwoDigits(k: nat): (s: string)
    requires k < 100
    ensures |s| == 2 && AllDigits(s)
  {
    [DigitChar(k / 10), DigitChar(k % 10)]
  }

  function Abs(x: int): nat
  {
    if x < 0 then -x else x
  }

  // ------------------------------------------------------------------ writing

  /**
    `toFixed(2)` of a value whose sign is `negative` and whose magnitude,
    already rounded to hundredths, is `m`: the sign is written whenever the
    value was negative, even when `m` is 0 (JavaScript writes "-0.00" for a
    small negative value).
   */
  function FixedText(negative: bool, m: nat): (s: string)
    ensures |s| >= 4 && s[|s| - 3] == '.' && IsDigit(s[|s| - 2]) && IsDigit(s[|s| - 1])
  {
    (if negative then "-" else "") + NatToString(m / 100) + "." + TwoDigits(m % 100)
  }

  /** `x.toFixed(2)` for a finite `x` given in hundredths. */
  function Fixed2(x: int): (s: string)
    ensures |s| >= 4 && s[|s| - 3] == '.' && IsDigit(s[|s| - 2]) && IsDigit(s[|s| - 1])
  {
    FixedText(x < 0, Abs(x))
  }

  /** `Number.prototype.toFixed(2)` on any number. */
  function ToFixed2(n: Number): string
  {
    match n
    case Finite(x) => Fixed2(x)
    case NaN => "NaN"
    case PosInfinity => "Infinity"
    case NegInfinity => "-Infinity"
  }

  /** The fraction digits `String(x)` writes for `f` hundredths: trailing zeros dropped. */
  function FractionDigits(f: nat): (s: string)
    requires 0 < f < 100
    ensures 1 <= |s| <= 2 && AllDigits(s)
  {
    if f % 10 == 0 then [DigitChar(f / 10)] else TwoDigits(f)
  }

  /** The fraction part `String(x)` writes: nothing for a whole number, else a point and digits. */
  function FractionText(f: nat): string
    requires f < 100
  {
    if f == 0 then "" else "." + FractionDigits(f)
  }

  /** `String(n)`: the shortest decimal form, without trailing zeros. */
  function NumberToString(n: Number): string
  {
    match n
    case Finite(x) => (if x < 0 then "-" else "") + NatToString(Abs(x) / 100) + FractionText(Abs(x) % 100)
    case NaN => "NaN"
    case PosInfinity => "Infinity"
    case NegInfinity => "-Infinity"
  }

  // ------------------------------------------------------------------ reading

  /** The index of the first `c` in `s`, or `|s|` when there is none. */
  function IndexOf(s: string, c: char): (k: nat)
    ensures k <= |s| && c !in s[..k]
    ensures k < |s| ==> s[k] == c
  {
    if |s| == 0 then 0
    else if s[0] == c then 0
    else
      var k := IndexOf(s[1..], c);
      assert s[..k + 1] == [s[0]] + s[1..][..k];
      k + 1
  }

  predicate AllZeros(s: string)
  {
    forall i :: 0 <= i < |s| ==> s[i] == '0'
  }

  /** The hundredths written by the first two fraction digits. */
  function FractionHundredths(frac: string): (h: nat)
    requires AllDigits(frac)
    ensures h < 100
  {
    if |frac| == 0 then 0
    else if |frac| == 1 then DigitValue(frac[0]) * 10
    else DigitValue(frac[0]) * 10 + DigitValue(frac[1])
  }

  /**
    An unsigned decimal literal (`12`, `12.5`, `.5`, `12.`) in hundredths.
    `None` when the text is not such a literal, and also when its value is not
    a whole number of hundredths, which this model cannot represent.
   */
  function DecimalHundredths(s: string): Option<nat>
  {
    var k := IndexOf(s, '.');
    if k < |s| then DecimalOf(s[..k], s[k + 1..]) else DecimalOf(s, "")
  }

  /** The literal whose digits before the point are `whole` and after it `frac`. */
  function DecimalOf(whole: string, frac: string): Option<nat>
  {
    if !AllDigits(whole) || !AllDigits(frac) || |whole| + |frac| == 0 then None
    else if |frac| > 2 && !AllZeros(frac[2..]) then None
    else Some(DigitsToNat(whole) * 100 + FractionHundredths(frac))
  }

  /**
    `Number(s)` for a string: surrounding white space is ignored, blank text is
    0, an optional sign may precede `Infinity` or a decimal literal, and
    anything else is NaN.
   */
  function StringToNumber(s: string): Number
  {
    var t := Trim(s);
    if t == "" then Finite(0)
    else
      var negative := t[0] == '-';
      var body := if t[0] == '-' || t[0] == '+' then t[1..] else t;
      if body == "Infinity" then (if negative then NegInfinity else PosInfinity)
      else match DecimalHundredths(body)
        case Some(m) => Finite(if negative then -(m as int) else m)
        case None => NaN
  }

  // --------------------------------------------------------------- round trips

  lemma {:induction false} IndexOfAfter(w: string, rest: string, c: char)
    requires c !in w
    ensures IndexOf(w + rest, c) == |w| + IndexOf(rest, c)
  {
    if |w| > 0 {
      assert (w + rest)[1..] == w[1..] + rest;
      IndexOfAfter(w[1..], rest, c);
    } else {
      assert w + rest == rest;
    }
  }

  lemma DigitsHaveNoPoint(w: string)
    requires AllDigits(w)
    ensures '.' !in w
  {
    assert forall i :: 0 <= i < |w| ==> w[i] != '.' by {
      forall i | 0 <= i < |w| ensures w[i] != '.' {
        assert IsDigit(w[i]);
      }
    }
  }

  lemma DecimalOfDigits(w: string, frac: string)
    requires |w| >= 1 && AllDigits(w) && AllDigits(frac) && |frac| <= 2
    ensures DecimalOf(w, frac) == Some(DigitsToNat(w) * 100 + FractionHundredths(frac))
  {
  }

  /** A numeral with an optional fraction of at most two digits reads back as its value. */
  lemma DecimalOfParts(w: string, frac: string, point: bool)
    requires |w| >= 1 && AllDigits(w) && AllDigits(frac) && |frac| <= 2
    requires !point ==> frac == ""
    ensures DecimalHundredths(w + (if point then "." + frac else "")) ==
            Some(DigitsToNat(w) * 100 + FractionHundredths(frac))
  {
    DigitsHaveNoPoint(w);
    DecimalOfDigits(w, frac);
    if point {
      DecimalWithPoint(w, frac);
    } else {
      IndexOfAfter(w, "", '.');
      assert w + "" == w;
    }
  }

  lemma DecimalWithPoint(w: string, frac: string)
    requires '.' !in w
    ensures DecimalHundredths(w + ("." + frac)) == DecimalOf(w, frac)
  {
    var rest := "." + frac;
    var s := w + rest;
    IndexOfAfter(w, rest, '.');
    assert IndexOf(rest, '.') == 0;
    assert s[..|w|] == w;
    assert s[|w| + 1..] == frac;
  }

  /** A signed numeral whose body starts with a digit is read as its decimal value. */
  lemma ParseSigned(negative: bool, body: string, m: nat)
    requires |body| >= 1 && IsDigit(body[0]) && IsDigit(body[|body| - 1])
    requires DecimalHundredths(body) == Some(m)
    ensures StringToNumber((if negative then "-" else "") + body) == Finite(if negative then -(m as int) else m)
  {
    var s := (if negative then "-" else "") + body;
    assert s[|s| - 1] == body[|body| - 1];
    TrimUnchanged(s);
    if negative {
      assert s[1..] == body;
    } else {
      assert s == body;
    }
    assert body != "Infinity" by { assert !IsDigit('I'); }
  }

  /** What `toFixed(2)` writes, `Number` reads back: the value rounded to hundredths. */
  lemma FixedTextRoundTrip(negative: bool, m: nat)
    ensures StringToNumber(FixedText(negative, m)) == Finite(if negative then -(m as int) else m)
  {
    var w := NatToString(m / 100);
    var f := TwoDigits(m % 100);
    var body := w + ("." + f);
    assert FixedText(negative, m) == (if negative then "-" else "") + body;
    DecimalOfParts(w, f, true);
    NatToStringRoundTrip(m / 100);
    ParseSigned(negative, body, m);
  }

  /** `Number(x.toFixed(2)) == x` for every finite `x` in hundredths. */
  lemma Fixed2RoundTrip(x: int)
    ensures StringToNumber(Fixed2(x)) == Finite(x)
  {
    FixedTextRoundTrip(x < 0, Abs(x));
  }

  lemma FractionDigitsRoundTrip(f: nat)
    requires 0 < f < 100
    ensures FractionHundredths(FractionDigits(f)) == f
  {
  }

  /** The text `String(x)` writes after the sign reads back as the magnitude. */
  lemma FiniteBodyValue(m: nat, body: string)
    requires body == NatToString(m / 100) + FractionText(m % 100)
    ensures DecimalHundredths(body) == Some(m)
    ensures |body| >= 1 && IsDigit(body[0]) && IsDigit(body[|body| - 1])
  {
    var w := NatToString(m / 100);
    var f := m % 100;
    NatToStringRoundTrip(m / 100);
    if f == 0 {
      assert body == w + "";
      DecimalOfParts(w, "", false);
    } else {
      var d := FractionDigits(f);
      assert body == w + ("." + d);
      assert IsDigit(d[|d| - 1]);
      FractionDigitsRoundTrip(f);
      DecimalOfParts(w, d, true);
    }
  }

  lemma FiniteToStringRoundTrip(x: int)
    ensures StringToNumber(NumberToString(Finite(x))) == Finite(x)
  {
    var m := Abs(x);
    var body := NatToString(m / 100) + FractionText(m % 100);
    FiniteBodyValue(m, body);
    FiniteText(x, body);
    ParseSigned(x < 0, body, m);
  }

  lemma FiniteText(x: int, body: string)
    requires body == NatToString(Abs(x) / 100) + FractionText(Abs(x) % 100)
    ensures NumberToString(Finite(x)) == (if x < 0 then "-" else "") + body
  {
  }

  lemma NaNTextReadsBack()
    ensures StringToNumber("NaN") == NaN
  {
    assert Trim("NaN") == "NaN" by { TrimUnchanged("NaN"); }
    assert IndexOf("NaN", '.') == 3;
    assert !IsDigit('N');
  }

  lemma InfinityTextReadsBack()
    ensures StringToNumber("Infinity") == PosInfinity
    ensures StringToNumber("-Infinity") == NegInfinity
  {
    TrimUnchanged("Infinity");
    TrimUnchanged("-Infinity");
    assert "-Infinity"[1..] == "Infinity";
  }

  /** `Number(String(n)) == n` for every number the model represents, NaN included. */
  lemma NumberToStringRoundTrip(n: Number)
    ensures StringToNumber(NumberToString(n)) == n
  {
    match n {
      case Finite(x) =>
        FiniteToStringRoundTrip(x);
      case NaN =>
        NaNTextReadsBack();
      case PosInfinity =>
        InfinityTextReadsBack();
      case NegInfinity =>
        InfinityTextReadsBack();
    }
  }
}

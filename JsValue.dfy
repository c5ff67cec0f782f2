/**
  The dynamically typed values the thali functions receive, and the
  host-language conversions they apply to them: property reads, the
  `typeof`/`Array.isArray` tests, `String(v)` as template literals use it,
  `Array.prototype.join`, and `Number(v)`.
 */
module JsValue {
  import opened Text
  import opened JsNumber

  /**
    A JavaScript value. A plain object keeps only the four properties the
    thali functions ever read; a property the object does not have is
    `Undefined`. `Other` stands for a value of any other kind (a function,
    say), together with the text `String()` gives for it.
   */
  datatype Value =
    | Undefined
    | Null
    | Bool(b: bool)
    | Num(n: Number)
    | Str(s: string)
    | Arr(elems: seq<Value>)
    | Obj(name: Value, items: Value, price: Value, isVeg: Value)
    | Other(text: string)

  /** `v !== null && typeof v === "object"`: plain objects and arrays. */
  predicate IsObject(v: Value)
  {
    v.Obj? || v.Arr?
  }

  /** `null` or `undefined`: the values whose property reads throw. */
  predicate IsNullish(v: Value)
  {
    v.Null? || v.Undefined?
  }

  /** `typeof v === "number" && Number.isFinite(v)`. */
  predicate IsFiniteNumber(v: Value)
  {
    v.Num? && v.n.Finite?
  }

  // Property reads `v?.name` and so on: a value that is not a plain object has
  // none of these properties.

  function NameOf(v: Value): Value
  {
    if v.Obj? then v.name else Undefined
  }

  function ItemsOf(v: Value): Value
  {
    if v.Obj? then v.items else Undefined
  }

  function PriceOf(v: Value): Value
  {
    if v.Obj? then v.price else Undefined
  }

  function IsVegOf(v: Value): Value
  {
    if v.Obj? then v.isVeg else Undefined
  }

  /**
    `String(v)`, as a template literal `${v}` writes it. An array writes its
    elements joined by commas, a plain object writes "[object Object]".
   */
  function ToString(v: Value): (r: string)
    ensures v.Str? ==> r == v.s
    ensures v.Num? ==> StringToNumber(r) == v.n
    ensures v.Arr? && v.elems == [] ==> r == ""
    ensures v.Obj? ==> r == "[object Object]"
    decreases v, 0
  {
    match v
    case Undefined => "undefined"
    case Null => "null"
    case Bool(b) => if b then "true" else "false"
    case Num(n) => NumberToStringRoundTrip(n); NumberToString(n)
    case Str(s) => s
    case Arr(es) => Join(seq(|es|, i requires 0 <= i < |es| => JoinText(es[i])), ",")
    case Obj(_, _, _, _) => "[object Object]"
    case Other(text) => text
  }

  /** How `Array.prototype.join` writes one element: `null` and `undefined` as nothing. */
  function JoinText(v: Value): string
    decreases v, 1
  {
    if IsNullish(v) then "" else ToString(v)
  }

  predicate AllStrings(es: seq<Value>)
  {
    forall i :: 0 <= i < |es| ==> es[i].Str?
  }

  function StringsOf(es: seq<Value>): (ss: seq<string>)
    requires AllStrings(es)
  {
    seq(|es|, i requires 0 <= i < |es| => es[i].s)
  }

  /**
    `es.join(sep)`: nothing for an empty array, and for an array of strings
    exactly the strings joined.
   */
  function JoinValues(es: seq<Value>, sep: string): (r: string)
    ensures es == [] ==> r == ""
    ensures AllStrings(es) ==> r == Join(StringsOf(es), sep)
  {
    var texts := seq(|es|, i requires 0 <= i < |es| => JoinText(es[i]));
    assert AllStrings(es) ==> texts == StringsOf(es);
    Join(texts, sep)
  }

  /**
    `Number(v)`: `undefined` is NaN, `null` and `false` are 0, `true` is 1, a
    string is parsed, and an array or object is first turned into its string.
   */
  function ToNumber(v: Value): (r: Number)
    ensures v.Undefined? ==> r == NaN
    ensures v.Null? || v == Bool(false) ==> r == Finite(0)
    ensures v == Bool(true) ==> r == Finite(100)
    ensures v.Num? ==> r == v.n
    ensures v.Str? ==> r == StringToNumber(v.s)
    ensures v.Arr? || v.Obj? || v.Other? ==> r == StringToNumber(ToString(v))
  {
    match v
    case Undefined => NaN
    case Null => Finite(0)
    case Bool(b) => Finite(if b then 100 else 0)
    case Num(n) => n
    case Str(s) => StringToNumber(s)
    case _ => StringToNumber(ToString(v))
  }

  /** A number survives `Number(String(v))`, and a string of a finite `toFixed(2)` reads back. */
  lemma ToNumberOfNumberText(n: Number)
    ensures ToNumber(Str(ToString(Num(n)))) == n
    ensures n.Finite? ==> ToNumber(Str(ToFixed2(n))) == n
  {
    NumberToStringRoundTrip(n);
    if n.Finite? {
      Fixed2RoundTrip(n.hundredths);
    }
  }
}

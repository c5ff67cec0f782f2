/**
  The thali combo platter functions: a one-line description of a thali, summary
  statistics over a list of thalis, a case-insensitive menu search, and a text
  receipt. Each one first checks the types of its arguments and returns a
  sentinel ("", null or []) when they are wrong, then makes one pass of
  filters, counts and string assembly.

  A thali is a plain object `{ name, items, price, isVeg }`; prices are in
  hundredths of a rupee (see module JsNumber).
 */
module ThaliCombo {
  import opened Seqs
  import opened Text
  import opened JsNumber
  import opened JsValue

  // ======================================================= createThaliDescription

  /**
    The checks of `createThaliDescription`: a non-null, non-array object whose
    name is a string, items an array, price a finite number and isVeg a boolean.
   */
  predicate IsValidThali(v: Value)
  {
    v.Obj? && v.name.Str? && v.items.Arr? && IsFiniteNumber(v.price) && v.isVeg.Bool?
  }

  function VegLabel(isVeg: bool): string
  {
    if isVeg then "Veg" else "Non-Veg"
  }

  /**
    `createThaliDescription(thali)`: "NAME (Veg) - Items: a, b - Rs.250.00", or
    "" when any check fails.
   */
  function CreateThaliDescription(thali: Value): (r: string)
    ensures r == "" <==> !IsValidThali(thali)
    ensures IsValidThali(thali) ==> StartsWith(r, Upper(thali.name.s) + " (" + VegLabel(thali.isVeg.b) + ") - Items: ")
    ensures IsValidThali(thali) ==> EndsWith(r, " - Rs." + Fixed2(thali.price.n.hundredths))
  {
    if !thali.Obj? then ""
    else if !thali.name.Str? then ""
    else if !thali.items.Arr? then ""
    else if !IsFiniteNumber(thali.price) then ""
    else if !thali.isVeg.Bool? then ""
    else
      var head := Upper(thali.name.s) + " (" + VegLabel(thali.isVeg.b) + ") - Items: ";
      var tail := " - Rs." + Fixed2(thali.price.n.hundredths);
      var r := head + JoinValues(thali.items.elems, ", ") + tail;
      assert r[..|head|] == head;
      assert r[|r| - |tail|..] == tail;
      r
  }

  /** On a valid thali the description is exactly the documented template. */
  lemma DescriptionText(thali: Value)
    requires IsValidThali(thali)
    ensures CreateThaliDescription(thali) ==
            Upper(thali.name.s) + " (" + VegLabel(thali.isVeg.b) + ") - Items: " +
            JoinValues(thali.items.elems, ", ") + " - Rs." + Fixed2(thali.price.n.hundredths)
  {
  }

  /** The label reads "Veg" exactly for a vegetarian thali. */
  lemma DescriptionLabel(thali: Value)
    requires IsValidThali(thali)
    ensures StartsWith(CreateThaliDescription(thali), Upper(thali.name.s) + " (Veg) ") <==> thali.isVeg.b
  {
    var r := CreateThaliDescription(thali);
    var u := Upper(thali.name.s);
    if thali.isVeg.b {
      VegPrefix(r, u);
    } else {
      NonVegPrefix(r, u);
    }
  }

  lemma VegPrefix(r: string, u: string)
    requires StartsWith(r, u + " (" + "Veg" + ") - Items: ")
    ensures StartsWith(r, u + " (Veg) ")
  {
    var head := u + " (" + "Veg" + ") - Items: ";
    var p := u + " (Veg) ";
    assert forall i :: 0 <= i < |u| ==> r[i] == head[i] == p[i];
    assert forall i :: |u| <= i < |p| ==> r[i] == head[i] == " (Veg) "[i - |u|];
    assert r[..|p|] == p;
  }

  lemma NonVegPrefix(r: string, u: string)
    requires StartsWith(r, u + " (" + "Non-Veg" + ") - Items: ")
    ensures !StartsWith(r, u + " (Veg) ")
  {
    var head := u + " (" + "Non-Veg" + ") - Items: ";
    assert r[|u| + 2] == head[|u| + 2] == 'N';
    assert (u + " (Veg) ")[|u| + 2] == 'V';
  }

  /** The description opens with the thali's name, differing from it only in letter case. */
  lemma DescriptionName(thali: Value)
    requires IsValidThali(thali)
    ensures Lower(CreateThaliDescription(thali)[..|thali.name.s|]) == Lower(thali.name.s)
  {
    var r := CreateThaliDescription(thali);
    var u := Upper(thali.name.s);
    assert r[..|u|] == u;
    LowerOfUpper(thali.name.s);
  }

  /** A text that ends in `marker + Fixed2(x)` has, right after the marker, a number reading back as `x`. */
  lemma PriceAfterMarker(r: string, marker: string, x: int)
    requires EndsWith(r, marker + Fixed2(x))
    ensures exists k :: 0 <= k <= |r| && EndsWith(r[..k], marker) && StringToNumber(r[k..]) == Finite(x)
  {
    var k := |r| - |Fixed2(x)|;
    var tail := marker + Fixed2(x);
    assert r[k..] == tail[|marker|..] == Fixed2(x);
    assert r[..k][k - |marker|..] == tail[..|marker|] == marker;
    Fixed2RoundTrip(x);
  }

  /** The number written after "Rs." is the thali's price. */
  lemma DescriptionPrice(thali: Value)
    requires IsValidThali(thali)
    ensures var r := CreateThaliDescription(thali);
            exists k :: 0 <= k <= |r| && EndsWith(r[..k], " - Rs.") && StringToNumber(r[k..]) == thali.price.n
  {
    PriceAfterMarker(CreateThaliDescription(thali), " - Rs.", thali.price.n.hundredths);
  }

  // Conversions of the literal values in the worked examples below, each proved apart.

  lemma ExampleName()
    ensures Upper("Rajasthani Thali") == "RAJASTHANI THALI"
  {
  }

  lemma ExampleCustomer()
    ensures Upper("Asha") == "ASHA" && Trim("Asha") == "Asha"
  {
  }

  lemma ExamplePrice()
    ensures Fixed2(25000) == "250.00"
  {
  }

  lemma ExampleItemsText()
    ensures JoinValues([Str("dal"), Str("churma")], ", ") == "dal, churma"
  {
    var es := [Str("dal"), Str("churma")];
    var texts := seq(|es|, i requires 0 <= i < |es| => JoinText(es[i]));
    assert texts[0] == "dal" && texts[1] == "churma";
    assert texts == ["dal", "churma"];
    assert texts[1..] == ["churma"];
    assert JoinValues(es, ", ") == Join(texts, ", ") == "dal, churma";
  }

  lemma DescriptionOfParts(thali: Value, n: string, it: seq<Value>, p: int, v: bool)
    requires thali == Obj(Str(n), Arr(it), Num(Finite(p)), Bool(v))
    ensures CreateThaliDescription(thali) ==
            Upper(n) + " (" + VegLabel(v) + ") - Items: " + JoinValues(it, ", ") + " - Rs." + Fixed2(p)
  {
    DescriptionText(thali);
  }

  /**
    The documented example: each placeholder of the template filled with the
    upper-cased name, the label, the joined items and the price to two places.
   */
  lemma DescriptionExample(thali: Value, n: string, it: seq<Value>)
    requires n == "Rajasthani Thali" && it == [Str("dal"), Str("churma")]
    requires thali == Obj(Str(n), Arr(it), Num(Finite(25000)), Bool(true))
    ensures CreateThaliDescription(thali) ==
            "RAJASTHANI THALI" + " (" + "Veg" + ") - Items: " + "dal, churma" + " - Rs." + "250.00"
  {
    DescriptionOfParts(thali, n, it, 25000, true);
    ExampleItemsText();
    ExampleName();
    ExamplePrice();
  }

  // ================================================================ getThaliStats

  datatype Stats = Stats(
    totalThalis: nat,
    vegCount: nat,
    nonVegCount: nat,
    avgPrice: string,
    cheapest: int,
    costliest: int,
    names: seq<string>)

  /** A truthy object whose isVeg is exactly `true`. */
  predicate IsVegThali(t: Value)
  {
    IsObject(t) && IsVegOf(t) == Bool(true)
  }

  /** A truthy object whose isVeg is exactly `false`. */
  predicate IsNonVegThali(t: Value)
  {
    IsObject(t) && IsVegOf(t) == Bool(false)
  }

  /** `t?.price` when it is a finite number. */
  function FinitePrice(t: Value): Option<int>
  {
    if IsFiniteNumber(PriceOf(t)) then Some(PriceOf(t).n.hundredths) else None
  }

  /** `t?.name` when it is a string. */
  function StringName(t: Value): Option<string>
  {
    if NameOf(t).Str? then Some(NameOf(t).s) else None
  }

  /** The price set: every finite-number price, in order. */
  function Prices(es: seq<Value>): seq<int>
  {
    Choose(es, FinitePrice)
  }

  /** Every string name, in order. */
  function Names(es: seq<Value>): seq<string>
  {
    Choose(es, StringName)
  }

  /** `cheapest` and `costliest` bound the price set and are attained; both are 0 for an empty set. */
  predicate PriceRange(ps: seq<int>, lo: int, hi: int)
  {
    (forall p :: p in ps ==> lo <= p <= hi) &&
    (ps == [] ==> lo == 0 && hi == 0) &&
    (ps != [] ==> lo in ps && hi in ps)
  }

  /** `m / n` rounded to the nearest whole number, ties upward, for `n > 0`. */
  function HalfUp(m: nat, n: nat): nat
    requires n > 0
  {
    (2 * m + n) / (2 * n)
  }

  /**
    The value `(sum / n).toFixed(2)` shows, in hundredths: `toFixed` takes the
    sign off, rounds the magnitude to the nearest hundredth (ties upward) and
    puts the sign back. 0 when there is nothing to average.
   */
  function RoundedMean(sum: int, n: nat): int
  {
    if n == 0 then 0 else if sum < 0 then -(HalfUp(-sum, n) as int) else HalfUp(sum, n)
  }

  /**
    `avgPriceNum.toFixed(2)`: the rounded mean written with a point and exactly
    two digits, which reads back as the rounded mean. A negative mean that
    rounds to zero keeps its sign, as "-0.00".
   */
  function MeanText(sum: int, n: nat): (r: string)
    ensures |r| >= 4 && r[|r| - 3] == '.' && IsDigit(r[|r| - 2]) && IsDigit(r[|r| - 1])
    ensures !(sum < 0 && RoundedMean(sum, n) == 0) ==> r == Fixed2(RoundedMean(sum, n))
    ensures r == FixedText(sum < 0 && n > 0, Abs(RoundedMean(sum, n)))
    ensures StringToNumber(r) == Finite(RoundedMean(sum, n))
  {
    if n == 0 then
      Fixed2RoundTrip(0);
      Fixed2(0)
    else
      var h := HalfUp(Abs(sum), n);
      assert RoundedMean(sum, n) == if sum < 0 then -(h as int) else h;
      SignedFixed(sum < 0, h);
      FixedTextRoundTrip(sum < 0, h);
      FixedText(sum < 0, h)
  }

  /** A signed magnitude other than minus zero is written as `toFixed(2)` of its value. */
  lemma SignedFixed(negative: bool, h: nat)
    ensures !(negative && h == 0) ==> FixedText(negative, h) == Fixed2(if negative then -(h as int) else h)
  {
  }

  lemma HalfUpBounds(m: nat, n: nat)
    requires n > 0
    ensures 2 * n * HalfUp(m, n) <= 2 * m + n < 2 * n * HalfUp(m, n) + 2 * n
  {
  }

  lemma MulCancel(a: int, b: int, c: int)
    requires c > 0 && a * c < b * c
    ensures a < b
  {
  }

  /** The rounded mean is within half a hundredth of the exact mean. */
  lemma RoundedMeanNearest(sum: int, n: nat)
    requires n > 0
    ensures -(n as int) <= 2 * (RoundedMean(sum, n) * n - sum) <= n
  {
    var m := Abs(sum);
    HalfUpBounds(m, n);
    var h := HalfUp(m, n);
    assert 2 * n * h == 2 * (h * n);
  }

  /** A mean of values in `[lo, hi]` rounds to a value in `[lo, hi]`. */
  lemma RoundedMeanBetween(sum: int, n: nat, lo: int, hi: int)
    requires n > 0 && lo * n <= sum <= hi * n
    ensures lo <= RoundedMean(sum, n) <= hi
  {
    var r := RoundedMean(sum, n);
    RoundedMeanNearest(sum, n);
    assert 2 * (r * n) <= 2 * (hi * n) + n;
    assert (hi + 1) * n == hi * n + n;
    MulCancel(r, hi + 1, n);
    assert 2 * (r * n) >= 2 * (lo * n) - n;
    assert (lo - 1) * n == lo * n - n;
    MulCancel(lo - 1, r, n);
  }

  /** The smallest price, or 0 when there are no prices. */
  function Cheapest(ps: seq<int>): int
  {
    if |ps| == 0 then 0 else Min(ps)
  }

  /** The largest price, or 0 when there are no prices. */
  function Costliest(ps: seq<int>): int
  {
    if |ps| == 0 then 0 else Max(ps)
  }

  /** The cheapest and costliest bound the price set, and the rounded mean lies between them. */
  lemma PriceSetFacts(ps: seq<int>)
    ensures PriceRange(ps, Cheapest(ps), Costliest(ps))
    ensures Cheapest(ps) * |ps| <= Sum(ps) <= Costliest(ps) * |ps|
    ensures Cheapest(ps) <= RoundedMean(Sum(ps), |ps|) <= Costliest(ps)
  {
    if |ps| > 0 {
      SumBounds(ps, Cheapest(ps), Costliest(ps));
      RoundedMeanBetween(Sum(ps), |ps|, Cheapest(ps), Costliest(ps));
    }
  }

  /** `getThaliStats(thalis)`: null for a non-array or empty array, else the summary. */
  function GetThaliStats(thalis: Value): (r: Option<Stats>)
    ensures r.None? <==> !thalis.Arr? || |thalis.elems| == 0
    ensures r.Some? ==> r.value.totalThalis == |thalis.elems|
    ensures r.Some? ==> r.value.vegCount == |Filter(thalis.elems, IsVegThali)| &&
                        r.value.nonVegCount == |Filter(thalis.elems, IsNonVegThali)|
    ensures r.Some? ==> r.value.names == Names(thalis.elems)
    ensures r.Some? ==> r.value.avgPrice == MeanText(Sum(Prices(thalis.elems)), |Prices(thalis.elems)|)
    ensures r.Some? ==> var a := r.value.avgPrice;
                        |a| >= 4 && a[|a| - 3] == '.' && IsDigit(a[|a| - 2]) && IsDigit(a[|a| - 1])
    ensures r.Some? ==> r.value.vegCount + r.value.nonVegCount <= r.value.totalThalis
    ensures r.Some? ==> PriceRange(Prices(thalis.elems), r.value.cheapest, r.value.costliest)
    ensures r.Some? ==> var ps := Prices(thalis.elems);
                        StringToNumber(r.value.avgPrice) == Finite(RoundedMean(Sum(ps), |ps|)) &&
                        r.value.cheapest <= RoundedMean(Sum(ps), |ps|) <= r.value.costliest
    ensures r.Some? ==> var ps := Prices(thalis.elems);
                        r.value.cheapest * |ps| <= Sum(ps) <= r.value.costliest * |ps|
  {
    if !thalis.Arr? || |thalis.elems| == 0 then None
    else
      var es := thalis.elems;
      var vegCount := |Filter(es, IsVegThali)|;
      var nonVegCount := |Filter(es, IsNonVegThali)|;
      var prices := Prices(es);
      FilterDisjointCounts(es, IsVegThali, IsNonVegThali);
      PriceSetFacts(prices);
      Some(Stats(|es|, vegCount, nonVegCount, MeanText(Sum(prices), |prices|),
                 Cheapest(prices), Costliest(prices), Names(es)))
  }

  /** A price is in the price set exactly when some element carries it as a finite number. */
  lemma PricesMembership(es: seq<Value>, p: int)
    ensures p in Prices(es) <==> exists t :: t in es && PriceOf(t) == Num(Finite(p))
  {
    ChooseMembership(es, FinitePrice, p);
    assert forall t :: FinitePrice(t) == Some(p) <==> PriceOf(t) == Num(Finite(p));
  }

  /** `names` lists the string names, in the order of the elements. */
  lemma NamesInOrder(a: seq<Value>, b: seq<Value>, t: Value)
    ensures Names(a + b) == Names(a) + Names(b)
    ensures Names([t]) == if NameOf(t).Str? then [NameOf(t).s] else []
  {
    ChooseConcat(a, b, StringName);
  }

  lemma NamesMembership(es: seq<Value>, n: string)
    ensures n in Names(es) <==> exists t :: t in es && NameOf(t) == Str(n)
  {
    ChooseMembership(es, StringName, n);
    assert forall t :: StringName(t) == Some(n) <==> NameOf(t) == Str(n);
  }

  /** The mean of the worked example below: Rs.300 over two prices. */
  lemma ExampleMean()
    ensures MeanText(30000, 2) == "150.00"
  {
    assert Abs(30000) == 30000 && HalfUp(30000, 2) == 15000;
    ExampleMeanDigits(15000);
  }

  // The worked examples in this module pass their literals through parameters
  // pinned by `requires`: stated that way, each proof stays small for the solver.

  lemma ExampleMeanDigits(m: nat)
    requires m == 15000
    ensures FixedText(false, m) == "150.00"
  {
    assert NatToString(150) == "150" && TwoDigits(0) == "00";
    assert FixedText(false, m) == "" + "150" + "." + "00";
  }

  lemma ExamplePriceList(ps: seq<int>)
    requires ps == [10000, 20000]
    ensures Sum(ps) == 30000 && Cheapest(ps) == 10000 && Costliest(ps) == 20000
  {
    assert ps[1..] == [20000];
    assert Sum(ps[1..]) == 20000;
    assert Min(ps[1..]) == 20000 && Max(ps[1..]) == 20000;
  }

  lemma ExampleStatsLists(es: seq<Value>, a: Value, b: Value)
    requires a == Obj(Str("A"), Arr([]), Num(Finite(10000)), Bool(true))
    requires b == Obj(Str("B"), Arr([]), Num(Finite(20000)), Bool(false))
    requires es == [a, b]
    ensures Prices(es) == [10000, 20000] && Names(es) == ["A", "B"]
  {
    assert es[1..] == [b] && [b][1..] == [];
    assert FinitePrice(a) == Some(10000) && FinitePrice(b) == Some(20000);
    assert Choose([b], FinitePrice) == [20000];
    assert StringName(a) == Some("A") && StringName(b) == Some("B");
    assert Choose([b], StringName) == ["B"];
  }

  lemma ExampleStatsCounts(es: seq<Value>, a: Value, b: Value)
    requires a == Obj(Str("A"), Arr([]), Num(Finite(10000)), Bool(true))
    requires b == Obj(Str("B"), Arr([]), Num(Finite(20000)), Bool(false))
    requires es == [a, b]
    ensures Filter(es, IsVegThali) == [a] && Filter(es, IsNonVegThali) == [b]
  {
    assert es[1..] == [b] && [b][1..] == [];
    assert IsVegThali(a) && !IsVegThali(b);
    assert !IsNonVegThali(a) && IsNonVegThali(b);
  }

  /** Two thalis, one of each kind, priced 100 and 200. */
  lemma StatsExample(thalis: Value, a: Value, b: Value)
    requires a == Obj(Str("A"), Arr([]), Num(Finite(10000)), Bool(true))
    requires b == Obj(Str("B"), Arr([]), Num(Finite(20000)), Bool(false))
    requires thalis == Arr([a, b])
    ensures GetThaliStats(thalis) == Some(Stats(2, 1, 1, "150.00", 10000, 20000, ["A", "B"]))
  {
    var es := [a, b];
    ExampleStatsLists(es, a, b);
    ExampleStatsCounts(es, a, b);
    ExamplePriceList(Prices(es));
    ExampleMean();
  }

  // ============================================================== searchThaliMenu

  /** Some item is a string whose lower-cased text contains `q`; items of other kinds never match. */
  function ItemsInclude(items: seq<Value>, q: string): (r: bool)
    ensures r <==> exists i :: 0 <= i < |items| && items[i].Str? && Includes(Lower(items[i].s), q)
  {
    if |items| == 0 then false
    else
      var rest := ItemsInclude(items[1..], q);
      assert rest <==> exists i :: 1 <= i < |items| && items[i].Str? && Includes(Lower(items[i].s), q) by {
        forall i | 1 <= i < |items| ensures items[i] == items[1..][i - 1] { }
      }
      (items[0].Str? && Includes(Lower(items[0].s), q)) || rest
  }


  /** `query` occurs in `text` when letter case is ignored. */
  ghost predicate ContainsIgnoringCase(text: string, query: string)
  {
    exists i :: OccursAt(Lower(text), Lower(query), i)
  }

  /** An object whose string name or one of whose string items contains the query, ignoring case. */
  ghost predicate Mentions(t: Value, query: string)
  {
    IsObject(t) &&
    ((NameOf(t).Str? && ContainsIgnoringCase(NameOf(t).s, query)) ||
     (ItemsOf(t).Arr? && exists item :: item in ItemsOf(t).elems && item.Str? && ContainsIgnoringCase(item.s, query)))
  }

  /**
    The filter callback of `searchThaliMenu`, for a query `q` already
    lower-cased: it accepts exactly the objects that mention `q`.
   */
  function MatchesQuery(t: Value, q: string): (r: bool)
    ensures Lower(q) == q ==> (r <==> Mentions(t, q))
  {
    var name := if NameOf(t).Str? then NameOf(t).s else "";
    var items := if ItemsOf(t).Arr? then ItemsOf(t).elems else [];
    IncludesSpec(Lower(name), q);
    ItemsIncludeSpec(items, q);
    IsObject(t) &&
    ((NameOf(t).Str? && Includes(Lower(NameOf(t).s), q)) ||
     (ItemsOf(t).Arr? && ItemsInclude(ItemsOf(t).elems, q)))
  }

  lemma {:induction false} ItemsIncludeSpec(items: seq<Value>, query: string)
    ensures ItemsInclude(items, Lower(query)) <==>
            exists item :: item in items && item.Str? && ContainsIgnoringCase(item.s, query)
  {
    if |items| > 0 {
      ItemsIncludeSpec(items[1..], query);
      if items[0].Str? {
        IncludesSpec(Lower(items[0].s), Lower(query));
      }
      assert forall item :: item in items <==> item == items[0] || item in items[1..];
    }
  }

  /** The callback, given the lower-cased query, accepts exactly the elements that mention it. */
  lemma MatchesIffMentions(t: Value, query: string)
    ensures MatchesQuery(t, Lower(query)) <==> Mentions(t, query)
  {
    if NameOf(t).Str? {
      IncludesSpec(Lower(NameOf(t).s), Lower(query));
    }
    if ItemsOf(t).Arr? {
      ItemsIncludeSpec(ItemsOf(t).elems, query);
    }
  }

  /** `searchThaliMenu(thalis, query)`. */
  function SearchThaliMenu(thalis: Value, query: Value): (r: seq<Value>)
    ensures !thalis.Arr? || !query.Str? ==> r == []
    ensures thalis.Arr? && query.Str? ==> IsSubsequence(r, thalis.elems)
    ensures thalis.Arr? && query.Str? ==>
              forall i :: 0 <= i < |r| ==> r[i] in thalis.elems && Mentions(r[i], query.s)
    ensures thalis.Arr? && query.Str? ==>
              forall i :: 0 <= i < |thalis.elems| && Mentions(thalis.elems[i], query.s) ==> thalis.elems[i] in r
  {
    if !thalis.Arr? || !query.Str? then []
    else
      var q := Lower(query.s);
      var r := Filter(thalis.elems, t => MatchesQuery(t, q));
      FilterIsSubsequence(thalis.elems, t => MatchesQuery(t, q));
      assert forall t :: MatchesQuery(t, q) <==> Mentions(t, query.s) by {
        forall t ensures MatchesQuery(t, q) <==> Mentions(t, query.s) {
          MatchesIffMentions(t, query.s);
        }
      }
      r
  }

  /** Two queries that differ only in letter case find the same thalis. */
  lemma SearchIgnoresCase(thalis: Value, q1: string, q2: string)
    requires Lower(q1) == Lower(q2)
    ensures SearchThaliMenu(thalis, Str(q1)) == SearchThaliMenu(thalis, Str(q2))
  {
  }

  /** Searching for "DAL" and for "dal" gives identical results. */
  lemma SearchUpperQuery(thalis: Value, q: string)
    ensures SearchThaliMenu(thalis, Str(Upper(q))) == SearchThaliMenu(thalis, Str(q))
  {
    LowerOfUpper(q);
    SearchIgnoresCase(thalis, Upper(q), q);
  }

  /** Searching a concatenation searches each part, so matches keep their order. */
  lemma SearchConcat(a: seq<Value>, b: seq<Value>, q: string)
    ensures SearchThaliMenu(Arr(a + b), Str(q)) == SearchThaliMenu(Arr(a), Str(q)) + SearchThaliMenu(Arr(b), Str(q))
  {
    var lq := Lower(q);
    FilterConcat(a, b, t => MatchesQuery(t, lq));
  }

  // ========================================================== generateThaliReceipt

  /** The checks of `generateThaliReceipt`: a non-blank string name and a non-empty array. */
  predicate ReceiptAccepted(customerName: Value, thalis: Value)
  {
    customerName.Str? && Trim(customerName.s) != "" && thalis.Arr? && |thalis.elems| > 0
  }

  /** Reading `t.name` throws for null and undefined, so every element must be neither. */
  predicate NoNullish(es: seq<Value>)
  {
    forall i :: 0 <= i < |es| ==> !IsNullish(es[i])
  }

  /**
    One receipt line: the name, then the marker " x Rs.", then the price
    converted to a number and shown with two decimals. A finite-number price
    reads back from the end of the line.
   */
  function LineItem(t: Value): (r: string)
    requires !IsNullish(t)
    ensures StartsWith(r, "- " + ToString(NameOf(t)) + " x Rs.")
    ensures IsFiniteNumber(PriceOf(t)) ==>
              var f := Fixed2(PriceOf(t).n.hundredths);
              |f| <= |r| && StringToNumber(r[|r| - |f|..]) == PriceOf(t).n
    ensures IsFiniteNumber(PriceOf(t)) ==> EndsWith(r, " x Rs." + Fixed2(PriceOf(t).n.hundredths))
  {
    var head := "- " + ToString(NameOf(t)) + " x Rs.";
    var price := ToFixed2(ToNumber(PriceOf(t)));
    assert (head + price)[..|head|] == head;
    assert (head + price)[|head + price| - |price|..] == price;
    assert (head + price)[|head + price| - |" x Rs." + price|..] == " x Rs." + price;
    if IsFiniteNumber(PriceOf(t)) then
      Fixed2RoundTrip(PriceOf(t).n.hundredths);
      head + price
    else
      head + price
  }

  function LineItems(es: seq<Value>): (lines: seq<string>)
    requires NoNullish(es)
    ensures |lines| == |es|
  {
    seq(|es|, i requires 0 <= i < |es| => LineItem(es[i]))
  }

  /** A finite-number price contributes itself to the total, anything else 0. */
  function PriceOrZero(t: Value): int
  {
    match FinitePrice(t) case Some(p) => p case None => 0
  }

  lemma {:induction false} SumAppend(xs: seq<int>, x: int)
    ensures Sum(xs + [x]) == Sum(xs) + x
  {
    if xs != [] {
      assert (xs + [x])[1..] == xs[1..] + [x];
      SumAppend(xs[1..], x);
    } else {
      assert xs + [x] == [x];
    }
  }

  /** Appending an element adds its finite price, or nothing, to the sum of the price set. */
  lemma PriceSumAppend(init: seq<Value>, last: Value)
    ensures Sum(Prices(init + [last])) == Sum(Prices(init)) + PriceOrZero(last)
  {
    ChooseConcat(init, [last], FinitePrice);
    assert [last][1..] == [];
    match FinitePrice(last) {
      case Some(p) =>
        assert Prices([last]) == [p];
        SumAppend(Prices(init), p);
      case None =>
        assert Prices([last]) == [];
        assert Prices(init) + [] == Prices(init);
    }
  }

  /**
    The running total of the receipt, a left fold over the elements. Only
    finite-number prices are added, so the total is the sum of the price set.
   */
  function ReceiptTotal(es: seq<Value>): (r: int)
    ensures r == Sum(Prices(es))
  {
    if es == [] then 0
    else
      var init := es[..|es| - 1];
      var last := es[|es| - 1];
      assert es == init + [last];
      PriceSumAppend(init, last);
      ReceiptTotal(init) + PriceOrZero(last)
  }

  function ReceiptHeader(customer: string): seq<string>
  {
    ["THALI RECEIPT", "---", "Customer: " + Upper(customer)]
  }

  function ReceiptFooter(es: seq<Value>): seq<string>
  {
    ["---", "Total: Rs." + Fixed2(ReceiptTotal(es)), "Items: " + NatToString(|es|)]
  }

  /** `generateThaliReceipt(customerName, thalis)`. */
  function GenerateThaliReceipt(customerName: Value, thalis: Value): (r: string)
    requires ReceiptAccepted(customerName, thalis) ==> NoNullish(thalis.elems)
    ensures r == "" <==> !customerName.Str? || IsBlank(customerName.s) || !thalis.Arr? || |thalis.elems| == 0
    ensures ReceiptAccepted(customerName, thalis) ==>
              StartsWith(r, "THALI RECEIPT\n---\nCustomer: " + Upper(customerName.s) + "\n")
    ensures ReceiptAccepted(customerName, thalis) ==>
              EndsWith(r, "\nItems: " + NatToString(|thalis.elems|))
  {
    TrimEmptyIffBlank(if customerName.Str? then customerName.s else "");
    if !customerName.Str? || Trim(customerName.s) == "" then ""
    else if !thalis.Arr? || |thalis.elems| == 0 then ""
    else
      var es := thalis.elems;
      var head := "THALI RECEIPT\n---\nCustomer: " + Upper(customerName.s) + "\n";
      var tail := "\nItems: " + NatToString(|es|);
      ReceiptEnds(head, Join(LineItems(es), "\n"), "\n---\nTotal: Rs.", Fixed2(ReceiptTotal(es)), tail);
      head + Join(LineItems(es), "\n") + "\n---\nTotal: Rs." + Fixed2(ReceiptTotal(es)) + tail
  }

  lemma ReceiptEnds(head: string, body: string, marker: string, total: string, tail: string)
    ensures StartsWith(head + body + marker + total + tail, head)
    ensures EndsWith(head + body + marker + total + tail, tail)
  {
    var r := head + body + marker + total + tail;
    assert r[..|head|] == head;
    assert r[|r| - |tail|..] == tail;
  }

  /** On accepted input the receipt is exactly the documented template. */
  lemma ReceiptText(customerName: Value, thalis: Value)
    requires ReceiptAccepted(customerName, thalis) && NoNullish(thalis.elems)
    ensures GenerateThaliReceipt(customerName, thalis) ==
            "THALI RECEIPT\n---\nCustomer: " + Upper(customerName.s) + "\n" + Join(LineItems(thalis.elems), "\n") +
            "\n---\nTotal: Rs." + Fixed2(ReceiptTotal(thalis.elems)) + "\nItems: " + NatToString(|thalis.elems|)
  {
  }

  /** The receipt template, written as its lines joined by newlines. */
  lemma ReceiptTemplateLines(u: string, body: string, total: string, count: string)
    ensures "THALI RECEIPT\n---\nCustomer: " + u + "\n" + body + "\n---\nTotal: Rs." + total + "\nItems: " + count ==
            Join(["THALI RECEIPT", "---", "Customer: " + u], "\n") + "\n" + body + "\n" +
            Join(["---", "Total: Rs." + total, "Items: " + count], "\n")
  {
    JoinThree("THALI RECEIPT", "---", "Customer: " + u, "\n");
    JoinThree("---", "Total: Rs." + total, "Items: " + count, "\n");
    TemplateLiterals();
  }

  lemma TemplateLiterals()
    ensures "THALI RECEIPT\n---\nCustomer: " == "THALI RECEIPT" + "\n" + "---" + "\n" + "Customer: "
    ensures "\n---\nTotal: Rs." == "\n" + "---" + "\n" + "Total: Rs."
    ensures "\nItems: " == "\n" + "Items: "
  {
  }

  /** The receipt is its header lines, one line per element, and its footer lines, joined by newlines. */
  lemma ReceiptIsLines(customerName: Value, thalis: Value)
    requires ReceiptAccepted(customerName, thalis) && NoNullish(thalis.elems)
    ensures GenerateThaliReceipt(customerName, thalis) ==
            Join(ReceiptHeader(customerName.s) + LineItems(thalis.elems) + ReceiptFooter(thalis.elems), "\n")
  {
    var es := thalis.elems;
    var h := ReceiptHeader(customerName.s);
    var ls := LineItems(es);
    var f := ReceiptFooter(es);
    JoinAppend(h, ls, "\n");
    JoinAppend(h + ls, f, "\n");
    ReceiptTemplateLines(Upper(customerName.s), Join(ls, "\n"), Fixed2(ReceiptTotal(es)), NatToString(|es|));
  }

  /**
    When no name holds a newline, reading the receipt back line by line gives
    exactly the header, one line per element, and the footer.
   */
  lemma ReceiptLines(customerName: Value, thalis: Value)
    requires ReceiptAccepted(customerName, thalis) && NoNullish(thalis.elems)
    requires '\n' !in customerName.s
    requires forall i :: 0 <= i < |thalis.elems| ==> '\n' !in ToString(NameOf(thalis.elems[i]))
    ensures Split(GenerateThaliReceipt(customerName, thalis), '\n') ==
            ReceiptHeader(customerName.s) + LineItems(thalis.elems) + ReceiptFooter(thalis.elems)
    ensures |Split(GenerateThaliReceipt(customerName, thalis), '\n')| == |thalis.elems| + 6
  {
    ReceiptIsLines(customerName, thalis);
    var lines := ReceiptHeader(customerName.s) + LineItems(thalis.elems) + ReceiptFooter(thalis.elems);
    ReceiptLinesHaveNoNewline(customerName.s, thalis.elems);
    SplitJoin(lines, '\n');
  }

  lemma HeaderHasNoNewline(customer: string)
    requires '\n' !in customer
    ensures forall i :: 0 <= i < 3 ==> '\n' !in ReceiptHeader(customer)[i]
  {
    UpperKeepsNonLetter(customer, '\n');
    var line := "Customer: " + Upper(customer);
    assert forall i :: 0 <= i < |line| ==> line[i] != '\n' by {
      assert forall i :: 0 <= i < 10 ==> line[i] == "Customer: "[i];
      assert forall i :: 10 <= i < |line| ==> line[i] == Upper(customer)[i - 10];
    }
  }

  lemma FooterHasNoNewline(es: seq<Value>)
    ensures forall i :: 0 <= i < 3 ==> '\n' !in ReceiptFooter(es)[i]
  {
    var total := "Total: Rs." + Fixed2(ReceiptTotal(es));
    var count := "Items: " + NatToString(|es|);
    assert forall i :: 0 <= i < |total| ==> total[i] != '\n' by {
      var f := Fixed2(ReceiptTotal(es));
      assert forall i :: 0 <= i < 10 ==> total[i] == "Total: Rs."[i];
      FixedHasNoNewline(ReceiptTotal(es));
      assert forall i :: 10 <= i < |total| ==> total[i] == f[i - 10];
    }
    assert forall i :: 0 <= i < |count| ==> count[i] != '\n' by {
      var d := NatToString(|es|);
      assert forall i :: 0 <= i < 7 ==> count[i] == "Items: "[i];
      assert forall i :: 7 <= i < |count| ==> count[i] == d[i - 7] && IsDigit(d[i - 7]);
    }
  }

  lemma LineItemHasNoNewline(t: Value)
    requires !IsNullish(t) && '\n' !in ToString(NameOf(t))
    ensures '\n' !in LineItem(t)
  {
    var n := ToString(NameOf(t));
    var p := ToFixed2(ToNumber(PriceOf(t)));
    assert '\n' !in p by {
      match ToNumber(PriceOf(t)) {
        case Finite(x) => FixedHasNoNewline(x);
        case NaN =>
        case PosInfinity =>
        case NegInfinity =>
      }
    }
    assert '\n' !in "- " && '\n' !in " x Rs.";
    assert LineItem(t) == "- " + n + " x Rs." + p;
  }

  lemma FixedHasNoNewline(x: int)
    ensures '\n' !in Fixed2(x)
  {
    var w := NatToString(Abs(x) / 100);
    var t := TwoDigits(Abs(x) % 100);
    var sign := if x < 0 then "-" else "";
    assert Fixed2(x) == sign + w + "." + t;
    assert forall i :: 0 <= i < |w| ==> IsDigit(w[i]);
    assert forall i :: 0 <= i < |t| ==> IsDigit(t[i]);
  }

  lemma ReceiptLinesHaveNoNewline(customer: string, es: seq<Value>)
    requires NoNullish(es)
    requires '\n' !in customer
    requires forall i :: 0 <= i < |es| ==> '\n' !in ToString(NameOf(es[i]))
    ensures var lines := ReceiptHeader(customer) + LineItems(es) + ReceiptFooter(es);
            forall i :: 0 <= i < |lines| ==> '\n' !in lines[i]
  {
    var h := ReceiptHeader(customer);
    var ls := LineItems(es);
    var f := ReceiptFooter(es);
    HeaderHasNoNewline(customer);
    FooterHasNoNewline(es);
    forall i | 0 <= i < |es| ensures '\n' !in ls[i] {
      LineItemHasNoNewline(es[i]);
    }
    assert forall i :: 0 <= i < |h| ==> '\n' !in h[i];
    assert forall i :: 0 <= i < |ls| ==> '\n' !in ls[i];
    assert forall i :: 0 <= i < |f| ==> '\n' !in f[i];
  }

  /** A line for an element with a finite price shows that price, and it reads back. */
  lemma LineItemPrice(t: Value)
    requires !IsNullish(t) && IsFiniteNumber(PriceOf(t))
    ensures exists k :: 0 <= k <= |LineItem(t)| && EndsWith(LineItem(t)[..k], " x Rs.") &&
                        StringToNumber(LineItem(t)[k..]) == PriceOf(t).n
  {
    var x := PriceOf(t).n.hundredths;
    var head := "- " + ToString(NameOf(t));
    var tail := " x Rs." + Fixed2(x);
    LineItemParts(t, head, tail);
    EndsWithAppend(head, tail);
    PriceAfterMarker(head + tail, " x Rs.", x);
  }

  lemma LineItemParts(t: Value, head: string, tail: string)
    requires !IsNullish(t) && IsFiniteNumber(PriceOf(t))
    requires head == "- " + ToString(NameOf(t)) && tail == " x Rs." + Fixed2(PriceOf(t).n.hundredths)
    ensures LineItem(t) == head + tail
  {
  }


  /** The total line shows the sum of the finite prices, and it reads back. */
  lemma ReceiptTotalLine(customerName: Value, thalis: Value)
    requires ReceiptAccepted(customerName, thalis) && NoNullish(thalis.elems)
    ensures ReceiptFooter(thalis.elems)[1] == "Total: Rs." + Fixed2(Sum(Prices(thalis.elems)))
    ensures StringToNumber(Fixed2(ReceiptTotal(thalis.elems))) == Finite(Sum(Prices(thalis.elems)))
  {
    Fixed2RoundTrip(ReceiptTotal(thalis.elems));
  }

  /** The worked example: one Rajasthani thali for Asha. */
  lemma ExampleTotal(t: Value, es: seq<Value>)
    requires t == Obj(Str("Rajasthani Thali"), Arr([Str("dal")]), Num(Finite(25000)), Bool(true))
    requires es == [t]
    ensures ReceiptTotal(es) == 25000
  {
    assert es[..0] == [];
    assert PriceOrZero(t) == 25000;
  }

  lemma ExampleFooter(t: Value, es: seq<Value>)
    requires t == Obj(Str("Rajasthani Thali"), Arr([Str("dal")]), Num(Finite(25000)), Bool(true))
    requires es == [t]
    ensures ReceiptFooter(es) == ["---", "Total: Rs." + "250.00", "Items: " + "1"]
  {
    ExampleTotal(t, es);
    ExamplePrice();
    assert NatToString(|es|) == "1";
  }

  lemma ExampleHeader(c: string)
    requires c == "Asha"
    ensures ReceiptHeader(c) == ["THALI RECEIPT", "---", "Customer: " + "ASHA"]
  {
    ExampleCustomer();
  }

  lemma ExampleLine(t: Value, n: string)
    requires n == "Rajasthani Thali"
    requires t == Obj(Str(n), Arr([Str("dal")]), Num(Finite(25000)), Bool(true))
    ensures NoNullish([t]) && LineItems([t]) == ["- " + "Rajasthani Thali" + " x Rs." + "250.00"]
  {
    ExamplePrice();
    assert LineItems([t])[0] == LineItem(t);
  }

  lemma ExampleLines(c: string, t: Value, n: string)
    requires c == "Asha" && n == "Rajasthani Thali"
    requires t == Obj(Str(n), Arr([Str("dal")]), Num(Finite(25000)), Bool(true))
    ensures NoNullish([t])
    ensures ReceiptHeader(c) + LineItems([t]) + ReceiptFooter([t]) ==
            ["THALI RECEIPT", "---", "Customer: " + "ASHA",
             "- " + "Rajasthani Thali" + " x Rs." + "250.00",
             "---", "Total: Rs." + "250.00", "Items: " + "1"]
  {
    ExampleHeader(c);
    ExampleLine(t, n);
    ExampleFooter(t, [t]);
  }

  /** The receipt for one customer and one thali, read back line by line. */
  lemma ReceiptExample(customerName: Value, t: Value, thalis: Value, c: string, n: string)
    requires c == "Asha" && customerName == Str(c)
    requires n == "Rajasthani Thali"
    requires t == Obj(Str(n), Arr([Str("dal")]), Num(Finite(25000)), Bool(true))
    requires thalis == Arr([t])
    ensures Split(GenerateThaliReceipt(customerName, thalis), '\n') ==
            ["THALI RECEIPT", "---", "Customer: " + "ASHA",
             "- " + "Rajasthani Thali" + " x Rs." + "250.00",
             "---", "Total: Rs." + "250.00", "Items: " + "1"]
  {
    ExampleCustomer();
    ExampleLines(c, t, n);
    assert '\n' !in c && '\n' !in n;
    ReceiptLines(customerName, thalis);
  }
}

# Thali combo platter, modelled in Dafny

This project models the four functions of the thali combo platter module
(`src/12-thali-combo.js`):

- `createThaliDescription(thali)` checks the type of each field of a thali
  record `{ name, items, price, isVeg }`. It returns `""` when a check
  fails. Otherwise it returns the one-line description
  `"NAME (Veg) - Items: a, b - Rs.250.00"`.
- `getThaliStats(thalis)` returns `null` for a non-array or an empty array.
  Otherwise it returns:
  - the total count;
  - the veg and non-veg counts;
  - the mean of the finite-number prices, written to two places;
  - the cheapest and costliest price;
  - the string names, in order.
- `searchThaliMenu(thalis, query)` keeps the thalis whose string name, or one
  of whose string items, contains the query. Letter case is ignored.
- `generateThaliReceipt(customerName, thalis)` builds a multi-line receipt.
  It has a header with the upper-cased customer name, one line per thali, the
  total of the finite prices and the item count.

All four are pure, so the model is written as Dafny functions over sequences,
with lemmas.

Files:

- `JsValue.dfy` models the dynamically typed arguments.
  - A `Value` is one of: `undefined`, `null`, a boolean, a number, a string,
    an array, a plain object that keeps the four thali properties, or another
    kind of value.
  - It also holds the conversions the functions apply: property reads,
    `String(v)`, `Array.prototype.join` and `Number(v)`.
- `JsNumber.dfy` keeps a finite number as a whole count of hundredths. It
  models `toFixed(2)`, `String(n)` and `Number(s)`, and proves that each
  written form reads back.
- `Text.dfy` models ASCII case mapping, `includes`, `trim` and `join`. It
  also has a `split` used to read a receipt back line by line.
- `Seqs.dfy` models `filter`, `map` followed by `filter` (`Choose`), the sum,
  and `Math.min` / `Math.max`.
- `ThaliCombo.dfy` models the four functions and the properties proved about
  them.

`generateThaliReceipt` reads `t.name` on every element, so it throws a
`TypeError` for a `null` or `undefined` element. `GenerateThaliReceipt`
therefore requires that no element is nullish once the argument checks have
passed.

`createThaliDescription` checks only that `items` is an array and ignores
any other properties of the record, and so does the model.

## Model

| member | source | states |
|---|---|---|
| ThaliCombo.CreateThaliDescription | src/12-thali-combo.js:55-70 | The result is `""` exactly when one of the checks fails: not a plain object, name not a string, items not an array, price not a finite number, isVeg not a boolean. A valid thali's description starts with the upper-cased name, the label and " - Items: ", and ends with " - Rs." and the price to two places. |
| ThaliCombo.DescriptionText | src/12-thali-combo.js:66-69 | For a valid thali, the description is exactly the template, with the upper-cased name, the label, the items joined by ", " and the price to two places. |
| ThaliCombo.DescriptionLabel | src/12-thali-combo.js:66-67 | The description starts with `NAME (Veg) ` exactly when isVeg is true. Otherwise the label is "Non-Veg". |
| ThaliCombo.DescriptionName | src/12-thali-combo.js:67 | The name part of the description differs from the name only in letter case. |
| ThaliCombo.DescriptionPrice | src/12-thali-combo.js:67-69 | The text after " - Rs." reads back through `Number()` as the thali's price. |
| ThaliCombo.DescriptionExample | src/12-thali-combo.js:24-25 | The documented example gives "RAJASTHANI THALI", "Veg", "dal, churma" and "250.00" in the template. |
| ThaliCombo.GetThaliStats | src/12-thali-combo.js:72-104 | The result is null exactly for a non-array or an empty array. `totalThalis` is the length, malformed elements included. `vegCount` and `nonVegCount` are the numbers of elements that pass the veg and non-veg filters, and together they are at most `totalThalis`. `names` is the list of string names in element order. `avgPrice` is the two-decimal text of the mean of the price set, with a point followed by exactly two digits. `cheapest` and `costliest` bound every finite price and are attained, and both are 0 when there is none. The exact mean lies between them, and so does the value `avgPrice` reads back as. |
| ThaliCombo.PriceSetFacts | src/12-thali-combo.js:81-89 | For any price set: the min/max bounds, that the sum lies between `cheapest * n` and `costliest * n`, and that the rounded mean lies between the bounds. |
| ThaliCombo.MeanText | src/12-thali-combo.js:99 | The text of `avgPriceNum.toFixed(2)` has a point followed by exactly two digits. It is `toFixed(2)` of the rounded mean, except that a negative mean rounding to zero keeps its sign ("-0.00"). It reads back through `Number()` as the mean rounded to the nearest hundredth, with ties going away from zero, and as 0 when there are no prices. |
| ThaliCombo.RoundedMeanNearest | src/12-thali-combo.js:99 | The rounded mean is within half a hundredth of the exact mean `sum / n`. |
| ThaliCombo.RoundedMeanBetween | src/12-thali-combo.js:85-89 | A mean of values in `[lo, hi]` still lies in `[lo, hi]` after rounding. |
| ThaliCombo.PricesMembership | src/12-thali-combo.js:81-83 | A value is in the price set exactly when some element's price is that finite number. |
| ThaliCombo.NamesInOrder | src/12-thali-combo.js:91-93 | The names of a concatenation are the names of each part, in order. An element adds its name exactly when the name is a string. |
| ThaliCombo.NamesMembership | src/12-thali-combo.js:91-93 | A string is among the names exactly when some element has that string as its name. |
| ThaliCombo.StatsExample | src/12-thali-combo.js:72-104 | For a veg thali at Rs.100 and a non-veg one at Rs.200: total 2, counts 1 and 1, average "150.00", cheapest 10000 and costliest 20000 hundredths (Rs.100 and Rs.200), names ["A", "B"]. |
| ThaliCombo.ItemsInclude | src/12-thali-combo.js:119-121 | The `items.some(...)` test holds exactly when some item at some index is a string whose lower-cased text contains the lower-cased query. |
| ThaliCombo.MatchesQuery | src/12-thali-combo.js:113-124 | For a query already in lower case, the filter callback accepts an element exactly when it mentions the query: it is an object whose string name, or one of whose string items, contains the query, ignoring case. |
| ThaliCombo.ItemsIncludeSpec | src/12-thali-combo.js:119-121 | The `items.some(...)` test holds exactly when some string item contains the query, ignoring case. |
| ThaliCombo.MatchesIffMentions | src/12-thali-combo.js:113-124 | The filter callback accepts an element exactly when it is an object whose string name, or one of whose string items, contains the query, ignoring case. |
| ThaliCombo.SearchThaliMenu | src/12-thali-combo.js:106-125 | The result is `[]` for a non-array or a non-string query. Otherwise it is a subsequence of the input. Every element in it mentions the query, and every element of the input that mentions the query is in it. |
| ThaliCombo.SearchIgnoresCase | src/12-thali-combo.js:111 | Two queries with the same lower-case form give identical results. |
| ThaliCombo.SearchUpperQuery | src/12-thali-combo.js:111 | Searching for the upper-cased query gives the same result as the query itself. |
| ThaliCombo.SearchConcat | src/12-thali-combo.js:113-124 | Searching a concatenation is searching each part and concatenating, so the order of matches is kept. |
| ThaliCombo.GenerateThaliReceipt | src/12-thali-combo.js:127-147 | The result is `""` exactly when the name is not a string, the name is blank, or `thalis` is not a non-empty array. Otherwise it starts with "THALI RECEIPT\n---\nCustomer: " and the upper-cased name, and ends with "\nItems: " and the element count. |
| ThaliCombo.ReceiptText | src/12-thali-combo.js:140-146 | For accepted input, the receipt is exactly the template: header, the lines joined by newlines, the total to two places, and the count. |
| ThaliCombo.ReceiptIsLines | src/12-thali-combo.js:133-146 | The receipt is its three header lines, one line per element and its three footer lines, joined by "\n". |
| ThaliCombo.ReceiptLines | src/12-thali-combo.js:133-146 | When no name holds a newline, splitting the receipt at "\n" gives exactly the header, one line per element with none filtered out, and the footer. That is `|thalis| + 6` lines. |
| ThaliCombo.LineItem | src/12-thali-combo.js:133 | A line starts with "- ", the name's text and " x Rs.". When the price is a finite number, the line ends with " x Rs." and that price to two places, and the price text reads back as the price. |
| ThaliCombo.LineItemHasNoNewline | src/12-thali-combo.js:133 | A line item holds a newline only if the thali's name text does. |
| ThaliCombo.LineItemPrice | src/12-thali-combo.js:133 | On a line item whose price is a finite number, the text after " x Rs." reads back as that price. |
| ThaliCombo.ReceiptTotal | src/12-thali-combo.js:135-138 | The left-fold total equals the sum of the finite-number prices. Other elements contribute 0. |
| ThaliCombo.PriceSumAppend | src/12-thali-combo.js:135-138 | One more element adds its price to the sum when the price is a finite number, and 0 otherwise. |
| ThaliCombo.ReceiptTotalLine | src/12-thali-combo.js:135-145 | The "Total" line shows the sum of the finite-number prices, and it reads back as that sum. |
| ThaliCombo.ReceiptExample | src/12-thali-combo.js:127-147 | Customer "Asha" and one Rajasthani thali at Rs.250 give seven lines. The lines are the header with "ASHA", "- Rajasthani Thali x Rs.250.00", "Total: Rs.250.00" and "Items: 1". |
| Text.LowerOfUpper | src/12-thali-combo.js:111 | Upper-casing loses only case: the lower-case form of the upper-cased text is the lower-case form of the text. |
| Text.UpperIsUpper | src/12-thali-combo.js:67 | An upper-cased text has no lower-case ASCII letter, and upper-casing twice is upper-casing once. |
| Text.UpperKeepsNonLetter | src/12-thali-combo.js:142 | A character other than an ASCII letter occurs in the upper-cased text exactly when it occurs in the text. |
| Text.IncludesSpec | src/12-thali-combo.js:117 | `includes` holds exactly when the needle occurs at some position. |
| Text.TrimEmptyIffBlank | src/12-thali-combo.js:130 | `trim()` gives "" exactly when every character is white space. |
| Text.TrimUnchanged | src/12-thali-combo.js:130 | A text with no white space at either end trims to itself. |
| Text.JoinThree | src/12-thali-combo.js:140-146 | Joining three pieces puts the separator between each neighbouring pair. |
| Text.JoinAppend | src/12-thali-combo.js:133 | Joining two non-empty lists is joining each and putting the separator between. |
| Text.SplitJoin | src/12-thali-combo.js:133 | Splitting a join at a separator that no piece holds gives the pieces back. |
| Text.JoinSplit | src/12-thali-combo.js:133 | Joining the pieces of a split with the same character restores the text, and no piece holds the separator. |
| JsNumber.NatToString | src/12-thali-combo.js:146 | A whole number is written as digits with no leading zero. |
| JsNumber.NatToStringRoundTrip | src/12-thali-combo.js:146 | The digits of a whole number read back as that number. |
| JsNumber.Fixed2 | src/12-thali-combo.js:67-69 | `toFixed(2)` ends with a point and exactly two digits. |
| JsNumber.Fixed2RoundTrip | src/12-thali-combo.js:67-69 | `Number(x.toFixed(2)) == x` for every finite `x` in hundredths. |
| JsNumber.FixedTextRoundTrip | src/12-thali-combo.js:99 | A signed magnitude written to two places reads back as that signed value, including "-0.00". |
| JsNumber.NumberToStringRoundTrip | src/12-thali-combo.js:133 | `Number(String(n)) == n` for every modelled number, including NaN and the infinities. |
| JsValue.ToNumberOfNumberText | src/12-thali-combo.js:133 | `Number()` of a number's text gives the number back. For a finite number, `Number()` of its `toFixed(2)` text does too. |
| JsValue.ToString | src/12-thali-combo.js:133 | `String(v)` of a string is the string itself. Of a number it is a text that `Number()` reads back as that number. Of an empty array it is "", and of a plain object it is "[object Object]". |
| JsValue.ToNumber | src/12-thali-combo.js:133 | `Number(v)` is NaN for `undefined`, 0 for `null` and `false`, 1 for `true`, the number itself for a number, and the parse of the text for a string. An array or object is first turned into its string. |
| JsValue.JoinValues | src/12-thali-combo.js:67 | Joining an empty array gives "". An array of strings joins exactly as the strings themselves do. |
| Seqs.Filter | src/12-thali-combo.js:78-79 | The kept elements all come from the input and satisfy the predicate, and every input element that satisfies it is kept. |
| Seqs.FilterMultiset | src/12-thali-combo.js:78-79 | A filter keeps every copy of each element that satisfies the predicate and no copy of any other, so the counts are the numbers of satisfying elements. |
| Seqs.FilterSingleton | src/12-thali-combo.js:78-79 | On one element, the filter keeps the element exactly when it satisfies the predicate, so it counts 1 or 0. |
| Seqs.FilterIsSubsequence | src/12-thali-combo.js:113 | A filter's result is a subsequence of its input. |
| Seqs.FilterConcat | src/12-thali-combo.js:113 | Filtering distributes over concatenation. |
| Seqs.FilterDisjointCounts | src/12-thali-combo.js:78-79 | Two filters whose predicates never hold together keep at most as many elements, in total, as the input has. |
| Seqs.ChooseMembership | src/12-thali-combo.js:81-83 | A value is chosen exactly when some input element maps to it. |
| Seqs.ChooseConcat | src/12-thali-combo.js:91-93 | Mapping and filtering distribute over concatenation. |
| Seqs.Min | src/12-thali-combo.js:88 | `Math.min` of a non-empty list is one of its elements and at most every element. |
| Seqs.Max | src/12-thali-combo.js:89 | `Math.max` of a non-empty list is one of its elements and at least every element. |
| Seqs.SumBounds | src/12-thali-combo.js:86 | When every element lies in `[lo, hi]`, the sum lies in `[lo * n, hi * n]`. |

## Left out

- Floating point. Numbers are exact counts of hundredths. The model does not capture the IEEE-754 rounding of the price sum, of the division that gives the mean, or of `toFixed` on binary fractions. It also leaves out `-0`.
- Numbers that are not a whole number of hundredths (a price of 0.005, say) are outside the model.
- `toFixed` and `String(n)` write exponential notation for magnitudes of 1e21 and above. The model always writes the plain decimal form.
- `Number(s)` parsing of exponents and of hexadecimal, binary and octal literals. The model yields NaN for these texts, and also for a decimal with a non-zero digit after the second fraction digit (`"0.005"`, say), whose value is not a whole number of hundredths.
- `toUpperCase`, `toLowerCase` and `includes` are modelled on ASCII letters only. Unicode case mapping, which can change a text's length, is not modelled. `trim` uses the full ECMAScript white-space and line-terminator set, compared by code point.
- Property reads see only the four thali properties of a plain object. Getters, prototypes, symbols and other properties are not modelled. Another kind of value, such as a function, is given only by its `String()` text.
- Object identity. The search result holds the same element references as the input, but the model compares elements by value.
- GenerateThaliReceipt: the `TypeError` thrown for a `null` or `undefined` element is not modelled. The model's precondition excludes such an element instead.
- GetThaliStats: `Math.min(...prices)` and `Math.max(...prices)` throw a `RangeError` when the price list is longer than the engine allows for call arguments. The model has no such limit and always returns the bounds.

# Restaurant menu store

This models the in-memory restaurant-menu store of a single-screen React Native app (`App.tsx`) and proves properties of it. The app keeps a form (dish name, description, course, price text) and an ordered list of dishes. It supports four operations:

- **"Add Dish"** validates the form. It checks, in order, that the trimmed name is non-empty, that the trimmed description is non-empty, and that `parseFloat` of the price text is a number above zero. On success it appends a dish built from the trimmed texts, the selected course and the parsed price, then resets the form.
- **"Remove"** (after confirmation) keeps only the dishes whose id differs from the given one.
- **The summary** shows the number of dishes.
- **It also shows the average price** of each course, or `-` when the course has no dishes.

Layout, one module per file:

- `wrappers.dfy`: `Option`, standing for JavaScript's NaN and for the `-` "no data" marker.
- `text.dfy` (`Text`): `String.prototype.trim`. White space is the WhiteSpace and LineTerminator code points of sections 12.2 and 12.3 of ECMA-262.
- `number_parse.dfy` (`NumberParse`): `parseFloat` (section 19.2.4 of ECMA-262) on finite decimal literals, computed exactly as a `real`.
  - Leading white space is skipped.
  - The longest prefix `[sign] digits [. digits] [(e|E)[sign] digits]` with at least one mantissa digit is read, and the rest is ignored.
  - No such prefix gives `None`.
- `menu.dfy` (`Menu`):
  - the `MenuItem` record and the `Course` enumeration;
  - the validation of the form (`Validate`);
  - the remove filter (`WithoutId`);
  - the stateful component as `class App`, whose fields are the form fields and `menuItems`. `HandleAddItem` and `RemoveItem` are methods that update those fields.
- `aggregate.dfy` (`Aggregate`): `totalItems` and `getAverage` as pure functions over the list.

Prices are exact `real`s. The id of a new dish (`Date.now()` in the app) is a parameter of `HandleAddItem`. The model never assumes ids are unique. Where uniqueness matters, it appears as a hypothesis of the lemma that needs it.

## Model

| member | source | states |
|---|---|---|
| Menu.Validate | App.tsx:32-44 | The checks run in order. An empty trimmed name gives MissingName. An empty trimmed description (with a valid name) gives MissingDescription. A price that is NaN or ≤ 0 (with both texts valid) gives InvalidPrice. When all three checks pass the dish is added. An added dish has the caller's id, the trimmed name and description, the selected course and the parsed price, and it is well formed (non-empty trimmed texts, positive price). |
| Menu.AcceptablePrice | App.tsx:36 | The price test, with no contract of its own: parseFloat gave a number (not NaN) and it is above zero. Its consequences for typed prices are stated by NumeralPriceAccepted and MinusPriceRejected. |
| Menu.NumeralPriceAccepted | App.tsx:35-36 | A whole-number price text (followed by anything that cannot continue a literal) is accepted if and only if the number is not zero, so "0" is rejected. |
| Menu.MinusPriceRejected | App.tsx:35-36 | Every price text that starts with a minus sign is rejected. |
| Menu.ValidateOutcome | App.tsx:33-36 | Each outcome holds if and only if its condition on the raw texts holds: MissingName when the name is all white space; MissingDescription when the name is not but the description is; InvalidPrice when both texts have content but the price is not acceptable; Added when all three checks pass. |
| Menu.App.constructor | App.tsx:26-30 | The initial state: empty name, description and price text, course Starter, empty menu. The well-formedness invariant holds. |
| Menu.App.HandleAddItem | App.tsx:32-47 | The outcome is the validation of the current form. On a rejection all five fields are unchanged. On success the menu becomes the old menu with the new dish appended at the end, and the form is reset to '', '', Starter, ''. The method preserves the invariant that every dish is well formed. It keeps ids distinct when the supplied id was not yet used. |
| Menu.App.Commit | App.tsx:45-46 | The assignments of a successful add: the validated dish is appended and the four form fields are reset. It preserves well-formedness, and keeps ids distinct for a fresh id. |
| Menu.App.RemoveItem | App.tsx:52 | The menu becomes the filter of the old menu by id. No dish with that id remains. An absent id leaves the menu unchanged. Well-formedness is preserved, and so are distinct ids. The form fields are outside the modifies frame. |
| Menu.WithoutId | App.tsx:52 | The filter never grows the list and leaves no dish with the id. A list without the id is returned unchanged. |
| Menu.WithoutIdMembers | App.tsx:52 | A dish survives the filter if and only if it was on the menu and has a different id. |
| Menu.WithoutIdConcat | App.tsx:52 | The filter preserves order: filtering a concatenation is the concatenation of the filtered parts. |
| Menu.WithoutIdAround | App.tsx:52 | A dish whose id occurs nowhere else is the only one removed; the dishes before and after it are kept in place. |
| Menu.RemovePresentDistinct | App.tsx:52 | With distinct ids, removing the id of the k-th dish yields exactly the list without position k, one dish shorter. |
| Menu.RemoveKeepsWellFormed | App.tsx:52 | Removal keeps a well-formed menu well formed. |
| Menu.WithoutIdDistinct | App.tsx:52 | Removal keeps distinct ids distinct, so removals can be chained under the distinct-ids hypothesis. |
| Menu.RemoveTwice | App.tsx:52 | Removing the same id a second time changes nothing. |
| Menu.AppendKeepsInvariants | App.tsx:33-45 | Appending a validated dish keeps the menu well formed. With a fresh id, it also keeps ids distinct. |
| Text.TrimStart | App.tsx:33-34 | The result is a suffix of the text and does not start with white space. |
| Text.TrimEnd | App.tsx:33-34 | The result is a prefix of the text and does not end with white space. |
| Text.Trim | App.tsx:40-41 | The trimmed text neither starts nor ends with white space and is no longer than the input. |
| Text.TrimStartDropsWhiteSpace | App.tsx:33-34 | Everything the front trim drops is white space. |
| Text.TrimEndDropsWhiteSpace | App.tsx:33-34 | Everything the back trim drops is white space. |
| Text.TrimEmptyIff | App.tsx:33-34 | `!x.trim()` holds if and only if the text is all white space. |
| Text.TrimIsSlice | App.tsx:40-41 | The trimmed text is a slice of the input, with white space only before and after it. |
| Text.TrimPadding | App.tsx:40-41 | Trimming removes exactly the surrounding white space: a trimmed text padded with white space on both sides trims back to itself. |
| Text.TrimTrimmed | App.tsx:40-41 | A text that is already trimmed is unchanged by trim, so trim is idempotent. |
| Text.TrimStartSkipsWhiteSpace | App.tsx:35 | Leading white space does not change the front trim of the rest. |
| Text.TrimStartBlank | App.tsx:33-35 | A text of white space alone front-trims to the empty text. |
| NumberParse.DigitRunSpec | App.tsx:35 | The measured digit run is all digits and is followed by a non-digit or the end. |
| NumberParse.NatToDigits | App.tsx:35 | The decimal numeral of n is a non-empty digit string whose value is n; it starts with '0' only when n is 0, so it has no leading zeros. |
| NumberParse.DigitRunOfDigitsThen | App.tsx:35 | A digit string followed by a non-digit is exactly the digit run. |
| NumberParse.ScanNumeral | App.tsx:35 | Digits followed by a character that cannot continue a literal are read as that whole number, with no fraction and no exponent. |
| NumberParse.ScanDecimal | App.tsx:35 | Digits, a point and fraction digits are read as whole part and fraction. |
| NumberParse.ParseNumeralPrefix | App.tsx:35 | parseFloat of a numeral followed by anything that cannot continue a literal is the numeral's value. For example, "0" parses to 0 and is then rejected. |
| NumberParse.ParseDecimalText | App.tsx:35 | parseFloat of "d.f" (such as "45.50") is the value of d plus the fraction 0.f. |
| NumberParse.ParseSkipsWhiteSpace | App.tsx:35 | Leading white space does not change what parseFloat returns. |
| NumberParse.ParseBlankIsNaN | App.tsx:35-36 | A price text of white space only (the empty field in particular) is NaN, hence rejected. |
| NumberParse.ParseFloat | App.tsx:35 | parseFloat, with None for NaN: skip leading white space, then read the longest literal prefix. A number is found only when the text after the white space starts with a digit, a sign or a decimal point. |
| NumberParse.ParseMinusNotPositive | App.tsx:35 | A text starting with a minus sign parses to NaN or to a number that is not above zero. |
| NumberParse.ShiftNonNegative | App.tsx:35 | Scaling a non-negative mantissa by a power of ten, up or down, keeps it non-negative. |
| NumberParse.ParseNegative | App.tsx:35-36 | When the text after the minus does not start with white space or a sign, a leading minus negates the parsed number and keeps NaN as NaN. |
| NumberParse.ParseLiteralNegative | App.tsx:35 | The same at the literal level, after white space has been skipped. |
| NumberParse.FractionValue | App.tsx:35 | The value of finitely many fraction digits lies in [0, 1). |
| Aggregate.CourseItems | App.tsx:58 | The course filter never grows the list, and every dish it keeps is of that course. |
| Aggregate.CourseItemsMembers | App.tsx:58 | A dish is kept by the course filter if and only if it is on the menu and of that course. |
| Aggregate.CourseItemsEmptyIff | App.tsx:58-59 | The filtered list is empty if and only if no dish has that course. |
| Aggregate.CourseItemsConcat | App.tsx:58 | The course filter preserves order and distributes over concatenation. |
| Aggregate.CourseItemsSingle | App.tsx:58 | A one-dish list is kept whole by its own course and dropped by every other. |
| Aggregate.TotalCount | App.tsx:56 | totalItems, the length of the list, is the number of starters plus mains plus desserts. |
| Aggregate.CoursePartition | App.tsx:56-58 | Every dish is counted under exactly one of the three courses. |
| Aggregate.Average | App.tsx:57-62 | getAverage gives no data (the '-') if and only if no dish has that course. |
| Aggregate.SumPrices | App.tsx:60 | The reduce over prices, accumulated from the first dish to the last and starting at 0; it has no contract of its own, and its properties are SumConcat, SumBounds and SumPositive. |
| Aggregate.SumConcat | App.tsx:60 | The reduce over prices adds up over concatenations. |
| Aggregate.SumBounds | App.tsx:60 | The sum of n prices in [lo, hi] lies in [n·lo, n·hi]. |
| Aggregate.AverageBounds | App.tsx:57-60 | When a course has dishes, its average exists. It lies between any lower and upper bound of that course's prices. |
| Aggregate.CourseItemsBounded | App.tsx:58 | Bounds on the prices of a course carry over to the filtered list. |
| Aggregate.AveragePositive | App.tsx:57-60 | On a menu of validated dishes every average is positive. |
| Aggregate.CourseItemsPositive | App.tsx:58 | On a menu of validated dishes every filtered price is positive. |
| Aggregate.SumPositive | App.tsx:60 | A non-empty list of positive prices has a positive sum. |
| Aggregate.AverageAppendOther | App.tsx:57-60 | Appending a dish of another course leaves a course's average unchanged. |
| Aggregate.AverageAppendSame | App.tsx:57-60 | Appending a dish of course c makes c's average (old sum + new price) / (old count + 1). |
| Aggregate.AverageRemoveOther | App.tsx:57-60 | Removing an id that no dish of course c carries leaves c's average unchanged. |
| Aggregate.CourseItemsRemoveOther | App.tsx:58 | The same for the filtered list itself. |

## Left out

- Rendering and styling (App.tsx:64-142): JSX, `renderItem`, `FlatList`, `Picker`, the keyboard handling and the style sheet. They carry no behaviour of the store.
- The Alert dialogs (App.tsx:33-36, 50-53). A rejection is returned as an `AddOutcome` value naming the failed check; the dialog texts are not modelled. Of the remove dialog only the confirmed branch is modelled (`RemoveItem`); Cancel does nothing.
- `Date.now()` (App.tsx:39): a clock read, replaced by the `id` parameter of `HandleAddItem`.
- IEEE floating point: prices, sums and averages are exact reals, so rounding in `parseFloat`, in the sum and in the division is not modelled.
- `toFixed(2)` (App.tsx:61, 68): two-decimal formatting is presentation. The model returns the average itself as `Some(value)`, and `None` for the `'-'` marker.
- NumberParse.ParseFloat: the `Infinity` prefix that JavaScript's `parseFloat` accepts is read as NaN (`None`) here. Such a price would be accepted by the app and is rejected by the model. Overflow of large exponents to Infinity is not modelled either. Nor is underflow: `"1e-400"` rounds to 0 in JavaScript and is rejected at App.tsx:36, while the model reads the exact value 10^-400, which is above zero, and accepts it.
- React's `useState`: each setter call is a plain field assignment, and the functional updates with `prev` read the current field. Re-rendering and batching are not modelled.
- Remove (App.tsx:52) returns no result; an absent id leaves the menu unchanged.
- Remove (App.tsx:52) drops every dish carrying the id, not exactly one. The "exactly one dish fewer" property is proved under distinct ids (`RemovePresentDistinct`), which removal preserves (`WithoutIdDistinct`).
- Ids come from the clock (App.tsx:39) and are not guaranteed unique. `HandleAddItem` keeps ids distinct only when the supplied id is fresh.

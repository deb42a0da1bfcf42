# UnknownParser — a model of a validating field extractor

`UnknownParser<T>` wraps one untyped value (typically the result of decoding a
JSON document) and lets a subclass pull typed fields out of it one call at a
time: `getArray`, `getString`, `getNumber`, `getBoolean`, `getIsoDate`,
`getStringAsEnumKey` and `getArrayOfEnumKeys`. Each call reads one named
field and either returns it unchanged, returns `undefined`, or throws a
`TypeError`. The class exists twice in the repository, `src/index.ts` (getters
`protected`) and `UnknownParser.ts` (getters public); the two are identical
line for line apart from those modifiers, the layout of one signature, and
the `export default UnknownParser;` that ends `src/index.ts` and that
`UnknownParser.ts` does not have, so
they are modelled once and the table below cites whichever copy a property
was stated against.

The parser holds one field, `data`, assigned in the constructor and only read
afterwards, so the model is functional:

- `JsValue.dfy` — the untyped value (`undefined`, `null`, string, number,
  boolean, array, object, function), the `typeof` operator, and the property
  read `data[prop]` (own keys of an object; canonical index strings of an
  array, but not its `length`).
- `IsoTimestamp.dfy` — the timestamp regular expression of `getIsoDate`,
  once as a declarative language ("some substring has one of three shapes")
  and once as the scan `Test` that decides it, with a proof that they agree and
  lemmas on what is accepted and rejected.
- `UnknownParser.dfy` — the constructor and the seven getters, each a function
  returning `Got(value) | Absent | Threw(error)`; `Absent` is the getter
  returning `undefined`, and the `ParseError` tag stands for the message of
  the `TypeError` thrown.
- `ParserLaws.dfy` — properties relating the getters to one another and to
  the shape of the field.

Behaviour as written that a reader might not expect:

- `typeof null === 'object'`, so a `null` root passes the constructor's
  guard; every later getter then throws when it reads `null[prop]`, including
  an optional `getStringAsEnumKey`, since the read happens before its branch.
- `getStringAsEnumKey` validates only a `'REQUIRED'` call. An optional call
  returns `undefined` whatever the field holds, even a valid key or a value of
  the wrong type. The model keeps this.
- `getIsoDate` accepts only timestamps with a time part (`T`, hours, minutes
  and a zone), never a bare calendar date such as `2021-04-01`, and checks
  digit ranges per position only (`2021-19-39T29:00Z` passes). No
  calendar-correctness date check (days per month, leap years) exists in the
  extractor, so none is modelled.

## Model

| member | source | states |
|---|---|---|
| `UnknownParser.New` | src/index.ts:6-12 | construction succeeds iff `typeof data === 'object'`; the parser then holds `data` itself; otherwise the error carries the observed `typeof` and the constructor name |
| `ParserLaws.RootGuard` | UnknownParser.ts:6-12 | the accepted roots are exactly `null`, arrays and objects; `undefined`, strings, numbers, booleans and functions are rejected |
| `JsValue.TypeOf` | src/index.ts:8-9 | `typeof` yields one of six names, and "object" exactly for `null`, arrays and plain objects |
| `JsValue.Property` | UnknownParser.ts:24 | reading an object gives its own property or `undefined`; reading an array with the decimal spelling of an in-range index gives that element, and any read that is not `undefined` is such an element |
| `UnknownParser.Checked` | src/index.ts:25 | the gate `required === 'REQUIRED' \|\| value !== undefined` fails exactly for an optional call on a value whose `typeof` is "undefined" |
| `UnknownParser.Field` | src/index.ts:24 | reading a field fails exactly when the root is `null` |
| `JsValue.ArrayIndexIsCanonical` | src/index.ts:24 | a field name reads an array element iff it is the canonical decimal spelling of an index no larger than 2^32 - 2 |
| `JsValue.ArrayPropertyAt` | UnknownParser.ts:24 | on an array root the spelling of an in-range index reads that element, and every other name reads `undefined` |
| `ParserLaws.ArrayRootIndexRead` | UnknownParser.ts:37 | a getter on an array root with an index name sees that element |
| `UnknownParser.GetArray` | src/index.ts:23-32 | absent iff optional and `undefined`; returns the array unchanged iff the gate passes and the value is an array; otherwise throws "not assignable to type array" with the observed `typeof` |
| `ParserLaws.ArrayReturnsUnchanged` | UnknownParser.ts:23-32 | past the gate, `getArray` returns `xs` iff the field is the array `xs`, and any non-array throws |
| `UnknownParser.GetString` | src/index.ts:36-45 | absent iff optional and `undefined`; returns the string iff the gate passes and `typeof` is "string"; otherwise throws with the observed `typeof` |
| `UnknownParser.GetNumber` | src/index.ts:49-58 | the same for "number" |
| `UnknownParser.GetBoolean` | src/index.ts:62-71 | the same for "boolean" |
| `ParserLaws.PrimitivesReturnUnchanged` | UnknownParser.ts:36-71 | past the gate each primitive getter returns `x` iff the field is exactly `x` of its type, and throws on any other type |
| `ParserLaws.NoCoercion` | src/index.ts:23-71 | on the same field at most one of `getString`, `getNumber`, `getBoolean`, `getArray` succeeds |
| `ParserLaws.OptionalUndefinedIsAbsent` | src/index.ts:23-135 | an optional call on an `undefined` field returns `undefined` and never throws, for all seven getters |
| `ParserLaws.RequiredNeverAbsent` | src/index.ts:25-118 | a required call never returns `undefined`; on an `undefined` field every getter throws with actual type "undefined" |
| `ParserLaws.NullFieldIsPresent` | src/index.ts:25-128 | a field holding `null` is present: every getter that checks it throws with actual type "object", required or not |
| `ParserLaws.NullRootFailsEveryGetter` | src/index.ts:6-117 | on a `null` root every getter throws the property-read error, whatever the requirement |
| `ParserLaws.ReadsOnlyItsField` | UnknownParser.ts:4-131 | a getter's outcome depends only on the field it reads, so repeating a call gives the same outcome as long as nobody mutates the wrapped object in between |
| `IsoTimestamp.Test` | src/index.ts:82-84 | `isoDateRegex.test(s)`: the scan accepts `s` iff some substring of `s` is one of the three timestamp shapes |
| `IsoTimestamp.TimestampShape` | src/index.ts:82 | every timestamp is at least 17 characters long with `T` at offset 10 |
| `IsoTimestamp.NoTimeSeparatorRejected` | UnknownParser.ts:82-86 | a string without `T` is rejected |
| `IsoTimestamp.ShortStringRejected` | UnknownParser.ts:82 | a string shorter than 17 characters is rejected |
| `IsoTimestamp.BareDateRejected` | src/index.ts:83-86 | `2021-04-01` is rejected |
| `IsoTimestamp.DigitRangesOnlyAccepted` | src/index.ts:82-84 | `2021-19-39T29:00Z` is accepted: only per-digit ranges are checked |
| `IsoTimestamp.FractionWithOffsetAccepted` | src/index.ts:82-85 | `2021-04-01T10:15:30.250+02:00` is accepted |
| `IsoTimestamp.MonthFirstDigitChecked` | UnknownParser.ts:82-85 | `2021-24-01T10:00Z` is rejected: a month's first digit must be 0 or 1 |
| `IsoTimestamp.Unanchored` | UnknownParser.ts:82-84 | any text before and after an accepted string keeps it accepted |
| `UnknownParser.GetIsoDate` | src/index.ts:75-88 | absent iff optional and `undefined`; accepted iff the gate passes and the value is a string containing a timestamp; a non-string throws "can not be parsed as date", a string without a timestamp throws "not a valid date" |
| `ParserLaws.IsoDateNeedsTime` | UnknownParser.ts:75-88 | on a string field the getter returns it iff the pattern matches, and a string without `T` throws "not a valid date" |
| `ParserLaws.IsoDateExamples` | src/index.ts:76-87 | a field `2021-04-01` throws "not a valid date"; `2021-19-39T29:00Z` is returned |
| `UnknownParser.GetStringAsEnumKey` | src/index.ts:93-107 | optional: always `undefined`; required: returns the string iff it is among the keys, a non-string throws "not assignable as enum key", a non-key throws "could not match any enum key" |
| `ParserLaws.EnumKeyOptionalIsUnchecked` | UnknownParser.ts:93-107 | an optional call yields `undefined` even on a valid key or an invalid value, while a required call returns a valid key and throws on anything else |
| `UnknownParser.FirstNonKey` | src/index.ts:123-132 | the `forEach` check: none iff every element is a string among the keys; otherwise the first element that is not |
| `UnknownParser.Strings` | src/index.ts:133 | the returned keys are the array's elements one for one |
| `UnknownParser.GetArrayOfEnumKeys` | src/index.ts:111-135 | absent iff optional and `undefined`; returns the array iff it is one and every element is a string among the keys; otherwise a non-array throws "not assignable to type array" and an array throws on its first bad element, "not assignable to type string" for a non-string and "not assignable to key of enum type" for a non-key |
| `ParserLaws.EnumArrayRefinesArray` | src/index.ts:118-133 | `getArrayOfEnumKeys` succeeds iff `getArray` does and all elements are keys, returning the same elements; the two are absent together |
| `ParserLaws.AnyBadElementFails` | UnknownParser.ts:119-128 | one bad element makes the call throw, however many valid ones come before it |
| `ParserLaws.EmptyArrayPasses` | src/index.ts:116-133 | `[]` passes `getArray` and `getArrayOfEnumKeys`, required or optional |
| `ParserLaws.EnumExamples` | UnknownParser.ts:111-130 | against {ONE, TWO, THREE}: "TWO" is returned, "FOUR" throws, `["ONE","FOUR"]` throws on its second element, `["ONE", 0]` throws "not assignable to type string" |
| `ParserLaws.StringCases` | src/__tests__/index.test.ts:24-76 | the string cases of the test suite: required and optional strings are returned, a missing required string throws, a missing optional one is `undefined`, a number where a string is expected throws |

## Left out

- `new Date(maybeDateString)` (src/index.ts:87): JavaScript date parsing (time zones, millisecond rounding) is not modelled; `GetIsoDate` returns the accepted string.
- Numbers are kept as an uninterpreted 64-bit pattern: the extractor only checks `typeof`, and IEEE-754 arithmetic plays no part.
- `Object.keys(e)` (src/index.ts:101, 116): the enum's key set is a `set<string>` parameter; how a TypeScript enum yields its keys (including the reverse-mapping keys of numeric enums) and the error `Object.keys(null)` would raise are not modelled.
- Object reads see own properties only, so inherited members such as `toString` read as `undefined`. Array reads see index properties only, so the array's own `length` property also reads as `undefined` in the model, whereas in JavaScript `getNumber('length')` on an array root returns the length.
- `typeof` results "symbol" and "bigint" have no values in the model; they are rejected like every other non-object root.
- Error messages are reduced to a tag carrying the field name and the observed type or value.
- TypeScript-only machinery (`PropType<T>`, the overload signatures, the `asserts` return type) has no runtime effect and is not modelled; a field name is any string.
- The parser holds the caller's object by reference (`this.data = data`, src/index.ts:11), and `getArray` and `getArrayOfEnumKeys` return the stored array itself (src/index.ts:30, 133), not a copy. The model treats the root as an immutable value, so it cannot show aliasing: a caller that mutates the object or a returned array (say, pushes a number onto it) changes what later calls return, and "repeating a call gives the same outcome" holds only while nobody mutates it.
- Arrays are dense sequences. Holes in sparse arrays (`[, 'ONE']`, `new Array(3)`), which `forEach` skips (src/index.ts:123), are not represented, so `getArrayOfEnumKeys` on a sparse array whose present elements are all keys succeeds in JavaScript but has no counterpart here; decoded JSON never has holes.
- Strings are sequences of Unicode scalar values, while JavaScript strings are UTF-16 code units and may hold lone surrogates, in field names and values alike; the timestamp pattern is ASCII-only, so matching is unaffected.
- Arrays are unbounded sequences; JavaScript's array length limit of 2^32 - 1 appears only in which field names count as indices.
- `getPrimitive` and `getDate`, called by src/__tests__/index.test.ts, exist in neither copy of the class and are not part of this model; the date case of that test (`2021-04-01` expected to parse) contradicts the pattern of `getIsoDate` and is not used.

# JSON record viewer and colon-line parser: a verified model

The repository is a small browser page and a one-off script. The page loads a JSON
array of records and shows them in a table. You choose which fields appear as
columns, and a free-text search filters the rows. The script turns a block of
"Name: value" lines into a key/value object.

This project models the logic behind both in Dafny and proves what that logic
promises. Three parts come from the source:

- **Record pipeline** (`data_screen.dfy`, from `src/DataScreen.tsx`). It models:
  - field discovery (`getFields`);
  - row tagging with a positional id (`processInitialData`);
  - column building and cell rendering (`fieldsToColumns`);
  - search over each record's JSON text (`searchData`);
  - the search default and lower-casing in `handleApplyFilter`.
- **Colon-line parser** (`script.dfy`, from `script.js`). `processText` becomes a
  method whose loop updates a map. It is proved against a recursive function that
  states what the loop computes.
- **Breakpoint logic** (`app.dfy`, from `src/App.tsx`). It models:
  - the width for each breakpoint;
  - the current breakpoint, chosen by a `reduce` over antd's breakpoint flags;
  - the active-breakpoint tags.

Five supporting modules model the library behaviour the core relies on:

- `options.dfy`: `Option`, which stands for `undefined`, and lodash's `getOr`.
- `strings.dfy`: `indexOf`, `split` with a string separator, and ASCII lower-casing.
- `decimal.dfy`: decimal numerals.
- `collections.dfy`: lodash/fp `map`, `filter`, `uniq` and `without`.
- `json.dfy`: `JSON.stringify`, and a parser for the JSON grammar of RFC 8259
  standing for `JSON.parse`. It covers compact output and the two-space pretty
  print, and proves that parsing undoes stringifying. The parser reads integers
  only and refuses escaped surrogate halves; see "Left out".

Records are ordered lists of `Member(name, value)`, because a JavaScript object
keeps its properties in insertion order. That order decides both the field order
of `getFields` and the exact JSON text that the search scans. `AsMap` gives the
dictionary view. When a record repeats a name, the later property wins.

Row tagging builds `{ key: index.toFixed(2), ...dataRow }` (src/DataScreen.tsx:51-54).
The spread comes last, so a row's own `key` overrides the synthetic id, and two rows
can end up with the same id (`DataScreen.OwnKeyCanRepeatId`). Rows without their own
`key` get pairwise distinct ids (`DataScreen.TaggedIdsDistinct`).

A cell is rendered through `JSON.stringify` when `typeof text === 'object'`
(src/DataScreen.tsx:42-43). Since `typeof null === 'object'`, a `null` cell takes
that branch too and shows as `null`.

In the script, `obj[key] = value` on a plain object does not create a property
named `__proto__`: that assignment reaches the inherited prototype setter, which ignores a
string or `undefined`. A line whose normalised key is `__proto__` therefore writes
no entry (`Script.ProtoLineWritesNothing`).

## Model

| member | source | states |
|---|---|---|
| Strings.IndexOf | src/DataScreen.tsx:60 | the result is the first index where the needle occurs, and -1 exactly when it occurs nowhere |
| Strings.EmptyNeedle | src/DataScreen.tsx:60 | the empty string is found in every text, at index 0 |
| Strings.ContainsChar | script.js:6 | a one-character needle is found exactly when the character is in the text |
| Strings.Split | script.js:9 | the pieces joined with the separator give back the text; no piece contains the separator; there is at least one piece |
| Strings.SplitHead | script.js:9 | the first piece is the text before the first separator; when there is a separator, the second piece is the text up to the next one |
| Strings.SplitKeepsAbsent | script.js:6 | a character absent from the text is absent from every piece |
| Strings.SplitCharCount | script.js:6 | splitting on one character gives one more piece than the character's occurrences |
| Strings.IndexOfIs | script.js:9 | an occurrence with no earlier one is what `indexOf` returns |
| Strings.Lower | src/DataScreen.tsx:60 | lower-casing keeps the length and maps each character by ASCII lower-casing |
| Strings.LowerIdempotent | src/DataScreen.tsx:74 | lower-cased text has no capital letter, and lower-casing it again changes nothing |
| Strings.LowerKeepsOccurrence | src/DataScreen.tsx:60 | an occurrence of the needle is still an occurrence after both sides are lower-cased |
| Decimal.NatToString | src/DataScreen.tsx:52 | the numeral is non-empty, all digits, and starts with 0 only for zero |
| Decimal.DigitsValueOfNatToString | src/DataScreen.tsx:52 | the numeral's digits read back as the number |
| Decimal.NatToStringInjective | src/DataScreen.tsx:52 | distinct numbers have distinct numerals |
| Decimal.IntToString | src/DataScreen.tsx:59 | a negative integer is '-' then its magnitude's numeral; any other integer is just its numeral |
| Collections.Filter | src/DataScreen.tsx:60 | an element is kept exactly when it passes the test, as many times as it occurs; the result is a subsequence of the input |
| Collections.FilterIdempotent | src/DataScreen.tsx:57-62 | filtering the result again keeps all of it |
| Collections.FilterAll | src/DataScreen.tsx:60 | a test that every element passes keeps the whole sequence |
| Collections.FilterMap | src/DataScreen.tsx:59-60 | filtering the images equals mapping over the elements whose image passes |
| Collections.Dedup | src/DataScreen.tsx:33 | no duplicates; membership is exactly "in the input and not already seen"; elements are in order of first occurrence |
| Collections.Uniq | src/DataScreen.tsx:33 | `uniq` has no duplicates, the same members as its input, and first-occurrence order |
| Collections.Without | src/DataScreen.tsx:34 | `without` removes every occurrence of the value, keeps every other value as many times as it occurs and in order, and changes nothing when the value is absent |
| Collections.DedupAppend | src/DataScreen.tsx:31-33 | deduplicating a concatenation gives the first part's new elements, then the second part's elements not yet seen |
| Collections.DedupTwice | src/DataScreen.tsx:33 | deduplicating twice equals deduplicating once against both seen-sets |
| Collections.WithoutDedup | src/DataScreen.tsx:33-34 | `without(x)` after `uniq` equals deduplicating with `x` already seen |
| Json.ToJson | src/DataScreen.tsx:43 | the text `JSON.stringify` writes, compact or indented, parses back to the same value |
| Json.ToJsonInjective | src/DataScreen.tsx:59 | distinct values have distinct JSON texts |
| Json.ParseStringify | src/DataScreen.tsx:59-61 | parsing a value's JSON text followed by any non-digit text gives the value back and stops where the value ends |
| Json.ItemsRoundTrip | src/DataScreen.tsx:59-61 | parsing an array's written elements, then whitespace and `]`, gives the elements back |
| Json.MembersRoundTrip | src/DataScreen.tsx:59-61 | parsing an object's written properties, then whitespace and `}`, gives the properties back in order |
| Json.CharsRoundTrip | src/DataScreen.tsx:59-61 | parsing the escaped body of a string literal gives the string back |
| Json.NumberRoundTrip | src/DataScreen.tsx:59-61 | parsing an integer's numeral gives the integer back |
| Json.Stringify | src/DataScreen.tsx:59 | no contract of its own: `JSON.stringify` with a numeric indent; `Json.ToJson`, `Json.ParseStringify` and `Json.ToJsonInjective` state that its text reads back and tells values apart |
| Json.Parse | src/DataScreen.tsx:61 | no contract of its own: `JSON.parse`, `None` where it throws; `Json.ToJson` and `Json.ParseStringify` state that it reads written text back |
| DataScreen.Names | src/DataScreen.tsx:31 | `keysIn` lists each property's name, in property order |
| DataScreen.AsMapKeys | src/DataScreen.tsx:31 | the dictionary view's keys are exactly the record's names |
| DataScreen.Put | src/DataScreen.tsx:53 | assigning a property keeps the names when the name exists, and appends the name otherwise |
| DataScreen.PutAsMap | src/DataScreen.tsx:53 | on a record without repeated names, assigning a property sets exactly that entry |
| DataScreen.SpreadNames | src/DataScreen.tsx:51-54 | spreading keeps names distinct: the target's names first, then the source's new names in first-seen order |
| DataScreen.SpreadAsMap | src/DataScreen.tsx:51-54 | after spreading, the source's values win over the target's |
| DataScreen.Spread | src/DataScreen.tsx:51-54 | no contract of its own: the object spread; `SpreadNames` and `SpreadAsMap` state its names and values |
| DataScreen.ToFixed2Injective | src/DataScreen.tsx:52 | distinct indices give distinct `toFixed(2)` ids |
| DataScreen.ToFixed2 | src/DataScreen.tsx:52 | no contract of its own: `index.toFixed(2)` of a whole number, its numeral followed by ".00"; `ToFixed2Injective` states that distinct indices give distinct ids |
| DataScreen.TagRow | src/DataScreen.tsx:51-54 | a tagged row has "key" first, then the row's other names; its values are the id overridden by the row's own values |
| DataScreen.ProcessInitialData | src/DataScreen.tsx:49-55 | the output has one tagged row per input row, at the same position |
| DataScreen.TaggedRowFields | src/DataScreen.tsx:49-55 | every field other than "key" keeps its value; "key" is the row's own key if it has one, otherwise the index id |
| DataScreen.TaggedIdsDistinct | src/DataScreen.tsx:52 | rows with no `key` of their own get pairwise distinct ids |
| DataScreen.OwnKeyCanRepeatId | src/DataScreen.tsx:51-54 | a row's own `key` "1.00" takes the same id as the untagged row at index 1 |
| DataScreen.AllNamesMembers | src/DataScreen.tsx:31-32 | a name is among the flattened names exactly when some record has it |
| DataScreen.AllNames | src/DataScreen.tsx:31-32 | no contract of its own: `flatMap(keysIn)` followed by a `flatten` that changes nothing; `AllNamesMembers` states its members |
| DataScreen.GetFields | src/DataScreen.tsx:30-35 | `getFields` has no duplicates and never "key"; it holds exactly the non-"key" names of the records, in first-occurrence order |
| DataScreen.GetFieldsIsDedup | src/DataScreen.tsx:30-35 | `without(['key'])` after `uniq` lists the names of all records once each, with "key" counted as already seen |
| DataScreen.GetFieldsExample | src/DataScreen.tsx:30-35 | records `{a,b}` and `{b,c}` give the fields `[a, b, c]` |
| DataScreen.FieldIffSomeRecordHasIt | src/DataScreen.tsx:30-35 | a name other than "key" is a field exactly when some record has it |
| DataScreen.FieldsIgnoreTagging | src/DataScreen.tsx:65-67 | the tagged rows have the same fields as the loaded rows |
| DataScreen.FieldsToColumns | src/DataScreen.tsx:37-40 | one column per selected field, in selection order, with title, data index and key all equal to the field; a missing selection gives no columns |
| DataScreen.InitialColumnsDistinct | src/DataScreen.tsx:87-88 | with all fields selected, column keys are distinct and no column shows the id |
| DataScreen.Render | src/DataScreen.tsx:41-46 | objects, arrays and `null` render as preformatted JSON that parses back to the cell's value; other values render unchanged |
| DataScreen.RenderCell | src/DataScreen.tsx:37-46 | no contract of its own: a column's `render` applied to the record's value under its `dataIndex`; `ColumnCell` states what each column shows |
| DataScreen.ColumnCell | src/DataScreen.tsx:37-46 | column `i` shows the rendering of the record's value for the `i`-th selected field, and `undefined` as it is when the record has no such field |
| DataScreen.ParseSerialize | src/DataScreen.tsx:59-61 | `JSON.parse` of a record's `JSON.stringify` gives the record back |
| DataScreen.Serialize | src/DataScreen.tsx:59 | no contract of its own: `JSON.stringify(record)`; `ParseSerialize` states that it reads back |
| DataScreen.ParseRecord | src/DataScreen.tsx:61 | no contract of its own: `JSON.parse` of a record's text; `ParseSerialize` and `KeptTextsParse` state what it gives |
| DataScreen.SearchData | src/DataScreen.tsx:57-62 | the stringify, filter, parse pipeline returns exactly the records whose lower-cased JSON text contains the search string, in order |
| DataScreen.TextMatcher | src/DataScreen.tsx:60 | no contract of its own: the `filter` callback, whether the lower-cased text contains the search string; `KeptTextsParse` and `SearchData` state what it keeps |
| DataScreen.Matcher | src/DataScreen.tsx:59-60 | no contract of its own: the same test applied to a record's `JSON.stringify` text; `SearchData` states that the pipeline keeps exactly the records it accepts |
| DataScreen.KeptTextsParse | src/DataScreen.tsx:59-61 | every text the filter keeps parses to an object, and parsing them all gives exactly the matching records, in order |
| DataScreen.ParseAll | src/DataScreen.tsx:61 | parsing texts that each hold an object gives one record per text, each the text's parse, in order |
| DataScreen.MatchingRecordKept | src/DataScreen.tsx:60 | a record whose lower-cased JSON text contains the search string is in the search result |
| DataScreen.SearchIsSubsequence | src/DataScreen.tsx:57-62 | the search result is a subsequence of the records, and a record is in it exactly when its lower-cased text contains the search string |
| DataScreen.EmptySearchKeepsAll | src/DataScreen.tsx:60 | the empty search string keeps every record |
| DataScreen.SearchIdempotent | src/DataScreen.tsx:57-62 | searching the result again with the same string changes nothing |
| DataScreen.NoSearchKeepsAll | src/DataScreen.tsx:73-74 | with no search value (which defaults to "") every record stays |
| DataScreen.ApplyFilter | src/DataScreen.tsx:72-75 | the filter applied keeps exactly the rows matching the lower-cased search value, a missing value counting as "" |
| Options.Option.GetOr | src/DataScreen.tsx:73 | no contract of its own: `getOr('', 'search')`, the value when there is one and the default otherwise; `NoSearchKeepsAll` and `ApplyFilter` state its use |
| DataScreen.VerbatimMatchKept | src/DataScreen.tsx:73-74 | a record whose text contains the search value, whatever its letter case, stays |
| DataScreen.View | src/DataScreen.tsx:65-81 | no data shows the empty state; otherwise the screen shows the loaded rows' fields, the columns of the selected fields, and, once `handleApplyFilter` has run on the current form values, exactly the tagged rows that match the lower-cased search value (all of them when there is none) |
| Script.SplitLines | script.js:6 | splitting on `\r?\n` gives one line more than there are line feeds, and no line contains a line feed; `SplitLinesRoundTrip` states where the carriage returns go |
| Script.SplitLinesJoin | script.js:6 | for text without carriage returns, the lines joined by line feeds give the text back |
| Script.SplitLinesRoundTrip | script.js:6 | every line followed by its own break gives the text back; each break is `\r\n` or `\n`, and a line followed by a bare `\n` does not end in `\r`, so a carriage return before a line feed always goes into the break |
| Script.SplitLinesCRLF | script.js:6 | "a\r\nb" splits into "a" and "b" |
| Script.NormaliseKey | script.js:10 | the key keeps its length, has no spaces, and has each space as `_` and each other character lower-cased |
| Script.NormaliseKeyIdempotent | script.js:10 | normalising a normalised key changes nothing |
| Script.NormaliseKeyMerges | script.js:10 | "First Name" and "first_name" both become "first_name" |
| Script.SplitKeyValue | script.js:9 | the key is the text before the first ": "; the value is the text between the first and second ": " (or the rest of the line); with no ": " the key is the whole line and the value is undefined |
| Script.SplitKeyValueRoundTrip | script.js:9 | a "key: value" line whose parts contain no ": " gives back that key and that value |
| Script.Write | script.js:10 | no contract of its own: one assignment `obj[key] = value`, which the prototype setter ignores for `__proto__`; `ProtoLineWritesNothing` and `CollectLastWriteWins` state its effect |
| Script.LineKey | script.js:9-10 | no contract of its own: the normalised key one line writes; `CollectKeys` and `CollectLastWriteWins` state that the keys are these |
| Script.LineValue | script.js:9 | no contract of its own: the value one line writes (`undefined` without ": "); `CollectLastWriteWins` states that the last line with a key decides its value |
| Script.Collect | script.js:8-10 | no contract of its own: the `forEach` writing every line in order; `CollectKeys` and `CollectLastWriteWins` state its keys and values, and `ProcessText` is proved equal to it |
| Script.CollectKeys | script.js:8-10 | the object's keys are exactly the lines' normalised keys, except `__proto__`, which the assignment never creates |
| Script.ProtoLineWritesNothing | script.js:10 | a line whose key normalises to `__proto__` leaves the object as it was; that line alone gives an empty object |
| Script.CollectLastWriteWins | script.js:8-10 | the last line with a given key decides that key's value, for every key but `__proto__` |
| Script.ProcessText | script.js:5-11 | the lines are the split text; the object is the lines' entries written in order; the line count is the number of line feeds plus one; no key contains a space, and none is `__proto__` |
| App.WidthFromScreen | src/App.tsx:28-45 | any non-breakpoint name gets 992; every breakpoint gets a width from 480 to 1600 |
| App.WidthsIncrease | src/App.tsx:30-41 | widths increase strictly from xs through sm, md, lg and xl to xxl |
| App.FoldNoneActive | src/App.tsx:62-65 | the reduce returns its start value when no flag is set |
| App.Fold | src/App.tsx:62-65 | no contract of its own: the `reduce` over the entries; `FoldNoneActive`, `FoldLastActive` and `FoldResult` state its result |
| App.Step | src/App.tsx:63 | no contract of its own: the `reduce` callback, the entry's name when its flag is set and the previous value otherwise; `FoldLastActive` and `FoldNoneActive` state its effect over the whole reduce |
| App.IsOn | src/App.tsx:63 | no contract of its own: the truthiness of an entry's flag (`true`, not `false` or `undefined`), used by the reduce and by the tag filter at src/App.tsx:125; `FoldLastActive` and `ActiveTags` state its use |
| App.FoldLastActive | src/App.tsx:62-65 | the reduce returns the name of the last entry whose flag is set |
| App.FoldResult | src/App.tsx:62-65 | the reduce returns its start value or the name of an entry whose flag is set |
| App.CurrentBreakPoint | src/App.tsx:60-67 | the current breakpoint is "xs" when no flag is set, otherwise the last active entry's name; it is always "xs" or an active entry's name |
| App.ActiveTags | src/App.tsx:124-130 | the tags are exactly the names of the entries whose flag is set |
| App.ActiveTagsCons | src/App.tsx:124-126 | the tags keep entry order: the first entry's name (when it is active), then the rest's tags |
| App.CurrentBreakPointIsLastTag | src/App.tsx:60-67 | the current breakpoint is the last tag shown, or "xs" when no tag is shown |

## Left out

- React components, hooks and rendering are not modelled. This covers `useState`, `useEffect`, `useMemo`, `Form.useWatch` and the antd widgets. `View` gives the screen's content as a value instead.
- Timing and events are not modelled: the 500 ms `debounce` and the order of form events.
- `FileReader` reading of the upload and `JSON.parse` of the whole file are browser I/O. Records arrive already parsed.
- The script's `console.log` output and its hard-coded text literal are I/O. The text is a parameter of `ProcessText`.
- Json.Value: numbers are integers only. Fractions, exponents and the host's number formatting are floating point, so they are left out.
- Json.Value: objects keep the property order in which they are given. Object keys that look like array indices are not moved to the front, as a JavaScript engine would move them.
- Json.Value: a parsed object that repeats a name keeps both properties, whereas `JSON.parse` keeps only the last. Text that `JSON.stringify` writes never repeats a name, so this only matters for hand-written input.
- Strings.Lower: covers ASCII letters only. It stands for both `toLocaleLowerCase` in the search (src/DataScreen.tsx:60, 74) and `toLowerCase` in the script's key normalisation (script.js:10). Both apply Unicode case mappings (for example "É" to "é"), and the first also locale ones; neither is modelled beyond ASCII.
- DataScreen.View: gives the rows as they are after `handleApplyFilter` has run on the current form values. When a new file loads, the effect at src/DataScreen.tsx:77-79 shows every tagged row, even though the form keeps its search value; the filter applies again only at the next form change (src/DataScreen.tsx:90). That state between loading and the next change is not modelled.
- Json.Unescape: strings are sequences of Unicode scalar values, so an escaped surrogate half is refused. That covers lone halves, which JavaScript strings can hold, and also escaped surrogate pairs such as `\ud83d\ude00`, which `JSON.parse` reads as one character. The parser only ever reads `JSON.stringify` output here, and that never writes a `\u` escape for a Unicode scalar value outside the control range.
- DataScreen.Names: lodash `keysIn` also lists inherited enumerable properties. Records parsed from JSON have none, so only own properties are modelled.
- DataScreen: rows are always objects. Array elements that are not objects (numbers, strings, `null`) are left out.
- DataScreen.Render: `undefined` cell values (a field the record lacks) are returned as-is. How the table then displays them is antd behaviour and is not modelled.
- Script.ProcessText: the object's key order and the text printed by `JSON.stringify(obj)` are not modelled. The object is a map from key to value, with `None` for `undefined`.
- App: antd's `useBreakpoint` is not modelled. Its flags arrive as the list of entries `Object.entries(screens)` yields, and an `undefined` flag counts as false.
- Layout, styles, the upload widget's messages and the footer link are presentation only.

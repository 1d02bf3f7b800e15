# Documentation browser core, modelled in Dafny

This project models two parts of a static documentation browser written in JavaScript.

- **`normalizeToString`** turns any run-time value into display text. It is a first-match-wins chain of type tests:
  - null and undefined become `""`;
  - strings, numbers and booleans go through `String`;
  - Dates give their ISO text;
  - an object with a string `text` gives that text;
  - an object with an array `richText` gives its spans' texts joined;
  - any other object gives `JSON.stringify` output, or `""` when that throws;
  - symbols, BigInts and functions go through `String`, or give `""` when that throws.
- **The catalog and navigation rules of `app.js`**:
  - topic records built from the static topic table;
  - chapters sorted by metadata order, keeping only those with topics;
  - lookup of a topic by id;
  - the light/dark theme and its stored copy;
  - the hash-routing decisions at start-up and on a hash change.

Modules:
- `Wrappers` (`wrappers.dfy`): `Option`.
- `JsValues` (`js_values.dfy`):
  - `JsValue`, the JavaScript values told apart here: null, undefined, string, number, boolean, Date, plain object, array, symbol, BigInt and function;
  - `typeof`, truthiness and property reads;
  - `Host`, the host conversions this model does not define.
- `Decimal` (`decimal.dfy`): `String(n)` for a BigInt, with its inverse parse.
- `Normalize` (`normalize.dfy`): the dispatch, both as written and corrected, and its properties.
- `Catalog` (`catalog.dfy`):
  - `fetchChapterTopics`;
  - the chapter sort;
  - `fetchDocsStructure`'s loop, as a method proved against `DocsStructure`;
  - the lookup loop of `loadTopic`, as a method proved against `FirstTopic`.
- `App` (`app.dfy`):
  - the theme, hash and start-up rules as functions;
  - the class `DocsApp`, which holds the module-level state (`docsStructure`, `currentTopic`) together with the theme, the stored theme and the URL hash, and has one method per operation.

Host conversions are parameters, passed in a `Host` value:
- `String` of a finite number;
- `toISOString` of a valid time value;
- `JSON.stringify`, which returns `None` when it throws, for example on a cyclic structure;
- a function's text conversion.

Two points of the code's behaviour that are easy to miss:
- Arrays are not excluded from the object branch. Line 11 of `src/utils/normalizeToString.js` tests only `typeof value === "object"`, so an array reaches the `text`, `richText` and JSON cases (`PlainArraySerialized`).
- Every conversion that can fail is wrapped in `try`/`catch` except `toISOString`, which throws on an Invalid Date; see Findings.

## Model

| member | source | states |
|---|---|---|
| `JsValues.TypeOf` | src/utils/normalizeToString.js:11 | `typeof` is "object" exactly for null, Dates, plain objects and arrays |
| `Normalize.DefaultUnreachable` | src/utils/normalizeToString.js:1-35 | every value takes one of the seven real branches and the final `return ""` is never reached; exactly null/undefined take the nullish branch, exactly strings/numbers/booleans the primitive branch, exactly symbols/BigInts/functions the opaque branch |
| `Normalize.NullishIsEmpty` | src/utils/normalizeToString.js:2-4 | null and undefined give `""` |
| `Normalize.StringPassThrough` | src/utils/normalizeToString.js:5-6 | a string is returned unchanged, so normalizing the result again changes nothing |
| `Normalize.PrimitiveCanonical` | src/utils/normalizeToString.js:5-7 | numbers give their `String` text (`"NaN"` for NaN) and booleans `"true"`/`"false"` |
| `Normalize.DateBeforeObject` | src/utils/normalizeToString.js:8-11 | a Date is an object to `typeof` yet takes the Date branch first, never the text/richText/JSON cases; a valid Date gives its ISO text |
| `Normalize.ObjectCases` | src/utils/normalizeToString.js:11-27 | objects and arrays take the text case iff `text` is a string, else the richText case iff `richText` is an array, else the JSON case |
| `Normalize.TextFieldWins` | src/utils/normalizeToString.js:14-16 | a string `text` property is returned verbatim, even when the object also has `richText` |
| `Normalize.RichTextJoined` | src/utils/normalizeToString.js:18-20 | without a string `text`, an array `richText` gives its span texts joined; the length is the sum of their lengths; an empty array gives `""` |
| `Normalize.RichTextSpan` | src/utils/normalizeToString.js:19 | span k's text sits in the result right after the texts of the spans before it; a span with a string `text` property contributes that text; a falsy span, or a truthy one without a string `text` (`{}`, `{text: 5}`, a bare string), contributes `""` |
| `Normalize.RichTextExample` | src/utils/normalizeToString.js:18-19 | `{richText: [{text: "a"}, {text: "b"}, {}]}` gives `"ab"` |
| `Normalize.JoinPlacement` | src/utils/normalizeToString.js:19 | `join("")` keeps every piece, in order, at the offset given by the pieces before it |
| `Normalize.OtherObjectSerialized` | src/utils/normalizeToString.js:22-26 | any other object or array gives the serializer's text, or `""` when the serializer throws |
| `Normalize.PlainArraySerialized` | src/utils/normalizeToString.js:11-26 | an array with no `text` and no `richText` is serialized |
| `Normalize.OpaqueConverted` | src/utils/normalizeToString.js:28-34 | a symbol gives `Symbol(description)`, a BigInt its decimal text, a function its text or `""` when that conversion throws |
| `Normalize.AsWrittenThrowsOnlyOnInvalidDate` | src/utils/normalizeToString.js:8-10 | as written, a call throws exactly when the input is an Invalid Date, whatever properties it carries |
| `Normalize.CorrectedNeverThrows` | src/utils/normalizeToString.js:1-36 | the corrected function returns what the source returns wherever the source returns, and `""` for an Invalid Date |
| `Decimal.NatText` | src/utils/normalizeToString.js:30 | a natural number's text is non-empty, all digits, and has no leading zero unless it is `"0"` |
| `Decimal.BigIntText` | src/utils/normalizeToString.js:30 | a BigInt's text starts with '-' exactly when it is negative and is otherwise all digits |
| `Decimal.BigIntTextRoundTrip` | src/utils/normalizeToString.js:30 | parsing a BigInt's text gives back the BigInt |
| `Catalog.ChapterTopics` | src/app.js:291-299 | one topic per table entry for the key, none for an unknown key; topic k has order k, the entry's title and file, id `key/file` and path `/src/docs/key/file` |
| `Catalog.TopicIdSplits` | src/app.js:294 | a topic id splits at its first '/' back into the chapter key and the file |
| `Catalog.TopicIdInjective` | src/app.js:294 | two topics share an id only if they share chapter key and file |
| `Catalog.ChapterTopicsWellFormed` | src/app.js:294-297 | every built topic has a non-empty id and a path equal to the base path, '/', and the id |
| `Catalog.InsertSorted` | src/app.js:58-60 | inserting by order into a sorted list keeps it sorted and adds one entry |
| `Catalog.SortByOrder` | src/app.js:58-60 | the sorted chapters are a permutation of the metadata entries, in non-decreasing order |
| `Catalog.BuildChaptersContents` | src/app.js:64-77 | each built chapter has topics and comes from one metadata entry, carrying its key as id, its title, its order and that key's topics; every entry whose key has topics is built |
| `Catalog.BuildChaptersSorted` | src/app.js:64-77 | chapters taken in sorted order stay in non-decreasing order after filtering |
| `Catalog.DocsStructureProperties` | src/app.js:56-87 | the structure is sorted by metadata order, well formed, contains only chapters with topics built from their metadata, and leaves none of those out |
| `Catalog.FetchDocsStructure` | src/app.js:58-83 | the loop builds exactly `DocsStructure`: sorted, well formed, each chapter with at least one topic |
| `Catalog.FindTopic` | src/app.js:372 | `find` gives nothing iff no topic has the id, and otherwise the first topic with it |
| `Catalog.FirstTopic` | src/app.js:371-377 | a topic the lookup finds has the id looked for |
| `Catalog.FirstTopicNone` | src/app.js:371-379 | the lookup finds nothing exactly when no chapter has a topic with the id |
| `Catalog.FirstTopicIsFirst` | src/app.js:371-377 | what the lookup finds is `find`'s answer in some chapter, and no earlier chapter has a topic with the id |
| `Catalog.FindTopicPath` | src/app.js:370-377 | the loop with `break` gives no path iff no chapter has the id, and otherwise the path of the first matching topic |
| `App.ToggledTheme` | src/app.js:47 | the new theme is "light" or "dark", and "dark" exactly when the current theme is "light" |
| `App.InitialTheme` | src/app.js:42 | the stored theme when it is a non-empty string, "light" when it is missing or empty |
| `App.ToggleTwice` | src/app.js:45-50 | toggling twice is the identity on "light" and "dark" |
| `App.ToggleSurvivesReload` | src/app.js:41-49 | the theme a toggle stores is the theme the next start-up applies |
| `App.HashBody` | src/app.js:440 | the hash is its first character followed by the body, and an empty hash has an empty body |
| `App.HashTarget` | src/app.js:440-444 | a hash change loads a topic iff the hash without '#' is non-empty and the structure is non-empty, and the topic is that body |
| `App.StartRoute` | src/app.js:459-465 | with a hash, start-up follows it; without one, it opens the first topic of the first chapter iff there is one |
| `App.OpenFirstIsFound` | src/app.js:461-463 | the first topic of the first chapter is what the lookup finds for its id |
| `App.OpenFirstHashRoutesBack` | src/app.js:462-464 | the hash written for the first topic routes back to that topic on the next hash change |
| `App.FoundPathNonEmpty` | src/app.js:379 | in a well-formed structure a found path is never empty, so the falsy-path test fails exactly when nothing was found |
| `App.DocsApp.constructor` | src/app.js:34-35 | the page starts with an empty structure, no current topic and no theme |
| `App.DocsApp.InitTheme` | src/app.js:41-43 | the theme becomes the initial theme for the stored value |
| `App.DocsApp.ToggleTheme` | src/app.js:45-50 | the theme becomes the toggled theme and the stored value equals it |
| `App.DocsApp.LoadTopic` | src/app.js:364-433 | not found iff no chapter has the id, and then the current topic is unchanged; otherwise the path is the first match's; the topic becomes current iff it was found and fetched |
| `App.DocsApp.HandleHashChange` | src/app.js:439-445 | a load happens iff the hash target exists; the current topic changes only to that target and only when it is loaded |
| `App.DocsApp.StartApp` | src/app.js:451-468 | the theme is initialised and the structure built; with a hash, its target is loaded iff it has one, and becomes the current topic iff it is found and fetched; without one, the first topic is opened and its id written to the hash; otherwise nothing is loaded |

## Left out

- Markdown rendering (`marked.parse`), every DOM update, the sidebar (`renderSidebar`), event listeners and scroll reset are not modelled. They are UI work with nothing to state about values.
- The network fetch, `response.ok`, `response.text()` and the parse are collapsed into one `fetchOk` flag of `LoadTopic`. Their failure and success branches are kept.
- Asynchrony is not modelled. Each `loadTopic` is treated as running to completion when called. Writing the first topic's id into the hash also fires a later `hashchange` that loads it a second time. `OpenFirstHashRoutesBack` shows that this second load targets the same topic, but the event itself is not modelled.
- `console.warn` and `console.error` are not modelled.
- The `try`/`catch` blocks of `fetchDocsStructure` are not modelled, because nothing inside them can throw for keys taken from the metadata table.
- `localStorage` and `location.hash` are plain fields. The browser's percent-encoding of a hash written by the page is not modelled.
- The literal contents of the chapter and topic tables are not modelled. The model takes any metadata list and topic map.
- `String` of a finite number, `toISOString` of a valid Date, `JSON.stringify` and a function's text conversion are host parameters, not definitions. So is the serializer's key order.
- Normalize.OtherObjectSerialized: `JSON.stringify` is modelled as text or a throw. The case where it returns `undefined` is not modelled: that happens only for an object whose `toJSON` returns `undefined`.
- Property reads have no getters, proxies or prototype chain. Only own properties are modelled, on plain objects, arrays, Dates and functions. An array hole reads as `undefined`, which gives the same span text as the hole itself.
- Strings are sequences of Unicode scalar values, not UTF-16 code units. A lone surrogate in a `text` field cannot be represented. The lengths in `RichTextJoined` count scalar values, not JavaScript's `.length`.
- Catalog.SortByOrder: the sort is stable by construction, but only sortedness and permutation are stated. Stability is not stated.
- Number values are real numbers plus NaN and the infinities. Rounding to 64-bit floating point is not modelled.

## Findings

| source | as written | input that shows it | evidently intended | confidence | as-written member | corrected member |
|---|---|---|---|---|---|---|
| src/utils/normalizeToString.js:8-10 | `value.toISOString()` is called outside any `try`, and it throws a RangeError on an Invalid Date | `new Date(NaN)` (`Date(None, map[])` in the model) | `""`, as the code itself does for every other conversion that can fail (the `try`/`catch` at lines 22-26 and 29-33) | medium, not executed | `Normalize.AsWrittenThrowsOnlyOnInvalidDate` | `Normalize.CorrectedNeverThrows` |

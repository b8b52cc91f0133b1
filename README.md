# datamorph converters in Dafny

This project models the text converters in `index.js` of datamorph and proves properties of them:

- `parseYAML` reads a small YAML subset line by line into JSON-like documents.
- `parseValue` turns a YAML scalar into `{}`, `null`, a boolean, a number or a string.
- `parseFlatFile` reads a delimiter-separated table into records.
- The emission loop of `parseJSONForFlatFile` writes records back as a flat file.

Every loop of the source becomes a Dafny `method` with a loop, proved equal to a recursive specification function. The properties are then proved as lemmas about those functions.

The modules are:

- `Wrappers`: `Option` and `Result`.
- `Text`: the string built-ins the code uses. These are `trim` with ECMAScript whitespace, `search(/\S/)`, `startsWith`, `split` with a string separator, and `join`.
- `Props`: a JavaScript object's own properties as an ordered list of pairs. Assignment keeps an existing key's place and appends a new key.
- `JsNumber`: `Number(string)` and `isNaN` on strings, following the StrNumericLiteral grammar of section 7.1.4.1.1 of ECMA-262. Values are exact reals.
- `Values`: `parseValue`.
- `Heap`: objects and arrays as an arena of nodes addressed by index. In the source, `currentObj`, `currentArray`, the stack frames and `result` share objects, and a write through one is seen through the others. Here those variables hold addresses into one arena, so the sharing is kept.
- `Yaml`: the state machine of `parseYAML` (`Step`, `Run`, `ParseSpec`) and its imperative form (`ParseYAML` and one method per branch). `YamlProps` holds the proved properties.
- `FlatFile` and `FlatFileProps`: `parseFlatFile` and its properties.
- `FlatEmit`: the emission loop of `parseJSONForFlatFile`, over records already decoded from JSON.
- `FlatRoundTrip`: parsing what the emitter writes gives the records back.

The model follows the code where its behaviour may be unexpected:

- **Content before the first `---` throws.** Nothing treats a marker-free input as one document (`YamlProps.MarkerRequired`).
- **A key line without a colon gets the value `undefined`, not `{}`.** `split(":")` then has no second element (`YamlProps.KeyLineWithoutColon`).
- **A list at the end of a document is lost.** A list under a key is stored on its parent only when a later line is indented less (index.js:75). So a list still pending at a `---` line or at the end of the input is never attached. The example in the header comment of `index.js` (`languages:` then `  - JavaScript`) gives `languages: {}`. `YamlProps.PendingListDropped` proves this for any key and item.

## Model

| member | source | states |
|---|---|---|
| Yaml.ParseYAML | index.js:31-114 | The loop over the lines returns exactly `ParseSpec`: line by line `Step`, the missing-marker error, and the final document appended. |
| Yaml.StartDocument | index.js:48-60 | A `---` line gives exactly `Reset`: the document is kept only if it has a key, and a fresh root is allocated with indent 0, empty stack, no array and no key. |
| Yaml.ContentLine | index.js:63-104 | A content line gives `Content`: reindent by `search(/\S/)`, trim, then a list item or a key line. |
| Yaml.Unwind | index.js:65-79 | Indentation handling gives `Reindent`: deeper only records the indent, shallower runs the pop loop. |
| Yaml.PopLoop | index.js:72-78 | The pop loop gives `Dedent`, attaching a pending array to the restored container under the current key at each pop. |
| Yaml.ListLine | index.js:85-89 | A `- item` line gives `ListItem`, with the item coerced by `parseValue`. |
| Yaml.KeyLineStep | index.js:92-103 | A key line gives `KeyLine`: `key:` opens an object and `key: value` stores a value. |
| Yaml.OpenKeyStep | index.js:95-99 | `key:` gives `OpenKey`. |
| Yaml.SetValueStep | index.js:100-103 | `key: value` gives `SetValue` with `parseValue` of the value. |
| Yaml.Step | index.js:44-110 | One turn of the loop keeps the state invariant `Valid`: the heap is closed, closed documents are sealed, containers lie in the current document, and a key is open whenever the stack is non-empty. |
| Yaml.Dedent | index.js:72-78 | The pop loop keeps `Valid`, stays in the same document, and writes only nodes of the current document. |
| Yaml.RunErrExtends | index.js:105-108 | Once a line has thrown, later lines do not change the outcome. |
| YamlProps.RunStarted | index.js:40-49 | `startFound` holds exactly when some line is a `---` marker. |
| YamlProps.RunFails | index.js:46-108 | The loop fails exactly when a content line precedes every marker, and it fails with the missing-marker error. |
| YamlProps.MarkerRequired | index.js:105-108 | `parseYAML` throws exactly when a non-empty line not starting with `#` and not `---` comes before every `---` line, and only with that error, whose message is the one index.js:106-108 throws. |
| YamlProps.Documents | index.js:51-112 | The result is non-empty, every entry is an object, every entry but the last has a key, and every reference points into the heap. The documents are independent: the nodes from one root up to the next root, and from the last root to the end of the heap, refer only to one another, so no document can show another's keys. |
| Yaml.ResetSegmented | index.js:51-58 | At a `---` line the document read so far becomes a closed range that refers only to itself. When it is dropped for having no key, its nodes join the previous document's range without breaking that. |
| YamlProps.MarkerLine | index.js:48-60 | A `---` line keeps the old document exactly when it has a key, and resets every variable to its initial value in a fresh empty root. Earlier nodes are unchanged. |
| YamlProps.StepSeals | index.js:44-110 | One line only extends what the state before it closed. |
| YamlProps.RunSeals | index.js:44-110 | Any later state extends the documents list at its end, and leaves every node below an earlier root untouched. |
| YamlProps.ClosedDocumentsFrozen | index.js:51-55 | Once a document is pushed, its root and every node it can reach keep their contents to the end. |
| YamlProps.PopFrameEffect | index.js:73-77 | One pop restores the saved container and array and lowers the indent by 2. It stores a pending array under the open key, which is never the `null` of an unset key. |
| YamlProps.DedentShape | index.js:72-78 | The pop loop removes the fewest frames that bring the indent to the line's indent or below, or empty the stack. The indent drops by 2 per frame, and the deepest removed frame is resumed. |
| YamlProps.DeeperOnlyIndents | index.js:66-69 | A deeper line only records its indentation and pushes nothing. |
| YamlProps.SetValueEffect | index.js:100-103 | `key: value` stores the coerced value under `key` and changes no other property or existing node. It clears the array context. |
| YamlProps.OpenKeyEffect | index.js:95-99 | `key:` stores a fresh empty object under `key`, pushes exactly one frame holding the container and array it leaves, and descends into the new object. |
| YamlProps.ListItemEffect | index.js:85-89 | `- item` appends the coerced item to an array that becomes the current container and the array context. No other existing node changes, and the stack, key and indent stay. |
| YamlProps.ListItemAppends | index.js:87-88 | With an array context, the item goes at the end of that array. The earlier items and the array's named properties stay. |
| YamlProps.ListItemFresh | index.js:87-88 | Without an array context, a fresh array is created whose only content is the stored item, with no named properties. |
| YamlProps.KeyLineFields | index.js:92 | The key is the trimmed text before the first colon. The value is the trimmed text between the first and second colons, and anything after a second colon is dropped. |
| YamlProps.KeyLineWithoutColon | index.js:92-101 | A line without a colon is a key whose value is `undefined`. |
| YamlProps.WhitespaceLine | index.js:63-101 | A whitespace-only line is not skipped: its indent is -1, and it stores `undefined` under the key `""`. |
| YamlProps.NoMarkerExample | index.js:105-108 | `a: 1` without a marker throws the missing-marker error. |
| YamlProps.PendingListDropped | index.js:75 | `---`, `key:`, `  - item` parses to exactly one document `{key: {}}`. The array holding the item is built, but nothing refers to it. |
| Values.ParseValue | index.js:122-128 | `{}` exactly for the empty string. A number is never NaN. A string result is the input itself, and the result is never `undefined`. |
| Values.ParseOptionalValue | index.js:122-128 | `parseValue` on an argument that is a string or `undefined`. It gives `{}` exactly for `""`. A string result is the argument itself, and an `undefined` result comes only from `undefined`. |
| Values.UndefinedValue | index.js:122-128 | `parseValue(undefined)` is `undefined`: no `===` test matches, and `isNaN(undefined)` holds because ToNumber(undefined) is NaN. |
| Values.StringArgument | index.js:122-128 | On a string the chain is `ParseValue`, and it never yields `undefined`. |
| Values.KeywordValues | index.js:123-125 | `""` gives `{}`, `null` and `~` give null, and `true` and `false` give the booleans. |
| Values.DecimalIsNumber | index.js:126 | Decimal text (optional `-`, digits, optional `.digits`) coerces to the exact number it denotes. |
| Values.IntegerRoundTrip | index.js:126 | Every integer written in decimal coerces back to that integer. |
| Values.ParseValueOfLiteral | index.js:126 | Trimmed non-keyword text that is a numeric literal coerces to that literal's number. |
| Values.NonKeywordValue | index.js:126-127 | For any text other than `""` and the keywords, the result is the very same string exactly when `Number` rejects the text (it is not blank after trimming and not a numeric literal), and otherwise it is the number `Number` gives. So `Iowa`, `12abc`, `-foo`, `.hidden`, `1.2.3` and `+` stay strings. |
| Values.TextStaysString | index.js:127 | A corollary: non-keyword text whose first character cannot begin a number is returned unchanged. |
| Values.QuotesKept | index.js:127 | Quoted text stays a string with its quotes. |
| JsNumber.StringToNumber | index.js:126 | `Number(s)` is NaN exactly when the trimmed text is non-empty and not a numeric literal. |
| JsNumber.NumericLiteral | index.js:126 | A literal never denotes NaN. |
| Heap.SetProp | index.js:96 | `obj[key] = v` on one node sets `key` and leaves the node's kind, its items and every other node alone. |
| Heap.PushItem | index.js:88 | `array.push(v)` appends to one node's items and leaves every other node alone. |
| Heap.Materialize | index.js:123 | `{}` is a freshly allocated node, and a primitive is stored as itself. |
| Props.Lookup | index.js:99 | A key is absent exactly when it is not among the object's keys. |
| Props.LookupFirst | index.js:99 | A value found is that of the first property with the key. |
| Props.Assign | index.js:173 | After `obj[key] = v`, `key` holds `v`. |
| Props.AssignLookup | index.js:173 | Assignment changes the value under `key` and no other. |
| Props.AssignKeys | index.js:173 | Assignment keeps the key order and appends a new key last. |
| Props.AssignDistinct | index.js:173 | Assignment keeps keys distinct. |
| Props.AssignAllLookup | index.js:170-174 | After assigning keys in turn, a key holds the value assigned last under it. |
| Props.AssignAllZip | index.js:170-174 | With distinct keys, the object lists the keys in order, each with its value. |
| Text.Trim | index.js:159 | The result neither starts nor ends with whitespace and is no longer than the input. |
| Text.TrimEmpty | index.js:161 | Trimming gives `""` exactly when the line is all whitespace. |
| Text.TrimOf | index.js:159 | Trim keeps exactly the trimmed core between two whitespace runs. |
| Text.FirstNonWhitespace | index.js:65 | `search(/\S/)` is -1 exactly for all-whitespace text, and otherwise the first non-whitespace index. |
| Text.JoinSplit | index.js:152 | Joining the pieces of a split restores the text. |
| Text.SplitJoin | index.js:164-167 | Splitting a join restores the pieces when no piece shares a character with the separator. |
| Text.SplitFirst | index.js:92 | A piece without the separator character ends at its first occurrence. |
| Text.TrimAll | index.js:92 | `map(trim)` trims every piece in place. |
| FlatFile.ParseFlatFile | index.js:151-185 | `parseFlatFile` returns exactly `FlatSpec`: the header is the first non-blank trimmed line, and rows become records or the mismatch error. |
| FlatFile.ScanAll | index.js:158-184 | The loop over the lines gives the fold of `Step`, stopping at the first error. |
| FlatFile.ScanLine | index.js:158-183 | One turn skips a blank line, takes the first non-blank line as the header, and handles a data line otherwise. |
| FlatFile.DataLine | index.js:167-181 | A data line with the header's field count is appended as a record. Otherwise it throws with the line. |
| FlatFile.BuildRecord | index.js:169-174 | The inner loop builds `RowRecord`: trimmed key to trimmed cell, one after another. |
| FlatFile.ScanIsSummary | index.js:158-184 | The loop's state is determined by the non-blank trimmed lines: header first, then rows. |
| FlatFile.FlatSpecByScan | index.js:151-185 | `FlatSpec` is the loop's result. |
| FlatFile.RowsErrSticky | index.js:177-180 | Once a row has failed, later rows do not matter. |
| FlatFileProps.RowsOk | index.js:167-181 | The rows parse exactly when every row has the header's field count, and then row `j` gives record `j`. |
| FlatFileProps.FirstMismatch | index.js:176-180 | The error names the first row with the wrong field count. |
| FlatFileProps.FlatSpecRecords | index.js:151-185 | With `nb` the non-blank trimmed lines, the parse succeeds exactly when every later line matches the header's field count. It then gives `|nb| - 1` records, record `j - 1` built from line `j`. |
| FlatFileProps.FlatSpecMismatch | index.js:176-180 | The first line after the header with the wrong field count is the one reported. |
| FlatFileProps.RowsErrFirst | index.js:168-180 | Conversely, an error always names a row with the wrong field count, and every row before it matched. |
| FlatFileProps.FlatSpecFailure | index.js:168-180 | When `parseFlatFile` throws, the message is the fixed text followed by the line, and that line is the first non-blank line after the header whose field count differs from the header's. |
| FlatFileProps.NonBlankLines | index.js:159-161 | The lines looked at are trimmed and never blank. |
| FlatFileProps.BlankLinesIgnored | index.js:161 | Adding a blank line anywhere changes nothing. |
| FlatFileProps.RowRecordDistinct | index.js:169-174 | A record never holds a field name twice, even when the header repeats one. |
| FlatFileProps.RowRecordLookup | index.js:171-173 | A field's value is the trimmed cell under the last header field with that trimmed name. |
| FlatFileProps.RowRecordMissing | index.js:171-173 | A name that no trimmed header field has is not in the record. |
| FlatFileProps.RowRecordZip | index.js:169-174 | With distinct trimmed header fields, the record lists them in order, each with the trimmed cell below it. |
| FlatEmit.EmitFlatFile | index.js:213-222 | The loop returns exactly `EmitSpec`: the first record's keys, then every record's values, each line joined by the data separator and followed by the line separator. |
| FlatEmit.Lines | index.js:218-221 | There are no lines for no records. Otherwise there is one more line than there are records: line 0 holds the first record's keys, and line `i + 1` holds record `i`'s values. |
| FlatEmit.EmitEmpty | index.js:213-223 | No records give `""`. |
| FlatEmit.EmitShape | index.js:218-221 | The output is the header line and separator, followed by each value line and separator. |
| FlatEmit.EmitFirstKeysOnly | index.js:218-221 | The keys of records after the first are never written. |
| FlatEmit.TerminatedCons | index.js:219-221 | Terminated lines read from the front: the first line, its separator, then the rest. |
| FlatRoundTrip.NonBlankOfTerminated | index.js:152-161 | The lines of emitted text are read back as they were, with `\n` or `\r\n`, because the parser trims the `\r`. |
| FlatRoundTrip.RecordRestored | index.js:169-174 | A record with distinct trimmed keys and trimmed values is rebuilt from its keys and values. |
| FlatRoundTrip.RoundTrip | index.js:151-222 | `parseFlatFile(parseJSONForFlatFile(records))` gives the records back. This holds for either documented line separator, a non-empty data separator with no line break that neither begins nor ends with whitespace, and tabular records: non-empty, all with the first record's distinct keys, every key and value trimmed and free of line breaks and separator characters, and no line empty. |

## Left out

- `JSON.stringify` and `JSON.parse` are library calls. The YAML output is the heap and the list of document roots, and the emitter takes records already decoded into ordered key/value pairs.
- JsNumber.StringToNumber: finite values are exact reals. Rounding to IEEE-754 doubles, overflow to infinity, and negative zero are not modelled.
- Strings are sequences of characters, each standing for one Unicode code point. JavaScript strings are UTF-16 code units; surrogate pairs, lone surrogates and normalisation are not modelled.
- `Object.keys` puts integer-like keys first in JavaScript. `Props` keeps plain insertion order. `__proto__` and other special keys are treated as ordinary keys.
- Heap.SetProp: a key written onto an array (a `key: value` or `key:` line right after a list item, as used by `Yaml.SetValue` and `Yaml.OpenKey`, or a pending array stored by `Yaml.PopFrame` into a popped container that is itself an array because its `key:` line came right after a list item, index.js:73-75) goes into the array node's `props`, and the write always succeeds. JavaScript treats such keys in ways the model does not capture:
  - An index-like name such as `0` writes an element of the array.
  - The name `length` sets the array's length. A value that is a valid length resizes the array: `0`, `null` and `false` empty it, `true` or a whole number below 2^32 truncates it or pads it with holes. Any other value throws a RangeError ("Invalid array length"): a string such as `abc`, a fraction or a negative number, `{}` from `length:` (index.js:96), and `undefined` from a bare `length` (index.js:102). So `---`, `a:`, `  - x`, `  length: abc` throws in JavaScript but parses here.
  - JSON serialisation drops every other named property of an array.
- The emitter's values are strings. Numbers, booleans, `null` and nested values in decoded JSON, and how `join` renders them, are not modelled.
- The separators are strings. A non-string `dataSeparator` (for example a regular expression) is not modelled.
- The `convert*` wrappers add only JSON serialisation, and are not modelled.
- The INI converters named by the tests are not defined in `index.js`. `test/test.js` logs results without checking them, so it gives no property to model.

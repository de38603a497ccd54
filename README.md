# vCard parser model

A Dafny model of `parser.js`, the vCard parser behind `vCardParser.parse`.
`parse` takes the text of one or more vCards and returns a list of card
objects. Along the way it sends notices to `info` and `error`. The model
follows the code step by step:

- **Unfolding and splitting** (module `Unfolding`). Every `\n` that is
  followed by a whitespace character is deleted together with that
  character; a `\n` followed by anything else stays. The text is then cut
  at each line break (`\r\n`, `\r` or `\n`) that is followed by a
  non-whitespace character.
- **Tokenizing a line** (module `Tokenizer`).
  - A line that starts with `item` is replaced by the text after the
    leftmost `item<digit>.` found anywhere in it, up to the first line
    terminator; when there is no such match the line throws.
  - The field name is the text before the first `:`; the value is the rest,
    colons included.
  - When a `;` comes before the first `:`, the name is split into the field
    name and `name=value` parameters. Parameter names are lower-cased. One
    pair of double quotes is stripped from each value.
  - The field name is upper-cased.
- **The tables** (module `Registry`).
  - `fieldPropertyMapping` maps a field name to an attribute name.
  - `lookupField` falls back to the field name itself and sends a notice.
  - `fieldParsers` maps a field name to its interpreter.
- **The interpreters** (module `Interpreters`), which store a field into the
  card under construction:
  - `singleLine` appends text.
  - `typedLine` appends a typed entry with `isDefault` and `valueInfo`.
  - `addressLine` is a typed entry holding a seven-part address.
  - `commaSeparatedLine` stores a list.
  - `structured` stores the named `;` parts.
  - `dateLine` stores an ISO date or `null`.
  - `endCard` commits the card and starts a new one.
- **`feedData` and `parse`** (module `Parser`).
  - The class `Context` is the context object. Its fields are the lines,
    the card under construction, the finished cards and the notices.
  - Its methods are the handlers. `FeedData` is the loop, proved equal to
    the fold `Feed`.
  - Module `ParserProperties` proves what the whole parse guarantees:
    - one card per END line;
    - nothing after the last END line is kept;
    - every attribute has one fixed shape;
    - no entry is ever marked as the default.

The code throws in three places. The model turns each into a `Crash` value
and stops the loop there:

- `match` finds no `item<digit>.` (line 32);
- a parameter has no `=` (line 183);
- TEL, EMAIL or ADR arrives before any line has carried parameters
  (line 54).

`Parse` then returns `Failure` together with the notices sent before the
throw.

Behaviour of the code that the model keeps as written:

- **The parameter list carries over.** `fieldTypeInfo` is declared with
  `var` inside the loop, so it keeps its value from earlier lines. A typed
  line without parameters reuses the last list seen on any earlier line,
  even one from another field or another card
  (`ParserProperties.CarriedIsLatest`).
- **`isDefault` is never true.** Parameter names are lower-cased (line 182)
  and then compared with `'PREF'` (line 55), so the comparison never matches
  and a `PREF` parameter stays in `valueInfo` as `pref`
  (`ParserProperties.ParseCardsShapedWithoutDefaults`).
- **Only the first `\n` escape is converted.** `replace('\\n', '\n')` with a
  string pattern replaces the first occurrence only
  (`Interpreters.UnescapeOnlyFirst`).
- **Unfolding takes any whitespace.** Unfolding deletes a newline followed by
  any one whitespace character, a newline included, not only a space or a
  tab.
- **`number` can be missing.** An address value without `;` leaves `number`
  undefined, while the other parts default to `''`.
- **Months start at 0.** `dateLine` passes the month digits of an
  eight-digit date straight to `new Date(year, month, day)`, which counts
  months from 0. The oracle that stands for `Date` receives those digits
  unchanged.

## Model

| member | source | states |
|---|---|---|
| Text.Lower | parser.js:182 | `toLowerCase` keeps the length, leaves no upper-case letter, and changes nothing else |
| Text.Upper | parser.js:189 | `toUpperCase` keeps the length, leaves no lower-case letter, and changes nothing else |
| Text.CaseRoundTrip | parser.js:189 | upper-casing after lower-casing is the same as upper-casing, and the other way round |
| Text.IndexOf | parser.js:176 | `indexOf` is -1 exactly when the character is absent; otherwise it is the position of its first occurrence |
| Text.Split | parser.js:170 | `split` yields at least one piece, and no piece contains the separator |
| Text.JoinSplit | parser.js:170-173 | joining the pieces of a split with the separator gives back the text |
| Text.SplitJoin | parser.js:170-173 | splitting a join of separator-free pieces gives back the pieces |
| Text.SplitNoSeparator | parser.js:170 | text without the separator splits into itself alone |
| Text.SplitAtFirst | parser.js:170-173 | a split is the text before the first separator followed by the split of the rest |
| Text.SplitPieces | parser.js:119 | there is more than one piece exactly when the separator occurs |
| Text.SplitHeadAndRest | parser.js:170-173 | the first piece is the text before the first separator, and the other pieces joined are the text after it |
| Unfolding.Unfold | parser.js:210 | unfolding never lengthens the text; `UnfoldLeftmost` and `UnfoldFixpoint` pin down what it deletes |
| Unfolding.UnfoldExample | parser.js:210 | a folded value `1\n 2` is joined into `12` |
| Unfolding.UnfoldKeepsHead | parser.js:210 | text that does not begin with a newline keeps its first character |
| Unfolding.UnfoldRemovesMarkers | parser.js:210 | no newline followed by whitespace is left after unfolding |
| Unfolding.UnfoldLeftmost | parser.js:210 | the leftmost newline-plus-whitespace pair is deleted, the text before it is kept unchanged, and unfolding resumes after the pair; with `UnfoldFixpoint` (text without a pair is unchanged), only those pairs are ever deleted |
| Unfolding.UnfoldFixpoint | parser.js:210 | unfolding leaves the text unchanged exactly when it holds no newline followed by whitespace |
| Unfolding.UnfoldIdempotent | parser.js:210 | unfolding twice is unfolding once |
| Unfolding.BreakLen | parser.js:212 | a line break matches at most two characters and never the last character of the text |
| Unfolding.SplitLines | parser.js:212 | there is one more line than there are breaks |
| Unfolding.SplitLinesJoin | parser.js:212 | putting the breaks back between the lines restores the text |
| Unfolding.SplitLinesShape | parser.js:212 | each break is `\r\n`, `\r` or `\n` and is followed by a non-whitespace character |
| Unfolding.SplitLinesHead | parser.js:212 | text that starts with neither `\r` nor `\n` starts its first line |
| Unfolding.SplitLinesFirstLine | parser.js:212 | the first line is a prefix of the text, no break matches inside it, and inside it every `\r` or `\n` is followed by a whitespace character |
| Unfolding.SplitLinesLeftmost | parser.js:212 | the text is cut at its leftmost break first; the rest is split the same way |
| Unfolding.NoFoldMarkerInLines | parser.js:208-212 | splitting unfolded text leaves no newline followed by whitespace inside any line |
| Unfolding.LogicalLinesShape | parser.js:208-212 | `parse` works on at least one line; every line after the first begins with a non-whitespace character; no line holds a newline followed by whitespace |
| Tokenizer.RunEnd | parser.js:32 | `.` matches up to the first line terminator |
| Tokenizer.FindItem | parser.js:32 | the regular expression matches at the leftmost `item<digit>.` |
| Tokenizer.RemoveItemPrefix | parser.js:30-33 | a line not starting with `item` is unchanged. Otherwise the result is what follows the leftmost `item<digit>.`, up to the first line terminator; with no such group the code throws |
| Tokenizer.HeadAndValue | parser.js:170-173 | the value is everything after the first colon, colons included, and the head everything before it; without a colon the value is empty |
| Tokenizer.HasParamsIff | parser.js:176 | parameters are present exactly when a `;` precedes the first `:` |
| Tokenizer.LastQuote | parser.js:183 | the last double quote in a range is found, or there is none |
| Tokenizer.QuotePairsFrom | parser.js:183 | from an opening quote, `"(.*)"` can close at exactly the quotes before the next line terminator |
| Tokenizer.QuoteMatch | parser.js:183 | the match takes the leftmost opening quote and the last possible closing quote |
| Tokenizer.StripQuotes | parser.js:183 | a value without a quoted run is unchanged. Otherwise the result is the value with exactly two characters deleted: the leftmost `"` that has a partner before the next line terminator, and the last such partner |
| Tokenizer.ParseParam | parser.js:180-184 | a parameter parses exactly when its segment holds `=`. Its name is the lower-cased text before the first `=`; its value is the unquoted text up to the second `=` |
| Tokenizer.ParseParams | parser.js:179-185 | the parameter list exists exactly when every segment has `=`, and its i-th element comes from the i-th segment |
| Tokenizer.Tokenize | parser.js:168-189 | a line whose `item` prefix has no match fails with that crash; otherwise the result is `TokenizeField` of the line without its prefix. The field name has no lower-case letter, parameter names have no upper-case letter, and these two crashes are the only failures |
| Tokenizer.TokenizeField | parser.js:170-189 | the field name has no lower-case letter, parameter names have no upper-case letter, and the only failure is a parameter without `=` |
| Tokenizer.TokenizeSpec | parser.js:170-189 | the token's value, name and parameters are exactly those the text dictates: the value follows the first colon; parameters exist exactly when a `;` precedes it; the name is the upper-cased text before the first `;` (or the whole head); the i-th parameter comes from the i-th segment |
| Tokenizer.TokenizeFailure | parser.js:176-185 | tokenizing fails exactly when there are parameters and one of their segments lacks `=` |
| Registry.LookupField | parser.js:18-28 | a mapped field gives its attribute and no notice; BEGIN and END give nothing; any other field gives itself and one notice |
| Registry.IsExtension | parser.js:197 | the `X-` prefix test; `ParserProperties.FeedLineBookkeeping` states that such a field only updates the carried parameters |
| Registry.FieldNames | parser.js:144-162 | `fieldParsers` has exactly these 17 field names |
| Registry.PropertyNames | parser.js:3-16 | `fieldPropertyMapping` has exactly these 12 field names, and no two of them map to the same attribute |
| Registry.ShapesAgree | parser.js:144-162 | every storing interpreter gets an attribute name of the shape it stores |
| Registry.HandlerKinds | parser.js:144-162 | exactly END commits a card; exactly TEL, EMAIL and ADR are typed; exactly BEGIN and VERSION do nothing |
| Registry.RegistryGaps | parser.js:144-162 | every mapped field has an interpreter, and exactly VERSION, NICKNAME and UID send the missing-name notice |
| Interpreters.FirstEscape | parser.js:38 | the first `\n` escape is found, or there is none |
| Interpreters.UnescapeFirst | parser.js:38 | the first `\n` escape becomes a newline; the rest is untouched |
| Interpreters.UnescapeOnlyFirst | parser.js:38 | a second escape on the same line stays escaped |
| Interpreters.AppendText | parser.js:35-47 | non-empty text gains a newline and the new value; otherwise the value replaces it; no other attribute changes |
| Interpreters.AppendAll | parser.js:35-47 | repeated text fields leave a text attribute |
| Interpreters.DropLeadingEmpty | parser.js:41-45 | the kept values start with a non-empty one |
| Interpreters.DropLeadingEmptySnoc | parser.js:41-45 | an empty value before any text is lost; after text it is kept |
| Interpreters.JoinSnoc | parser.js:42 | appending a value adds one newline and the value |
| Interpreters.RepeatedFieldsAccumulate | parser.js:35-47 | a run of text fields stores their unescaped values joined by newlines, with leading empty values dropped |
| Interpreters.WithoutPref | parser.js:54-57 | the kept parameters are exactly those not named `PREF`, and there are never more of them than before |
| Interpreters.WithoutPrefAppend | parser.js:54-57 | `filter` keeps the order: filtering a concatenation concatenates the filtered parts |
| Interpreters.WithoutPrefOne | parser.js:54-57 | a single parameter is kept exactly when it is not named `PREF` |
| Interpreters.WithoutPrefLastNamed | parser.js:54-57 | the last parameter with a given name other than `PREF` is still the last one with that name after filtering |
| Interpreters.SetProperty | parser.js:60 | assigning `p[name]` sets that key and keeps every other key, except that a `__proto__` key leaves the object unchanged |
| Interpreters.ValueInfo | parser.js:59-62 | `valueInfo` has one key per parameter name except `__proto__` |
| Interpreters.ValueInfoLastWins | parser.js:59-62 | a repeated parameter name keeps the value of its last occurrence |
| Interpreters.FilteredValueInfo | parser.js:54-62 | after filtering and reducing, each name other than `PREF` and `__proto__` holds the value of its last parameter |
| Interpreters.TypedEntry | parser.js:49-70 | `isDefault` holds exactly when a parameter is named `PREF`; `valueInfo` never has a `PREF` key, has every other name except `__proto__` as a key, and maps it to the value of the last parameter with that name; the value is formatted only when a formatter is given |
| Interpreters.AppendEntry | parser.js:64-70 | exactly one entry is appended, earlier ones are kept, the list is created on first use, and no other attribute changes |
| Interpreters.StructuredValue | parser.js:104-109 | the value has one key per field name except `__proto__`; with distinct field names the i-th field holds the i-th `;` piece of the value, or `''` when there are fewer pieces |
| Interpreters.Structure | parser.js:104-109 | the structured value has one key per field name except `__proto__` |
| Interpreters.StructureAt | parser.js:104-109 | the i-th field holds the i-th `;` part, or `''` when there are fewer parts |
| Interpreters.StructuredRoundTrip | parser.js:100-113 | parts joined with `;` come back out under their field names |
| Interpreters.FormatAddress | parser.js:117-130 | `postOfficeBox` is the text before the first `;`; `number` is defined exactly when there is a `;` and is then the second piece; street, city, region, postal code and country are the third to seventh pieces, each `''` when the value has fewer pieces |
| Interpreters.AddressRoundTrip | parser.js:117-130 | the seven parts joined with `;` are read back as the same address |
| Interpreters.DateInputOf | parser.js:81-90 | an 8- or 16-character value reaches `Date` as year, month and day of 4, 2 and 2 characters that together are its first eight characters; any other value reaches it whole |
| Interpreters.ParseDate | parser.js:78-98 | the stored date is what `Date` makes of `DateInputOf` of the value; a notice is sent exactly when that is invalid, and it is then one error notice naming the value, cut to 8 characters when it had 16 |
| Interpreters.DateTimeIgnored | parser.js:81 | a 16-character value is read exactly as its first eight characters alone |
| Interpreters.DateRoundTrip | parser.js:84-86 | year, month and day digits written in a row, with or without an 8-character time after them, reach `Date` unchanged |
| Parser.Interpret | parser.js:144-162 | an interpreter keeps each attribute in its one shape and leaves the carried parameters alone; the only way it throws is a typed field without parameters |
| Parser.Carry | parser.js:172-186 | the token's own parameter list, or else the carried one; `ParserProperties.CarriedIsLatest` states its effect over many lines |
| Parser.UnknownField | parser.js:199 | the info notice for an unknown field; `ParserProperties.FeedLineBookkeeping` states that sending it is the only effect of such a line |
| Parser.FeedToken | parser.js:191-200 | a tokenized line keeps each attribute in its one shape |
| Parser.FeedLine | parser.js:166-202 | one loop step keeps each attribute in its one shape |
| Parser.Feed | parser.js:164-204 | the loop keeps each attribute in its one shape |
| Parser.Context.constructor | parser.js:214-224 | a new context has the lines, an empty card, no cards and no notices |
| Parser.Context.Info | parser.js:215-217 | `info` adds one notice and changes no card |
| Parser.Context.Error | parser.js:218-220 | `error` adds one notice and changes no card |
| Parser.Context.LookupField | parser.js:18-28 | the method returns what `lookupField` gives and sends its notice |
| Parser.Context.SingleLine | parser.js:35-47 | the card becomes the text-appended card |
| Parser.Context.TypedLine | parser.js:49-72 | without parameters the method throws and the card is unchanged; otherwise one typed entry is appended |
| Parser.Context.CommaSeparatedLine | parser.js:74-76 | the attribute is overwritten with the comma pieces |
| Parser.Context.Structured | parser.js:100-113 | the attribute is overwritten with the structured value |
| Parser.Context.DateLine | parser.js:78-98 | the attribute holds the date or `null`, and the error notice is sent when the date is invalid |
| Parser.Context.AddressLine | parser.js:115-133 | this is `typedLine` with the address formatter |
| Parser.Context.EndCard | parser.js:138-142 | the card is committed and a new empty card started |
| Parser.Context.Dispatch | parser.js:191-195 | calling the table's interpreter does what `Interpret` says |
| Parser.Context.FeedOne | parser.js:168-200 | one pass of the loop body does what `FeedLine` says |
| Parser.Context.FeedData | parser.js:164-204 | the loop leaves the context as the fold `Feed` over the lines says |
| Parser.ParseSpec | parser.js:206-229 | `parse` as a function: unfold, split, run the loop from an empty state; `ParserProperties.ParseCardCount` and `ParserProperties.ParseCardsShapedWithoutDefaults` state what it guarantees |
| Parser.Parse | parser.js:206-229 | `parse` returns the cards of the fold over the unfolded, split text, or its crash, with the notices sent |
| Parser.CrashSticks | parser.js:164-204 | after a throw the remaining lines change nothing |
| Parser.FeedAppend | parser.js:166 | feeding two runs of lines in turn is feeding their concatenation |
| ParserProperties.InterpretEffects | parser.js:135-162 | only `endCard` adds a card, and it leaves an empty card; `noop` changes nothing. An interpreter throws exactly when it is typed and no parameters are carried |
| ParserProperties.FeedTokenEffects | parser.js:191-200 | a tokenized line adds a card exactly when it is END, and then leaves an empty card. It carries its own parameters, or else the earlier ones. BEGIN changes nothing else and VERSION only sends its notice. It throws exactly when it is TEL, EMAIL or ADR with no parameters carried |
| ParserProperties.FeedLineCards | parser.js:138-142 | a line adds a card exactly when it is an END line and nothing has thrown; the card added is the one under construction |
| ParserProperties.FeedLineBookkeeping | parser.js:172-200 | parameters carry over from earlier lines. BEGIN and X- fields change nothing else; VERSION and unknown fields only send their notice |
| ParserProperties.FeedLineCrash | parser.js:176-195 | a line throws exactly when it does not tokenize, or when it is TEL, EMAIL or ADR and no parameters have been seen on it or before it |
| ParserProperties.LatestIsLast | parser.js:172-186 | the latest list is the one of the last line that has one, or the starting list when no line has one |
| ParserProperties.CarriedLatest | parser.js:166-202 | until a line throws, the loop carries the latest parameter list of the lines read |
| ParserProperties.CarriedIsLatest | parser.js:172-186 | the parameter list a line sees is the one of the last earlier line (or the line itself) that had one, whatever field or card that was; before any such line it is the starting one |
| ParserProperties.CardCount | parser.js:164-204 | finished cards are never changed or lost, and without a throw there is one card per END line |
| ParserProperties.NoEndNoCard | parser.js:138-142 | lines without END add no card |
| ParserProperties.TrailingLinesDropped | parser.js:206-229 | whatever follows the last END line leaves the returned cards as they were |
| ParserProperties.ParseCardCount | parser.js:206-229 | `parse` returns one card per END line of the unfolded text |
| ParserProperties.LowerNamesNoPref | parser.js:51-57 | a list of lower-cased parameter names never contains `PREF` |
| ParserProperties.AppendKeepsNoDefaults | parser.js:64-70 | appending a non-default entry keeps every entry non-default |
| ParserProperties.InterpretClean | parser.js:144-162 | every interpreter keeps the cards well shaped and free of default entries |
| ParserProperties.FeedLineClean | parser.js:166-202 | one loop step keeps that invariant |
| ParserProperties.FeedClean | parser.js:164-204 | the whole loop keeps that invariant |
| ParserProperties.ParseCardsShapedWithoutDefaults | parser.js:206-229 | every returned card holds each attribute in its one shape, and no typed entry is marked as the default |

## Left out

- `Date` (parser.js:86, 89, 92, 97) is a parameter of type `DateOracle`. It maps the parsed year/month/day digits, or the raw text, to an ISO string or to invalid. The model does not compute calendars, time zones or `toJSON`.
- `console.info` and `console.error` (parser.js:215-220) are modelled as a log of `Notice` values that `Parse` returns.
- Text.Lower and Text.Upper: only ASCII letters change case. JavaScript's full Unicode case mapping, including mappings that change length, is not modelled.
- Strings are sequences of characters. JavaScript's UTF-16 lengths and indices differ for characters outside the Basic Multilingual Plane (this matters for the `length === 16` test at parser.js:81).
- The surrounding module pattern (parser.js:1, 231-235) and the `vCardParser` global are not modelled.
- JavaScript object key order is not modelled: cards, `valueInfo` and structured values are maps.
- Parser.Interpret requires that each attribute hold the one shape its interpreter stores, which every run of `parse` maintains. The code's behaviour when a different interpreter has already stored another kind of value under the same attribute is not modelled, since `fieldParsers` and `fieldPropertyMapping` give no two interpreters of different shapes the same attribute.
- Property lookups that could reach `Object.prototype` are not modelled. The only case that can arise is a `__proto__` key, which is modelled as ignored. Field names are upper-cased, and no prototype property is upper case.
- A throw ends the parse with `Failure`: the cards finished before it are not returned, just as `parse` returns nothing when it throws.

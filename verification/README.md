# vCard parser, validator and writer in Dafny

This project models the C card library in `src/VCParser.c` and
`src/VCHelpers.c`. The library reads a vCard 4.0 file into a `Card`, checks a
card, and writes a card back out. The model follows the C code rather than
RFC 6350.

## The library's operations

- **createCard** (`Parser.CreateCard`) checks the file name's extension
  (`.vcf` or `.vcard`, ignoring case). It then reads the file line by line:
  - every line must end in CR LF;
  - the first line must be `BEGIN:VCARD`;
  - the first `VERSION:4.0` line is consumed;
  - `END:VCARD` stops the loop;
  - a line starting with a space or a tab continues the previous line.

  Each completed logical line goes to the field parser. At the end, BEGIN,
  VERSION, END and a name must all have been seen.
- **createCardHelper** (`Helpers.CreateCardHelper`) applies one logical line
  to the card:
  - the first `FN:` line sets the name;
  - `BDAY…`/`ANNIVERSARY…` lines go to the date sub-parser, and the last one
    wins;
  - header lines and lines without a colon change nothing;
  - any other `FN…` line is INV_PROP;
  - everything else goes to the generic parser. That parser reads
    `group.name;p=v;…:values`, drops duplicate parameters
    (**addParameter**/**parameterExists**) and splits values on `;` for N,
    ADR and TEL, and on `,` otherwise.
- **validateCard** (`Validator.ValidateCard`): the first failing check
  decides the error code.
- **writeCard** (`Writer.WriteCard`) produces the CR LF text of the file.
  Opening the file is the `writable` parameter.
- **cardToString** (`Writer.CardToString`) produces the LF-terminated display
  text. It lists the first `N` property before the others, leaves out every
  other `N` property, and shows no groups. It joins the `N` values with `;`
  and every other property's values with `,`. It always writes the
  anniversary's `T`.

## How createCard is modelled

The reading loop is modelled twice:
- `ReadLine`/`ReadLoop` follow the C loop one statement at a time.
- `UnfoldFrom`/`ApplyAll` first unfold the physical lines into logical lines,
  then apply the field parser.

`Parser.ParseLinesIsReference` proves that the two agree.

## What the round-trip results cover

The round-trip lemmas say which cards survive `writeCard` followed by
`createCard` (`CardRoundTrip.WriteThenCreateCard`). Counterexample lemmas
show where the two disagree:
- The writer joins values with `;` for every name except GEO, NOTE and
  CATEGORIES. The parser splits on `,` for every name except N, ADR and TEL.
  So a two-valued EMAIL does not come back as written.
- A date written as `…Z` with `utc` false is read back with `utc` true.

## Where the code and its comments differ

writeCard writes the birthday and anniversary lines right after FN. It then
writes every optional property in list order. The comment at
src/VCParser.c:815 says that the N line should be followed immediately by
the birthday and anniversary lines, but the loop below it does not do this.
The model follows the code (`Writer.CardLinesLayout`). writeCard writes a
date's `T` only when the time is non-empty. cardToString differs from
writeCard in both respects: it lists the first `N` property before the
others and always writes the anniversary's `T`.

Section 3.2 of RFC 6350 unfolds lines before anything else reads them. The
reading loop instead compares each physical line with `VERSION:4.0` and
`END:VCARD` before it joins continuation lines (src/VCParser.c:91-102). So
folding a line is invisible to createCard except where a piece or the
joined line is one of those two markers: `END:VCARD` folded as `END:VCA`
and ` RD` is not seen as the end line, and the card is rejected
(`Parser.FoldedEndNotSeen`). The folding lemmas state exactly this
exception.

## Model

| member | source | states |
|---|---|---|
| Strings.Split | src/VCHelpers.c:327-338 | The value loop: there is always at least one piece, no piece contains the delimiter, and joining the pieces with the delimiter gives back the input. |
| Strings.Tokens | src/VCHelpers.c:292-323 | The strtok loop: every token is non-empty and free of the delimiter, and the set of tokens is the set of non-empty pieces of the input cut at every delimiter. Order and repeats are stated by `Strings.TokensAreStrtok`. |
| Strings.TokensAreStrtok | src/VCHelpers.c:292-323 | The tokens equal, in order and with repeats, what successive strtok calls return (`Strings.Strtok`): leading delimiters are skipped, a token runs to the next delimiter, and the search goes on after it. |
| Strings.NonEmptyAppend | src/VCHelpers.c:292-323 | Dropping empty pieces from a concatenation drops them from each part, so the tokens of consecutive stretches come in order. |
| Strings.Contains | src/VCHelpers.c:126 | strstr succeeds iff the pattern occurs at some index. |
| Strings.IndexOf | src/VCHelpers.c:115 | strchr: the result is the first occurrence of the character, or the length when it is absent. |
| Strings.SplitJoin | src/VCHelpers.c:332-338 | Splitting a join gives back the pieces when no piece contains the delimiter. |
| Helpers.ValueDelimiter | src/VCHelpers.c:327 | Values are split at `;` iff the name is exactly N, ADR or TEL, and at `,` otherwise. |
| Helpers.ParameterExists | src/VCHelpers.c:11-23 | True iff the exact name/value pair is already in the list. |
| Helpers.AddParameter | src/VCHelpers.c:25-38 | The old list is a prefix of the new one, which grows by at most one. The members are the old ones plus the pair. A duplicate-free list stays duplicate-free. |
| Helpers.AddParameterTokens | src/VCHelpers.c:292-323 | The parameter loop fails, always with INV_PROP, iff some token has no `=` or an empty name or value. On success the list only grows at the end and stays duplicate-free and well formed. Its members are exactly the old ones plus one parameter per token: the text before the token's first `=` as name and the rest as value. Starting from a duplicate-free list, the result is that list followed by the tokens' parameters in token order, each repeat dropped at its later occurrence (`CardModel.Dedup`). |
| Helpers.ParseParameters | src/VCHelpers.c:259-323 | Success iff every `;`-separated token is well formed. The result has no duplicates and no empty names or values. Its members are exactly the parameters read from the non-empty tokens, each cut at its first `=`. Their order is stated by `Helpers.ParametersInTokenOrder`. |
| Helpers.ParametersInTokenOrder | src/VCHelpers.c:259-323 | On success the parameter list is the parameters of the strtok tokens, in token order, with each later repeat of a name/value pair dropped. |
| CardModel.DedupMembers | src/VCHelpers.c:11-38 | Keeping the first occurrence of each element leaves a list without repeats and with the same members. |
| CardModel.DedupDistinct | src/VCHelpers.c:11-38 | A list without repeats is left as it is. |
| Helpers.SplitNameAndParameters | src/VCHelpers.c:259-264 | The input is the name followed, when it has a `;`, by that first `;` and the raw parameters. The name has no `;`, and without a `;` the raw parameters are empty. |
| Helpers.SplitHead | src/VCHelpers.c:235-264 | Without a `.` the group is empty and the whole head is cut at its first `;` into name and raw parameters. With a `.` the group is the text before the first `.`, and the text after that `.` is cut the same way. |
| Helpers.ParseProperty | src/VCHelpers.c:218-340 | Succeeds iff the head before the first colon has a non-empty name and its parameters parse; failure is INV_PROP. On success the group, name and parameters are those read from the head. The values, free of the name's delimiter, join back to exactly the text after the colon. The property is well formed. |
| Helpers.PropertyOf | src/VCHelpers.c:235-338 | The same, for a head and a text already cut at the colon. |
| Helpers.ParsedPropertyText | src/VCHelpers.c:218-338 | A parsed property's values, joined with the name's delimiter, give exactly the text after the first colon. No value contains that delimiter. The group has no `.` or `:` and the name has no `:` or `;`. |
| Helpers.SplitDateTime | src/VCHelpers.c:156-179 | A `--` value stays whole, as does a value without `T`. Any other value is cut at its first `T` into a date without `T` and the time after it. |
| Helpers.ParseDateValue | src/VCHelpers.c:138-180 | A text value is kept whole. Otherwise date, `T`, time and `Z` give back the value, with `utc` set iff it ends in `Z`. The time is empty for a value without `T`, for a `--` date, and for a value whose first `T` is its last character apart from a trailing `Z`. Whenever a non-`--` value has a `T`, the date runs up to the first `T` and the time is the rest. |
| Helpers.ParseDate | src/VCHelpers.c:115-180 | Fails, with INV_CARD, iff the line has no colon or starts with one. It is text iff `VALUE=text` occurs before the colon. The parsed value gives back the text after the colon, cut as the value parser states. |
| Helpers.CreateCardHelper | src/VCHelpers.c:40-348 | Fails only with INV_CARD on a date line without a colon, or INV_PROP on a line with one. Keeps the parser's card shape. Sets the name only from the first `FN:` line. Appends at most one property and keeps the old list as a prefix. Only a BDAY line touches the birthday and only an ANNIVERSARY line touches the anniversary. |
| Helpers.FirstFnLineSetsName | src/VCHelpers.c:42-98 | The first `FN:` line sets the name to a plain FN property whose single value is the rest of the line. |
| Helpers.OtherFnLineRejected | src/VCHelpers.c:213-216 | A later `FN:` line, or any `FN…` line with a colon that is not a first `FN:`, is INV_PROP. |
| Helpers.BirthdayLineSets | src/VCHelpers.c:185-191 | A BDAY line replaces the birthday with the parsed date, whatever was there before, or fails as the date parser does. |
| Helpers.AnniversaryLineSets | src/VCHelpers.c:193-199 | The same for ANNIVERSARY. |
| Helpers.IgnoredLinesChangeNothing | src/VCHelpers.c:207-212 | BEGIN/VERSION/END lines reaching the field parser, and non-date lines without a colon, leave the card unchanged. |
| Helpers.GenericLineAppends | src/VCHelpers.c:204-345 | Any other line with a colon succeeds iff the generic parser does, and then appends exactly the parsed property. |
| Parser.ValidExtension | src/VCParser.c:20-24 | True iff the name is longer than, and ends with, `.vcf` or `.vcard`, ignoring case. |
| Parser.PhysicalLines | src/VCParser.c:64 | The lines fgets returns: together they are exactly the content, and each holds one line feed, at its end, except possibly the last. |
| Parser.ReadLine | src/VCParser.c:64-121 | One loop pass. A line without CR LF is INV_CARD. Only END stops successfully, and only after BEGIN. Errors are INV_CARD or INV_PROP. The card keeps the parser's shape. |
| Parser.ReadLoop | src/VCParser.c:64-121 | The loop fails only with INV_CARD or INV_PROP and keeps the card's shape. |
| Parser.Finish | src/VCParser.c:123-139 | After the loop, every error (from the last flush or a missing marker or name) is INV_CARD or INV_PROP. An accepted card has a name and keeps the parser's shape. |
| Parser.ParseLines | src/VCParser.c:56-143 | Errors are INV_CARD or INV_PROP. Every accepted card has a name and the parser's shape. |
| Parser.CreateCard | src/VCParser.c:10-144 | A missing name, a bad extension or an unopenable file is INV_FILE. Other errors are INV_CARD or INV_PROP. A success has a name and the parser's shape. |
| Parser.UnfoldFrom | src/VCParser.c:104-120 | The reference unfolding never yields an empty logical line. |
| Parser.ApplyAll | src/VCParser.c:110-130 | Applying logical lines in order fails only with INV_CARD or INV_PROP and keeps the card's shape. |
| Parser.ApplyAllAppend | src/VCParser.c:110-130 | Applying `a + b` is applying `a`, then `b` to its result, with the first error winning. |
| Parser.ReadLoopIsUnfoldThenApply | src/VCParser.c:64-121 | From any state before END, the loop equals unfolding the remaining lines and then applying the field parser. |
| Parser.ParseLinesIsReference | src/VCParser.c:56-143 | createCard's loop and final checks equal the two-phase reference parse. |
| Parser.FieldErrorTakesPrecedence | src/VCParser.c:110-130 | When some logical line is rejected, that field error is the result, whatever structural error also exists. |
| Parser.StructuralFailureIsInvCard | src/VCParser.c:134-139 | When every logical line is accepted, any failure is INV_CARD. |
| Parser.BadFirstLineRejected | src/VCParser.c:78-84 | A file whose first line is not `BEGIN:VCARD` CR LF is INV_CARD. |
| Parser.AcceptedCardStructure | src/VCParser.c:64-139 | An accepted file starts with BEGIN. Its later lines contain an END line and, before it, a VERSION line. The card has a name. |
| Parser.UnfoldBroken | src/VCParser.c:69-73 | A line without CR LF that comes before any END line marks the unfolding as rejected. |
| Parser.BadTerminatorRejected | src/VCParser.c:67-73 | A line without CR LF before the END line makes createCard fail, with INV_CARD unless a field error comes first. |
| Parser.ReadLoopAppend | src/VCParser.c:64-121 | The loop over `a + b` is the loop over `a`, then over `b` from where `a` stopped. |
| Parser.LinesAfterEndIgnored | src/VCParser.c:98-102 | Anything after the first END line has no effect. |
| Parser.StopsAtEnd | src/VCParser.c:98-102 | The loop stops at the first END line. |
| Parser.ContinuationStep | src/VCParser.c:104-107 | A line starting with a space or tab appends the rest of the line to the logical line. |
| Parser.ExtendedStep | src/VCParser.c:104-120 | Extending a non-marker line extends what the loop stores, and nothing else. |
| Parser.FoldOnce | src/VCParser.c:91-120 | Splitting a non-empty line into a line and one continuation line does not change the loop's result, unless a piece or the whole is `END:VCARD`, or `VERSION:4.0` before the version line was read. |
| Parser.FoldingInvariance | src/VCParser.c:91-120 | Folding a line into any number of continuation lines does not change the loop's result, with the exceptions of the marker comparisons: the first piece or the whole line is `END:VCARD`, or `VERSION:4.0` before the version line was read. An empty first piece is allowed when the joined line is not itself a continuation. |
| Parser.FoldingAnywhere | src/VCParser.c:56-143 | Folding a line after the first changes nothing in createCard's result, provided neither its first piece nor the whole line is `VERSION:4.0` or `END:VCARD`. |
| Parser.FoldedEndNotSeen | src/VCParser.c:91-102 | The exception is real: a card ending in `END:VCARD` is accepted, while the same card with that line folded as `END:VCA` and ` RD` is INV_CARD. |
| Validator.ParametersOk | src/VCParser.c:894-901 | True iff every parameter has a non-empty name and value. |
| Validator.PropertyStatus | src/VCParser.c:875-901 | One property's checks: OK iff it has a name other than VERSION, BDAY and ANNIVERSARY (any case), at least one value, and well-formed parameters. INV_CARD iff it is named VERSION, INV_DT iff it is named BDAY or ANNIVERSARY, and INV_PROP otherwise. |
| Validator.FirstInvalid | src/VCParser.c:873-902 | Every property before the index passes its own checks, and the property at the index fails them. |
| Validator.CheckProperties | src/VCParser.c:870-904 | The first failing property's code wins. With none failing, more than one KIND property (any case) is INV_PROP, otherwise OK. |
| Validator.DateStatus | src/VCParser.c:909-928 | OK iff the date/time is well formed (text only, or date and/or time without text). Anything else is INV_DT. |
| Validator.ValidateCard | src/VCParser.c:858-951 | OK iff the card is valid. A missing card or name is INV_CARD. Then the first failing property decides, then a second KIND is INV_PROP, then a bad birthday or anniversary is INV_DT. |
| Validator.ParsedCardValidation | src/VCParser.c:873-951 | A parsed card is valid iff no ordinary property is named VERSION, BDAY or ANNIVERSARY (any case), there is at most one KIND, and the dates are well formed. INV_PROP on a parsed card means a second KIND. |
| Writer.PropertyLines | src/VCParser.c:816-851 | One written line per optional property, in order. |
| Writer.WriteDelimiter | src/VCParser.c:842-845 | Values are joined with `,` iff the name is GEO, NOTE or CATEGORIES in any case, and with `;` otherwise. |
| Writer.PropertyLineCut | src/VCParser.c:820-850 | A written property line has a colon. When the head has none, the first colon ends the head and is followed by exactly the values joined with the writer's delimiter. |
| Writer.DateTextCut | src/VCParser.c:767-812 | A written date's first colon has `VALUE=text` before it iff the date is text. After the colon comes the text, or the date, then `T` and the time when there is one, then `Z` when UTC is set. |
| Writer.CardLinesLayout | src/VCParser.c:753-853 | The written lines are BEGIN, VERSION and FN, then the date lines, then one line per optional property in list order, then END. No N-first reordering takes place. |
| Writer.WriteCard | src/VCParser.c:738-856 | A missing name or card is WRITE_ERROR. A bad extension or an unopenable file is INV_FILE. A card without a name value is INV_CARD. It succeeds iff none of these apply, and then the text is the card's lines (laid out as `Writer.CardLinesLayout` states), each followed by CR LF. |
| Writer.FirstNIndex | src/VCParser.c:268-290 | No property before the index is named `N`; the one at the index is. |
| Writer.FirstN | src/VCParser.c:268-290 | None iff no property is named exactly `N`. Otherwise the property it returns is named `N`. |
| Writer.WithoutN | src/VCParser.c:293-299 | Keeps exactly the properties not named `N`, and is shorter when there is one. A single property is kept iff it is not named `N`. |
| Writer.WithoutNAppend | src/VCParser.c:293-299 | Dropping the `N` properties from a concatenation drops them from each part, so the other properties keep their order. |
| Writer.DisplayHead | src/VCParser.c:194-265 | One line each for BEGIN and VERSION, plus one for each present name, birthday and anniversary. |
| Writer.DisplayN | src/VCParser.c:267-290 | One line iff there is an `N` property. |
| Writer.DisplayTail | src/VCParser.c:267-333 | Exactly the line for the first `N` property when there is one, then one display line for each property not named `N`, in order, then END. |
| Writer.DisplayLines | src/VCParser.c:194-333 | Exactly the header lines, then exactly the line for the first `N` property when there is one, then every other property's display line in order, then END. |
| Writer.CardToString | src/VCParser.c:179-336 | No text iff there is no card. |
| Writer.DisplayAgreesWithFile | src/VCParser.c:179-336 | For some cards the display lines equal the written file's lines: ungrouped, single-valued properties, none named N, a birthday without time, and an anniversary with a time unless it is text. |
| Writer.NoNKeepsAll | src/VCParser.c:293-299 | Without any `N` property, the display keeps the list unchanged. |
| RoundTrip.DateRoundTrip | src/VCHelpers.c:138-180 | A written BDAY/ANNIVERSARY line parses back to the same date/time iff the date round-trips: text with no date, time or UTC flag; or, without text, a written date part that does not end in a `Z` unless UTC is set, and that is either a `--` date without time or a date without `T`. |
| RoundTrip.ParsedDateRoundTrips | src/VCHelpers.c:138-180 | Of the date/times the value parser returns, exactly those that are not text, not UTC, have no time and have a date ending in `Z` fail to round-trip. |
| RoundTrip.ParsedDateWrittenBack | src/VCHelpers.c:115-180 | For any date line the parser accepts, writing its date as BDAY or ANNIVERSARY and parsing again gives the same date iff it is not such a timeless non-UTC date ending in `Z`. |
| RoundTrip.TrailingSeparatorNotStable | src/VCHelpers.c:148-178 | A non-UTC date ending in `Z` with an empty time reads back with a different value. The first ensures gives the example line: `…ZT` is read with `Z` kept in the date. |
| RoundTrip.ParseParametersOf | src/VCHelpers.c:292-323 | Written parameters that need no escaping parse back to the same list. |
| RoundTrip.AddTokensOf | src/VCHelpers.c:292-323 | The parameter loop over written tokens appends exactly those parameters. |
| RoundTrip.SplitHeadOf | src/VCHelpers.c:235-264 | A written head splits back into the same group, name and raw parameters. |
| RoundTrip.PropertyValuesSplit | src/VCHelpers.c:327-338 | Values joined by the writer split back into the same values when the two delimiters agree or there is one value. |
| RoundTrip.PropertyRoundTrip | src/VCHelpers.c:218-340 | A written property line parses back to the same property. |
| RoundTrip.ValueDelimiterMismatch | src/VCHelpers.c:327 | For a name the parser splits on `,` and the writer joins with `;`, two values come back as one value. |
| RoundTrip.DelimitersAgree | src/VCParser.c:842-845 | The writer and the parser use the same delimiter iff the name is N, ADR or TEL, or GEO, NOTE or CATEGORIES in any case. |
| RoundTrip.EmailValuesNotStable | src/VCParser.c:842-845 | EMAIL is such a name: `a,b` parses as two values, and the written `a;b` parses as one. |
| CardRoundTrip.PhysicalLinesOfCrLf | src/VCParser.c:64-73 | Reading CR LF-terminated lines without embedded line feeds gives back exactly those lines. |
| CardRoundTrip.UnfoldWritten | src/VCParser.c:64-121 | Unfolding a written file yields its body lines as the logical lines, with every marker flag set. |
| CardRoundTrip.ApplyProperties | src/VCHelpers.c:340 | Applying the written property lines appends exactly the original properties. |
| CardRoundTrip.ApplyBody | src/VCHelpers.c:40-348 | Applying the written body lines to an empty card builds the original card. |
| CardRoundTrip.WrittenLinesParse | src/VCParser.c:56-143 | createCard's loop reads the written lines back as the original card. |
| CardRoundTrip.WriteThenCreateCard | src/VCParser.c:738-856 | For a valid file name and a round-trippable card, writeCard succeeds and createCard on its output returns the same card. |
| CardRoundTrip.JaneDoeEndToEnd | src/VCParser.c:753-765 | A card with only the name "Jane Doe" is written as exactly four CR LF lines, read back as itself, and passes validation. |

## Left out

- File I/O (fopen, fgets, fprintf, fclose): the file's content is the `content: Option<string>` parameter, with `None` for a file that cannot be opened. Whether writeCard can open its file is the `writable` parameter, and the written text is the result.
- fgets reads at most 1023 characters at a time. A longer line comes back in pieces, and the first piece then fails the CR LF check. `Parser.PhysicalLines` cuts only at line feeds.
- The 1024-byte line buffers: strncat and strncpy truncate long logical lines. Strings here are unbounded.
- The 8192-byte output buffer of cardToString, which overflows for large cards.
- OTHER_ERROR and every malloc/strdup failure: allocation never fails here.
- NULL pointers inside a card (a value list, parameter list, property list or date string set to NULL): a card's sequences and strings always exist. So validateCard's NULL-list checks, and writeCard's NULL checks on dates, have no counterpart.
- The createCard `obj == NULL` argument: only the file name's absence is modelled.
- Partial output: writeCard opens (and truncates) the file before it checks the name property. The model returns only the status in that case.
- Memory management: deleteCard, freeing the old birthday, leaks on error paths, and `free(value_)` on a pointer into a buffer (src/VCHelpers.c:306).
- The list callbacks and string helpers (deleteProperty, compareProperties, propertyToString, errorToString, dateToString and the rest): they take no part in parsing, validation or writing.
- Embedded NUL characters: C strings end at the first NUL, while Dafny strings may contain `'\0'`.
- The Python user interface, the database code and the ctypes wrappers (src/wrappers.c).
- Writer.CardToString: requires a name property with at least one value when a name exists. For an empty value list the C code passes a NULL pointer to strcat, which has no defined behaviour.
- Writer.CardToString: its contract states only when there is text. The text itself is characterised by `Writer.DisplayLines` and related to the file text by `Writer.DisplayAgreesWithFile`.
- Writer.DisplayHead: its contract states only how many header lines there are. What they contain is related to the file's header by `Writer.DisplayAgreesWithFile`.
- Writer.DisplayN: its contract states only that there is one line iff an `N` property exists. It does not give that line's text, the values joined with `;`.
- Parser.FoldingAnywhere: it excludes a first piece or whole line equal to `VERSION:4.0` even when the version line was already read, where folding it is harmless, because whether that happened depends on the lines before it. `Parser.FoldingInvariance` states the exact condition in terms of the loop's state.
- Helpers.ParseProperty: requires a colon in the line, because the field parser reaches the generic parser only through its colon check (src/VCHelpers.c:204).
- CardRoundTrip.WriteThenCreateCard: holds only for cards meeting `CardRoundTrips`. `RoundTrip.EmailValuesNotStable` and `RoundTrip.TrailingSeparatorNotStable` show two ways other cards change.

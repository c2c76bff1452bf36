# Mix Daily front-end core, modelled in Dafny

Mix Daily is a directory of AI and digital tools. Its React front end talks to a
backend canister that is not modelled here. It also holds a few self-contained
computations, and this project models and proves those:

- **CSV reading for the administrator's bulk upload** (`Csv`, `CsvProperties`).
  `parseCSVLine` is a quote-aware comma scanner. `parseCsv` drops whitespace-only
  lines and reads the first remaining line as the header. Each later line becomes
  a map from trimmed header name to trimmed field, or the error
  `Row {n}: Column count mismatch`. As on a plain JavaScript object, a header
  named `__proto__` stores nothing.
- **The tool validator and its normalisers** (`ToolValidation`, with the allowed
  values in `Constants`). `validateToolData` runs six independent checks in a fixed
  order, and each failing check appends its message. `normalizeToolName` and
  `normalizeUrl` build duplicate-detection keys.
- **The bulk-upload page** (`BulkUpload`). It maps column aliases onto the six tool
  fields, validates every row and turns the valid rows into new `Tool` records. The
  `BulkUploadPage` class holds the page's state (chosen file, results table, whether
  the table is shown, toasts), and its handlers change it.
- **The pagination bar** (`Pagination`). It builds the list of page buttons and
  ellipses, and it decides when the previous and next arrows are disabled.
- **The translation lookup `t(key)`** (`I18n`). It walks a dot-separated key through
  the nested English string table, and the key itself is the fallback.
- **The schema.org JSON-LD builders** (`JsonLd`). One builds a tool's
  `SoftwareApplication` record, the other the `BreadcrumbList` of a navigation trail.

`JsString` states the JavaScript string primitives these computations rely on, over
`seq<char>`:

- the white-space class shared by `trim` and `\s`;
- `trim`, `split` on one character, `join` and `split(/\s+/)`;
- ASCII `toLowerCase` and `replace(/\s+/g, ' ')`;
- the decimal rendering of a number in a template literal.

`Wrappers` holds `Option`. `Backend` holds the `Tool` record of the backend interface.

Most code that works step by step is modelled as imperative Dafny, and each such method is proved equal to a
specification function. The properties are then proved about that function:

- `Csv.ParseLine` and `Csv.ParseCsv` (the two loops of `csv.ts`), and `Csv.BuildRow`
  (the `forEach` that fills a row);
- `Pagination.Pages` (the four branches and their `for` loops);
- `I18n.Walk` (the `for…of` walk with its early return);
- `ToolValidation.ValidateToolData`, which calls one helper method per check, each
  appending one message.

## Model

| member | source | states |
|---|---|---|
| JsString.Trim | frontend/src/lib/validation/toolValidation.ts:18 | `trim()` gives a result with no white space at either end. The result is empty exactly when the input is all white space. It is the input with only white space removed from the two ends. |
| JsString.TrimOfTrimmed | frontend/src/lib/validation/toolValidation.ts:59 | Trimming a string with no white space at either end leaves it unchanged. |
| JsString.ToLower | frontend/src/lib/validation/toolValidation.ts:59 | `toLowerCase()` keeps the length and lower-cases every character in place (ASCII letters). |
| JsString.LowerCharFacts | frontend/src/lib/validation/toolValidation.ts:59 | Lower-casing a character is idempotent and does not change whether it is white space. |
| JsString.ToLowerFacts | frontend/src/lib/validation/toolValidation.ts:59 | Lower-casing is idempotent and keeps a trimmed string trimmed. |
| JsString.TrimOfPadded | frontend/src/lib/validation/toolValidation.ts:67 | `trim()` of a string with no white space at either end, padded on both sides with white space, gives back exactly that string. |
| JsString.TrimLowerCommute | frontend/src/lib/validation/toolValidation.ts:59 | Trimming and lower-casing commute: `s.trim().toLowerCase()` equals `s.toLowerCase().trim()`. |
| JsString.Split | frontend/src/i18n/index.ts:6 | `split('.')` gives at least one piece. No piece contains the separator. Joining the pieces with the separator gives back the input. |
| JsString.SplitJoin | frontend/src/i18n/index.ts:6 | Splitting a join of separator-free parts gives back exactly those parts. |
| JsString.SplitSpacesJoin | frontend/src/lib/validation/toolValidation.ts:26 | `split(/\s+/)` of non-empty words without white space, joined by single spaces, gives back exactly the words. |
| JsString.SplitSpaces | frontend/src/lib/validation/toolValidation.ts:26 | `split(/\s+/)`: the pieces between maximal white-space runs, always at least one. Stated by `JsString.SplitSpacesJoin`, `JsString.CollapseSpacesAsJoin` and `ToolValidation.WordCountOfWords`. |
| JsString.CollapseSpaces | frontend/src/lib/validation/toolValidation.ts:59 | `replace(/\s+/g, ' ')`, character by character. No two white-space characters of the result are adjacent. Every character of the result is a single space or a non-space character of the input. The result is empty only for empty input. Whether the string starts or ends with white space is unchanged. Its contents are stated by `JsString.CollapseSpacesAsJoin`. |
| JsString.CollapseSpacesAsJoin | frontend/src/lib/validation/toolValidation.ts:59 | `replace(/\s+/g, ' ')` gives the pieces of `split(/\s+/)`, in order, joined by single spaces. |
| JsString.WordsAreWords | frontend/src/lib/validation/toolValidation.ts:59 | Every piece of `split(/\s+/).filter(Boolean)` is non-empty and free of white space. |
| JsString.Words | frontend/src/lib/validation/toolValidation.ts:59 | `split(/\s+/).filter(Boolean)`: the non-empty pieces, in order. Stated by `JsString.WordsAreWords`, `JsString.WordsIgnorePadding` and `JsString.CollapseTrimmedAsWords`. |
| JsString.WordsIgnorePadding | frontend/src/lib/validation/toolValidation.ts:59 | White space around a string with no white space at either end adds no word. |
| JsString.CollapseTrimmedAsWords | frontend/src/lib/validation/toolValidation.ts:59 | `s.trim().replace(/\s+/g, ' ')` is the words of `s` (`split(/\s+/).filter(Boolean)`) joined by single spaces. |
| JsString.JoinWordsInjective | frontend/src/lib/validation/toolValidation.ts:59 | Two lists of non-empty words without white space, joined by single spaces, give the same string only when the lists are equal. |
| JsString.WordsLower | frontend/src/lib/validation/toolValidation.ts:59 | The words of a lower-cased string are its words, each lower-cased. |
| JsString.CollapseSpacesFixed | frontend/src/lib/validation/toolValidation.ts:59 | A string whose only white space is single spaces, none adjacent, is left unchanged. |
| JsString.NatToString | frontend/src/lib/validation/toolValidation.ts:28 | A number in a template literal renders as at least one decimal digit, with a leading zero only for the number 0. |
| JsString.DecimalRoundTrip | frontend/src/lib/validation/toolValidation.ts:28 | Reading the rendered digits back gives the number. |
| Csv.ParseLine | frontend/src/lib/csv.ts:49-75 | The scanning loop, with its field buffer and quote flag, gives exactly the fields of the scanner specification. That is always at least one field. |
| Csv.LineFields | frontend/src/lib/csv.ts:49-75 | The whole of `parseCSVLine`: the scanner started outside quotes with an empty field. `Csv.ParseLine` is proved equal to it, and its fields are stated by the `Csv.Fields…` rows and the two round trips. |
| Csv.Fields | frontend/src/lib/csv.ts:49-75 | The scanner specification always yields at least one field. Its content is stated by `Csv.FieldCount`, `Csv.FieldsPlain`, `Csv.FieldsQuoted` and the two round trips. |
| Csv.FieldCount | frontend/src/lib/csv.ts:65-67 | The number of fields is the number of commas met outside quotes plus one. |
| Csv.FieldsPlain | frontend/src/lib/csv.ts:68-70 | Characters other than `"` and `,` go into the current field unchanged. |
| Csv.PlainRoundTrip | frontend/src/lib/csv.ts:65-73 | Fields free of `"` and `,`, joined with `,`, scan back to exactly those fields. |
| Csv.FieldsQuoted | frontend/src/lib/csv.ts:58-64 | Inside quotes, `""` yields one literal `"` and consumes both characters. A comma is kept in the field. A lone `"` only ends the quoted region. |
| Csv.QuotedRoundTrip | frontend/src/lib/csv.ts:58-70 | Take any fields, even ones holding commas or quotes. Quote each one (inner quotes doubled) and join them with `,`. The result scans back to exactly those fields, so a comma inside quotes never separates. |
| Csv.QuotesHalved | frontend/src/lib/csv.ts:58-64 | The fields never hold more than half as many `"` as the line, because a lone quote is never emitted. |
| Csv.NonBlankLines | frontend/src/lib/csv.ts:15 | The filtered lines are no more than the input lines, and none of them is blank. |
| Csv.ContentLines | frontend/src/lib/csv.ts:15 | `content.split('\n').filter((line) => line.trim())`. Stated by `CsvProperties.BlankExactlyWhenNoLines` and `Csv.NonBlankLines`. |
| CsvProperties.NonBlankLinesEmpty | frontend/src/lib/csv.ts:15 | No line survives the filter exactly when every line is blank. |
| CsvProperties.BlankExactlyWhenNoLines | frontend/src/lib/csv.ts:15 | A file has no non-blank line exactly when its whole content is white space. |
| CsvProperties.EmptyExactlyWhenBlank | frontend/src/lib/csv.ts:15-19 | The result is zero rows plus exactly the error `CSV file is empty` if and only if the content is all white space. |
| CsvProperties.NotReportedEmpty | frontend/src/lib/csv.ts:16-19 | When a non-blank line exists, `CSV file is empty` is never reported. |
| CsvProperties.HeadersNeverMissing | frontend/src/lib/csv.ts:21-25 | The `CSV headers are missing` branch is unreachable, because the header line always has a field. |
| CsvProperties.NoLineSkipped | frontend/src/lib/csv.ts:28-29 | The `values.length === 0` branch is unreachable: no data line is skipped. |
| Csv.TrimmedNames | frontend/src/lib/csv.ts:38 | The key list has one trimmed name per header, in header order. |
| Csv.SetProperty | frontend/src/lib/csv.ts:38 | `row[key] = value` with a string value on a plain object: the key `__proto__` leaves the object unchanged, because the prototype setter ignores a non-object, and any other key is set to the value. |
| Csv.AssignPrefix | frontend/src/lib/csv.ts:37-39 | Each `forEach` step adds the entry for its index to the map built so far. |
| Csv.AssignKeys | frontend/src/lib/csv.ts:37-39 | The filled map's keys are exactly the names assigned, except `__proto__`, which a plain object does not store. |
| Csv.AssignValue | frontend/src/lib/csv.ts:37-39 | A name other than `__proto__` maps to the value at the last index carrying that name, because later assignments overwrite earlier ones. |
| Csv.RowOfKeys | frontend/src/lib/csv.ts:36-39 | A row's keys are exactly the trimmed header names other than `__proto__`, and `__proto__` is never one of them. |
| Csv.RowOfValue | frontend/src/lib/csv.ts:38 | Under the trimmed name of header j is the trimmed field j, when that name is not `__proto__` and no later header trims to it. |
| Csv.BuildRow | frontend/src/lib/csv.ts:36-39 | The imperative fill of one row gives the row specification. |
| Csv.RowOf | frontend/src/lib/csv.ts:36-39 | The row specification: each header's trimmed name set to the trimmed field at its index, in header order, through `Csv.SetProperty`. Its keys and values are stated by `Csv.RowOfKeys` and `Csv.RowOfValue`. |
| Csv.Outcomes | frontend/src/lib/csv.ts:27-41 | Every line after the header has exactly one outcome. |
| Csv.Outcome | frontend/src/lib/csv.ts:28-40 | The body of the loop for one data line: skipped when it has no field, the mismatch message when its field count differs from the header's, otherwise its row. Stated by `CsvProperties.DataLineContributes` and `CsvProperties.NoLineSkipped`. |
| Csv.MismatchMessage | frontend/src/lib/csv.ts:32 | `Row ${i + 1}: Column count mismatch`, with i the line's index among the non-blank lines. Stated by `CsvProperties.MismatchMessagePrefix` and `CsvProperties.MismatchMessageNamesOneLine`. |
| Csv.OutcomesStep | frontend/src/lib/csv.ts:27-41 | One more data line adds at most its row, or its message, at the end of the rows or errors built so far. |
| Csv.ParsedLines | frontend/src/lib/csv.ts:15-41 | The parse specification over the non-blank lines: `CSV file is empty` for none, otherwise the accepted rows and mismatch messages of the data lines in order. Its properties are the `CsvProperties` rows. |
| Csv.Parsed | frontend/src/lib/csv.ts:10-47 | The parse specification of a file's content; `Csv.ParseCsv` is proved equal to it. |
| Csv.ParseCsv | frontend/src/lib/csv.ts:10-47 | The imperative `parseCsv` gives exactly the parse specification for the file content, rows and errors both. |
| CsvProperties.AcceptedRowsMembers | frontend/src/lib/csv.ts:40 | A row is in the result exactly when some line's outcome accepted it. |
| CsvProperties.MismatchMessagesMembers | frontend/src/lib/csv.ts:32 | A message is in the result exactly when some line's outcome was that mismatch. |
| CsvProperties.PartitionCount | frontend/src/lib/csv.ts:27-41 | When no line is skipped, rows plus errors number exactly the outcomes. |
| CsvProperties.RowsPlusErrors | frontend/src/lib/csv.ts:27-41 | `rows.length + errors.length` is the number of non-blank lines minus one. |
| CsvProperties.DataLineContributes | frontend/src/lib/csv.ts:27-41 | Every data line yields its row when its field count matches the header's. Otherwise it yields `Row {i+1}: Column count mismatch`, with i its index among the non-blank lines. |
| CsvProperties.LastLineComesLast | frontend/src/lib/csv.ts:27-41 | Rows and errors keep line order. A further data line adds its row, or its message, at the end of the result and changes nothing before it. |
| CsvProperties.RowsFromDataLines | frontend/src/lib/csv.ts:36-40 | Every row is the trimmed map of some data line whose field count equals the header's. |
| CsvProperties.ErrorsFromDataLines | frontend/src/lib/csv.ts:31-34 | Every error is the mismatch message of some data line whose field count differs from the header's. |
| CsvProperties.MismatchOutcomeLine | frontend/src/lib/csv.ts:31-32 | A mismatch outcome comes from a data line whose field count differs from the header's, and carries that line's message. |
| CsvProperties.RowsHaveHeaderKeys | frontend/src/lib/csv.ts:36-40 | Every row has exactly the trimmed header names, `__proto__` excepted, as its keys. |
| CsvProperties.MismatchMessagePrefix | frontend/src/lib/csv.ts:32 | A mismatch message starts with `Row `. |
| CsvProperties.ErrorsNameRows | frontend/src/lib/csv.ts:31-34 | When the file has a line, every error names a row. |
| CsvProperties.MismatchMessageNamesOneLine | frontend/src/lib/csv.ts:32 | Two lines get the same mismatch message only if they are the same line. |
| ToolValidation.ValidateToolData | frontend/src/lib/validation/toolValidation.ts:8-47 | The step-by-step validator gives exactly the validation specification, and `valid` holds exactly when the error list is empty. |
| ToolValidation.IsValidUrl | frontend/src/lib/validation/toolValidation.ts:49-56 | `isValidUrl` holds exactly when the URL parser returns a value rather than throwing. |
| ToolValidation.WordCount | frontend/src/lib/validation/toolValidation.ts:26 | The validator's word count is at least 1, even for a blank description. |
| ToolValidation.Validate | frontend/src/lib/validation/toolValidation.ts:43-46 | `valid` is true exactly when the error list is empty, and there are at most six errors. |
| ToolValidation.Fails | frontend/src/lib/validation/toolValidation.ts:18-39 | The six reject conditions: an empty or blank name (:18), an empty or unparsable icon URL (:22), a word count outside 18 to 25 (:26-27), a category or pricing tag not in the allowed lists (:31, :35), and an empty or unparsable official link (:39). Stated by `ToolValidation.ReportedExactlyWhenFails` and `ToolValidation.ValidExactlyWhenNoRuleFails`. |
| ToolValidation.Message | frontend/src/lib/validation/toolValidation.ts:19-40 | The six messages, the description's carrying the word count. Stated by `ToolValidation.MessagesDistinct`, `ToolValidation.AllowedValuesListed` and `ToolValidation.DescriptionMessageReportsCount`. |
| ToolValidation.CheckName | frontend/src/lib/validation/toolValidation.ts:18-20 | The name check appends its message exactly when the name rule fails, and nothing otherwise. |
| ToolValidation.CheckIcon | frontend/src/lib/validation/toolValidation.ts:22-24 | The icon check appends its message exactly when the icon rule fails, and nothing otherwise. |
| ToolValidation.CheckDescription | frontend/src/lib/validation/toolValidation.ts:26-29 | The description check appends its message, with the word count, exactly when the description rule fails. |
| ToolValidation.CheckCategory | frontend/src/lib/validation/toolValidation.ts:31-33 | The category check appends its message exactly when the category is not allowed. |
| ToolValidation.CheckPricing | frontend/src/lib/validation/toolValidation.ts:35-37 | The pricing check appends its message exactly when the pricing tag is not allowed. |
| ToolValidation.CheckLink | frontend/src/lib/validation/toolValidation.ts:39-41 | The link check appends its message exactly when the link rule fails. |
| ToolValidation.ErrorsFor | frontend/src/lib/validation/toolValidation.ts:16-41 | A list of checks reports no more errors than it has checks. |
| ToolValidation.ValidationErrors | frontend/src/lib/validation/toolValidation.ts:16-41 | There are at most six errors. |
| ToolValidation.ValidationErrorsInOrder | frontend/src/lib/validation/toolValidation.ts:16-41 | The errors are concatenated without short-circuit, in the order name, icon, description, category, pricing, link. |
| ToolValidation.ErrorsForMembers | frontend/src/lib/validation/toolValidation.ts:16-41 | A message is among the errors exactly when some check fails with that message. |
| ToolValidation.ErrorsComeFromFailures | frontend/src/lib/validation/toolValidation.ts:16-41 | Every error is the message of a failing check. |
| ToolValidation.FailuresAreReported | frontend/src/lib/validation/toolValidation.ts:16-41 | Every failing check's message is among the errors. |
| ToolValidation.ErrorsForEmpty | frontend/src/lib/validation/toolValidation.ts:16-41 | The error list is empty exactly when no check fails. |
| ToolValidation.RuleRuns | frontend/src/lib/validation/toolValidation.ts:16-41 | Every check is among the six that run. |
| ToolValidation.ValidExactlyWhenNoRuleFails | frontend/src/lib/validation/toolValidation.ts:43-46 | `valid` is true exactly when none of the six checks fails. |
| ToolValidation.AllowedValuesListed | frontend/src/lib/validation/toolValidation.ts:31-37 | The category and pricing messages list every allowed value of `constants.ts`, joined by `, `, in order. |
| ToolValidation.MessageMarks | frontend/src/lib/validation/toolValidation.ts:18-41 | Each check's message has its own pair of characters at positions 0 and 6. |
| ToolValidation.MessagesDistinct | frontend/src/lib/validation/toolValidation.ts:18-41 | Different checks report different messages. |
| ToolValidation.ReportedExactlyWhenFails | frontend/src/lib/validation/toolValidation.ts:16-41 | A check's message appears among the errors if and only if that check fails. |
| ToolValidation.NameRequiredExactlyWhenBlank | frontend/src/lib/validation/toolValidation.ts:18-20 | `Tool name is required` is reported if and only if the name is empty after trimming. |
| ToolValidation.WordCountAgainstDisplayed | frontend/src/lib/validation/toolValidation.ts:26 | A blank description counts as 1 word, while the submission form's counter shows 0. Any other description gets the same count, at least 1, from both. |
| ToolValidation.WordCountOfWords | frontend/src/lib/validation/toolValidation.ts:26 | A description of n words, separated by single spaces, counts n words. |
| ToolValidation.DescriptionAcceptsWordRange | frontend/src/lib/validation/toolValidation.ts:26-29 | A description of n words passes exactly when 18 <= n <= 25: 18 and 25 pass, 17 and 26 fail. |
| ToolValidation.DescriptionMessageReportsCount | frontend/src/lib/validation/toolValidation.ts:28 | The description message embeds the decimal digits of the word count. |
| ToolValidation.LowerCaseFixed | frontend/src/lib/validation/toolValidation.ts:59 | Lower-casing leaves a lower-case string unchanged. |
| ToolValidation.NormalizeToolName | frontend/src/lib/validation/toolValidation.ts:58-60 | `normalizeToolName` is trim, lower-case, then collapse white-space runs. Its contents are stated by `ToolValidation.NormalizeToolNameAsWords`. |
| ToolValidation.NormalizeToolNameAsWords | frontend/src/lib/validation/toolValidation.ts:58-60 | A name's key is its words (`split(/\s+/).filter(Boolean)`), each lower-cased, joined by single spaces. |
| ToolValidation.SameKeyExactlyWhenSameWords | frontend/src/lib/validation/toolValidation.ts:58-60 | Two names get the same key if and only if they have the same words, compared after lower-casing. |
| ToolValidation.CaseIgnored | frontend/src/lib/validation/toolValidation.ts:58-60 | Names that differ only in ASCII case get the same key. |
| ToolValidation.SpacingIgnored | frontend/src/lib/validation/toolValidation.ts:58-60 | Names with the same words get the same key, whatever white space separates or surrounds them. |
| ToolValidation.NormalizedNameShape | frontend/src/lib/validation/toolValidation.ts:58-60 | A normalised name has no white space at either end, no upper-case ASCII letter, and no white space other than single spaces that are never adjacent. |
| ToolValidation.NormalFormFixed | frontend/src/lib/validation/toolValidation.ts:58-60 | A name already of that shape is its own normal form. |
| ToolValidation.NormalizeToolNameIdempotent | frontend/src/lib/validation/toolValidation.ts:58-60 | Normalising a name twice gives the same result as normalising it once. |
| ToolValidation.NormalizeUrl | frontend/src/lib/validation/toolValidation.ts:62-69 | `normalizeUrl`: the parsed origin plus the path without one trailing slash, or the trimmed, lower-cased input when parsing fails. Stated by `ToolValidation.TrailingSlashIgnored` and `ToolValidation.UnparsedUrlKey`. |
| ToolValidation.StripTrailingSlash | frontend/src/lib/validation/toolValidation.ts:65 | `pathname.replace(/\/$/, '')`: one trailing slash removed, if there is one. Stated by `ToolValidation.TrailingSlashIgnored`. |
| ToolValidation.TrailingSlashIgnored | frontend/src/lib/validation/toolValidation.ts:62-65 | Two URLs that parse to the same origin and path, differing only in a trailing slash, get the same key: origin plus path without the slash. |
| ToolValidation.UnparsedUrlKey | frontend/src/lib/validation/toolValidation.ts:66-68 | When parsing fails, the key is exactly `url.trim().toLowerCase()`. That key has no white space at either end and no upper-case ASCII letter, so normalising it again the same way changes nothing. |
| ToolValidation.UnparsedUrlsSameKey | frontend/src/lib/validation/toolValidation.ts:66-68 | Two URLs that fail to parse and differ only in ASCII case and in the white space around them get the same key: the lower-cased text between that white space. |
| BulkUpload.FirstNonEmpty | frontend/src/pages/admin/BulkUploadPage.tsx:41-48 | `a || b || ''` gives the value of the first alias whose column is present and non-empty, and `''` exactly when none is. |
| BulkUpload.LastAlias | frontend/src/pages/admin/BulkUploadPage.tsx:44-45 | A single column gives its value when filled, else `''`. |
| BulkUpload.TwoAliases | frontend/src/pages/admin/BulkUploadPage.tsx:42 | With two aliases, the first filled one wins. |
| BulkUpload.ThreeAliases | frontend/src/pages/admin/BulkUploadPage.tsx:43 | With three aliases, the first one wins when filled, and otherwise the choice falls to the other two. |
| BulkUpload.CanonicalColumnWins | frontend/src/pages/admin/BulkUploadPage.tsx:41-48 | Each of the six fields comes from its aliases in the written order (`name`, `tool_name`; `iconUrl`, `icon_url`, `tool_icon_url`; …), or is `''`. |
| BulkUpload.MapRow | frontend/src/pages/admin/BulkUploadPage.tsx:41-48 | The mapping of one CSV row onto the six tool fields. What each field holds is stated by `BulkUpload.CanonicalColumnWins`. |
| BulkUpload.ValidateRows | frontend/src/pages/admin/BulkUploadPage.tsx:40-56 | Every parsed row mapped and validated, in order. Stated by `BulkUpload.ValidateRowsFaithful`. |
| BulkUpload.ValidateRowsFaithful | frontend/src/pages/admin/BulkUploadPage.tsx:40-56 | The results have the rows' length and order. Each result carries its row's mapped data and exactly the validator's verdict and errors on it, and is valid exactly when no check fails. |
| BulkUpload.ValidRows | frontend/src/pages/admin/BulkUploadPage.tsx:63 | The filter keeps only valid results taken from the table. |
| BulkUpload.ValidRowsKeepsValid | frontend/src/pages/admin/BulkUploadPage.tsx:63 | A result survives the filter exactly when it is in the table and valid. |
| BulkUpload.ValidRowsAppend | frontend/src/pages/admin/BulkUploadPage.tsx:63 | The filter keeps the table's order: filtering a concatenation concatenates the filtered parts. |
| BulkUpload.FilterPartition | frontend/src/pages/admin/BulkUploadPage.tsx:98-99 | Valid plus invalid results number exactly the results. |
| BulkUpload.ValidCount | frontend/src/pages/admin/BulkUploadPage.tsx:98 | `validCount` is the number of valid results. Its relation to the table is stated by `BulkUpload.CountsAddUp`. |
| BulkUpload.InvalidCount | frontend/src/pages/admin/BulkUploadPage.tsx:99 | The subtraction `validationResults.length - validCount` is never negative and never more than the table's length. |
| BulkUpload.CountsAddUp | frontend/src/pages/admin/BulkUploadPage.tsx:98-99 | `invalidCount` is the number of invalid results, and `validCount + invalidCount` is the table's length. |
| BulkUpload.NewTool | frontend/src/pages/admin/BulkUploadPage.tsx:69-85 | One new tool record, built from a row's content and the two clock readings its object literal takes. Stated by `BulkUpload.ToToolsFaithful`. |
| BulkUpload.ToTools | frontend/src/pages/admin/BulkUploadPage.tsx:69-85 | `validRows.map(…)`, with tool k taking clock readings 2k and 2k+1. Stated by `BulkUpload.ToToolsFaithful`. |
| BulkUpload.ToToolsFaithful | frontend/src/pages/admin/BulkUploadPage.tsx:69-85 | One tool per valid row, in order, carrying the row's six content fields. Each has id 0, no featured or popular flag, an empty slug and no SEO fields. Tool k's `createdAt` is clock reading 2k and its `updatedAt` reading 2k+1, each times 1000000, because every `Date.now()` call is a reading of its own. |
| BulkUpload.TimestampsInLineOrder | frontend/src/pages/admin/BulkUploadPage.tsx:77-78 | With a clock that never goes back, no tool is updated before it is created, and every tool's timestamps come no later than those of the tools after it. |
| BulkUpload.UploadedToolsPassValidation | frontend/src/pages/admin/BulkUploadPage.tsx:63-85 | Every tool sent from a table of validator verdicts has content the validator accepts. |
| BulkUpload.BulkUploadPage.constructor | frontend/src/pages/admin/BulkUploadPage.tsx:16-18 | The page starts with no file, an empty hidden table and no toasts. |
| BulkUpload.BulkUploadPage.HandleFileChange | frontend/src/pages/admin/BulkUploadPage.tsx:21-27 | Choosing a file replaces the current one and hides the table. Choosing none changes nothing. |
| BulkUpload.BulkUploadPage.HandleValidate | frontend/src/pages/admin/BulkUploadPage.tsx:29-60 | With no file, nothing changes. When the parse reports any error, the whole file is rejected: the table is kept, and one error toast per message is added, in order. Otherwise the table becomes the validated rows and is shown. |
| BulkUpload.BulkUploadPage.HandleUpload | frontend/src/pages/admin/BulkUploadPage.tsx:62-96 | With no valid row, nothing is sent and `No valid rows to upload` is shown. Otherwise exactly the valid rows go out as new tools, stamped from the successive clock readings. On success the page resets and reports the count; on failure it keeps its state and reports `Failed to upload tools`. Every tool sent passes validation. |
| Pagination.Run | frontend/src/components/pagination/Pagination.tsx:17-19 | The buttons for pages lo, lo+1, …, hi-1, in order: hi-lo entries, entry k showing page lo+k. |
| Pagination.RunSnoc | frontend/src/components/pagination/Pagination.tsx:17-19 | Pushing the next page extends the run by one. |
| Pagination.PageList | frontend/src/components/pagination/Pagination.tsx:10-43 | The specification of the bar, branch by branch. Its properties are the `Pagination` rows below and `Pagination.WindowProperties`. |
| Pagination.Pages | frontend/src/components/pagination/Pagination.tsx:10-43 | The four branches and their loops build exactly the specified page list. |
| Pagination.NoBarForOnePage | frontend/src/components/pagination/Pagination.tsx:10 | No bar is produced exactly when there is at most one page. |
| Pagination.PlainBar | frontend/src/components/pagination/Pagination.tsx:39-43 | With 2 to 7 pages, the bar is exactly pages 0 … totalPages-1, and it is well formed. |
| Pagination.LeadingBar | frontend/src/components/pagination/Pagination.tsx:16-23 | With more than 7 pages and current page at most 3, the bar is `[0,1,2,3,4,…,totalPages-1]`. |
| Pagination.LeadingShape | frontend/src/components/pagination/Pagination.tsx:16-23 | That leading shape is well formed. |
| Pagination.TrailingBar | frontend/src/components/pagination/Pagination.tsx:24-29 | With more than 7 pages and current page above 3 and at least totalPages-3, the bar is `[0,…,totalPages-5, …, totalPages-1]`. |
| Pagination.TrailingShape | frontend/src/components/pagination/Pagination.tsx:24-29 | That trailing shape is well formed. |
| Pagination.MiddleBar | frontend/src/components/pagination/Pagination.tsx:30-38 | Otherwise the bar is `[0,…,c-1,c,c+1,…,totalPages-1]`. |
| Pagination.MiddleShape | frontend/src/components/pagination/Pagination.tsx:30-38 | That middle shape is well formed. |
| Pagination.WindowProperties | frontend/src/components/pagination/Pagination.tsx:15-43 | For a current page in range, the bar has 1 to 7 entries, starts at page 0, ends at the last page and contains the current page. Its page numbers strictly increase and stay in range. Neighbouring buttons show neighbouring pages, and every ellipsis sits between buttons at least two pages apart. |
| Pagination.PrevDisabled | frontend/src/components/pagination/Pagination.tsx:49 | The previous arrow's `disabled` condition. Stated by `Pagination.ArrowsDisabledAtEnds`. |
| Pagination.NextDisabled | frontend/src/components/pagination/Pagination.tsx:77 | The next arrow's `disabled` condition. Stated by `Pagination.ArrowsDisabledAtEnds`. |
| Pagination.ArrowsDisabledAtEnds | frontend/src/components/pagination/Pagination.tsx:47-79 | The previous (next) arrow is disabled exactly when the page before (after) does not exist. That is exactly when the current page is the bar's first (last) entry. |
| I18n.ChildNamed | frontend/src/i18n/index.ts:10 | `value[k]` on a group finds an entry with that name, and finds none exactly when no entry has it. |
| I18n.Member | frontend/src/i18n/index.ts:10 | `value?.[k]`: a group's own member of that name, and nothing below a string. Stated by `I18n.ChildNamed` and `I18n.MissingSegment`. |
| I18n.Resolve | frontend/src/i18n/index.ts:9-12 | The entry a path of segments reaches, or none once a segment is missing. Stated by `I18n.MissingSegment` and `I18n.ResolveStaysInside`. |
| I18n.Lookup | frontend/src/i18n/index.ts:5-15 | `t(key)` over a given table: the string the key's path reaches, or the key. Stated by `I18n.LookupResult` and `I18n.FallbackToKey`. |
| I18n.Walk | frontend/src/i18n/index.ts:5-15 | The loop's walk, with its early return, gives exactly the lookup specification. |
| I18n.Translate | frontend/src/i18n/index.ts:5-15 | `t(key)` is the lookup in the English table. |
| I18n.En | frontend/src/i18n/en.ts:1-71 | The English string table, group by group. Stated by `I18n.HeaderMenuPath` and `I18n.HeaderMenuHome`. |
| I18n.MissingSegment | frontend/src/i18n/index.ts:9-12 | Once a segment is missing, no longer path resolves. |
| I18n.ResolveStaysInside | frontend/src/i18n/index.ts:9-12 | Any entry the walk reaches holds only strings of the table. |
| I18n.LookupResult | frontend/src/i18n/index.ts:5-15 | `t(key)` is the key itself or a string of the table. When it is not the key, the key's path resolves to that string. |
| I18n.FallbackToKey | frontend/src/i18n/index.ts:11-14 | A missing segment, or a path ending on a group, gives back the key. |
| I18n.HomeKeySegments | frontend/src/i18n/index.ts:6 | `header.menu.home` splits into `header`, `menu`, `home`. |
| I18n.HeaderMenuPath | frontend/src/i18n/en.ts:2-10 | `header` and `header.menu` resolve to the header group and its menu group. |
| I18n.HeaderMenuHome | frontend/src/i18n/en.ts:5 | `t('header.menu.home')` is `Home`. |
| I18n.HeaderMenuIsAGroup | frontend/src/i18n/index.ts:14 | `t('header.menu')` ends on a group and gives back the key. |
| JsonLd.GenerateToolJsonLd | frontend/src/lib/seo/jsonLd.ts:3-18 | `generateToolJsonLd`. Stated by `JsonLd.ToolJsonLdFields` and `JsonLd.ToolJsonLdDeterminedByShownFields`. |
| JsonLd.ToolJsonLdFields | frontend/src/lib/seo/jsonLd.ts:3-18 | The record copies name, description, category (as `applicationCategory`), official link (as `url`) and icon (as `image`). Context, types and the `USD` currency are fixed. The price is `'0'` exactly for `Free` tools and absent otherwise. The site URL plays no part. |
| JsonLd.ToolJsonLdDeterminedByShownFields | frontend/src/lib/seo/jsonLd.ts:3-18 | Two tools get the same record exactly when they agree on the shown fields and on being free. |
| JsonLd.GenerateBreadcrumbJsonLd | frontend/src/lib/seo/jsonLd.ts:20-31 | `generateBreadcrumbJsonLd`. Stated by `JsonLd.BreadcrumbFaithful` and `JsonLd.BreadcrumbPositionsConsecutive`. |
| JsonLd.BreadcrumbFaithful | frontend/src/lib/seo/jsonLd.ts:20-31 | One `ListItem` per crumb, item k at position k+1 with the fixed context and types. Reading names and URLs back gives the input. |
| JsonLd.BreadcrumbPositionsConsecutive | frontend/src/lib/seo/jsonLd.ts:24-29 | Positions run 1, 2, …, n without gap or repeat. |

## Left out

- The backend and everything behind it: listing, search, ranking, approval and slug derivation exist only as signatures in `frontend/src/backend.d.ts`. `Backend` declares only the `Tool` record the upload builds.
- The react-query hooks (`useAdmin.ts`, `useQueries.ts`), routing, rendering, authentication, `useSeo`'s document edits and the search debounce timer. These are UI, network or timer code.
- `file.text()`, `Date.now()` and the upload call. The file's text is a field of `CsvFile`. The clock is a parameter of `HandleUpload`: a function from the number of the `Date.now()` call during the upload to its reading. The backend's success or failure is a parameter too. Toasts are recorded as a list of `Notice` values, not shown.
- `React` state updates: the page's state is the fields of `BulkUploadPage`. The asynchrony of `handleValidate` and `handleUpload` and React's batching of updates are not modelled.
- `new URL(...)`: the URL parser is an uninterpreted function parameter (`UrlParser`). `isValidUrl` is "the parser returns a value", and `normalizeUrl` is modelled concretely only in terms of the parsed origin and path, and in its fallback branch.
- `toLowerCase` is restricted to ASCII letters. Unicode case mapping is not modelled.
- The white-space class of `trim` and `\s` is the ECMAScript WhiteSpace plus LineTerminator code points.
- JavaScript strings are sequences of UTF-16 code units, while a Dafny `char` is a Unicode scalar value. A character outside the Basic Multilingual Plane is one element in the model and two code units in the code, so `.length` and indices differ for such text. Lone surrogates cannot be represented.
- The `try`/`catch` of `parseCsv` (`csv.ts:42-44`): it guards against runtime exceptions that the modelled code cannot raise.
- Multi-line quoted CSV fields: the file is split on `\n` before any line is scanned, so the model, like the code, never joins lines.
- CSV export (`exportToCsv`) is not part of this model.
- Csv.ParseCsv: its loop leaves out `parseCsv`'s two dead branches (`headers.length === 0` and `values.length === 0`), because `parseCSVLine` always returns a field. The parse specification keeps both. `CsvProperties.HeadersNeverMissing` and `CsvProperties.NoLineSkipped` prove them unreachable.
- The row number in `Row {n}: Column count mismatch` follows the code: it is the line's index among the non-blank lines plus one. Blank lines before a bad line do not count, so the number can differ from the line's position in the file.
- JavaScript prototype lookups in `t(key)`: the model has no inherited members in the string table. It does not model that a segment may index a string's characters, or reach `Object.prototype` members such as `constructor`.
- `generateToolJsonLd`'s `siteUrl` argument is accepted and ignored, as in the code.
- `Tool` timestamps: the model does not round `Date.now() * 1000000` to a floating-point value before `BigInt`; it is the exact product. Nothing is assumed about the clock beyond what `BulkUpload.TimestampsInLineOrder` requires.
- `validateToolData` reads `data.description.trim()` without a null check. The model's records always hold strings, so the case of a missing description does not arise.
- ToolValidation.ValidateToolData: each of the six sequential `if`s is a helper method (`CheckName` … `CheckLink`) that appends to the error list. The method calls them in source order, rather than writing the six `if`s in one body.
- Csv.RowOfValue: promises no value under a header that trims to `__proto__`, because assigning a string to that name on a plain object stores nothing. `Csv.AssignValue` leaves out the same case.
- BulkUpload.ToToolsFaithful: does not promise that a tool's `createdAt` equals its `updatedAt`, because the two fields come from two separate `Date.now()` calls, which may return different readings.

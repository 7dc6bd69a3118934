# invoice-ocr: the pure rules, in Dafny

invoice-ocr reads invoices from photos or voice notes sent to a Telegram bot or
uploaded through a web page. A hosted model extracts the invoice fields as JSON.
The invoices are stored in SQLite and summarised on a statistics page. Nearly
all of it is I/O glue. This project models the few pure rules inside that glue
and proves what they guarantee:

- **The model-output normaliser** (`services/replicateService.js`, both
  extraction paths). It joins the chunks, trims, strips the ```` ```json ```` and
  ```` ``` ```` fences, slices from the first `{` to the last `}` with JavaScript's
  `substring`, checks bracket balance on the photo path only, and calls
  `JSON.parse`. Files `replicate.dfy`, `fences.dfy`, `jstext.dfy` and
  `extraction.dfy`.
- **The Gemini variant** (`services/geminiService.js`). It strips fences with
  `\n?` and only when the trimmed reply starts with a fence. File `gemini.dfy`.
- **The bot's pure fragments** (`bot.js`):
  - the MarkdownV2 escaper (`markdown.dfy`);
  - the `/stats` total and distinct-vendor count;
  - the `/history` cut;
  - the choice of photo size;
  - the saved extension, `path.extname(..) || '.jpg'`. Node's POSIX
    `extname` is in `path.dfy`.

  Files `bot.dfy`, `arrays.dfy` and `path.dfy`.
- **The persistence rules** (`services/databaseService.js`):
  - `saveInvoice`'s parameter defaulting;
  - the `items` decoding;
  - the lookup by id;
  - the overview, per-vendor and per-range statistics queries, written as
    functions over a sequence of rows.

  Files `store.dfy` and `queries.dfy`.
- **The statistics page's data handling** (`public/js/statistics.js`): the
  empty-state test, the vendor doughnut's top ten, and the fill of the
  range series to five entries. File `charts.dfy`.

Supporting modules:

- `Json` is a small JSON value type with JavaScript truthiness and
  `toString`.
- `JsText` holds `trim`, `indexOf`, `lastIndexOf` and `substring` with their
  JavaScript edge cases: -1 when absent, clamping, argument swap.
- `Fences` holds the global regular-expression replace as a left-to-right
  scan.
- `JsArrays` holds `slice(0, n)` and `[...new Set(xs)]`.
- `Wrappers` holds `Option` and `Result`.

`JSON.parse` and `JSON.stringify` are library code. They are taken as function
parameters (`Parser`, `Stringifier`). A property that depends on what the parser
returns states that assumption as a precondition.

## Model

| member | source | states |
|---|---|---|
| ReplicateNormalizer.JoinConcatenates | services/replicateService.js:59 | Joining the output chunks concatenates them in order with nothing in between: the join splits over any cut of the array, and one chunk joins to itself. |
| ReplicateNormalizer.ResponseText | services/replicateService.js:59 | A single value is its own text. An array's chunks lie in the text one after another, each unchanged at the summed length of the chunks before it, and the text is exactly as long as all of them. |
| ReplicateNormalizer.Balanced | services/replicateService.js:82-87 | The balance check holds exactly when '{' and '}' occur equally often and '[' and ']' occur equally often. |
| ReplicateNormalizer.Clean | services/replicateService.js:64-67 | After the trim and both global replaces, no "```" is left anywhere in the text. |
| Fences.RemoveAllChars | services/replicateService.js:67 | The global replace only deletes: every character of its result occurs in the input. |
| Fences.RemoveAllKeepsUnmatched | services/replicateService.js:67 | Text in which no match begins is copied to the output unchanged, ahead of the replace of the rest. |
| Fences.RemoveAllIdentity | services/replicateService.js:67 | A text without "```" passes through the replace unchanged. |
| Fences.NoFenceLeft | services/replicateService.js:67 | Once every "```" (with its trailing whitespace) is removed, the result contains no "```". |
| Fences.RemoveAllSplit | services/replicateService.js:67 | The replace distributes over a cut whose second part starts with a character that is neither whitespace nor part of the marker. |
| JsText.IndexOf | services/replicateService.js:70 | `indexOf` is -1 exactly when the character is absent; otherwise it is the first position holding it. |
| JsText.LastIndexOf | services/replicateService.js:71 | `lastIndexOf` is -1 exactly when the character is absent; otherwise it is the last position holding it. |
| JsText.Substring | services/replicateService.js:77 | Within bounds, `substring` returns the span between its indices, and it swaps them when the end precedes the start. |
| ReplicateNormalizer.Locate | services/replicateService.js:70-77 | The slice fails with "No valid JSON object found in response" exactly when the cleaned text lacks a '{' or a '}'. |
| ReplicateNormalizer.SliceInOrder | services/replicateService.js:70-77 | When the first '{' precedes the last '}', the slice is the text between them inclusive, starting with '{' and ending with '}'. |
| ReplicateNormalizer.SliceReversed | services/replicateService.js:70-77 | When the last '}' precedes the first '{', `substring` swaps its arguments: the slice is the brace-free text strictly between them. |
| ReplicateNormalizer.ReversedBracesReachParser | services/replicateService.js:77-93 | A reply "}…{" passes the brace check and the balance check, and the parser receives the text between the braces. |
| ReplicateNormalizer.FencedObjectRecovered | services/replicateService.js:64-77 | An object wrapped in a ```json fence, with brace-free and fence-free prose before and after, is sliced back out exactly. |
| ReplicateNormalizer.ExtractInvoiceData | services/replicateService.js:59-107 | The photo path succeeds exactly when the slice exists, is balanced in braces and brackets, and parses; data is then the parse and rawResponse the untrimmed joined text. A missing brace fails with "No valid JSON object found in response", an unbalanced slice with "Incomplete JSON response from API. Please try again.", and a parse failure with the parser's own message. |
| ReplicateNormalizer.UnbalancedNeverParsed | services/replicateService.js:82-90 | An unbalanced slice fails with "Incomplete JSON response from API. Please try again." and a null rawResponse, whatever the parser would say. |
| ReplicateNormalizer.MissingBraceRejected | services/replicateService.js:70-75 | Without a '{' or a '}', both paths fail with "No valid JSON object found in response" and a null rawResponse. |
| ReplicateNormalizer.ExtractInvoiceDataFromText | services/replicateService.js:166-201 | The text path succeeds exactly when the slice exists and parses, with no balance check. A missing brace fails with "No valid JSON object found in response" and a parse failure with the parser's own message. |
| ReplicateNormalizer.PathsDifferOnlyInBalance | services/replicateService.js:175-193 | On a balanced slice the two paths agree; on an unbalanced one the text path's outcome is the parser's verdict alone. |
| GeminiNormalizer.Clean | services/geminiService.js:54-57 | A reply starting with a fence comes out with no "```" left; any other reply is passed through unchanged. |
| GeminiNormalizer.Payload | services/geminiService.js:53-57 | The text handed to the parser is the trimmed reply unless that starts with "```", in which case it holds no "```". |
| GeminiNormalizer.ExtractInvoiceData | services/geminiService.js:53-75 | The call succeeds exactly when the payload parses, with rawResponse the untrimmed reply; a failure carries the parser's message. |
| GeminiNormalizer.JsonFencedReply | services/geminiService.js:54-55 | A ```json fenced body, with blank space around it, reaches the parser as the body followed by the newline that preceded the closing fence. |
| GeminiNormalizer.BareFencedReply | services/geminiService.js:56-57 | The same holds for a bare ``` fence. |
| GeminiNormalizer.UnfencedReplyOnlyTrimmed | services/geminiService.js:53-61 | A reply whose trimmed text does not start with three backticks reaches the parser only trimmed: no fence removal and no brace slicing. |
| GeminiNormalizer.CleanIdempotent | services/geminiService.js:54-57 | Cleaning a fenced reply a second time changes nothing. |
| TelegramMarkdown.EscapeText | bot.js:31 | The escaped text is longer than the input by the number of reserved characters, and every reserved character in it is preceded by a backslash. |
| TelegramMarkdown.UnescapeEscape | bot.js:31 | Dropping the character before each reserved character of the output gives back the input. |
| TelegramMarkdown.EscapeInjective | bot.js:31 | Two texts with the same escape are equal. |
| TelegramMarkdown.EscapeConcat | bot.js:31 | Escaping works character by character: it distributes over concatenation. |
| TelegramMarkdown.EscapeChar | bot.js:31 | A reserved character becomes a backslash followed by itself; any other character, backslash included, is kept. |
| TelegramMarkdown.EscapePlainIdentity | bot.js:31 | A text without reserved characters is unchanged. |
| TelegramMarkdown.EscapeMarkdown | bot.js:29-32 | A falsy value, `undefined` included, is returned unchanged. A truthy one becomes the escape of its string form: it unescapes back to that form and is longer by its reserved-character count. |
| TelegramMarkdown.EscapeNumber | bot.js:29-32 | A non-zero safe integer (magnitude at most 2^53 - 1) returned for a field prints as its decimal digits, a negative one with its minus sign escaped, and the digits read back as the number. |
| BotCommands.StatsTotal | bot.js:146 | The `/stats` total, with a missing or zero amount counting 0, is the sum of the non-null amounts. |
| BotCommands.StatsTotalMatchesOverview | bot.js:146 | On the same table, the `/stats` total equals the overview query's SUM, with 0 where SUM is NULL. |
| BotCommands.AmountOrZero | bot.js:146 | `total_amount \|\| 0` counts a NULL amount as 0 and leaves every other amount, 0 included, as it is. |
| BotCommands.StatsVendorCount | bot.js:147 | The vendor count is the number of distinct non-null, non-empty vendor names. |
| BotCommands.StatsVendorCountMatchesOverview | bot.js:147 | When every row has an amount and no vendor name is empty, the count equals the overview's COUNT(DISTINCT vendor_name). |
| BotCommands.TruthyVendors | bot.js:147 | A name is among the filtered vendor names exactly when it is non-empty and some invoice has it as its vendor. |
| JsArrays.FirstN | bot.js:86 | `slice(0, n)` is a prefix of the list of length min(n, length). |
| BotCommands.History | bot.js:86 | `/history` shows at most ten invoices, the first ones of the returned order, in order. |
| JsArrays.DistinctCount | bot.js:147 | `[...new Set(xs)]` has as many entries as xs has distinct values. |
| BotCommands.PickPhoto | bot.js:411-412 | The pick fails, by reading `file_id` of undefined, exactly on an empty photo array; otherwise it is an entry of the array. |
| BotCommands.PickPhotoLargest | bot.js:410-411 | With sizes listed smallest first, no size has a larger area than the pick. |
| PosixPath.ExtName | bot.js:420 | `path.extname` is a suffix of the last path component that starts with its last '.' and holds no other '.' or '/'. It is empty exactly when that component is ".." or has no '.' after its first character. |
| PosixPath.ExtNameOfFile | bot.js:420 | For dir/stem.ext, the extension is ".ext". |
| BotCommands.SavedExtension | bot.js:420 | The saved extension always starts with '.'; it is `extname` when that is non-empty and ".jpg" otherwise. |
| BotCommands.SavedExtensionOfFile | bot.js:420 | A Telegram path such as photos/file_3.jpg keeps its own extension. |
| BotCommands.SavedExtensionDefault | bot.js:420 | A path whose last component has no '.' is saved with ".jpg". |
| InvoiceStore.SaveParams | services/databaseService.js:25-34 | Building the parameters fails exactly for null data, with the TypeError for reading `invoice_number`. Otherwise the filename and raw response are bound as given, and each field is bound as a truthy value or its fallback. |
| InvoiceStore.SaveParamsFields | services/databaseService.js:25-34 | For an object, each field is bound unchanged when present and truthy. Otherwise it takes its fallback: null for the text fields, 0 for the amount, the serialised [] for the items. |
| InvoiceStore.SaveParamsNonObject | services/databaseService.js:25-34 | Data that is not an object binds every field to its fallback. |
| InvoiceStore.EmptyItemsDecodeEmpty | services/databaseService.js:90 | With a parser that reads "[]" as the empty array, a NULL or empty column decodes to the empty array. |
| InvoiceStore.GetAllInvoicesDefaultsItems | services/databaseService.js:64 | With a parser that reads "[]" as the empty array, `getAllInvoices` returns a row with a NULL or empty items column carrying the empty array. |
| InvoiceStore.GetInvoiceByIdDefaultsItems | services/databaseService.js:90 | With such a parser and unique ids, `getInvoiceById` returns that row with the empty array as its items. |
| InvoiceStore.GetAllInvoices | services/databaseService.js:53-70 | Reading all invoices succeeds exactly when every row's items decode, and then returns each row, in order, with its items decoded. |
| InvoiceStore.GetInvoiceById | services/databaseService.js:77-96 | The lookup resolves null exactly when no row has the id; a found invoice is a stored row carrying that id. |
| InvoiceStore.GetInvoiceByIdFinds | services/databaseService.js:77-96 | With unique ids, looking up a stored row's id returns that row decoded. |
| StatisticsQueries.Overview | services/databaseService.js:104-113 | The overview counts only rows with an amount. SUM, MIN and MAX are NULL exactly when that count is 0; otherwise MIN and MAX are amounts that bound all the others. Unique vendors counts the distinct non-null vendors among those rows. |
| StatisticsQueries.Amounts | services/databaseService.js:113 | An amount is in the list exactly when some row carries it, so the NULL amounts are exactly the ones dropped. |
| StatisticsQueries.PricedVendors | services/databaseService.js:111-113 | A name is among the vendors COUNT(DISTINCT) sees exactly when some row with an amount carries it. |
| StatisticsQueries.OverviewMinMax | services/databaseService.js:109-110 | When the count is positive, min ≤ max. |
| StatisticsQueries.OverviewIgnoresUnpriced | services/databaseService.js:113 | Adding a row without an amount leaves the overview unchanged. |
| StatisticsQueries.Tally | services/databaseService.js:132-140 | The grouping has one group per vendor name, each with a positive count. Each group's count and sum are those of the vendor's rows that have both a vendor and an amount; every such vendor has a group; the counts add up to the included rows. |
| StatisticsQueries.SortByTotal | services/databaseService.js:141 | The sort orders the groups by total, non-increasing, and is a permutation. |
| StatisticsQueries.ByVendor | services/databaseService.js:132-141 | The per-vendor result is ordered by summed amount descending, has distinct vendor names, and is a permutation of the groups. |
| StatisticsQueries.ByVendorRowsCounted | services/databaseService.js:132-140 | Every result row's count and total are those of its vendor's included rows, and its count is positive. |
| StatisticsQueries.ByVendorCoversVendors | services/databaseService.js:138 | Every vendor with an included row appears in the result. |
| StatisticsQueries.ByVendorCountsSum | services/databaseService.js:132-139 | The result's counts add up to the rows having both a vendor and an amount. |
| StatisticsQueries.BucketIndex | services/databaseService.js:188-194 | An amount's range is one of five: at or above the range's lower threshold, when it has one, and below its upper threshold (100, 500, 1000, 5000), when it has one. |
| StatisticsQueries.BucketMonotone | services/databaseService.js:188-194 | A larger amount never falls into an earlier range. |
| StatisticsQueries.Rank | services/databaseService.js:199-206 | The ORDER BY rank is defined exactly for the five labels, and rank k belongs to the k-th label. |
| StatisticsQueries.RankOfLabel | services/databaseService.js:199-206 | The i-th label has rank i + 1. |
| StatisticsQueries.BucketsPartition | services/databaseService.js:186-198 | The five range counts add up to the number of amounts: the ranges partition them. |
| StatisticsQueries.ByAmountRange | services/databaseService.js:186-206 | Every result row carries one of the five labels and a positive count. |
| StatisticsQueries.ByAmountRangeOrdered | services/databaseService.js:199-206 | The result rows are in strictly increasing rank. |
| StatisticsQueries.ByAmountRangeComplete | services/databaseService.js:186-206 | Every non-empty range appears, each row holds its range's count, and the counts add up to the rows with an amount. |
| StatisticsPage.EmptyStateIffNoAmounts | public/js/statistics.js:38-41 | Fed the overview query, the page shows its empty state exactly when no invoice has an amount. |
| StatisticsPage.VendorLabel | public/js/statistics.js:200 | A vendor label is never empty: the name itself, or "Unknown" for an empty one. |
| StatisticsPage.VendorChart | public/js/statistics.js:195-202 | The doughnut has min(10, rows) slices, the first rows in order, each labelled by its vendor and valued by its total. |
| StatisticsPage.VendorChartTopTen | public/js/statistics.js:195-202 | Fed the per-vendor query, the doughnut's values never increase, and no vendor left out has a larger total than one shown. |
| StatisticsPage.FoundCount | public/js/statistics.js:256-257 | `find` then count: 0 when no row has the label, else the first such row's count. |
| StatisticsPage.RangeSeries | public/js/statistics.js:254-258 | The series has exactly five entries in the fixed range order; entry i is the count of the first row labelled with range i, or 0. |
| StatisticsPage.RangeSeriesIgnoresOtherLabels | public/js/statistics.js:255-258 | A row whose label is none of the five changes no entry. |
| StatisticsPage.RangeSeriesOfHistogram | public/js/statistics.js:254-258 | Fed the range query, entry i is exactly range i's count, so no grouped count is dropped. |
| StatisticsPage.RangeSeriesTotal | public/js/statistics.js:254-258 | Fed the range query, the five entries add up to the number of invoices with an amount. |

## Left out

- The hosted-model and transcription calls (`replicate.run`, `generateContent`, services/whisperService.js) are network calls. Their output is an input here.
- `output.toString()` of a non-array model output is taken as the given text (`ModelOutput.Single`).
- `JSON.parse` and `JSON.stringify` are parameters, not parsers. Where a property needs the parser's answer on "[]", it says so in a precondition.
- Json.ToJsString and TelegramMarkdown.EscapeNumber: numbers are printed as their exact digits, which matches JavaScript only up to 2^53 - 1 in magnitude. Beyond that JavaScript prints rounded digits, and from 1e21 on an exponent form such as `1e+21` (escaped as `1e\+21`). `EscapeNumber` is stated for safe integers only.
- Strings are sequences of Unicode characters, not of UTF-16 code units. For text outside the Basic Multilingual Plane, the lengths and positions that `indexOf`, `lastIndexOf` and `substring` use in JavaScript differ from the model's.
- Floating point and locale: amounts are integers, and `AVG(total_amount)`, doughnut percentages, `toLocaleString` and `Intl.NumberFormat` are not modelled.
- Dates: `created_at` and its `ORDER BY created_at DESC` are not modelled, so rows are taken in the order the query returns them. `getInvoicesByMonth`, `/export_month` and all date formatting are left out.
- SQLite itself (execution, type affinity, the driver's binding of JS values, callbacks, schema setup in config/database.js) is left out. Tables are sequences of rows with NULL as `None`, and a driver error is not modelled.
- InvoiceStore.GetAllInvoices and InvoiceStore.GetInvoiceById: `JSON.parse` of a malformed items column throws inside the driver's callback, outside any handler. The promise never settles and the exception crashes the process. The model returns `Failure` in its place and does not model the crash.
- Reading a property of `null` data inside `saveInvoice`'s promise executor throws; the model returns a `Failure` and omits the rest of the insert.
- StatisticsQueries.SortByTotal: SQLite's tie order under `ORDER BY total_amount DESC` is unspecified. The model fixes a stable insertion sort, and the contract claims only the non-increasing order and the permutation.
- The JSON transport of the statistics response to the page is taken as the identity. The response's `overview: row || {}` fallback is not modelled, since an aggregate query without GROUP BY always returns one row.
- `undefined` is modelled as `None` of `Option<Json>` where a value may be missing (`escapeMarkdown`'s argument, a property read); JSON values themselves have no `undefined`.
- A message without a `photo` field (`msg.photo` undefined) is not modelled; the handler only runs for photo messages.
- `path.extname` is modelled for POSIX paths only, which is what Telegram's `file_path` is.
- Telegram handlers, message sending, the file download, rename and unlink, XLSX export, the Express routes and multer filter, server.js, config/*.js, and the DOM, camera and Chart.js code are I/O and UI plumbing outside the pure rules.

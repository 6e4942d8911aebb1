# Submission store of the marketing-site backend

`server.js` keeps every application sent to `POST /api/submit-application` as one JSON file in
a `submissions` directory, named after the moment of submission and the business name, and
appends one row per application to `applications_summary.csv` in the same directory. The
dashboard reads the directory back through `GET /api/submissions` (every `.json` file, merged
with an `id` and its `fileName`, newest first), and `GET` / `DELETE /api/submissions/:id` read or
unlink the file `id + '.json'`.

This project models that store in Dafny:

- `Text`: `endsWith`, `join`, `split`, counting characters, and `String.prototype.replace` with a
  string pattern, which removes the first occurrence only.
- `JsValues`: the JavaScript values a form can carry, truthiness, how a template literal renders
  a value, `|| ''`, and how `new Date(v)` turns a value into a time value (TimeClip included).
  Turning an object that has its own `toString` key (or an array holding one) into a primitive
  throws a `TypeError`, in a template literal and in `new Date(v)` alike. `Date.parse` is a
  parameter.
- `Paths`: `path.join(directory, name)` with its normalisation, so that an id holding `../`
  lands outside the directory, as it does in the code.
- `FileNames`: the file name `<timestamp>_<business>.json` and the id derived from a name.
- `Records`: the stored record (metadata first, client fields spread over it) and the merged
  view the listing and get return.
- `CsvSummary`: the header, the quoted row, and the summary's text over a series of submissions.
- `Listing`: the filter / read-and-merge / sort pipeline.
- `Store`: the directory as a `SubmissionStore` object whose `files` map, CSV `summary` text and
  `beyond` (the files outside the directory an id can reach) the endpoint methods update in
  place. The summary is kept beside the map: its name does not end in `.json`, so the listing
  never reads it and no id reaches it. Each method is
  proved against a function on the `Disk` value (`Submission`, `Fetch`, `Deletion`,
  `ListSubmissions`) and the lemmas beside them state what the endpoints promise.

The clock is three inputs (`Clock`): server.js:32, 40 and 41 each create their own `new Date()`.
The name stamp must have the shape of `toISOString` output (digits, `-`, `+`, `:`, `.`, `T`, `Z`).

The model follows the code, including where it surprises:

- A record file that does not parse makes get answer 500 with the parse error (`ReadFailed`),
  not 404.
- One such file makes the whole listing fail with that error instead of being skipped. The
  model's `SyntaxError(name)` identifies which file threw; the 500 body carries
  `JSON.parse`'s own message.
- A submission whose CSV row cannot be rendered (a form value that is an object with its own
  `toString` key) answers 500, yet its JSON file and, for a new summary, the header are already
  written; only the row is missing.
- With two or more records, one whose `submittedAt` is such an object makes the whole listing
  fail with a `TypeError`, since the sort builds a `Date` for every entry it compares.
- The id is never validated, so get and delete reach any `.json` file that a `../` path leads to.

## Model

| member | source | states |
|---|---|---|
| FileNames.DashStamp | server.js:32 | same length; `:` and `.` become `-`, every other character is kept; no `:` or `.` is left |
| FileNames.BusinessLabel | server.js:33-34 | fails with the TypeError `businessName.replace is not a function` exactly when the business name is a truthy non-string; `Unknown` when it is missing or falsy; otherwise the string itself |
| FileNames.SanitizeName | server.js:34 | same length as the input; every character in `[a-z0-9_]`; ASCII letters and digits lower-cased in place, everything else `_` |
| FileNames.SanitizeIdempotent | server.js:34 | sanitizing a sanitized name changes nothing |
| FileNames.FileNameParts | server.js:32-35 | the name is dashed stamp, `_`, sanitized business name, `.json`, of length stamp + name + 6; it fails exactly when the business name does |
| FileNames.FileNameFor | server.js:32-35 | fails, with the business name's `TypeError`, exactly when the business name does; otherwise a name of length stamp + business name + 6 |
| FileNames.IdOf | server.js:89 | for a name ending in `.json` the id is five characters shorter; a name holding no `.json` is its own id |
| FileNames.FileNameOf | server.js:114 | `id + '.json'` (the same at server.js:148) ends in `.json` and starts with the id |
| FileNames.StampPlain | server.js:32 | a dashed `toISOString` stamp holds no `.` and no `/` |
| FileNames.CleanPlain | server.js:34 | a sanitized business name holds no `.` and no `/` |
| FileNames.PlainJsonName | server.js:35 | a prefix without `.` and `/`, followed by `.json`, is a plain entry name that ends in `.json` and gives the prefix back before its suffix |
| FileNames.GeneratedNameIsSegment | server.js:32-36 | a generated name is a plain directory entry ending in `.json`, with no `.` before that suffix |
| FileNames.GeneratedNamePlain | server.js:32-35 | before its `.json` suffix a generated name holds no `.` and no `/` |
| FileNames.FirstJsonIsSuffix | server.js:89 | when the only `.` of a name starts its final `.json`, removing the first `.json` removes the suffix, and adding `.json` back gives the name |
| FileNames.GeneratedNameIsEntry | server.js:32-36 | a generated name is a plain directory entry (no `/`, not `.` or `..`) ending in `.json`, and its listing id leads back to it through `id + '.json'` |
| FileNames.ForeignNameIdMisses | server.js:89 | for `a.jsonb.json` the listing id is `ab.json`, and `id + '.json'` names a different file |
| Records.BuildRecord | server.js:39-43 | keys are the form's plus `submittedAt` and `submittedDate`; every client field is kept as sent; the metadata values appear only where the client sent no field of that name |
| Records.WithIdentity | server.js:88-92 | keys are the data's plus `id` and `fileName`; stored fields win over both |
| JsValues.Truthy | server.js:33 | objects and arrays are truthy, `null` is falsy, a string is truthy exactly when it is non-empty |
| JsValues.ToText | server.js:59 | throws the conversion `TypeError` exactly when the value is unconvertible; a string renders as itself |
| JsValues.ItemsText | server.js:59 | joining array elements throws exactly when some element is unconvertible |
| JsValues.TemplateText | server.js:59 | `${v}` throws exactly when `v` is unconvertible; a missing value renders as `undefined` |
| JsValues.OrEmpty | server.js:59 | `${v \|\| ''}` throws exactly when `v` is unconvertible (objects and arrays are truthy); a missing value renders as the empty string |
| JsValues.DateOf | server.js:94 | `new Date(v)` throws exactly when `v` is unconvertible; a missing value is NaN; any valid time value lies within the TimeClip range |
| JsValues.OrEmptyDiffers | server.js:59 | `${v \|\| ''}` differs from `${v}` exactly for falsy values other than the empty string |
| JsValues.DigitsArePlain | server.js:59 | the digits of a natural number are decimal digits |
| JsValues.DecimalTextPlain | server.js:59 | a rendered integer is decimal digits, after a `-` exactly when it is negative, so it holds no comma, quote or line break |
| CsvSummary.RowCells | server.js:59 | fails with the conversion `TypeError` exactly when the stored `submittedDate` or one of the seven form fields cannot be rendered; otherwise eight cells: that date as a template literal renders it, then the seven form fields with `\|\| ''`, in the header's order |
| CsvSummary.UnconvertibleNameFailsRow | server.js:59 | a `fullName` that is an object with its own `toString` key makes the row fail with the conversion `TypeError` |
| CsvSummary.Row | server.js:59 | a row starts with a quote and ends with a line break |
| CsvSummary.SummaryAfter | server.js:54-60 | the old summary text (the header when there was none) stays a prefix and the text ends with the row |
| CsvSummary.RowBody | server.js:59 | a row is the quoted cells joined by commas, ended by one line break |
| CsvSummary.FieldCount | server.js:59 | splitting a row at commas gives one field per cell plus one per comma inside the values (no escaping) |
| CsvSummary.RowRoundTrip | server.js:59 | when no value holds a comma, splitting the row and stripping the quotes gives the cells back |
| CsvSummary.NumberCellIsPlain | server.js:59 | a form value that is absent or a number renders without a comma or a line break |
| CsvSummary.NumericRowRoundTrip | server.js:59 | when the date text holds no comma and every form column is a number or absent, the row can be built and reads back as its cells |
| CsvSummary.RowLineBreaks | server.js:59-60 | a row adds one line break plus those inside its values |
| CsvSummary.HeaderNamesArePlain | server.js:51 | no column name holds a comma or a line break |
| CsvSummary.HeaderColumns | server.js:51 | the header line splits into its eight column names |
| CsvSummary.HeaderIsOneLine | server.js:51 | the header holds exactly one line break |
| CsvSummary.AppendOnly | server.js:54-60 | an existing summary is only appended to: its old text stays a prefix, followed by the rows in order |
| CsvSummary.HeaderWrittenOnce | server.js:54-60 | starting from no file, the header is written once, ahead of every row |
| CsvSummary.SummaryLineCount | server.js:50-60 | after n submissions without line breaks in their values, the summary has n + 1 lines |
| Text.SplitJoin | server.js:59 | splitting at a separator undoes joining with it when no part holds the separator |
| Text.IndexOf | server.js:89 | finds the first occurrence of a pattern, or reports that there is none |
| Text.RemoveFirst | server.js:89 | `replace` with a string pattern: without an occurrence the text is unchanged; otherwise exactly the first occurrence is cut out, the text before and after it kept |
| Listing.JsonFiles | server.js:83 | keeps exactly the names ending in `.json`, never more names than it was given, without repeating any |
| Listing.JsonFilesInOrder | server.js:83 | the kept names appear in the order of the directory listing: the k-th kept name sits at a strictly increasing position of the input |
| Listing.EntryOf | server.js:88-92 | keys are the file's plus `id` and `fileName`; stored fields win; otherwise `id` is the name with its first `.json` removed and `fileName` is the name |
| Listing.LoadEntries | server.js:84-93 | succeeds exactly when every named file is a JSON object, giving each file's merged entry in order; otherwise fails with `SyntaxError(name)`, which identifies the first file that is not one (the 500 body carries `JSON.parse`'s own message) |
| Listing.SortKey | server.js:94 | `new Date(entry.submittedAt)` throws the conversion `TypeError` exactly when the stamp is unconvertible; a missing stamp is NaN |
| Listing.Compare | server.js:94 | negative exactly when both dates are valid and the first is newer, positive exactly when both are valid and the second is newer; NaN compares as 0 |
| Listing.Insert | server.js:94 | inserting adds exactly the one entry (as a multiset) |
| Listing.SortNewestFirst | server.js:94 | the sorted listing is a permutation of the entries |
| Listing.InsertKeepsOrder | server.js:94 | inserting a dated entry into a newest-first listing keeps it newest first |
| Listing.SortOrders | server.js:94 | when every `submittedAt` is a valid date, the sorted listing never increases in date |
| Listing.ListSubmissions | server.js:82-99 | `count` is the number of submissions returned; a failure is a parse error or the conversion `TypeError` |
| Listing.FileEntryIsLoaded | server.js:82-93 | when loading succeeds, every `.json` entry of the directory holding a JSON object contributes its merged entry |
| Listing.EntryKeyThrows | server.js:88-94 | a merged entry's date throws exactly when the file's own `submittedAt` does |
| Listing.StampOfEntry | server.js:84-94 | the i-th loaded entry's date throws exactly when the i-th file's stamp does |
| Listing.KeyThrowsHasStamp | server.js:82-94 | a loaded entry whose date throws comes from a `.json` file of the directory whose stamp throws |
| Listing.StampMakesKeyThrow | server.js:82-94 | a `.json` file whose stamp throws makes some loaded entry's date throw |
| Listing.ListingOutcome | server.js:82-107 | the listing succeeds exactly when every `.json` file holds a JSON object and, with two or more of them, no `submittedAt` is unconvertible; a file that does not parse gives a `SyntaxError`, an unconvertible stamp the conversion `TypeError` |
| Listing.ListingEntries | server.js:82-99 | a successful listing holds one merged entry per `.json` file and nothing else; `count` is the number of `.json` names |
| Listing.ListingNewestFirst | server.js:94 | a successful listing whose dates are all valid is newest first |
| Paths.Walk | server.js:36 | a joined path is normalised: no empty, `.`, `..` or `/`-holding segment |
| Paths.Resolve | server.js:36 | a joined path (here and at server.js:115 and 149) is normalised |
| Paths.Locate | server.js:115 | a name that joins to a path directly inside the directory is found there under a plain entry name; any other path is kept whole and is not directly inside the directory |
| Paths.ChildStaysInside | server.js:36 | a plain entry name joined onto the directory stays directly inside it |
| Paths.LastSegmentKeepsSuffix | server.js:115 | whatever the id, `id + '.json'` joins to a path whose last segment ends in `.json` |
| Paths.DotDotEscapes | server.js:149 | an id `../name` joins to `name.json` in the directory's parent |
| Store.Started | server.js:46-56 | the JSON file is added or overwritten with the record, every other file keeps its content, and the summary exists: its old text, or the header when it was absent |
| Store.Stored | server.js:46-60 | the files are as after the JSON write, and the summary is the started summary followed by the row |
| Store.Submission | server.js:26-76 | saved exactly when both the name and the CSV row can be built, under the generated name; every failure is a `TypeError`; a failing business name writes nothing; once the name is built the record's file is written, even when the row then fails; files elsewhere are never touched |
| Store.SubmitFailsAfterWrite | server.js:46-59 | an unconvertible `fullName` answers 500 with the record and the header already written and no row appended |
| Store.AcceptedAppendsRow | server.js:54-60 | an accepted submission leaves the summary as its old text (or the header) followed by its row |
| Store.SubmitAllSummary | server.js:54-60 | after a series of accepted submissions the summary is the old text (or the header) followed by their rows, in order |
| Store.SubmitAppendsToSummary | server.js:54-60 | the summary never shrinks: an existing summary stays a prefix; once the name is built, the old text (or the header) stays a prefix; an accepted submission makes it a proper prefix and adds one line break plus those inside the row's values |
| Store.SubmitKeepsWellFormed | server.js:32-60 | submitting keeps every file name a plain entry other than the summary's, and files elsewhere outside the directory |
| Store.JsonIsNotSummary | server.js:50 | no name ending in `.json` is the summary's |
| Store.GeneratedIsNotSummary | server.js:35 | a generated name ends in `.json` and is never the summary's name |
| Store.IdNeverReachesSummary | server.js:114-115 | whatever the id, `id + '.json'` never joins to the summary |
| Store.EnumeratedJsonFiles | server.js:82-83 | the `.json` names of a directory listing are exactly the `.json` files, the summary never among them |
| Store.Fetch | server.js:112-143 | 404 exactly when nothing is at `id + '.json'`; a file that holds no JSON object gives `SyntaxError(id + '.json')`; found exactly when a JSON object is there, and the submission is that object merged with the id and `id + '.json'` |
| Store.SubmitThenFetch | server.js:114-134 | the record a submission writes is found under its listing id, merged with that id and its file name, even when the row then failed |
| Store.SubmitThenList | server.js:82-99 | with `readdir` naming the directory's entries, summary included, every `.json` name it lists is a file, and a successful listing holds the written record's entry |
| Store.Deletion | server.js:146-173 | deleted exactly when a file is at `id + '.json'`; nothing changes otherwise |
| Store.DeleteRemovesOne | server.js:151-158 | a delete removes one file when it answers deleted and none otherwise; the summary and every remaining file keep their content |
| Store.DeleteThenFetch | server.js:158 | after a delete, get of the same id answers 404 |
| Store.DeleteEscapes | server.js:148-158 | the unvalidated id `../name` unlinks `name.json` in the parent directory and nothing in the submissions directory |
| Store.ListingCount | server.js:96-99 | with each directory entry (the summary included) listed once, `count` is the number of `.json` files in the directory |
| Store.SubmissionStore.constructor | server.js:19-23 | the store starts over the given directory, files and summary, with the summary header of server.js:51 |
| Store.SubmissionStore.WriteFile | server.js:46 | the one named file now holds the content; the summary and files elsewhere are unchanged |
| Store.SubmissionStore.EnsureHeader | server.js:54-56 | the summary keeps its text, or becomes the header when it was absent; no file changes |
| Store.SubmissionStore.AppendRow | server.js:60 | the existing summary gets the row appended; no file changes |
| Store.SubmissionStore.Submit | server.js:26-76 | the new state and outcome are those of `Submission`, and the store stays well formed |
| Store.SubmissionStore.Get | server.js:112-143 | the outcome is that of `Fetch`; nothing changes |
| Store.SubmissionStore.Delete | server.js:146-173 | the new state and outcome are those of `Deletion`, and the store stays well formed |
| Store.SubmissionStore.List | server.js:80-109 | the outcome is that of `ListSubmissions`; `count` is the number of `.json` files |

## Left out

- Express setup, CORS, body parsing, static files, the health endpoint and `app.listen`
  (server.js:1-16, 175-190): framework plumbing.
- Creating the directory at startup (server.js:18-23): the store starts from a given directory.
- Real filesystem failures (permissions, a full disk) and their 500 responses: the files are a map
  and every write succeeds.
- Symbolic links, sub-directories of the submissions directory, and directories on the path to it
  whose names end in `.json`: `beyond` holds only files outside the directory's own tree.
- Windows path rules: joining is modelled on POSIX.
- JSON text: a file holds either a JSON object (`JsonObject`) or text that is not one
  (`PlainText`); `JSON.stringify` and `JSON.parse` of other JSON values, and the spread of a
  parsed array or primitive, are not modelled.
- Numbers are integers, rendered exactly only up to magnitude 2^53: fractions, the rounding of
  larger integers to doubles and the exponent form `String` uses from 10^21 on are not modelled.
- `Date.parse`, `toISOString` and the locale-dependent `toLocaleString` are inputs (`parse`,
  `Clock`), not computed.
- Strings are sequences of characters, not UTF-16 code units; `toLowerCase` is modelled on the
  characters the sanitizer keeps, which are ASCII.
- Console logging and the response envelopes beyond the outcome datatypes.
- Two submissions in the same millisecond with the same sanitized name overwrite one another, as
  in the code; nothing is proved about concurrent requests.
- `readdirSync` order is an input (`readdir`), as is the order of the map it enumerates.
- Listing.ListingNewestFirst: ordering is proved only when every `submittedAt` is a valid date;
  with an invalid date the comparator answers NaN and the order `Array.prototype.sort` then
  produces is not pinned down, so only the permutation is stated for that case.
- Store.Submission: takes the summary header as a parameter; the store passes `Header`
  (server.js:51), as its constructor states.
- test-submission.js is not part of this model: it is a client script with no store logic.

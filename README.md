# Smart upload of appointment sheets — a Dafny model

The clinic dashboard (`src/Dashboard.jsx`) lets staff drop one or more CSV or Excel
files of appointments at once. Each file's rows are read into canonical records: patient
name, phone, reason, day, time, doctor, health number and insurance number. The records
of every file uploaded so far are then merged into one list. A row whose identifiers
(insurance, phone, health number, name) match a record already seen only fills that
record's blanks. The list is deduplicated and checked for missing required fields and for
more than one appointment day. It is shown as a preview in three stages: 1 = nothing
uploaded, 2 = more data needed, 3 = ready. Staff can fix an incomplete row by hand, and
can save the complete rows as pending appointments.

This project models that pipeline:

- `JsText`: the JavaScript string operations it relies on. These are `trim`,
  `replace(/\D/g, "")`, `toLowerCase`, `split`, `slice(-n)`, `padStart` and number
  formatting.
- `Normalise`: the normalisers `normKey`, `normPhone`, `normHealth`, `normName` and
  `normDate`.
- `Records`: the canonical record, the required fields, `getRowMissingFields` and
  `keyCandidates`.
- `Canonicalise`: `mapRowToCanonical`, written as a method proved equal to a
  functional specification `Canonical`. The method has the same steps as the source:
  - the key lookup;
  - the combined Patient/Description pass;
  - the synonym lookups and the last-match phone detection;
  - the named-column, area-code, Concern-column and scan fallbacks;
  - the insurance search, the normalisation and the date/time split.
- `TableReader`:
  - `findRealHeaderRowIndex`;
  - the header detection and body pairing used for Excel sheets;
  - the CSV file builder;
  - the per-file loop of `handleUploadSmart`, including its extension dispatch.
- `MergeEngine`: the merge loop of `recomputeMergeState` and its first-key-wins
  deduplication. The index maps every identifier key to a record position. A merge only
  fills blanks. Identifiers stay consistent with the index, and record ids stay distinct.
- `Validation`:
  - the union of missing required fields;
  - the distinct-days rule and its error message;
  - the split into complete and incomplete rows.
- `Commit`: the guards of `confirmAndSave`, in their order, and the payload it builds.
  The payload step strips leading non-digits from the time. It falls back to 09:00 AM,
  joins day and time into a timestamp and maps empty values to null.
- `UploadSession`: the component state of the upload screen, as a class whose fields
  the handlers update. The handlers are `recomputeMergeState`, `handleUploadSmart`,
  `resetUploads`, the Fix button, `saveFixedRow` and `confirmAndSave`. Each handler is a
  method proved to leave the state that a function of the old state describes. Lemmas
  over those functions state what the handlers promise: the stage rule, the date rule,
  the fix rule and the reset after a successful save.

Behaviour of the code worth knowing:

- The combined Patient/Description split never reaches the record. The synonym lookups
  that come after it overwrite the name and reason it writes. When no name synonym is
  present, the whole description becomes the name (`Canonicalise.WholeDescriptionBecomesName`).
- `normPhone` keeps at most the last 10 digits; a shorter number stays as it is.
- A day value holding a space is split. Its second word then replaces the time found
  by the time synonyms.
- Live sheet reading takes the first row with two non-blank cells, anywhere in the
  sheet. The 10-row limit belongs only to `findRealHeaderRowIndex`, which the upload
  handler does not call.
- The deduplication key is `insurance || phone || patient_name`, with no type prefix.
  A record with no insurance number whose phone equals another record's insurance
  number therefore counts as that record's duplicate.
- The insurance number is never filled in by a merge. Only the required fields, time,
  doctor and health number are.
- One sheet without a header row aborts the whole batch. Files with any extension other
  than csv, xlsx or xls are skipped without a message.
- On a date conflict the preview lists keep their previous contents, while the records
  and missing fields are replaced.
- Record identifiers are generated again on every recompute.
- After a date conflict, `saveFixedRow` can still set stage 3 when the fixed row leaves
  nothing missing; the merge error stays set and `confirmAndSave` keeps refusing
  (`UploadSession.MergeErrorBlocksSaveAfterFix`).
- A CSV file that the CSV reader rejects, or a workbook the Excel reader cannot open,
  aborts the whole batch with the same message as a sheet without a header row.

## Model

| member | source | states |
|---|---|---|
| JsText.Trim | src/Dashboard.jsx:325-331 | `String(x).trim()`: the result has no leading or trailing whitespace, is no longer than the input and holds only its characters, is empty exactly when the input is blank, and leaves a trimmed string unchanged |
| JsText.TrimIsSlice | src/Dashboard.jsx:325-331 | the trimmed text is the input with a run of whitespace removed at each end: a contiguous slice of it, in order, with only whitespace before and after |
| JsText.Digits | src/Dashboard.jsx:48 | `replace(/\D/g, "")`: only digits remain, every digit of the input is kept, a single character is kept exactly when it is a digit, and an all-digit string is unchanged |
| JsText.DigitsAppend | src/Dashboard.jsx:48 | the filter works piece by piece; with the one-character case this fixes the result as the input's digits, in order and with repeats |
| JsText.TakeLast | src/Dashboard.jsx:42-46 | `slice(-n)`: a suffix of the input, exactly `n` long when the input is longer, and the whole input when it is not |
| JsText.Lower | src/Dashboard.jsx:35-39 | `toLowerCase` on ASCII, character by character |
| JsText.KeepLowerAlnum | src/Dashboard.jsx:35-39 | `replace(/[^a-z0-9]/g, "")`: only lower-case letters and digits remain, a single character is kept exactly when it is one, and such a string is unchanged |
| JsText.KeepLowerAlnumMembers | src/Dashboard.jsx:35-39 | a character is in the result exactly when it is in the input and is a lower-case letter or digit |
| JsText.Split | src/Dashboard.jsx:117-121 | `split(d)` always yields at least one part |
| JsText.SplitShape | src/Dashboard.jsx:334-338 | no part contains the separator; without a separator there is one part, with one there are at least two |
| JsText.JoinSplit | src/Dashboard.jsx:117-121 | joining the parts of a split with the separator gives back the input |
| JsText.IntToString | src/Dashboard.jsx:66-70 | decimal text of an integer: non-empty, digits and '-', digits only for non-negative values |
| JsText.PadTwo | src/Dashboard.jsx:67-68 | `padStart(2, "0")`: at least two characters, exactly two for inputs of at most two, digits kept digits |
| Normalise.NormKey | src/Dashboard.jsx:35-39 | a normalised key holds only lower-case letters and digits, is no longer than the label, and a one-character label gives its lower-cased character when that is a letter or digit and "" otherwise |
| Normalise.NormKeyMembers | src/Dashboard.jsx:35-39 | every letter and digit of the label reaches the key lower-cased, and every character of the key comes from the label that way |
| Normalise.KeepLowerAlnumAppend | src/Dashboard.jsx:35-39 | the filter of `normKey` works piece by piece |
| Normalise.NormKeyTrimIsNoOp | src/Dashboard.jsx:35-39 | the trailing `.trim()` of `normKey` never changes anything |
| Normalise.NormKeyIdempotent | src/Dashboard.jsx:35-39 | normalising a normalised key changes nothing |
| Normalise.NormKeyAppend | src/Dashboard.jsx:35-39 | normalisation distributes over concatenation |
| Normalise.NormKeyIgnoresCase | src/Dashboard.jsx:35-39 | labels that differ only in letter case normalise to the same key |
| Normalise.NormKeyIgnoresPunctuation | src/Dashboard.jsx:35-39 | removing a space or punctuation character from a label does not change its key ("Patient Name" and "patient_name" meet) |
| Normalise.NormPhone | src/Dashboard.jsx:42-46 | the phone is digits only, at most 10 long; the digits themselves when at most 10, else exactly their last 10 |
| Normalise.NormPhoneIdempotent | src/Dashboard.jsx:42-46 | a normalised phone normalises to itself |
| Normalise.NormName | src/Dashboard.jsx:51-55 | `normName` is the `normKey` pipeline applied to a patient name (no contract of its own): the contract of `Normalise.NormKey` and `NormKeyIdempotent`, `NormKeyIgnoresCase` and `NormKeyIgnoresPunctuation` apply to it, so names differing only in case, spaces or punctuation give the same `name:` key |
| Normalise.NormHealth | src/Dashboard.jsx:48 | the health number keeps exactly the digits of the input (each digit present in the input is present in the result), a one-character value is kept exactly when it is a digit, and an all-digit value is unchanged |
| Normalise.FormatDate | src/Dashboard.jsx:65-70 | a parsed date is written with digits and '-' only |
| Normalise.FormatDateIsIso | src/Dashboard.jsx:65-70 | a date with a four-digit year is written in the `YYYY-MM-DD` shape the fast path accepts |
| Normalise.NormDate | src/Dashboard.jsx:58-74 | empty input gives empty; an ISO date passes through trimmed; an unparseable value comes back trimmed; the result is always trimmed |
| Normalise.NormDateIdempotent | src/Dashboard.jsx:58-74 | a normalised day normalises to itself (for four-digit years) |
| Records.RowMissingFields | src/Dashboard.jsx:381-385 | `getRowMissingFields`: the required fields, in declaration order, whose value is empty or only whitespace (no contract of its own; `Records.RowMissingFieldsFacts` states its properties) |
| Records.MissingAmongFacts | src/Dashboard.jsx:381-385 | filtering a field list keeps exactly the fields that are blank in the row, in the list's order |
| Records.RowMissingFieldsFacts | src/Dashboard.jsx:381-385 | `getRowMissingFields` lists exactly the required fields that are empty or whitespace, in declaration order, at most four |
| Records.TypedKeyRanks | src/Dashboard.jsx:344-351 | each candidate key carries its type prefix: ins, phone, health, name |
| Records.KeyCandidates | src/Dashboard.jsx:344-351 | `keyCandidates`: at most four keys, and none exactly when insurance number, phone, health number and name are all empty |
| Records.KeyCandidatesShape | src/Dashboard.jsx:344-351 | a candidate key is produced for each non-empty identifier and for nothing else, at most four |
| Records.KeyCandidatesOrdered | src/Dashboard.jsx:344-351 | candidate keys come in the order insurance, phone, health, name |
| Records.KeyCandidatesDistinct | src/Dashboard.jsx:344-351 | candidate keys of one row are pairwise distinct |
| Records.DedupKey | src/Dashboard.jsx:551 | the dedup key is one of insurance number, phone or name, and is empty exactly when all three are |
| Canonicalise.Keyed | src/Dashboard.jsx:103-106 | every label is replaced by its normalised key, values untouched |
| Canonicalise.Index | src/Dashboard.jsx:103-106 | the lookup has exactly the normalised keys of the row |
| Canonicalise.IndexLastWins | src/Dashboard.jsx:103-106 | when two labels normalise alike, the later column's value is the one kept |
| Canonicalise.LookupLastWins | src/Dashboard.jsx:103-106 | the lookup holds the value of the last column with a given normalised key |
| Canonicalise.BuildLookup | src/Dashboard.jsx:103-106 | the loop builds exactly that lookup |
| Canonicalise.NormKeys | src/Dashboard.jsx:147-154 | each synonym is normalised before it is looked up |
| Canonicalise.FirstPresent | src/Dashboard.jsx:147-154 | `get` returns "" exactly when no synonym has a non-blank value, and otherwise a non-blank value |
| Canonicalise.FirstPresentPicksFirst | src/Dashboard.jsx:147-154 | the value returned is that of the first synonym, in list order, with a non-blank value |
| Canonicalise.Get | src/Dashboard.jsx:147-154 | the loop with early return computes exactly that first-present value |
| Canonicalise.FirstTrue | src/Dashboard.jsx:229-232 | `Object.keys(raw).find`: the first match, or none when no column matches |
| Canonicalise.LastTrue | src/Dashboard.jsx:166-179 | the last match of a forEach that keeps overwriting, or none |
| Canonicalise.FindColumn | src/Dashboard.jsx:229-250 | the first column whose normalised label satisfies the rule, or none if no column does |
| Canonicalise.Find | src/Dashboard.jsx:229-250 | the loop with early exit finds exactly that first matching column |
| Canonicalise.FirstTrueIsFirst | src/Dashboard.jsx:229-232 | a match with no match before it is the one `find` returns |
| Canonicalise.LastColumn | src/Dashboard.jsx:166-179 | the phone column used is the last whose label mentions phone, cell, mobile or contact |
| Canonicalise.DetectPhone | src/Dashboard.jsx:166-179 | the detection loop yields the value of that last phone-like column, or "" |
| Canonicalise.FirstLongDigits | src/Dashboard.jsx:295-303 | the scan stops at the first column holding ten or more digits, or finds none |
| Canonicalise.ScanForLongNumber | src/Dashboard.jsx:295-303 | the loop with `break` finds exactly that first column |
| Canonicalise.TrimEach | src/Dashboard.jsx:119-127 | `.map(s => s.trim())`: one trimmed part per part, in order |
| Canonicalise.NonEmpty | src/Dashboard.jsx:134 | `.filter(Boolean)` on strings: only non-empty parts remain, never more than there were |
| Canonicalise.CombinedDescriptionPass | src/Dashboard.jsx:108-144 | the combined Patient/Description pass writes only the name and the reason |
| Canonicalise.FillFromNamedColumn | src/Dashboard.jsx:229-250 | an empty field is filled from the first column with the given normalised label, trimmed; a filled field is kept |
| Canonicalise.FromNamedColumn | src/Dashboard.jsx:229-250 | one named-column fallback: a filled field is kept, an empty one takes the trimmed cell of the first column with that normalised label (no contract of its own; `Canonicalise.FillFromNamedColumn` computes it and `NameFromDescriptionColumn` applies it) |
| Canonicalise.Detected | src/Dashboard.jsx:156-226 | the record after the synonym lookups and the last-match phone detection (no contract of its own; `Canonicalise.DetectFields` computes it, `DescriptionIsNoNameSynonym` and `CanonicalNameIsFoundName` state what it gives the name) |
| Canonicalise.TextFallbacks | src/Dashboard.jsx:229-250 | the description, concern, type and provider fallbacks, each only for a field still empty (no contract of its own; `Canonicalise.ApplyTextFallbacks` computes it, `NameFromDescriptionColumn` and `WholeDescriptionBecomesName` state what it does to the name) |
| Canonicalise.DetectFields | src/Dashboard.jsx:156-226 | the synonym lookups and the phone detection compute the detected record |
| Canonicalise.ApplyTextFallbacks | src/Dashboard.jsx:229-250 | the description, concern, type and provider fallbacks compute the fallback record |
| Canonicalise.FillFromAreaCode | src/Dashboard.jsx:253-281 | the area-code step computes the area-code fallback phone |
| Canonicalise.ApplyPhoneFallbacks | src/Dashboard.jsx:253-303 | the three phone fallbacks run in their order |
| Canonicalise.ApplyNumberFallbacks | src/Dashboard.jsx:253-322 | the phone fallbacks and the insurance search compute the number fallbacks |
| Canonicalise.AreaCodeFallback | src/Dashboard.jsx:253-281 | the area-code fallback for a phone shorter than 10 (no contract of its own; `Canonicalise.AreaCodeFallbackShape` states its property) |
| Canonicalise.ConcernFallback | src/Dashboard.jsx:284-292 | the digits of the Concern column for a phone shorter than 10 (no contract of its own; `Canonicalise.ConcernFallbackShape` states its property) |
| Canonicalise.ScanFallback | src/Dashboard.jsx:295-303 | the first column with ten or more digits for a phone shorter than 10 (no contract of its own; `Canonicalise.ScanFallbackShape` states its property) |
| Canonicalise.AreaCodeFallbackShape | src/Dashboard.jsx:253-281 | the area-code fallback keeps a 10-digit phone, and otherwise only installs exactly 10 digits |
| Canonicalise.ConcernFallbackShape | src/Dashboard.jsx:284-292 | the Concern fallback keeps a 10-digit phone, and otherwise only installs exactly 10 digits |
| Canonicalise.ScanFallbackShape | src/Dashboard.jsx:295-303 | the scan fallback keeps a 10-digit phone, and otherwise only installs exactly 10 digits |
| Canonicalise.KeepsOrCompletesChains | src/Dashboard.jsx:253-303 | keeping-or-completing composes across successive fallbacks |
| Canonicalise.PhoneFallbacksOnlyCompleteShortPhones | src/Dashboard.jsx:253-303 | the three fallbacks together never touch a phone of ten or more characters, and otherwise leave it or replace it by exactly ten digits |
| Canonicalise.NumberFallbacks | src/Dashboard.jsx:253-322 | the fallbacks change only phone and insurance; a filled-in insurance number is digits only |
| Canonicalise.Normalised | src/Dashboard.jsx:325-331 | after normalisation the phone has at most 10 digits, the health number is digits, the text fields are trimmed and the insurance number is untouched |
| Canonicalise.DateTimeSplit | src/Dashboard.jsx:334-338 | the date/time split changes only day and time |
| Canonicalise.SplitDayHasNoSpace | src/Dashboard.jsx:334-338 | after the split the day contains no space, and a trimmed day stays trimmed |
| Canonicalise.DayWithTimeOverridesTime | src/Dashboard.jsx:334-338 | "day time" in the day field gives the normalised day, and the second word replaces any time already found |
| Canonicalise.Canonical | src/Dashboard.jsx:90-341 | every canonical record has a digits-only phone of at most 10, digits-only health and insurance numbers, trimmed text fields and a day without spaces |
| Canonicalise.CanonicalNameIsFoundName | src/Dashboard.jsx:108-232 | the canonical name is the trimmed name found by the synonyms and the description fallback; the combined pass has no effect on it |
| Canonicalise.DescriptionIsNoNameSynonym | src/Dashboard.jsx:156-163 | a "Patient Description" column alone does not satisfy any name synonym |
| Canonicalise.WholeDescriptionBecomesName | src/Dashboard.jsx:229-232 | with no name synonym, the whole trimmed description is the name, unsplit |
| Canonicalise.NameFromDescriptionColumn | src/Dashboard.jsx:229-232 | with no name found by the synonyms, the description fallback installs the whole trimmed cell of the first Patient Description column |
| Canonicalise.MapRowToCanonical | src/Dashboard.jsx:90-341 | the imperative mapper computes exactly `Canonical`, so its phone is digits only and at most 10, and its day is trimmed and without spaces |
| Canonicalise.NormaliseFields | src/Dashboard.jsx:324-331 | the normalisation statements compute exactly the normalised record |
| Canonicalise.SplitDayAndTime | src/Dashboard.jsx:333-338 | the date/time split statements compute exactly the split record |
| TableReader.NonBlankCount | src/Dashboard.jsx:82-83 | the count of non-blank cells is at most the row's width |
| TableReader.NonBlankCountZero | src/Dashboard.jsx:82-83 | the count is zero exactly when every cell is blank |
| TableReader.IsHeaderRow | src/Dashboard.jsx:642-643 | a row can be the header when at least two of its cells are non-blank (no contract of its own; `TableReader.HeaderIndex` and `HeaderIndexIsFirst` state how it picks the header) |
| TableReader.HeaderIndex | src/Dashboard.jsx:641-647 | the header is the first row with at least two non-blank cells; none exactly when no row qualifies |
| TableReader.LeadingRowsSkipped | src/Dashboard.jsx:641-647 | title and blank rows above the header only shift its index |
| TableReader.JunkRowsIgnored | src/Dashboard.jsx:641-671 | title and blank rows above the header change nothing: the sheet yields the same header and objects, and the same parsed file or error |
| TableReader.FindRealHeaderRowIndex | src/Dashboard.jsx:78-87 | the first header among the first ten rows, else 0; the result is below ten, and inside the sheet when it is non-empty |
| TableReader.FindHeaderRow | src/Dashboard.jsx:641-643 | the `findIndex` loop computes exactly the header index |
| TableReader.HeaderIndexIsFirst | src/Dashboard.jsx:641-643 | a qualifying row with none before it is the header |
| TableReader.ObjSet | src/Dashboard.jsx:659 | `obj[k] = v` on an insertion-ordered object (no contract of its own; `TableReader.ObjSetFacts` states its properties) |
| TableReader.ObjSetFacts | src/Dashboard.jsx:659 | `obj[k] = v` stores the pair, overwrites an existing label in place or appends a new one, and keeps labels distinct |
| TableReader.ObjectOf | src/Dashboard.jsx:656-661 | the object `headerRow.forEach((c, i) => obj[c] = r[i] \|\| "")` builds, one `obj[k] = v` per header cell in order (no contract of its own; `TableReader.ObjectOfShape`, `ObjectHoldsLastColumn` and `ObjectOfDistinctHeader` state its properties) |
| TableReader.ObjectOfShape | src/Dashboard.jsx:656-661 | a row object has distinct labels, all taken from the header |
| TableReader.ObjectHoldsLastColumn | src/Dashboard.jsx:658-660 | for a repeated header label, the object holds the cell of its last column |
| TableReader.ObjectOfDistinctHeader | src/Dashboard.jsx:656-661 | with distinct header labels, the object pairs each label with its cell, in order |
| TableReader.RowObject | src/Dashboard.jsx:656-661 | the `forEach` over the header builds exactly that object |
| TableReader.ContentRows | src/Dashboard.jsx:655 | exactly the rows with a non-blank cell are kept, in order |
| TableReader.ContentRowsAppend | src/Dashboard.jsx:655 | the filter distributes over concatenation |
| TableReader.BodyObjects | src/Dashboard.jsx:652-662 | one object per kept body row, each paired with the header |
| TableReader.PairBody | src/Dashboard.jsx:652-662 | the filter-and-map loop computes exactly those objects |
| TableReader.SheetObjects | src/Dashboard.jsx:641-662 | a sheet fails exactly when no row can be a header; otherwise its header is a qualifying row of the sheet and fewer objects than rows are produced |
| TableReader.SplitAtHeader | src/Dashboard.jsx:641-662 | the sheet fails with the header error exactly when there is no header index; otherwise it splits at that row |
| TableReader.SheetObjectsAt | src/Dashboard.jsx:641-662 | when the header is row h, the sheet is split at h |
| TableReader.ShiftedRows | src/Dashboard.jsx:652-662 | splitting after k leading rows at k+h gives what splitting the rest at h gives |
| TableReader.ShiftedSheetObjects | src/Dashboard.jsx:641-662 | when leading rows only shift the header index, the sheet reads the same |
| TableReader.BuildSheetRows | src/Dashboard.jsx:641-662 | the steps compute exactly that result |
| TableReader.CsvColumns | src/Dashboard.jsx:469 | the columns present are the normalised labels of the first row, or none for an empty file |
| TableReader.CsvFile | src/Dashboard.jsx:461-484 | a CSV file keeps its name, gives one canonical record per data row and lists normalised column keys |
| TableReader.CanonicaliseAll | src/Dashboard.jsx:472 | every raw row is mapped, in order |
| TableReader.ParseCsvFile | src/Dashboard.jsx:461-484 | the CSV builder computes exactly that file |
| TableReader.SheetFile | src/Dashboard.jsx:626-671 | a sheet file fails exactly when it has no header row; otherwise it keeps its name, has fewer records than rows and lists the header as its columns |
| TableReader.ParseSheetFile | src/Dashboard.jsx:626-671 | the sheet builder computes exactly that result |
| TableReader.Extension | src/Dashboard.jsx:619 | `file.name.toLowerCase().split('.').pop()`: the extension never holds a dot |
| TableReader.ExtensionIsLastPart | src/Dashboard.jsx:619 | the extension is the lower-cased text after the last dot |
| TableReader.ExtensionWithoutDot | src/Dashboard.jsx:619 | a name without a dot is its own extension, lower-cased (a file named `csv` is read as CSV) |
| TableReader.KindOf | src/Dashboard.jsx:619-626 | csv files go to the CSV reader, xlsx and xls to the sheet reader, the rest are skipped |
| TableReader.ParseBatch | src/Dashboard.jsx:617-683 | the per-file loop as a function: files in order, csv to the CSV reader, xlsx and xls to the sheet reader, others skipped, the first decoding failure aborting the batch with the upload message and the first sheet without a header row with the header error it throws (line 646); the catch at lines 680-682 then shows the upload message for either (no contract of its own; `TableReader.ParseBatchOutcome`, `CsvBatchSucceeds` and `ErrorIsSticky` state its properties) |
| TableReader.Rejected | src/Dashboard.jsx:617-683 | the file that aborts the batch: a csv, xlsx or xls file its reader gives up on (lines 483 and 628), or a sheet without a header row (line 646); files of other kinds never (no contract of its own; `TableReader.ParseBatchOutcome` states that exactly these files make the batch fail) |
| TableReader.ParseBatchOutcome | src/Dashboard.jsx:617-683 | a batch yields at most one parsed file per file, and fails exactly when some file is rejected: a CSV or workbook its reader cannot decode (lines 483 and 628), or a sheet with no header row (line 646) |
| TableReader.PrefixRejected | src/Dashboard.jsx:617-683 | some file of a batch is rejected exactly when some file before the last is, or the last one is |
| TableReader.CsvBatchSucceeds | src/Dashboard.jsx:461-484 | a batch of CSV files that the CSV reader decodes never fails and yields one parsed file per upload |
| TableReader.ErrorIsSticky | src/Dashboard.jsx:617-683 | once a file throws, the files after it cannot change the batch's outcome |
| TableReader.ReadBatch | src/Dashboard.jsx:617-683 | the per-file loop, including its decoding failures and its header error, computes exactly the batch result |
| MergeEngine.IdsDistinct | src/Dashboard.jsx:515-527 | record ids are increasing along the list and below the next id, hence distinct |
| MergeEngine.FirstIndexed | src/Dashboard.jsx:510-516 | the match is the first candidate key already in the index, or none when no key is |
| MergeEngine.FindIndexed | src/Dashboard.jsx:510-516 | the loop with `break` finds exactly that first indexed key |
| MergeEngine.Register | src/Dashboard.jsx:538 | after indexing, every key of the record points to it and all other entries are unchanged |
| MergeEngine.IndexAll | src/Dashboard.jsx:538 | the `forEach` over the keys computes exactly that index |
| MergeEngine.Filled | src/Dashboard.jsx:529-535 | the record after a merge, each of the seven merge fields filled from the row when it is empty (no contract of its own; `MergeEngine.FilledOnlyFillsBlanks`, `FilledKeepsKeys` and `FilledIdempotent` state its properties) |
| MergeEngine.FilledOnlyFillsBlanks | src/Dashboard.jsx:529-535 | a merge copies an incoming value only into an empty merge field; every other field keeps the existing value |
| MergeEngine.FillBlanks | src/Dashboard.jsx:529-535 | the loop over the merge fields computes exactly that merged record |
| MergeEngine.FilledKeepsKeys | src/Dashboard.jsx:529-538 | filling blanks never loses a key the record already had |
| MergeEngine.FilledIdempotent | src/Dashboard.jsx:529-535 | merging the same row twice is the same as merging it once |
| MergeEngine.Append | src/Dashboard.jsx:515-527 | a new record with the next id at the end, all the row's keys pointing at it (no contract of its own; `MergeEngine.AppendValid` and `StepAppends` state its properties) |
| MergeEngine.Join | src/Dashboard.jsx:529-543 | the record at position p gets its blanks filled and all its keys pointed at it (no contract of its own; `MergeEngine.JoinValid` and `JoinChangesOnlyTarget` state its properties) |
| MergeEngine.AppendValid | src/Dashboard.jsx:515-527 | adding a new record keeps the index pointing at records that carry those keys, and keeps ids consecutive |
| MergeEngine.JoinValid | src/Dashboard.jsx:529-543 | filling an existing record and re-indexing it keeps the index and the ids consistent |
| MergeEngine.Step | src/Dashboard.jsx:504-543 | one pass of the row loop, joining the record owning the first indexed key or appending a new one: it adds at most one record, and hands out one new id exactly when it adds one (`MergeEngine.StepAppends`, `StepJoins` say which case does what) |
| MergeEngine.StepValid | src/Dashboard.jsx:504-543 | processing one row keeps the merge state consistent |
| MergeEngine.StepAppends | src/Dashboard.jsx:515-527 | a row with no indexed key becomes a new record at the end with the next id, and all its keys point at it |
| MergeEngine.StepJoins | src/Dashboard.jsx:504-543 | a row whose first indexed key names record p fills p's blanks, keeps its id, leaves every other record alone and keeps every key |
| MergeEngine.JoinChangesOnlyTarget | src/Dashboard.jsx:529-543 | joining record p fills p's blanks and re-indexes its keys, and changes no other record, no id and drops no key |
| MergeEngine.StepGrows | src/Dashboard.jsx:504-543 | one row adds at most one record, drops no key and changes no id |
| MergeEngine.MergeAll | src/Dashboard.jsx:503-545 | the row loop over all rows, in order: n rows add at most n records, and exactly one new id is used per added record |
| MergeEngine.MergeAllValid | src/Dashboard.jsx:503-545 | merging any sequence of rows keeps the state consistent |
| MergeEngine.MergeAllGrows | src/Dashboard.jsx:503-545 | merging n rows adds at most n records, drops no key and changes no id |
| MergeEngine.MergeAllAppend | src/Dashboard.jsx:503-545 | merging file after file is the same as merging all their rows at once |
| MergeEngine.MergeAllSnoc | src/Dashboard.jsx:503-545 | merging one more row is one more step of the loop |
| MergeEngine.KnownInLarger | src/Dashboard.jsx:510-516 | a row whose key is indexed stays matched as the index grows |
| MergeEngine.KnownRowJoins | src/Dashboard.jsx:529-543 | a row matching an indexed key never adds a record |
| MergeEngine.KnownRowsAddNoRecords | src/Dashboard.jsx:503-545 | re-uploading rows that all match existing records adds no record |
| MergeEngine.StepKnowsRow | src/Dashboard.jsx:504-543 | after its step, a row with at least one key matches the index |
| MergeEngine.MergedRowsAreKnown | src/Dashboard.jsx:503-545 | after merging, every merged row with at least one key matches the index |
| MergeEngine.ReuploadAddsNothing | src/Dashboard.jsx:500-547 | merging the same rows a second time (re-uploading the same file) adds no record, when every row has a key; a row with no key at all is appended each time (`MergeEngine.NewRowAppended`) |
| MergeEngine.NewRowAppended | src/Dashboard.jsx:515-527 | a row none of whose keys is indexed is appended unchanged with the next id |
| MergeEngine.RowByFields | src/Dashboard.jsx:529-535 | two records agreeing on the merge fields and the insurance number are equal |
| MergeEngine.MergeFieldsDistinct | src/Dashboard.jsx:529-533 | the merge field list names each field once |
| MergeEngine.FilledByFields | src/Dashboard.jsx:529-535 | a record filled field by field is the merged record |
| MergeEngine.MergeRow | src/Dashboard.jsx:504-543 | the imperative body of the row loop computes exactly one merge step |
| MergeEngine.MergeRows | src/Dashboard.jsx:504-545 | the row loop computes exactly the merge of the rows |
| MergeEngine.MergeFiles | src/Dashboard.jsx:500-546 | the nested file and row loops compute the merge of all rows of all files, from an empty state |
| MergeEngine.KeepFirst | src/Dashboard.jsx:549-558 | deduplication never adds records |
| MergeEngine.KeepFirstKeys | src/Dashboard.jsx:549-558 | deduplication keeps every key value and leaves records with pairwise distinct keys |
| MergeEngine.KeepFirstKeepsFirst | src/Dashboard.jsx:549-558 | the first record with a given key is always kept |
| MergeEngine.KeepFirstIsSubsequence | src/Dashboard.jsx:549-558 | the kept records appear in their original order |
| MergeEngine.Deduplicate | src/Dashboard.jsx:549-558 | the loop with the `seen` set computes exactly that deduplication |
| Validation.AddAllFacts | src/Dashboard.jsx:561-566 | adding to a set (kept as an insertion-ordered list) has no duplicates and contains exactly both sides |
| Validation.MissingUnion | src/Dashboard.jsx:561-566 | `Array.from(overallMissing)`: the missing fields of each record added, in the order first met, to an insertion-ordered set (no contract of its own; `Validation.MissingUnionMembers` and `MissingUnionEmpty` state its properties) |
| Validation.MissingUnionMembers | src/Dashboard.jsx:561-566 | a required field is reported missing exactly when some record lacks it, and is reported once |
| Validation.MissingUnionEmpty | src/Dashboard.jsx:561-566 | nothing is missing exactly when every record is complete |
| Validation.CollectMissing | src/Dashboard.jsx:561-566 | the nested loops compute exactly the missing union |
| Validation.DistinctDays | src/Dashboard.jsx:569-571 | the non-empty days of the records in a `Set`, in the order first met: never more days than records (`Validation.DistinctDaysMembers` states which days) |
| Validation.DistinctDaysMembers | src/Dashboard.jsx:569-571 | the distinct days are exactly the non-empty days of the records, once each |
| Validation.SingleDayIffAgree | src/Dashboard.jsx:569-572 | there is at most one distinct day exactly when all non-empty days agree |
| Validation.CollectDays | src/Dashboard.jsx:569-571 | the loop computes exactly the distinct days |
| Validation.ConflictMessage | src/Dashboard.jsx:573-577 | the conflict text, with the days joined by ", " (no contract of its own; `Validation.ConflictMessageNamesDays` states its property) |
| Validation.ConflictMessageNamesDays | src/Dashboard.jsx:573-577 | the conflict message names every day found |
| Validation.CompleteRows | src/Dashboard.jsx:588-598 | the records with nothing missing, in order: never more than the records (`Validation.PartitionFacts` states which) |
| Validation.IncompleteRows | src/Dashboard.jsx:588-598 | the other records, in order, each with its missing fields: never more than the records (`Validation.PartitionFacts` states which) |
| Validation.PartitionFacts | src/Dashboard.jsx:588-598 | every record lands in exactly one list: complete records as they are, incomplete ones with their own missing fields |
| Validation.ReadyIffNothingToFix | src/Dashboard.jsx:588-607 | the overall missing list is empty exactly when there is no incomplete row |
| Validation.NothingToFixIffComplete | src/Dashboard.jsx:588-598 | there is no incomplete row exactly when every record is complete |
| Validation.PartitionRows | src/Dashboard.jsx:588-598 | the loop builds exactly the two lists |
| Validation.Revalidate | src/Dashboard.jsx:814-830 | the loop of `saveFixedRow` builds exactly the two lists and the missing union |
| Commit.OrNull | src/Dashboard.jsx:935-944 | `x or null`: null exactly for the empty string, otherwise the value itself |
| Commit.StripLeadingNonDigits | src/Dashboard.jsx:914 | `replace(/^[^\d]*/, "")` (no contract of its own; `Commit.StripLeadingNonDigitsFacts` states its properties) |
| Commit.HasClockPrefix | src/Dashboard.jsx:922 | `/^\d{1,2}:\d{2}/.test(t)`: one or two digits, a colon and two digits at the start (no contract of its own; `Commit.PayloadTimeIsClock` uses it) |
| Commit.StripLeadingNonDigitsFacts | src/Dashboard.jsx:912-915 | stripping removes exactly the leading non-digits, leaves a digit in front and is idempotent |
| Commit.PayloadTime | src/Dashboard.jsx:910-925 | the time sent: the stripped time when it starts with a clock `h:mm`, else 09:00 AM (no contract of its own; `Commit.PayloadTimeIsClock` states its property) |
| Commit.PayloadTimeIsClock | src/Dashboard.jsx:910-925 | the time used always starts with a clock `h:mm`; it is the stripped time when that starts with one, and 09:00 AM otherwise |
| Commit.AppointmentOf | src/Dashboard.jsx:935-944 | each payload entry is pending, belongs to the clinic, and carries the day and reason or null |
| Commit.AppointmentTimestamp | src/Dashboard.jsx:917-930 | a timestamp is present exactly when the day is, and is then the day, a space and a clock time |
| Commit.CompleteRowKeepsRequired | src/Dashboard.jsx:909-945 | a complete row saves its name, phone, reason and day unchanged, with a timestamp |
| Commit.Payload | src/Dashboard.jsx:909-945 | one entry per complete row, in order |
| Commit.DecideSave | src/Dashboard.jsx:883-945 | the guards of `confirmAndSave` in their order: no records, no complete row, the declined prompt, the merge error, then the insert of the payload (no contract of its own; `Commit.InsertIffGuardsPass` and `DeclineComesBeforeMergeError` state its properties) |
| Commit.InsertIffGuardsPass | src/Dashboard.jsx:883-945 | an insert is attempted exactly when there are records, at least one complete row, no unconfirmed incomplete rows and no merge error; all inserted entries are pending, one per complete row |
| Commit.DeclineComesBeforeMergeError | src/Dashboard.jsx:892-904 | declining the incomplete-row prompt ends the save before the merge error is looked at |
| UploadSession.Recompute | src/Dashboard.jsx:488-607 | `recomputeMergeState`: merge, dedup, missing union, the date rule and the split, with ids handed out from a counter (no contract of its own; `UploadSession.RecomputeSteps`, `RecomputeDateConflict`, `RecomputeReady` and `RecomputeKeysDistinct` state its properties) |
| UploadSession.RecomputeSteps | src/Dashboard.jsx:488-607 | with no files the session returns to stage 1 with no records and every required field missing; with files the stage is 2 or 3 |
| UploadSession.RecomputeDateConflict | src/Dashboard.jsx:569-582 | an error is raised exactly when two records name different days; it names every day, sets stage 2 and leaves the lists alone |
| UploadSession.RecomputeReady | src/Dashboard.jsx:584-607 | without a conflict, stage 3 is reached exactly when no row needs fixing, exactly when every record is complete, and the lists split the records |
| UploadSession.RecomputeKeysDistinct | src/Dashboard.jsx:549-585 | the records shown have pairwise distinct dedup keys |
| UploadSession.RunRecompute | src/Dashboard.jsx:488-607 | the steps of `recomputeMergeState` compute exactly its specification |
| UploadSession.Installed | src/Dashboard.jsx:569-607 | the setter calls of `recomputeMergeState`: records, missing fields, error, stage and id counter stored; the two lists stored only when the recompute produced them (no contract of its own; `UploadSession.RecomputeDateConflict` and `UploadOutcome` state its effect) |
| UploadSession.AfterRecompute | src/Dashboard.jsx:488-607 | the state after `recomputeMergeState(files)` (no contract of its own; `UploadSession.HandlersKeepStepInRange` and the `Recompute` lemmas state its properties) |
| UploadSession.Patched | src/Dashboard.jsx:804-810 | the edited record replaces the one at the editing index, every other record is unchanged, and index -1 changes nothing |
| UploadSession.IndexOfId | src/Dashboard.jsx:1323 | `findIndex` by id: the first record with that id, or -1 exactly when none has it |
| UploadSession.RunFix | src/Dashboard.jsx:801-848 | the steps of `saveFixedRow` compute exactly its specification |
| UploadSession.FixInstalled | src/Dashboard.jsx:831-847 | the setter calls of `saveFixedRow`: records, lists, missing fields and stage stored, the dialog closed (no contract of its own; `UploadSession.SaveFixedOutcome` states its effect) |
| UploadSession.AfterUpload | src/Dashboard.jsx:611-684 | the state after `handleUploadSmart` (no contract of its own; `UploadSession.UploadOutcome` states its properties) |
| UploadSession.AfterBeginFix | src/Dashboard.jsx:1321-1325 | the state after the Fix button: the row to fix opened and the editing index set by id (no contract of its own; `UploadSession.BeginFixTarget` states its properties) |
| UploadSession.AfterReset | src/Dashboard.jsx:686-695 | the state after `resetUploads` (no contract of its own; `UploadSession.ResetOutcome` states its properties) |
| UploadSession.AfterSaveFixed | src/Dashboard.jsx:801-848 | the state after `saveFixedRow` (no contract of its own; `UploadSession.SaveFixedOutcome`, `SaveFixedWithoutTarget` and `MergeErrorBlocksSaveAfterFix` state its properties) |
| UploadSession.AfterSave | src/Dashboard.jsx:883-972 | the state after `confirmAndSave` (no contract of its own; `UploadSession.SaveOutcome` states its properties) |
| UploadSession.HandlersKeepStepInRange | src/Dashboard.jsx:360 | every handler keeps the stage in 1..3 |
| UploadSession.UploadOutcome | src/Dashboard.jsx:611-684 | an empty or failing batch changes nothing; a good batch appends its files and recomputes, leaving the fix dialog alone |
| UploadSession.SaveFixedOutcome | src/Dashboard.jsx:801-848 | saving a fix changes only the edited record, re-splits the lists, reaches stage 3 exactly when no row needs fixing, keeps the merge error and closes the dialog |
| UploadSession.SaveFixedWithoutTarget | src/Dashboard.jsx:802 | with no editing index the save does nothing |
| UploadSession.MergeErrorBlocksSaveAfterFix | src/Dashboard.jsx:801-904 | fixing a row never clears a date conflict, so a save stays blocked |
| UploadSession.SaveOutcome | src/Dashboard.jsx:883-960 | a successful insert resets the upload session; the state changes only when an insert was attempted |
| UploadSession.BeginFixTarget | src/Dashboard.jsx:1321-1325 | the Fix button opens the row, and its editing index is the record with the same id or -1 when there is none |
| UploadSession.ResetOutcome | src/Dashboard.jsx:686-695 | reset empties files, records and lists, restores stage 1 and all required fields, closes the dialog, keeps the editing index, and is idempotent |
| UploadSession.UploadSession.constructor | src/Dashboard.jsx:360-373 | the initial component state |
| UploadSession.UploadSession.RecomputeMergeState | src/Dashboard.jsx:488-608 | the handler leaves the state `Recompute` describes |
| UploadSession.UploadSession.Install | src/Dashboard.jsx:489-607 | the setter calls store a recompute's outcome, keeping the lists when it leaves them |
| UploadSession.UploadSession.UploadSmart | src/Dashboard.jsx:611-684 | the handler leaves the state `AfterUpload` describes |
| UploadSession.UploadSession.ResetUploads | src/Dashboard.jsx:686-695 | the handler leaves the state `AfterReset` describes |
| UploadSession.UploadSession.BeginFix | src/Dashboard.jsx:1321-1325 | the Fix button leaves the state `AfterBeginFix` describes |
| UploadSession.UploadSession.SaveFixedRow | src/Dashboard.jsx:801-848 | the handler leaves the state `AfterSaveFixed` describes |
| UploadSession.UploadSession.InstallFix | src/Dashboard.jsx:826-847 | the setter calls store the revalidated rows and close the dialog |
| UploadSession.UploadSession.ConfirmAndSave | src/Dashboard.jsx:883-972 | the handler returns the guard decision and leaves the state `AfterSave` describes |

## Left out

- Cell values are modelled as their text. JavaScript's falsy non-string cells (`0`, `null`, `Date` objects from `cellDates: true`) and `String()` of other values are not modelled.
- Row objects are ordered label/value lists in insertion order. JavaScript's reordering of integer-like property names before the others is not modelled.
- Lower-casing is ASCII only. Unicode case mapping is not modelled.
- `new Date(s)` is not modelled. Date parsing is a parameter (`DateParser`) that returns a calendar date or nothing.
- CSV decoding (Papa) and workbook decoding (XLSX) are not modelled. The model starts from the rows those libraries return, which are passed in as values, together with a flag (`decoded`) saying whether the decoder gave up on the file; a file it gave up on aborts the batch as in the source.
- The row mapper is a function parameter (`RowMapper`) in `TableReader`, so the file readers are independent of `Canonicalise`. `Canonicalise.Canonical` is the mapper the dashboard uses.
- `crypto.randomUUID` is replaced by a counter (`nextId`). Identifiers are distinct but not random.
- Supabase queries and inserts, the session token, `hashToken`, the clinic lookup and the list reload after saving are not modelled. Whether the insert succeeded is a parameter (`inserted`).
- The `alert` messages are not modelled, except as the message constants. The `confirm` answer is a parameter (`confirmed`).
- The `saving` flag and the `finally` that clears it are not modelled.
- Modals, pagination, the legacy single-file CSV handler and the other dashboard screens are outside the upload pipeline and not modelled.
- `await` ordering is not modelled. Each handler runs to completion before the next one starts.
- UploadSession.UploadSession.SaveFixedRow: requires the editing index to be unset, -1 or inside the records, as the Fix button leaves it. An index past the end would make JavaScript grow the array, and that case is not modelled.
- UploadSession.Patched: the edited row replaces the whole record. The extra `missing` and `_id` properties that the spread copies into it are not modelled.
- UploadSession.UploadOutcome: the clearing of the file input (`e.target.value = ""`) is not modelled.
- The re-add of the matched key to the index (lines 541-543) is modelled in `MergeEngine.MergeRow` and left out of the specification `MergeEngine.Join`: the key is always already present there, so it never changes the index.
- The merge index maps keys to record positions, not to shared object references. Because the merge updates records in place through those references, the two are equivalent.

# gametools: a verified model of the cache and the table and JSON checkers

This project is a Dafny model of the logic at the core of *gametools*. gametools is a set of localisation quality-assurance utilities for game data tables: Excel workbooks, CSV files and JSON text files. The model covers:

- **The layered cache** (`Cache`, `CacheModel`).
  - A cache entry carries a creation time and an optional time-to-live. It expires strictly after `ttl` seconds from creation; reading it never extends its life.
  - `MemoryCache` is a bounded key-to-entry map with hit and miss counters. It expires entries lazily on read. When a new key finds the cache full, it evicts the entry with the smallest `(access_count, last_accessed)` pair; among equal pairs it evicts the first in dictionary order, as Python's `min` does.
  - `FileCache` keeps one record per key in a directory. A record is valid or unreadable.
  - `CacheManager` reads memory first, then the file layer, and promotes a file hit into memory with its own default time-to-live.
  - The classes update their state in place. Each method is specified against a transition function on an abstract state (`CacheModel`), and the properties are proved about those functions.
- **The cross-project translators** (`Translator`, `CachedTranslator`). They look up cell contents named by `Sheet!A1`-style positions in the workbooks of another project.
  - `parse_cell_reference` and its inverse, the scanner's cell-reference formatter, are in `CellReference`. The model proves the round trip.
  - The model also covers the search for a project file (four spellings, then a walk) and the row loop of `process_translation_mapping`, with its memo of loaded workbooks. The cached variant adds cache keys, the `NOT_FOUND` sentinel, and hit and miss accounting. Both variants build per-status and per-file statistics.
- **The Vietnamese Excel scanner** (`VietnameseExcel`). It reports every cell holding Vietnamese text with its 1-based coordinates and cell reference, and computes per-directory statistics.
- **The Excel data processor** (`DataProcessor`). It groups rows by the first column, cleans sheet names and file names, names output files after their data, and builds the summary sheet. `_create_separate_files` skips existing outputs and stops at the first failed write.
- **The Excel text extractor** (`TextExtractor`). It provides:
  - the text-type decision table and the `_is_text_content` filter;
  - the planner-row rule;
  - extraction from row 7 on, with first-occurrence de-duplication;
  - the summary sheet and the per-call processing statistics.
- **The JSON format detector** (`JsonFormat`). It extracts every string under a key in pre-order and computes per-text features. The 70% rule decides a common value per feature, and the detector reports each text that differs from a concrete common value.
- **The JSON error detector** (`JsonErrors`). It covers:
  - the line heuristics for single quotes, comments and trailing commas;
  - the recursive array-type check;
  - the control flow of `load_json_file` and the severity split;
  - the two count lines of the report, which the folder run parses back;
  - the folder run's per-file `except`, which counts a file whose check raises as a problem file but not as processed.
- **The localisation checker** (`Localization`). Vietnamese detection is a membership test over a fixed list of character classes. The module also models the table-file suffix test and the directory scan.

Several behaviours are modelled as the code has them, because they are what the program does:

- **Translator row lookup.** `find_content_by_reference` reads row `row - 1` of a frame whose header row was already consumed. A reference the Vietnamese scanner reports therefore reads the cell one row further down (`Translator.ScannerReferenceReadsNextRow`, `Translator.HeaderOffsetExample`).
- **Cached query key.** The key of a cached cell query leaves the workbook out. A later query with the same sheet name and reference returns the earlier answer, even for another workbook (`CachedTranslator.StaleQueryExample`).
- **JSON folder run.** It checks the top-level `*.json` matches and then the recursive `**/*.json` matches. Each top-level file is therefore checked and counted twice (`JsonErrors.FolderCountsTwice`).

Time is an explicit `now` argument. Everything the model cannot see is a parameter:

- the file system (listings, existence, reads and write outcomes);
- `json.loads`;
- Python's `float()` and the regular-expression word class;
- the encoding check of the JSON error detector.

`CacheManager.get` with a level other than `memory`, `file` or `all` consults neither layer and returns None (core/cache_manager.py:357-384, `CacheModel.ManagerUnknownLevel`).

The three defects under "## Findings" are each modelled twice, as written and corrected. The JSON folder run uses the as-written `detect_errors`. The scanner's statistics and the data processor's sheet names use the corrected definitions; "## Left out" names the members this affects.

## Model

| member | source | states |
|---|---|---|
| CacheModel.Entry.Touch | core/cache_manager.py:105-109 | a read adds one to the entry's access count and stamps its last access with `now`; key, value, creation time and ttl are unchanged |
| CacheModel.NewEntry | core/cache_manager.py:37-44 | a fresh entry holds the key, value and ttl, was created and last accessed at `now`, and has an access count of 0 |
| CacheModel.ExpiryRule | core/cache_manager.py:46-50 | with no ttl an entry never expires; with a ttl it has expired exactly when `now - timestamp > ttl` (strict) |
| CacheModel.TouchKeepsExpiry | core/cache_manager.py:46-50 | touching an entry on a read leaves its expiry at every time unchanged: expiry is measured from creation, so reads never extend an entry's life |
| CacheModel.ExpiryIsPermanent | core/cache_manager.py:46-50 | an entry expired at time t is expired at every later time |
| CacheModel.LruIndex | core/cache_manager.py:156-166 | the index `min` picks: no entry comes strictly before it in `(access_count, last_accessed)` order, and it comes strictly before every earlier entry, so it is the first minimal one in dictionary order |
| CacheModel.MemStatsOf | core/cache_manager.py:168-181 | `size` is the number of distinct keys, `total_requests = hit_count + miss_count`, and the hit rate lies in [0, 1]: 0 without requests, otherwise hits divided by requests |
| CacheModel.GetMiss | core/cache_manager.py:91-103 | a read of an absent or expired key returns None, adds 1 to the misses and nothing to the hits, removes the key, and leaves every other key's entry unchanged |
| CacheModel.GetKeepsValid | core/cache_manager.py:81-111 | a read keeps the keys distinct and the size within the capacity |
| CacheModel.GetHit | core/cache_manager.py:105-111 | a read of a live key returns its value, adds 1 to the hits and nothing to the misses, touches that entry, and leaves every other entry and the size unchanged |
| CacheModel.SetInstallsFresh | core/cache_manager.py:113-130 | `set` stores a fresh entry under the key, with the ttl defaulted to `default_ttl`, even when the key was present; the counters stay and the capacity bound is kept |
| CacheModel.SetOverwriteKeepsOthers | core/cache_manager.py:122-130 | overwriting a present key never evicts: every other key keeps its entry and the size is unchanged |
| CacheModel.SetEvictsLru | core/cache_manager.py:122-130 | a new key at capacity removes exactly one entry, the first one minimal in `(access_count, last_accessed)`, keeps every other entry, and the size is unchanged |
| CacheModel.SetThenGet | core/cache_manager.py:81-130 | a `get` after a `set`, before the effective ttl runs out, returns the value |
| CacheModel.DeleteSpec | core/cache_manager.py:133-148 | `delete` returns true iff the key was present; afterwards the key is absent, other keys keep their entries, and the counters are unchanged |
| CacheModel.ClearKeepsCounters | core/cache_manager.py:150-154 | `clear` leaves no key and keeps both counters |
| CacheModel.CleanupRemovesExpired | core/cache_manager.py:183-194 | `cleanup_expired` keeps exactly the live entries, returns the number it removed (old size = removed + new size), and keeps the counters |
| CacheModel.ExpiredKeysCount | core/cache_manager.py:185-187 | every entry is either live or has its key in the expired-key list |
| CacheModel.WithoutExpiredIsLive | core/cache_manager.py:185-187 | deleting every listed expired key, one by one, leaves exactly the live entries in their order |
| CacheModel.ManagerSetThenGet | core/cache_manager.py:357-401 | at level "all", a `get` after a `set` of a non-None value, before its ttl runs out, returns that value |
| CacheModel.EvictionExample | core/cache_manager.py:113-166 | with `max_size` 2: set a, set b, get a (a hit), set c evicts b and keeps a and c |
| CacheModel.FileDelete | core/cache_manager.py:285-296 | the file delete reports true iff the file existed; afterwards it is gone and every other file is unchanged |
| CacheModel.Unexpired | core/cache_manager.py:312-335 | the files left by `cleanup_expired` are exactly the corrupt ones and the unexpired readable ones, unchanged |
| CacheModel.FileSetThenGet | core/cache_manager.py:217-283 | a record written successfully and read before its ttl runs out returns the value |
| CacheModel.FileGetFailures | core/cache_manager.py:229-250 | reading an expired record returns None and deletes its file; reading a corrupt record returns None and changes nothing |
| CacheModel.FileCleanupCount | core/cache_manager.py:312-335 | `cleanup_expired` never removes a corrupt file, and the number removed equals the number of readable expired records |
| CacheModel.ManagerMemoryFirst | core/cache_manager.py:368-373 | when memory holds a live non-None value, the manager returns it with one memory hit and leaves the file layer untouched |
| CacheModel.ManagerPromotes | core/cache_manager.py:375-382 | at level "all", a memory miss with a live file record returns the file's value and installs it in memory as a fresh entry with the manager's `default_ttl`, leaving the files unchanged |
| CacheModel.ManagerStoredNoneIsMiss | core/cache_manager.py:368-384 | a live memory entry holding None counts a memory hit, yet `get` falls through: without the file layer it returns None, with it it returns exactly what the file layer gives (and the file layer's new state) |
| CacheModel.ManagerUnknownLevel | core/cache_manager.py:357-384 | a level other than "memory", "file" and "all" returns None and changes nothing |
| CacheModel.ManagerWithoutFiles | core/cache_manager.py:386-413 | with the file layer disabled, `set`, `delete` and `clear` leave the directory alone |
| CacheModel.ManagerFileSurvivesMemoryLoss | core/cache_manager.py:357-401 | a value set at level "all" and written to disk is still returned after the memory layer is emptied, within its ttl |
| Cache.MemoryCache.constructor | core/cache_manager.py:66-79 | an empty cache with zero counters and the given capacity and default ttl |
| Cache.MemoryCache.Get | core/cache_manager.py:81-111 | the new state and the result are those of the `get` specification; the keys stay distinct and the size stays within capacity |
| Cache.MemoryCache.Set | core/cache_manager.py:113-130 | the new state is the `set` specification's: eviction for a new key at capacity, then a fresh entry |
| Cache.MemoryCache.EvictLru | core/cache_manager.py:156-166 | removes the entry `LruIndex` selects (nothing from an empty cache) and keeps the counters |
| Cache.MemoryCache.Delete | core/cache_manager.py:133-148 | the new state and result are the `delete` specification's |
| Cache.MemoryCache.Clear | core/cache_manager.py:150-154 | the entries go and the counters stay |
| Cache.MemoryCache.GetStats | core/cache_manager.py:168-181 | the statistics of the current state, with `total_requests = hit_count + miss_count` |
| Cache.MemoryCache.ExpiredKeyList | core/cache_manager.py:185 | the keys of the expired entries, in dictionary order |
| Cache.MemoryCache.RemoveKey | core/cache_manager.py:187 | removes the key's entry if present and nothing else |
| Cache.MemoryCache.DeleteKeys | core/cache_manager.py:186-187 | deleting a list of keys leaves exactly the entries whose key is not listed |
| Cache.MemoryCache.CleanupExpired | core/cache_manager.py:183-194 | leaves exactly the live entries and returns how many it removed |
| Cache.ExpiredKeysSnoc | core/cache_manager.py:185 | the expired-key list of a dictionary with one more entry at the end gains that entry's key iff it has expired |
| Cache.FileCache.constructor | core/cache_manager.py:199-210 | the directory may already hold files from earlier runs; the file-name function and default ttl are the given ones |
| Cache.FileCache.Get | core/cache_manager.py:217-250 | the directory and result are the file-get specification's: missing or corrupt gives None, expired gives None and deletes the file |
| Cache.FileCache.Set | core/cache_manager.py:252-283 | the directory and result follow the write outcome: a fresh record and true, or false with the file unchanged (open failed) or left corrupt (dump failed) |
| Cache.FileCache.Delete | core/cache_manager.py:285-296 | true iff the file existed; afterwards it is gone |
| Cache.FileCache.Clear | core/cache_manager.py:298-310 | every file removed and the number of removed files returned |
| Cache.FileCache.CleanupExpired | core/cache_manager.py:312-335 | keeps corrupt and unexpired files; the count plus the remaining files equals the old number of files |
| Cache.CacheManager.constructor | core/cache_manager.py:341-355 | a fresh memory layer of the given size with zero counters, and a file layer only when enabled |
| Cache.CacheManager.Get | core/cache_manager.py:357-384 | the new layers and the result are the manager-get specification's: memory first, then the file layer with promotion |
| Cache.CacheManager.Set | core/cache_manager.py:386-401 | the new layers are the manager-set specification's: memory for "memory"/"all", the file layer for "file"/"all" when enabled |
| Cache.CacheManager.Delete | core/cache_manager.py:403-407 | the key is deleted from memory, and from the file layer when enabled |
| Cache.CacheManager.Clear | core/cache_manager.py:409-413 | both layers emptied (the directory only when enabled); the memory counters stay |
| Cache.CacheManager.GetStats | core/cache_manager.py:415-431 | the memory statistics, and a file count equal to the number of files present iff the file layer is enabled |
| Cache.CacheManager.CleanupExpired | core/cache_manager.py:433-442 | the memory figure always, the file figure iff the file layer is enabled, each the number removed by that layer |
| CacheModel.MemGet | core/cache_manager.py:81-111 | (definition) `MemoryCache.get`; `GetMiss`, `GetHit` and `GetKeepsValid` state its result and new state |
| CacheModel.MemSet | core/cache_manager.py:113-131 | (definition) `MemoryCache.set`; `SetInstallsFresh`, `SetOverwriteKeepsOthers` and `SetEvictsLru` state its new state |
| CacheModel.FileGet | core/cache_manager.py:217-250 | (definition) `FileCache.get`; `FileGetFailures` and `FileSetThenGet` state its result |
| CacheModel.FileSet | core/cache_manager.py:252-283 | (definition) `FileCache.set` with the write's outcome as a parameter; `FileSetThenGet` states what a successful write gives back |
| CacheModel.ManagerGet | core/cache_manager.py:357-384 | (definition) `CacheManager.get`; `ManagerMemoryFirst`, `ManagerStoredNoneIsMiss`, `ManagerUnknownLevel` and `ManagerFileSurvivesMemoryLoss` state its result |
| CacheModel.ManagerSet | core/cache_manager.py:386-401 | (definition) `CacheManager.set` writing the levels it names; `ManagerFileSurvivesMemoryLoss` states a set followed by a get |
| CellReference.LetterValue | core/cross_project_translator.py:48-50 | one column letter is worth `ord(c) - ord('A') + 1`, a value between 1 and 26 |
| CellReference.ColumnLetters | core/vietnamese_excel_processor.py:33-51 | the letters of a column are upper-case ASCII, and empty exactly when the column is not positive |
| CellReference.LeadingUpper | core/cross_project_translator.py:41 | the length of the longest upper-case prefix, which `[A-Z]+` matches greedily |
| Text.DropFinalNewline | core/cross_project_translator.py:41 | the `$` anchor (also in tools/excel_text_extractor.py:211 and :215) matches at the end or just before one final newline |
| CellReference.ColumnValueOfLetters | core/vietnamese_excel_processor.py:33-51 | folding the formatter's letters gives back every column number `col >= 0` |
| CellReference.LettersOfColumnValue | core/cross_project_translator.py:46-50 | formatting the fold of any upper-case letter string gives back that string, so letters and columns are in bijection |
| CellReference.ColumnLettersExamples | core/vietnamese_excel_processor.py:33-51 | columns 1, 26, 27, 52, 53 and 703 are A, Z, AA, AZ, BA and AAA |
| CellReference.FormatWithoutColumn | core/vietnamese_excel_processor.py:46-51 | with a column `<= 0` the reference is just the decimal row |
| CellReference.SplitAtDigits | core/cross_project_translator.py:41-45 | upper-case letters followed by digits split exactly where the digits begin |
| CellReference.ParseFormat | core/vietnamese_excel_processor.py:33-51 | round trip: parsing the formatted reference of row `r >= 0` and column `c >= 1` gives `(r, c)` |
| CellReference.ParseLettersDigits | core/cross_project_translator.py:29-58 | ASCII letters in either case followed by digits parse to the digits' value and the upper-cased letters' column |
| CellReference.ParsedShape | core/cross_project_translator.py:29-58 | whatever parses is, once upper-cased, letters then digits (optionally a final newline), and parses to their values; everything else gives None |
| CellReference.ParseRowZero | core/cross_project_translator.py:41-52 | "A0" is accepted with row 0 and column 1 |
| CellReference.ParseCellReference | core/cross_project_translator.py:29-58 | (definition) `parse_cell_reference` on the upper-cased text: letters then digits give `(row, column)`, anything else None; its properties are `ParsedShape` and `ParseFormat` |
| CellReference.FormatCellReference | core/vietnamese_excel_processor.py:33-51 | (definition) `_get_excel_cell_reference`: bijective base-26 column letters followed by the row number; `ParseFormat` proves parsing inverts it |
| Translator.FirstWalkMatch | core/cross_project_translator.py:305-308 | the first walked file at or after position `k` that matches the walk rule, or -1 |
| Translator.FirstWalkMatchNone | core/cross_project_translator.py:305-310 | the walk finds nothing exactly when no walked file from `k` on matches |
| Translator.FirstWalkMatchFound | core/cross_project_translator.py:305-308 | a found file matches the rule (lower-cased prefix, `.xlsx`/`.xls` suffix) and no earlier walked file does |
| Translator.FirstWalkMatchSpec | core/cross_project_translator.py:305-310 | both directions together: -1 iff nothing matches, otherwise the first match |
| Translator.SearchFromCandidate | core/cross_project_translator.py:292-302 | an existing candidate spelling preceded only by missing ones is returned |
| Translator.SearchFromWalk | core/cross_project_translator.py:299-310 | when no candidate spelling from `k` on exists, the result is the walk's |
| Translator.SearchCandidateWins | core/cross_project_translator.py:292-302 | the first existing spelling among `.xlsx`, `.xls`, `.XLSX`, `.XLS` wins over later spellings and over the walk |
| Translator.SearchWalkFallback | core/cross_project_translator.py:304-310 | with no candidate spelling present, the result is the first matching walked file joined to its directory, and None iff no walked file matches |
| Translator.FirstMatchUnique | core/cross_project_translator.py:305-308 | the first match of the walk rule is unique |
| Translator.SearchFromSome | core/cross_project_translator.py:299-302 | an existing candidate spelling guarantees a result |
| Translator.SearchNone | core/cross_project_translator.py:279-314 | `find_project_file` returns None exactly when no candidate spelling exists and no walked file matches |
| Translator.FindContentFails | core/cross_project_translator.py:113-134 | the lookup fails on an absent sheet or an unparsable reference, and otherwise succeeds iff `1 <= row <= len(df)` and `1 <= col <= len(df.columns)` |
| Translator.FindContentParsed | core/cross_project_translator.py:125-141 | a reference parsing to `(i+1, j+1)` inside the frame reads cell `(i, j)`, NaN giving "" |
| Translator.FindContentAt | core/cross_project_translator.py:113-141 | the formatted reference of frame position `(i+1, j+1)` reads exactly cell `(i, j)` |
| Translator.ScannerReferenceReadsNextRow | core/cross_project_translator.py:125-137 | as written, the reference the scanner reports for data row `i` (sheet row `i+2`) reads data row `i+1`, or nothing at the last row |
| Translator.HeaderOffsetExample | core/cross_project_translator.py:125-137 | on a sheet with header H over data rows x and y, the reference to sheet row 2 (which holds x) returns "y" |
| Translator.SplitPosition | core/cross_project_translator.py:228-235 | without '!' the first sheet (or "") and the unchanged position; with '!' the sheet part holds no '!' |
| Translator.SplitAtFirstBang | core/cross_project_translator.py:228-231 | `S!R` with no '!' in S splits into the stripped S and the stripped R, whatever R holds |
| Translator.MappingColumns | core/cross_project_translator.py:166-186 | the two columns are found iff each candidate list has a present name; each is the first present one of its list |
| Translator.FieldColumn | core/cross_project_translator.py:196-197 | one stripped text per mapping row, "" for NaN or a missing cell |
| Translator.Completeness | core/cross_project_translator.py:199-201 | a row is complete iff both its file name and its position are non-empty |
| Translator.RecordAgreesGrow | core/cross_project_translator.py:71-72 | memoising more loadable paths keeps every earlier record consistent with the memo |
| Translator.RowsMatchSnoc | core/cross_project_translator.py:248-258 | one more complete row and its record keep rows and records in correspondence |
| Translator.RecordsForRows | core/cross_project_translator.py:193-258 | record `k` belongs to the `k`-th complete row: same index + 1, file name and position |
| Translator.AllAgreeAppend | core/cross_project_translator.py:248-258 | a consistent record may join consistent records |
| Translator.AllAgreeGrow | core/cross_project_translator.py:71-92 | the memo's growth keeps every earlier record consistent |
| Translator.MemoiseExtends | core/cross_project_translator.py:71-92 | loading keeps every memoised workbook, adds a path only when it exists and loads, and holds the path afterwards exactly then |
| Translator.ResolveAbsolute | core/cross_project_translator.py:206-210 | an absolute file name is resolved to itself when it exists and otherwise to the project-file search, whatever the directory |
| Translator.Resolutions | core/cross_project_translator.py:206-210 | each row's file resolves to the joined path when it exists, otherwise to the project-file search |
| Translator.ExtendsTrans | core/cross_project_translator.py:71-92 | memo growth composes |
| Translator.RowLookupAgrees | core/cross_project_translator.py:206-258 | one row's record agrees with the memo it leaves: the resolved path, the split position and the looked-up content |
| Translator.RowLookupExtends | core/cross_project_translator.py:224-225 | one row's lookup only adds a loadable path to the memo |
| Translator.AgreeStep | core/cross_project_translator.py:193-258 | one complete row keeps every record consistent with the memo |
| Translator.TranslateRowsShape | core/cross_project_translator.py:193-258 | the row loop yields one record per complete row, in row order, with index = row index + 1 |
| Translator.TranslateRowsExtends | core/cross_project_translator.py:193-258 | the row loop only adds loadable paths to the memo |
| Translator.TranslateRowsAgree | core/cross_project_translator.py:193-258 | every record of the row loop agrees with the final memo |
| Translator.CountSuccess | core/cross_project_translator.py:387 | the success count is at most the number of records |
| Translator.CountStatus | core/cross_project_translator.py:391-394 | a status is counted zero times iff no record has it |
| Translator.CountFile | core/cross_project_translator.py:397-402 | a file is counted zero times iff no record names it |
| Translator.CountFileSuccess | core/cross_project_translator.py:403-404 | a file's successes are at most its records |
| Translator.Statuses | core/cross_project_translator.py:392-393 | the status of each record, in order |
| Translator.FileNames | core/cross_project_translator.py:398-399 | the file name of each record, in order |
| Translator.FileLinesBalance | core/cross_project_translator.py:397-425 | at most 10 file lines, each with total = success + error |
| Translator.ProjectTranslator.constructor | core/cross_project_translator.py:23-27 | no memoised workbooks and no results |
| Translator.ProjectTranslator.LoadProjectFile | core/cross_project_translator.py:60-97 | a memoised path returns its workbook without checking existence; otherwise a loadable path is read and memoised, and a missing one gives the empty dict and is not memoised |
| Translator.ProjectTranslator.TranslateRow | core/cross_project_translator.py:205-258 | the record and the new memo are those of the row lookup on the resolved path |
| Translator.ProjectTranslator.ProcessTranslationMapping | core/cross_project_translator.py:147-277 | no mapping frame or a missing column gives `[]` with nothing changed; otherwise the results are the row loop's, one record per complete row in order, all agreeing with the final memo, and stored as the translation results |
| Translator.ProjectTranslator.StepRow | core/cross_project_translator.py:193-258 | one iteration takes the row loop's state from `i` rows to `i + 1` rows |
| Translator.ProjectTranslator.TranslateAll | core/cross_project_translator.py:193-269 | the loop's results and memo are the row-loop specification's |
| Translator.ProjectTranslator.CreateStatistics | core/cross_project_translator.py:376-427 | None iff there are no results; otherwise total, success and error = total - success, the status tally, and the first 10 distinct file names each with its own counts |
| Translator.StatusTally | core/cross_project_translator.py:391-394 | the status dict lists each status once in first-seen order, counts each exactly, and its counts sum to the number of records |
| Translator.StatusTallyStep | core/cross_project_translator.py:393-394 | one bump keeps the dict equal to the tally of the records seen so far |
| Translator.StatusKeysStep | core/cross_project_translator.py:393-394 | a bump adds a status key exactly on its first occurrence |
| Translator.TallyStatusStep | core/cross_project_translator.py:393-394 | one bump keeps each status's count correct |
| Translator.CountStatusSnoc | core/cross_project_translator.py:391-394 | appending a record raises its status's count by one and leaves the other unchanged |
| Translator.FileTally | core/cross_project_translator.py:397-406 | the file dict lists each file once in first-seen order with its total, success and error counts |
| Translator.FileTallyStep | core/cross_project_translator.py:398-406 | one step keeps every file line equal to the counts of the records seen so far |
| Translator.FileKeysStep | core/cross_project_translator.py:400-401 | storing a line adds its file name exactly on its first occurrence |
| Translator.CurrentLine | core/cross_project_translator.py:400-406 | the line found for a name (zero when absent) is that name's counts so far |
| Translator.FileLinesStep | core/cross_project_translator.py:402-406 | updating one file's line keeps every line equal to its file's counts |
| Translator.CountsSnoc | core/cross_project_translator.py:402-406 | appending a record changes only its own file's counts, by one total and one success or error |
| Translator.WalkMatches | core/cross_project_translator.py:305-308 | (definition) the walk's file test: the name, lower-cased, starts with the lower-cased table name and ends in `.xlsx` or `.xls`; the `FirstWalkMatch` lemmas are stated over it |
| Translator.SearchProjectFile | core/cross_project_translator.py:279-314 | (definition) `find_project_file`: the candidate spellings in order, then the first matching walked file; `SearchWalkFallback` and `SearchNone` state its result |
| Translator.FindContent | core/cross_project_translator.py:99-145 | (definition) `find_content_by_reference`: None for an absent sheet, an unparsable reference or a position outside the frame, otherwise the cell text; `FindContentFails` states when it fails |
| CachedTranslator.KeyKindsDistinct | core/cross_project_translator_cached.py:51-54 | a workbook key, a query key and a search key never coincide |
| CachedTranslator.JoinLastChar | core/cross_project_translator.py:292-302 | a joined path ends with the name's last character |
| CachedTranslator.SearchFromSpreadsheet | core/cross_project_translator.py:292-310 | every path the file search returns ends, ignoring case, in the `s` or `x` of `.xls`/`.xlsx` |
| CachedTranslator.SearchNeverSentinel | core/cross_project_translator_cached.py:237-266 | the file search never returns the `NOT_FOUND` sentinel itself |
| CachedTranslator.SearchEncodingRoundTrip | core/cross_project_translator_cached.py:237-266 | storing a search result (the path, or the sentinel for none) and reading it back gives the same result |
| CachedTranslator.SearchCacheRepeats | core/cross_project_translator_cached.py:230-266 | a search cached at `now` and read back within the time to live gives what the search returned |
| CachedTranslator.SingleCellExample | core/cross_project_translator.py:113-141 | a sheet whose only data cell holds `v` answers a reference to row 1, column 1 with `v` |
| CachedTranslator.StaleQueryExample | core/cross_project_translator_cached.py:172-209 | the query key names only sheet and reference: after the text `x` of one workbook's cell is cached, the same key answers `x` although a second workbook's cell holds `y` |
| CachedTranslator.RecordsForStep | core/cross_project_translator_cached.py:318-390 | a complete row's record extends the records of the rows before it |
| CachedTranslator.CachedSearch | core/cross_project_translator_cached.py:217-271 | a search consults the cache exactly once (hits plus misses grow by one, neither shrinks); a search the cache does not answer returns the uncached search's result |
| CachedTranslator.CachedLoad | core/cross_project_translator_cached.py:101-150 | an existing path consults the cache once and a missing one not at all; a load the cache does not answer gives the disk's workbook for a loadable path and no sheets otherwise |
| CachedTranslator.ExcelKeyInjective | core/cross_project_translator_cached.py:117-118 | two workbook keys are equal exactly when their file hashes are |
| CachedTranslator.UnseenHashReloads | core/cross_project_translator_cached.py:91-150 | a load under a hash present in neither layer is a miss that returns the workbook on disk |
| CachedTranslator.EditedWorkbookReloads | core/cross_project_translator_cached.py:91-150 | after any load under one hash, a load under a different hash (the file's modification time changed) is a miss that returns the workbook now on disk, provided that hash was never cached |
| CachedTranslator.CachedQuery | core/cross_project_translator_cached.py:152-215 | a present sheet consults the cache once and an absent one not at all; a lookup the cache does not answer gives the uncached lookup's content |
| CachedTranslator.CachedResolve | core/cross_project_translator_cached.py:330-335 | an existing joined path is used as is, with no cache consulted; otherwise the cached search; without a hit the result is the uncached resolution |
| CachedTranslator.CachedRow | core/cross_project_translator_cached.py:329-383 | the record carries the row's index, file name and position, and the counters only grow |
| CachedTranslator.CachedRowLookup | core/cross_project_translator_cached.py:337-383 | the lookup is `FileNotFound` iff the row resolves to no path; an existing joined path is the project file; otherwise the lookup holds the resolved path, the split of the position against the workbook that path loaded, and the cached lookup's content for that sheet and reference |
| CachedTranslator.CachedRowWithoutHits | core/cross_project_translator_cached.py:329-383 | a row for which the cache answered nothing has the uncached translator's lookup |
| CachedTranslator.UncachedLookupSnoc | core/cross_project_translator_cached.py:371-383 | appending an uncached-lookup record to records that all are keeps them all so |
| CachedTranslator.CachedRows | core/cross_project_translator_cached.py:318-383 | one record per complete row, in row order; the counters only grow; in a run in which the cache answered nothing, every record is the uncached translator's lookup of its row |
| CachedTranslator.CachedProjectTranslator.constructor | core/cross_project_translator_cached.py:29-58 | the cache manager is configured with the given memory size, time to live and file-layer switch; both counters are zero and there are no results |
| CachedTranslator.CachedProjectTranslator.LoadProjectFile | core/cross_project_translator_cached.py:91-150 | with the workbook hash taken at the call, the returned workbook, the new layers and both counters are exactly those `CachedLoad` gives for the old layers and counters |
| CachedTranslator.CachedProjectTranslator.FindContentByReference | core/cross_project_translator_cached.py:152-215 | the returned content, the new layers and both counters are exactly those `CachedQuery` gives for the old layers and counters |
| CachedTranslator.CachedProjectTranslator.FindProjectFile | core/cross_project_translator_cached.py:217-271 | the returned path, the new layers and both counters are exactly those `CachedSearch` gives for the old layers and counters |
| CachedTranslator.CachedProjectTranslator.TranslateRow | core/cross_project_translator_cached.py:329-383 | the record, the new layers and both counters are exactly those `CachedRow` gives for the old layers and counters: the resolution, the load, the split of the position against the loaded workbook and the cached lookup of that sheet and reference |
| CachedTranslator.CachedProjectTranslator.ProcessTranslationMapping | core/cross_project_translator_cached.py:273-409 | no mapping frame or a missing column gives `[]` with cache, counters and results unchanged; otherwise the records, layers and counters are those of `CachedRows` over the stripped columns (one record per complete row in row order), and the records are stored as the results |
| CachedTranslator.CachedProjectTranslator.StepRow | core/cross_project_translator_cached.py:319-383 | one iteration takes the records, layers and counters from `CachedRows` over `i` rows to `CachedRows` over `i + 1` rows |
| CachedTranslator.CachedProjectTranslator.TranslateAll | core/cross_project_translator_cached.py:318-383 | the loop's records, layers and counters are those of `CachedRows` over all rows |
| CachedTranslator.CachedProjectTranslator.CreateStatistics | core/cross_project_translator_cached.py:482-502 | None iff there are no results; otherwise total, success and error summing to the total, and the two cache counters |
| CachedTranslator.CachedProjectTranslator.GetCacheStats | core/cross_project_translator_cached.py:411-420 | the manager's statistics of the memory layer, a file count exactly when the file layer is on and then equal to the number of cache files, and the translator's hit and miss counters |
| CachedTranslator.CachedProjectTranslator.ClearCache | core/cross_project_translator_cached.py:504-509 | both layers cleared as the manager clears them, and both counters reset to zero |
| CachedTranslator.CachedProjectTranslator.CleanupExpiredCache | core/cross_project_translator_cached.py:511-514 | the memory layer loses exactly its expired entries, and the count removed is reported; a file count is reported exactly when the file layer is on, and then the directory keeps exactly the corrupt and unexpired files and the count is the number of files removed |
| VietnameseExcel.ScanRow | core/vietnamese_excel_processor.py:88-103 | the inner cell loop yields exactly the row's specified locations, in column order |
| VietnameseExcel.ScanFrame | core/vietnamese_excel_processor.py:87-103 | the nested row and cell loops yield exactly the frame's specified locations, row by row |
| VietnameseExcel.ScanCell | core/vietnamese_excel_processor.py:89-99 | a cell yields one location, at row index + 2 and column index + 1, exactly when it is not NaN and its text holds Vietnamese |
| VietnameseExcel.RowHitsSound | core/vietnamese_excel_processor.py:88-103 | each location of a row prefix is reported for one of its cells |
| VietnameseExcel.RowHitsComplete | core/vietnamese_excel_processor.py:88-103 | each cell of a row prefix the detector fires on is reported |
| VietnameseExcel.FrameHitsSoundAt | core/vietnamese_excel_processor.py:87-103 | each location of the first `m` rows is reported for one of their cells |
| VietnameseExcel.FrameHitsCompleteAt | core/vietnamese_excel_processor.py:87-103 | each cell of the first `m` rows the detector fires on is reported |
| VietnameseExcel.FrameHitsSpec | core/vietnamese_excel_processor.py:87-103 | a frame reports a location iff it belongs to a cell the detector fires on, with that cell's coordinates, column name and content |
| VietnameseExcel.SoundPositionParses | core/vietnamese_excel_processor.py:33-51 | the position reported for a location parses back to its row and column |
| VietnameseExcel.FrameHitsSound | core/vietnamese_excel_processor.py:89-101 | every location carries the file's name and path, the sheet name, row = data row + 2, column = index + 1, that column's name and the cell's content, which the detector accepts |
| VietnameseExcel.ReportedIsSound | core/vietnamese_excel_processor.py:89-101 | the location reported for cell `(i, j)` has row `i + 2`, column `j + 1` and that cell's content |
| VietnameseExcel.ScanExcelFile | core/vietnamese_excel_processor.py:65-108 | the sheet loop yields the hits of the readable sheets in sheet order, and nothing when the workbook cannot be opened |
| VietnameseExcel.BookHitsSound | core/vietnamese_excel_processor.py:81-103 | every location of a workbook is sound and names one of its readable sheets |
| VietnameseExcel.CsvFrameSpec | core/vietnamese_excel_processor.py:124-148 | the encoding loop reads the frame of an encoding iff that encoding decodes and every earlier one failed to decode |
| VietnameseExcel.ScanCsvFile | core/vietnamese_excel_processor.py:110-152 | the loop yields the hits of the first decoding encoding's frame under the sheet name `CSV数据`, and nothing when none decodes or reading fails otherwise |
| VietnameseExcel.ScanSingleFile | core/vietnamese_excel_processor.py:154-172 | an unsupported suffix yields nothing; a workbook suffix scans the workbook, a CSV suffix the CSV |
| VietnameseExcel.FileHitsSound | core/vietnamese_excel_processor.py:154-172 | a file yields locations only when its suffix is supported; each is sound, and a CSV's all lie on sheet `CSV数据` |
| VietnameseExcel.CollectSupported | core/vietnamese_excel_processor.py:197-206 | the collection loop keeps exactly the supported files (every walked one when recursive, the top-level ones otherwise), in walk order |
| VietnameseExcel.ScanFiles | core/vietnamese_excel_processor.py:211-215 | the scan loop concatenates each file's locations, file after file |
| VietnameseExcel.ScanDirectory | core/vietnamese_excel_processor.py:174-222 | nothing for a missing path or a non-directory; otherwise the locations of the collected files, in order |
| VietnameseExcel.SupportedFilesSpec | core/vietnamese_excel_processor.py:197-206 | every collected file passes the collection test, and there are no more of them than walked entries |
| VietnameseExcel.AllHitsSound | core/vietnamese_excel_processor.py:211-215 | every location of a directory scan is sound for one of the scanned files |
| VietnameseExcel.DistinctFileNames | core/vietnamese_excel_processor.py:321 | the loop collects exactly the set of the results' file names |
| VietnameseExcel.ProcessDirectory | core/vietnamese_excel_processor.py:294-322 | the results are the directory scan's; the statistics count the scanned files, the distinct file names with hits and the locations, and files with hits never outnumber either |
| VietnameseExcel.FileNamesSpec | core/vietnamese_excel_processor.py:321 | a name is counted iff some location carries it |
| VietnameseExcel.FileNamesBound | core/vietnamese_excel_processor.py:321-322 | distinct file names never outnumber locations |
| VietnameseExcel.SameNameCountsOnce | core/vietnamese_excel_processor.py:321 | two locations with the same file name count once, even from different folders |
| VietnameseExcel.BaseNamesBound | core/vietnamese_excel_processor.py:197-206 | distinct base names never outnumber files |
| VietnameseExcel.BaseNamesMember | core/vietnamese_excel_processor.py:197-206 | every file's base name is among the base names |
| VietnameseExcel.FileNamesOfScan | core/vietnamese_excel_processor.py:211-215 | every counted name is the name of a scanned file |
| VietnameseExcel.OneEntryScan | core/vietnamese_excel_processor.py:204-215 | a directory holding one collected entry scans exactly that file |
| VietnameseExcel.OneFileNames | core/vietnamese_excel_processor.py:89-92 | the locations of one file that yields any carry exactly one name, the file's |
| VietnameseExcel.OneEntryGlob | core/vietnamese_excel_processor.py:317-320 | a glob counts a single entry iff its name ends with the pattern's suffix, letter case kept |
| VietnameseExcel.UpperCaseSuffixNotCounted | core/vietnamese_excel_processor.py:317-321 | as written, a directory holding one top-level table with hits whose name no glob matches reports 1 file with Vietnamese out of 0 files scanned |
| VietnameseExcel.NonRecursiveCountsNested | core/vietnamese_excel_processor.py:294-321 | as written, a top-level `*.xlsx` workbook beside a nested one, scanned with `recursive` false, is counted as 2 files scanned while the scan looks at 1 |
| VietnameseExcel.NonRecursiveWitness | core/vietnamese_excel_processor.py:294-321 | on the tree of a top-level `a.xlsx` and a nested `sub/b.xlsx`, scanned with `recursive` false, the as-written statistics count 2 files scanned and the scanned count is 1 |
| VietnameseExcel.UpperCaseSuffixWitness | core/vietnamese_excel_processor.py:53-63 | `A.XLSX` is a supported workbook (the suffix test lowers case) yet matches none of the four globs |
| VietnameseExcel.OneCellWorkbookHits | core/vietnamese_excel_processor.py:81-103 | a readable sheet with one cell the detector accepts makes a workbook file report a location |
| VietnameseExcel.ScannedStatsBound | core/vietnamese_excel_processor.py:316-322 | with the scanned files counted, files holding Vietnamese never outnumber scanned files nor locations |
| VietnameseExcel.ProcessStats | core/vietnamese_excel_processor.py:294-322 | (definition) the statistics as written, with the scanned count from four whole-tree globs, case-sensitive as on POSIX; `UpperCaseSuffixNotCounted` and `NonRecursiveCountsNested` exhibit the gap |
| VietnameseExcel.ScannedStats | core/vietnamese_excel_processor.py:294-322 | (definition) the statistics with the scanned count taken from the files scanned; `ScannedStatsBound` bounds them |
| DataProcessor.NumberAndTextCollide | tools/excel_data_processor.py:100-105 | a number and the text of its digits are distinct group values with the same `str` key |
| DataProcessor.TextBeforeAsymmetric | tools/excel_data_processor.py:93 | the text order of the grouping sort is asymmetric |
| DataProcessor.ValueBeforeAsymmetric | tools/excel_data_processor.py:93 | the value order of the grouping sort (numbers before texts) is asymmetric |
| DataProcessor.Insert | tools/excel_data_processor.py:93 | inserting into a sorted list keeps it sorted and adds exactly the value to its multiset |
| DataProcessor.SortValues | tools/excel_data_processor.py:93 | the sorted group values are a sorted permutation of the input |
| DataProcessor.KeyValuesSpec | tools/excel_data_processor.py:93-96 | a value is collected iff some row holds it in the grouping column |
| DataProcessor.GroupOrderSpec | tools/excel_data_processor.py:93-96 | the groups are sorted and are exactly the values present in the column; NaN forms no group |
| DataProcessor.RowsWithSpec | tools/excel_data_processor.py:96-104 | a group's rows are among the frame's rows and all hold the group's value |
| DataProcessor.Texts | tools/excel_data_processor.py:100-102 | the `str` key of each group value, in order |
| DataProcessor.LastWithText | tools/excel_data_processor.py:105 | the last group whose key is `k`, or -1 when none is |
| DataProcessor.SplitDataKeys | tools/excel_data_processor.py:96-105 | the dict's keys are the distinct `str` forms of the groups, in first-seen order |
| DataProcessor.SplitDataGet | tools/excel_data_processor.py:105 | under each key lies the group of the last value with that `str`; earlier groups are overwritten |
| DataProcessor.GroupedSpec | tools/excel_data_processor.py:73-83 | an empty frame gives `{}`, a missing grouping column raises, and the default column is the first |
| DataProcessor.GroupedKeys | tools/excel_data_processor.py:62-112 | with an existing column, the keys are the distinct `str` forms and each holds its last group |
| DataProcessor.DefaultSheetNameIsClean | tools/excel_data_processor.py:189-191 | the fallback sheet name is clean |
| DataProcessor.CleanedSheetNameSpec | tools/excel_data_processor.py:169-193 | a cleaned sheet name is non-empty, holds no invalid character and has no surrounding whitespace |
| DataProcessor.StripFixed | tools/excel_data_processor.py:187 | stripping a string without surrounding whitespace changes nothing |
| DataProcessor.CleanedSheetNameIdempotent | tools/excel_data_processor.py:169-193 | cleaning a cleaned sheet name changes nothing |
| DataProcessor.CleanSheetName | tools/excel_data_processor.py:169-193 | the replace loop and strip compute the cleaned sheet name |
| DataProcessor.NatToStringShort | tools/excel_data_processor.py:150 | a counter below 1000 has at most three digits |
| DataProcessor.Pad3Length | tools/excel_data_processor.py:150 | the `03d` form of a counter below 1000 has exactly three characters |
| DataProcessor.TruncatedSheetNameTooLong | tools/excel_data_processor.py:146-150 | as written, a cut sheet name is 28 + 1 + 3 = 32 characters, over Excel's 31 |
| DataProcessor.BoundedSheetNameFits | tools/excel_data_processor.py:146-150 | with the cut at 27, a name fits 31 characters, short names are unchanged and a cut name keeps the first 27 characters |
| DataProcessor.SheetNames | tools/excel_data_processor.py:141-154 | one sheet name per group key |
| DataProcessor.SheetNamesSnoc | tools/excel_data_processor.py:144-154 | one more key adds the cleaned, bounded name with counter = its position |
| DataProcessor.SheetNamesAt | tools/excel_data_processor.py:144-154 | the `i`-th sheet is the cleaned `prefix + key`, cut with counter `i` when too long |
| DataProcessor.SheetNamesFit | tools/excel_data_processor.py:141-154 | with fewer than a thousand groups every sheet name fits 31 characters |
| DataProcessor.StripTakeShape | tools/excel_data_processor.py:334-338 | stripping spaces and dots and keeping 200 characters leaves at most 200 characters of the input, none leading with a space or dot, and a trailing one only after a cut |
| DataProcessor.CleanedFilenameSpec | tools/excel_data_processor.py:316-340 | a cleaned file name has at most 200 characters, no invalid character, no leading space or dot, and a trailing one only when it was cut |
| DataProcessor.CleanFilename | tools/excel_data_processor.py:316-340 | the replace loop, strip and cut compute the cleaned file name |
| DataProcessor.WithXlsx | tools/excel_data_processor.py:302-308 | the result ends in `.xlsx`, and a name already ending so is unchanged |
| DataProcessor.GeneratedFilenameIsXlsx | tools/excel_data_processor.py:263-314 | the generated name always ends in `.xlsx` |
| DataProcessor.GeneratedFilenameFirstRow | tools/excel_data_processor.py:286-296 | only the header and the first row decide the name: both branches use the first unique value |
| DataProcessor.SeparateStep | tools/excel_data_processor.py:402-426 | one key: an existing path under `skip_duplicates` is skipped, a successful write is created, a failed write stops with False |
| DataProcessor.SeparateAppends | tools/excel_data_processor.py:402-426 | the run only appends to the created and skipped lists, and every created path was written successfully |
| DataProcessor.SeparateStopsAtFirstFailure | tools/excel_data_processor.py:402-426 | keys are handled in order; success handles every key, failure stops at the first key whose write fails |
| DataProcessor.SeparateSucceeds | tools/excel_data_processor.py:402-443 | when every write succeeds the run succeeds |
| DataProcessor.SeparateSkipsExisting | tools/excel_data_processor.py:412-422 | with `skip_duplicates`, no path that existed is written again and the created paths are distinct |
| DataProcessor.GroupOutputPath | tools/excel_data_processor.py:404-410 | a group's output path is the output folder joined with its cleaned `.xlsx` name |
| DataProcessor.GroupRowsSummary | tools/excel_data_processor.py:217-225 | one summary row per group |
| DataProcessor.GroupRowsSummaryAt | tools/excel_data_processor.py:217-225 | the `i`-th group row holds the `i`-th key's label and its row count |
| DataProcessor.RowTotalIsSum | tools/excel_data_processor.py:216-229 | the total row count is the sum of the group rows' values |
| DataProcessor.SummaryShape | tools/excel_data_processor.py:195-231 | the summary has groups + 3 rows: the group count, the column count, one row per group, and a total equal to the sum of the group rows |
| DataProcessor.GroupSheetNames | tools/excel_data_processor.py:141-154 | the naming loop yields the specified sheet names |
| DataProcessor.SplitGroups | tools/excel_data_processor.py:96-105 | the loop over the groups builds the specified dict |
| DataProcessor.ExcelDataProcessor.constructor | tools/excel_data_processor.py:22-26 | no groups and no columns |
| DataProcessor.ExcelDataProcessor.ProcessByColumnA | tools/excel_data_processor.py:62-116 | the result is the grouping's; on success with data the groups and the columns are kept, otherwise nothing changes |
| DataProcessor.ExcelDataProcessor.CreateSummaryData | tools/excel_data_processor.py:195-231 | the summary of the kept groups and columns |
| DataProcessor.ExcelDataProcessor.CreateProcessedExcel | tools/excel_data_processor.py:118-167 | False without groups; otherwise the write's outcome and one bounded sheet name per group, plus the summary sheet when asked |
| DataProcessor.ExcelDataProcessor.CreateSeparateFiles | tools/excel_data_processor.py:384-447 | the outcome, created and skipped lists and the folder's files are those of the specified run over the group keys |
| DataProcessor.Grouped | tools/excel_data_processor.py:62-116 | (definition) `process_by_column_a`: `{}` for an empty frame, the missing-column error, otherwise the groups by `str` of the column's value; `GroupedKeys` states the keys and groups |
| DataProcessor.CleanedSheetName | tools/excel_data_processor.py:169-193 | (definition) `_clean_sheet_name`; `CleanSheetName` proves the loop computes it |
| DataProcessor.CleanedFilename | tools/excel_data_processor.py:316-340 | (definition) `_clean_filename`; `CleanedFilenameSpec` states its bounds and characters |
| DataProcessor.GeneratedFilename | tools/excel_data_processor.py:263-314 | (definition) `_generate_filename_from_data`: the default name for an empty frame or a missing column, otherwise the cleaned first value as an `.xlsx` name |
| DataProcessor.TruncatedSheetName | tools/excel_data_processor.py:144-150 | (definition) the sheet name as written, cut at 28 characters before `_NNN`; `TruncatedSheetNameTooLong` shows it reaches 32 characters |
| DataProcessor.BoundedSheetName | tools/excel_data_processor.py:144-150 | (definition) the same name cut at 27 characters; `BoundedSheetNameFits` proves it fits 31 characters |
| TextExtractor.TypeLabelNames | tools/excel_text_extractor.py:384-397 | the label names Chinese iff there is Chinese, Vietnamese iff there is Vietnamese, English iff there is English and not both of the others; `其他` iff none of the three |
| TextExtractor.AnalyzeTextTypeNames | tools/excel_text_extractor.py:370-397 | the same, stated for the three searches of the text itself |
| TextExtractor.GraveANotVietnamese | tools/excel_text_extractor.py:381 | `à` lies below the Latin-extended ranges the search uses, so alone it is of type `其他` |
| TextExtractor.TypedTextIsContent | tools/excel_text_extractor.py:193-241 | a text past the early rejections whose type is not `其他` is text content |
| TextExtractor.BlankIsSpace | tools/excel_text_extractor.py:203-204 | a text that strips to nothing is all whitespace |
| TextExtractor.DateTextRejected | tools/excel_text_extractor.py:209-211 | a `dddd-dd-dd` date is not text content, bare or followed by one newline (the `$` anchor's final newline) |
| TextExtractor.TimeTextRejected | tools/excel_text_extractor.py:213-215 | a `dd:dd:dd` time is not text content, bare or followed by one newline |
| TextExtractor.ChineseTextIsContent | tools/excel_text_extractor.py:203-227 | a text with a Chinese character is text content unless `float()` accepts it |
| TextExtractor.DefaultSheetNameIsValid | tools/excel_text_extractor.py:364-366 | the fallback sheet name is valid |
| TextExtractor.CutSheetNameIsValid | tools/excel_text_extractor.py:360-366 | cutting to 31 characters, with the fallback for an empty name, keeps a name free of invalid characters and leading whitespace valid |
| TextExtractor.CleanedSheetNameSpec | tools/excel_text_extractor.py:340-368 | a cleaned sheet name is non-empty, at most 31 characters, without invalid characters or leading whitespace |
| TextExtractor.CleanSheetName | tools/excel_text_extractor.py:340-368 | the replace loop, strip and cut compute the cleaned sheet name |
| TextExtractor.IsPlannerRow | tools/excel_text_extractor.py:161-191 | true iff there are more than six rows and some cell of row index 6 contains `策划` after stripping |
| TextExtractor.CollectedStep | tools/excel_text_extractor.py:130-145 | one more row appends that row's items to the items of the rows before |
| TextExtractor.CollectRow | tools/excel_text_extractor.py:135-145 | the column loop yields exactly the row's specified items |
| TextExtractor.CollectItems | tools/excel_text_extractor.py:130-145 | the row loop from index 6 yields exactly the specified items |
| TextExtractor.CellItemsSound | tools/excel_text_extractor.py:135-145 | a cell's item has the cell's 1-based row and comes from a kept cell of that column |
| TextExtractor.RowItemsSound | tools/excel_text_extractor.py:135-145 | every item of a row comes from a kept cell of that row |
| TextExtractor.CollectedSound | tools/excel_text_extractor.py:130-145 | every collected item comes from a kept cell at row index 6 or later |
| TextExtractor.RowItemsComplete | tools/excel_text_extractor.py:135-145 | every kept cell of a row contributes an item with its stripped text |
| TextExtractor.CollectedLastRow | tools/excel_text_extractor.py:130-145 | the last row's items follow the items of the earlier rows |
| TextExtractor.CollectedEarlierRows | tools/excel_text_extractor.py:130-145 | the earlier rows' items keep their places |
| TextExtractor.CollectedComplete | tools/excel_text_extractor.py:130-145 | every kept cell at row index 6 or later contributes an item with its stripped text |
| TextExtractor.TextsBeforeSpec | tools/excel_text_extractor.py:148-153 | the seen set before position `k` holds exactly the texts of the first `k` items |
| TextExtractor.Firsts | tools/excel_text_extractor.py:148-155 | the kept positions increase and each holds a text not seen before it |
| TextExtractor.Pick | tools/excel_text_extractor.py:150-153 | the items at the kept positions, in order |
| TextExtractor.UniqueSpec | tools/excel_text_extractor.py:147-155 | the kept items have pairwise distinct texts and are an ordered selection of the items |
| TextExtractor.FirstsComplete | tools/excel_text_extractor.py:147-155 | every text of the items is kept at its first occurrence |
| TextExtractor.UniqueComplete | tools/excel_text_extractor.py:147-155 | every text of the items appears among the kept items |
| TextExtractor.DedupItems | tools/excel_text_extractor.py:147-155 | the `seen_texts` loop computes the de-duplicated items |
| TextExtractor.ExtractTextsFromDataframe | tools/excel_text_extractor.py:105-159 | a planner sheet or a frame without columns gives nothing; otherwise the de-duplicated items of the rows from index 6 |
| TextExtractor.ExtractedSpec | tools/excel_text_extractor.py:105-159 | a planner sheet gives nothing; every extracted item comes from a text-content cell; the texts are pairwise distinct |
| TextExtractor.ExtractedComplete | tools/excel_text_extractor.py:105-159 | outside a planner sheet, every text-content cell at row index 6 or later has its text extracted |
| TextExtractor.SheetRows | tools/excel_text_extractor.py:332-336 | one summary row per sheet |
| TextExtractor.TextTotalIsSum | tools/excel_text_extractor.py:325-336 | the total text count is the sum of the per-sheet counts |
| TextExtractor.SheetRowsAt | tools/excel_text_extractor.py:332-336 | the `i`-th sheet row holds that sheet's label and text count |
| TextExtractor.ExtractionSummaryShape | tools/excel_text_extractor.py:294-338 | the summary has 4 + sheets rows; the sheet count, a total equal to the sum of the sheet rows, and one row per sheet |
| TextExtractor.CreateSummaryData | tools/excel_text_extractor.py:294-338 | the loop computes the specified summary |
| TextExtractor.HandleFile | tools/excel_text_extractor.py:432-453 | a file yields its output path exactly when text was extracted and the workbook write succeeded; the path is `<stem>_文本提取.xlsx` in the output directory |
| TextExtractor.FileOutcomesPartition | tools/excel_text_extractor.py:430-459 | every file lands in exactly one of the processed and failed lists; failed entries are input files and processed entries are written output paths |
| TextExtractor.ExcelTextExtractor.constructor | tools/excel_text_extractor.py:24-33 | all four counters are zero |
| TextExtractor.ExcelTextExtractor.ProcessDirectory | tools/excel_text_extractor.py:399-468 | a failed scan returns False and changes no counter; otherwise True, `total_files` is the number of files, the lists are the specified outcomes and the counters grow by their lengths |
| TextExtractor.IsTextContent | tools/excel_text_extractor.py:193-241 | (definition) `_is_text_content`: the blank, digit, date, time and float rejections, then Chinese, Vietnamese, English or a symbol |
| TextExtractor.AnalyzeTextType | tools/excel_text_extractor.py:370-397 | (definition) `_analyze_text_type`; `AnalyzeTextTypeNames` states which label names which script |
| Localization.ContainsVietnameseValue | core/localization_checker.py:45-62 | a non-string is never Vietnamese; a string is iff the pattern loop finds a match |
| Localization.SearchSpec | core/localization_checker.py:60 | a one-class search succeeds iff some character of the text is in the class |
| Localization.InUnion | core/localization_checker.py:24-39 | a character is in the union of the classes iff it is in one of them |
| Localization.AnyPatternSpec | core/localization_checker.py:59-62 | the pattern loop returns True iff some character of the text is in the union of the classes |
| Localization.ContainsVietnameseSpec | core/localization_checker.py:45-62 | a text contains Vietnamese iff one of its characters is a Vietnamese letter of the fourteen classes |
| Localization.VietnameseCharsAreNotAscii | core/localization_checker.py:24-39 | every recognised Vietnamese letter lies outside ASCII |
| Localization.PatternsAreNonAscii | core/localization_checker.py:24-39 | each of the fourteen classes holds only non-ASCII characters |
| Localization.AsciiHasNoVietnamese | core/localization_checker.py:45-62 | an empty or all-ASCII text contains no Vietnamese |
| Localization.PatternsMonotone | core/localization_checker.py:59-62 | a text a pattern matches stays matched inside any longer text |
| Localization.ContainsVietnameseMonotone | core/localization_checker.py:45-62 | a text containing Vietnamese keeps containing it when text is added on either side |
| Localization.LowerSlice | core/localization_checker.py:82 | lower-casing commutes with taking a tail |
| Localization.SuffixGivesEnding | core/localization_checker.py:72-82 | a name whose lower-cased suffix is an extension is longer than it and, lower-cased, ends with it |
| Localization.EndingGivesSuffix | core/localization_checker.py:72-82 | a name longer than an extension that, lower-cased, ends with it has that extension as its lower-cased suffix |
| Localization.EndingDots | core/localization_checker.py:72-82 | such a name has its last dot exactly where the extension starts |
| Localization.LastDotAt | core/localization_checker.py:82 | a dot followed by no other dot is the last dot |
| Localization.LowerKeepsDot | core/localization_checker.py:82 | lower-casing keeps dots and makes no new ones |
| Localization.SuffixByEnding | core/localization_checker.py:72-82 | the lower-cased suffix is an extension iff the name is longer than it and, lower-cased, ends with it |
| Localization.TableFileByEnding | core/localization_checker.py:68-82 | a table file is one whose name, lower-cased, ends with one of `.xlsx`, `.xls`, `.csv`, `.tsv` and is longer than it |
| Localization.TableFileKinds | core/localization_checker.py:159-164 | a table file goes to exactly one reader: the workbook reader or the CSV reader |
| Localization.AnyVietnameseSpec | core/localization_checker.py:167-171 | the text loop returns True iff some text contains Vietnamese |
| Localization.CheckTableSpec | core/localization_checker.py:145-171 | a file holds Vietnamese iff it is a table file and some character of some text it reads is a Vietnamese letter |
| Localization.ValidTablesSpec | core/localization_checker.py:180-232 | the scan's names are, in listing order and no more of them than entries, exactly the names of the table files holding Vietnamese |
| Localization.ContainsVietnamese | core/localization_checker.py:45-62 | (definition) `contains_vietnamese`; `ContainsVietnameseSpec` states it character by character |
| Localization.IsTableFile | core/localization_checker.py:72-82 | (definition) `is_table_file`; `TableFileByEnding` states it |
| Localization.CheckTableHasVietnamese | core/localization_checker.py:145-171 | (definition) `check_table_has_vietnamese`; `CheckTableSpec` states it |
| Localization.ValidTables | core/localization_checker.py:180-232 | (definition) `scan_directory`'s result; `ValidTablesSpec` states it |
| JsonFormat.OwnText | tools/json_format_detector/json_format_detector.py:47-49 | an object contributes at most its own string under the key |
| JsonFormat.OwnTextsAppend | tools/json_format_detector/json_format_detector.py:46-55 | the own texts of concatenated node lists concatenate |
| JsonFormat.TextsPreOrder | tools/json_format_detector/json_format_detector.py:46-55 | the recursive extraction equals the own texts of the tree's nodes in pre-order |
| JsonFormat.ItemsTextsPreOrder | tools/json_format_detector/json_format_detector.py:52-54 | the same for the items of a list, left to right |
| JsonFormat.MembersTextsPreOrder | tools/json_format_detector/json_format_detector.py:50-51 | the same for the values of an object, in member order |
| JsonFormat.OwnTextsMembers | tools/json_format_detector/json_format_detector.py:47-49 | a text is among the own texts iff some node holds it as its own text |
| JsonFormat.TextsExactly | tools/json_format_detector/json_format_detector.py:42-59 | a text is extracted iff some object of the tree holds exactly that string under the key |
| JsonFormat.ItemsTextsStep | tools/json_format_detector/json_format_detector.py:52-54 | the items from `k` give item `k`'s texts followed by the rest's |
| JsonFormat.MembersTextsStep | tools/json_format_detector/json_format_detector.py:50-51 | the members from `k` give member `k`'s texts followed by the rest's |
| JsonFormat.ExtractRecursive | tools/json_format_detector/json_format_detector.py:46-54 | the recursion appends exactly the tree's texts, in pre-order, to the list it is given |
| JsonFormat.ExtractTextFields | tools/json_format_detector/json_format_detector.py:42-59 | the texts of the top-level items, in order |
| JsonFormat.Column | tools/json_format_detector/json_format_detector.py:68-81 | one feature's list has one value per text, that text's feature value |
| JsonFormat.CountCharPositive | tools/json_format_detector/json_format_detector.py:69-70 | a character occurs a positive number of times iff it is in the text |
| JsonFormat.RemoveCharShorter | tools/json_format_detector/json_format_detector.py:81 | removing a character never lengthens a text |
| JsonFormat.FeatureRelations | tools/json_format_detector/json_format_detector.py:68-81 | a text has at least one line, has a newline iff it has more than one line, and counts no more characters than its length |
| JsonFormat.AnalyzeTextPatternsShape | tools/json_format_detector/json_format_detector.py:61-84 | no texts gives `{}`; otherwise the fourteen features in order, each with one value per text |
| JsonFormat.HistogramGet | tools/json_format_detector/json_format_detector.py:95 | the counter holds every value that occurs, with its number of occurrences, and no other |
| JsonFormat.HistogramDistinct | tools/json_format_detector/json_format_detector.py:95 | the counter lists each value once |
| JsonFormat.HistogramEntries | tools/json_format_detector/json_format_detector.py:95 | every counter entry is a value's positive occurrence count |
| JsonFormat.OccurrencesBound | tools/json_format_detector/json_format_detector.py:95 | two different values together occur at most as often as there are values |
| JsonFormat.OccurrencesAll | tools/json_format_detector/json_format_detector.py:95 | a constant list's value occurs once per element |
| JsonFormat.MostCommonAt | tools/json_format_detector/json_format_detector.py:96 | the most common entry has the largest count, and is the first with it |
| JsonFormat.MostCommonIsMax | tools/json_format_detector/json_format_detector.py:95-96 | no value occurs more often than the most common one |
| JsonFormat.CommonOfSpec | tools/json_format_detector/json_format_detector.py:95-111 | a feature is concrete iff some value reaches 70% (`10·freq >= 7·n`); its value then has that frequency, is a strict majority and beats every other value |
| JsonFormat.CommonOfConstant | tools/json_format_detector/json_format_detector.py:95-104 | a constant list is concrete with that value at full frequency |
| JsonFormat.FindCommonPattern | tools/json_format_detector/json_format_detector.py:86-113 | the loop computes the specified common pattern |
| JsonFormat.CommonPatternAt | tools/json_format_detector/json_format_detector.py:90-111 | with non-empty lists, the common pattern has one entry per feature, feature `k` with its own verdict |
| JsonFormat.IssuesOfSpec | tools/json_format_detector/json_format_detector.py:119-153 | a text has issues iff it differs on some checked feature whose common value is concrete |
| JsonFormat.DetectInconsistencies | tools/json_format_detector/json_format_detector.py:115-159 | the loop computes the specified reports |
| JsonFormat.ReportsOrdered | tools/json_format_detector/json_format_detector.py:119-157 | reported indices are in range and strictly increasing, and each report carries its text and that text's issues, which are non-empty |
| JsonFormat.ReportsIndex | tools/json_format_detector/json_format_detector.py:119-157 | text `i` is reported iff it has issues |
| JsonFormat.InconsistenciesComplete | tools/json_format_detector/json_format_detector.py:115-159 | text `i` is reported iff it differs from a concrete common value on one of the six checked features |
| JsonFormat.AllFeaturesDistinct | tools/json_format_detector/json_format_detector.py:67-82 | the fourteen features are distinct |
| JsonFormat.PatternsAt | tools/json_format_detector/json_format_detector.py:67-82 | each feature sits at its fixed position with its own list |
| JsonFormat.PatternsFull | tools/json_format_detector/json_format_detector.py:61-84 | with texts, every feature list is non-empty and the keys are the fourteen features |
| JsonFormat.IdenticalTextsCommon | tools/json_format_detector/json_format_detector.py:86-113 | when all texts are identical, every feature is concrete with the first text's value at full frequency |
| JsonFormat.IdenticalTextsConsistent | tools/json_format_detector/json_format_detector.py:86-159 | when all texts are identical, nothing is reported |
| JsonFormat.ReportsNone | tools/json_format_detector/json_format_detector.py:119-157 | when no text has issues, nothing is reported |
| JsonFormat.FeatureIndex | tools/json_format_detector/json_format_detector.py:67-82 | every feature has a position in the feature list |
| JsonFormat.CommonPatternKeys | tools/json_format_detector/json_format_detector.py:90-111 | with non-empty lists, the common pattern has the features of the patterns as keys |
| JsonFormat.DetectFormatSpec | tools/json_format_detector/json_format_detector.py:195-215 | cannot-load iff parsing failed, the top level is a scalar or an empty list; a missing field names the key; an analysis carries the non-empty extracted texts |
| Json.KeysOf | tools/json_format_detector/json_format_detector.py:48 | the keys of an object, one per member, in member order |
| Json.Lookup | tools/json_format_detector/json_format_detector.py:48 | a lookup finds a value exactly when the key is among the object's keys |
| Json.Nodes | tools/json_format_detector/json_format_detector.py:46-54 | the pre-order walk visits at least the node itself, and visits it first |
| Json.ParsedItem | tools/json_error_detector/json_error_detector.py:168-171 | every list item of a parsed value is itself a parsed value without repeated keys |
| Json.ParsedMember | tools/json_error_detector/json_error_detector.py:148-151 | every member value of a parsed object is itself a parsed value without repeated keys |
| JsonFormat.AnalyzeTextPatterns | tools/json_format_detector/json_format_detector.py:61-84 | (definition) `analyze_text_patterns`; `AnalyzeTextPatternsShape` states its shape |
| JsonFormat.CommonOf | tools/json_format_detector/json_format_detector.py:86-113 | (definition) `find_common_pattern` for one feature; `CommonOfSpec` states when it is concrete and what it picks |
| JsonFormat.DetectFormat | tools/json_format_detector/json_format_detector.py:195-215 | (definition) `detect_format`; `DetectFormatSpec` states its outcomes |
| JsonErrors.OfSeverity | tools/json_error_detector/json_error_detector.py:264-276 | the filter keeps only findings of the given severity, each one of the input's |
| JsonErrors.OfSeverityAppend | tools/json_error_detector/json_error_detector.py:264-276 | filtering distributes over concatenation |
| JsonErrors.OfSeveritySplit | tools/json_error_detector/json_error_detector.py:264-276 | every finding lands in exactly one of the error and warning lists |
| JsonErrors.OfSeverityAll | tools/json_error_detector/json_error_detector.py:264-276 | findings that all have the severity pass the filter unchanged |
| JsonErrors.LineErrors | tools/json_error_detector/json_error_detector.py:68-91 | every finding of a line is an error at that line with a known column of at least 1 |
| JsonErrors.QuoteErrors | tools/json_error_detector/json_error_detector.py:74-81 | at most one finding, present iff the stripped line holds a single quote, an error at a known column |
| JsonErrors.CommentErrors | tools/json_error_detector/json_error_detector.py:84-91 | at most one finding, present iff the stripped line holds `//` but does not start with it, an error at a known column |
| JsonErrors.LinesErrors | tools/json_error_detector/json_error_detector.py:68-91 | every quote or comment finding of the first `n` lines is an error at a line from 1 to `n` |
| JsonErrors.CommaErrors | tools/json_error_detector/json_error_detector.py:104-127 | one finding per bracket kind whose comma-before-bracket pattern matches the line, each an error at a column holding a comma |
| JsonErrors.TrailingCommas | tools/json_error_detector/json_error_detector.py:99-129 | every trailing-comma finding of the first `n` lines is an error at a line from 1 to `n` |
| JsonErrors.CommaBeforeHasComma | tools/json_error_detector/json_error_detector.py:106-120 | a line the pattern matches has a comma, so the `comma_pos != -1` guard never drops a match |
| JsonErrors.SyntaxErrorsLines | tools/json_error_detector/json_error_detector.py:62-97 | every syntax finding is an error at a 1-based line no later than the last line, with a known column |
| JsonErrors.ReportedAtAppend | tools/json_error_detector/json_error_detector.py:99-129 | a line is reported in a concatenation iff it is reported in one of the parts |
| JsonErrors.CommaErrorsExactly | tools/json_error_detector/json_error_detector.py:104-127 | one raw line's findings report a bracket kind iff the pattern for that bracket matches it |
| JsonErrors.TrailingCommasExactly | tools/json_error_detector/json_error_detector.py:99-129 | line `i` gets a trailing-comma finding for a bracket iff that raw line has a comma followed only by whitespace and then the bracket |
| JsonErrors.CommaBeforeNewlineNotReported | tools/json_error_detector/json_error_detector.py:104-127 | a comma whose closing bracket is on the next line is not reported |
| JsonErrors.DetectSyntaxErrors | tools/json_error_detector/json_error_detector.py:62-97 | the loop computes the specified line findings followed by the trailing-comma findings |
| JsonErrors.CheckLine | tools/json_error_detector/json_error_detector.py:69-91 | the loop body computes the specified findings of one line |
| JsonErrors.LinesErrorsStep | tools/json_error_detector/json_error_detector.py:68-91 | one more line appends its findings |
| JsonErrors.DetectTrailingCommas | tools/json_error_detector/json_error_detector.py:99-129 | the loop computes the specified trailing-comma findings |
| JsonErrors.CheckCommas | tools/json_error_detector/json_error_detector.py:105-127 | the loop body computes the specified findings of one raw line |
| JsonErrors.TrailingCommasStep | tools/json_error_detector/json_error_detector.py:104-127 | one more line appends its findings |
| JsonErrors.FirstOtherType | tools/json_error_detector/json_error_detector.py:155-166 | the first element from `i` on whose type differs from element 0, None iff all from `i` share its type |
| JsonErrors.ArrayMismatch | tools/json_error_detector/json_error_detector.py:153-166 | at most one warning; none iff all elements share the first's type; otherwise at the 1-based position of the first element of another type |
| JsonErrors.DuplicateCheck | tools/json_error_detector/json_error_detector.py:136-146 | a finding iff the object repeats a key |
| JsonErrors.ItemsErrorsStep | tools/json_error_detector/json_error_detector.py:168-171 | the items from `k` give item `k`'s findings, when it is a container, followed by the rest's |
| JsonErrors.MembersErrorsStep | tools/json_error_detector/json_error_detector.py:148-151 | the members from `k` give member `k`'s findings, when it is a container, followed by the rest's |
| JsonErrors.CheckArrayTypes | tools/json_error_detector/json_error_detector.py:155-166 | the loop, stopping at the first element of another type, computes the specified warning |
| JsonErrors.DetectStructureErrors | tools/json_error_detector/json_error_detector.py:131-173 | the recursion computes the specified structural findings of the tree |
| JsonErrors.ParsedStructure | tools/json_error_detector/json_error_detector.py:131-173 | on a tree `json.loads` returns, the only findings are array-type warnings |
| JsonErrors.ParsedItems | tools/json_error_detector/json_error_detector.py:168-171 | the same for the items of a parsed list |
| JsonErrors.ParsedMembers | tools/json_error_detector/json_error_detector.py:148-151 | the same for the values of a parsed object |
| JsonErrors.ParsedNoDuplicateKeys | tools/json_error_detector/json_error_detector.py:137-146 | the repeated-key error never fires on a parsed tree, so it adds no error |
| JsonErrors.WarningsPerArray | tools/json_error_detector/json_error_detector.py:131-173 | the warnings never outnumber the arrays of the tree |
| JsonErrors.WarningsItems | tools/json_error_detector/json_error_detector.py:168-171 | the same for the items of a list |
| JsonErrors.WarningsMembers | tools/json_error_detector/json_error_detector.py:148-151 | the same for the values of an object |
| JsonErrors.LoadJsonFile | tools/json_error_detector/json_error_detector.py:24-60 | every load finding is an error; data is returned iff the file reads, no heuristic fires and parsing succeeds, and then with no finding |
| JsonErrors.LoadJsonFileAgrees | tools/json_error_detector/json_error_detector.py:33-60 | wherever the code as written returns, it returns what `LoadJsonFile` does; it falls off the end iff the heuristics pass and parsing fails |
| JsonErrors.EmptyFileRaises | tools/json_error_detector/json_error_detector.py:258-279 | as written, an empty file passes every heuristic, parsing rejects it, and `detect_errors` raises on unpacking `None` |
| JsonErrors.CombineSplit | tools/json_error_detector/json_error_detector.py:264-276 | with load findings all errors, the error list holds only errors, the warning list only warnings, and together all findings |
| JsonErrors.DetectErrorsSplit | tools/json_error_detector/json_error_detector.py:258-279 | the error list holds only errors and the warning list only warnings; together they hold every encoding, load and structural finding |
| JsonErrors.CleanFileHasNoLoadErrors | tools/json_error_detector/json_error_detector.py:258-279 | a file without heuristic findings that parses gets no errors beyond the encoding errors |
| JsonErrors.Rule | tools/json_error_detector/json_error_detector.py:224-226 | a rule of `n` copies of a character |
| JsonErrors.ParseCountsAppend | tools/json_error_detector/json_error_detector.py:312-316 | reading counts from concatenated lines reads the first part, then the second from where it left off |
| JsonErrors.ContainsChar | tools/json_error_detector/json_error_detector.py:313-316 | a substring's characters are characters of the string |
| JsonErrors.ParseCountsSkip | tools/json_error_detector/json_error_detector.py:312-316 | lines without `量` hold neither label and leave the counts unchanged |
| JsonErrors.NatToStringNoMark | tools/json_error_detector/json_error_detector.py:227-228 | a number's digits hold no `量`, `错` or colon |
| JsonErrors.DetailsNoMark | tools/json_error_detector/json_error_detector.py:235-251 | no detail line holds `量` |
| JsonErrors.SplitAt | tools/json_error_detector/json_error_detector.py:314-316 | splitting `a:b` at the colon, with no colon in either part, gives `[a, b]` |
| JsonErrors.SplitNone | tools/json_error_detector/json_error_detector.py:314-316 | splitting a string without the separator gives the string alone |
| JsonErrors.StripSpaceDigits | tools/json_error_detector/json_error_detector.py:314-316 | stripping a space put before a number gives the number's digits back |
| JsonErrors.CountLineParses | tools/json_error_detector/json_error_detector.py:227-228 | the count line for `n` parses back to `n` |
| JsonErrors.CountLinesParse | tools/json_error_detector/json_error_detector.py:227-229 | the two count lines and the blank line after them read back as the two counts |
| JsonErrors.DetailLinesNoMark | tools/json_error_detector/json_error_detector.py:231-254 | no detail line holds `量`, so none is read as a count |
| JsonErrors.ReportCountsParse | tools/json_error_detector/json_error_detector.py:221-256 | the counts read back from a report are the lengths of its two lists |
| JsonErrors.ReadCounts | tools/json_error_detector/json_error_detector.py:307-316 | the loop over the report's lines computes the specified counts, the last line of each kind winning |
| JsonErrors.CheckFile | tools/json_error_detector/json_error_detector.py:306-320 | one file's check raises iff the as-written `detect_errors` raises on it; otherwise the counts read back are its numbers of errors and warnings |
| JsonErrors.DetectErrorsInFolder | tools/json_error_detector/json_error_detector.py:281-368 | no files found iff there are none; otherwise `found` is the number of files, `processed` counts the files whose check returns, `problems` counts the files whose check raises or reports an error or a warning, and the totals sum the returned files' counts |
| JsonErrors.FolderStep | tools/json_error_detector/json_error_detector.py:306-359 | a file whose check raises adds one problem file and nothing else; any other file is processed, adds its counts, and is a problem file iff it has an error or a warning |
| JsonErrors.ProcessedFiles | tools/json_error_detector/json_error_detector.py:324 | the processed count of the first `n` files is at most `n` |
| JsonErrors.ProblemFiles | tools/json_error_detector/json_error_detector.py:327-355 | the problem count of the first `n` files is at most `n`, and every file is processed or a problem file |
| JsonErrors.AllProcessed | tools/json_error_detector/json_error_detector.py:306-359 | every file is processed iff no file's check raises |
| JsonErrors.DetectorRaises | tools/json_error_detector/json_error_detector.py:24-60 | a file's check raises iff the file reads, no heuristic fires and parsing fails; when it returns, it returns the corrected detection |
| JsonErrors.EmptyFileInFolder | tools/json_error_detector/json_error_detector.py:353-365 | a folder holding one empty file reports it as a problem file but not as processed, with no errors or warnings in the totals |
| JsonErrors.FolderTotalsPrefix | tools/json_error_detector/json_error_detector.py:302-320 | the totals of a prefix of the files ignore the files after it |
| JsonErrors.FolderTotalsAppend | tools/json_error_detector/json_error_detector.py:302-320 | the totals over two file lists are the sums of their totals |
| JsonErrors.FolderCountsTwice | tools/json_error_detector/json_error_detector.py:285-287 | the folder totals are the top-level glob's totals plus the recursive glob's, so a top-level file, which both globs find, is counted twice |
| JsonErrors.SyntaxErrors | tools/json_error_detector/json_error_detector.py:62-129 | (definition) `_detect_syntax_errors`: the per-line quote and comment findings, then the trailing-comma findings; `SyntaxErrorsLines` states their shape |
| JsonErrors.StructureErrors | tools/json_error_detector/json_error_detector.py:131-173 | (definition) `detect_structure_errors`; `ParsedStructure` and `WarningsPerArray` state its findings on parsed trees |
| JsonErrors.LoadJsonFileAsWritten | tools/json_error_detector/json_error_detector.py:24-60 | (definition) `load_json_file` as written, None where it falls off the end; `LoadJsonFileAgrees` relates it to `LoadJsonFile` |
| JsonErrors.DetectErrorsAsWritten | tools/json_error_detector/json_error_detector.py:258-279 | (definition) `detect_errors` as written, raising where the load returned nothing; `EmptyFileRaises` and `DetectorRaises` state when it raises |
| JsonErrors.DetectErrors | tools/json_error_detector/json_error_detector.py:258-279 | (definition) `detect_errors` over the corrected load; `DetectErrorsSplit` states the two lists |

## Left out

- The tkinter front ends, command-line `main` functions, build and launch scripts, demos and fixture generators are not part of this model.
- core/excel_vietnamese_scanner.py is not part of this model. It is glue around the same classifier as core/vietnamese_excel_processor.py. version.py is not part of this model either.
- Locking: `RLock` and thread safety are not modelled. Every operation is one sequential step.
- Time: `time.time()` is the `now` argument, an integer clock. Floating-point time is not modelled.
- File cache storage: pickle, md5 file naming and `_get_file_hash` are abstract. The file name is an uninterpreted function of the key, so two keys can collide. The workbook hash is a function of the path passed to each load (`_get_file_hash` reads the modification time at every call), so an edited file is looked up under a new key.
- File cache writes: the outcome of a write is an argument. A write can succeed, fail to open the file, or fail part-way and leave an unreadable file. Atomicity is not claimed.
- `get_cache_manager`: the module-level singleton is left out.
- Workbook and CSV I/O: reading through pandas and openpyxl, encoding fallbacks and `ExcelWriter` output are left out. A sheet is a frame of optional cells. The translators, the scanner, the checker and the extractor read optional strings; the data processor reads `DataProcessor.Value`, an integer or a text.
- Written files are not modelled. Only the write outcome is a parameter, where the control flow depends on it. `groupby` is modelled by its keying only.
- File-system walks: `glob`, `rglob`, `os.walk` and `os.path.exists` results are given lists and predicates.
- Paths and globbing are modelled as on POSIX: `/` is the only separator (`BaseName` and `Join` split and join on it, and `Join` returns an absolute name as it is, discarding the directory), and a glob's suffix match keeps letter case. On Windows, where the tools are also packaged (gui/build_unified.py:163), `\\` also separates and `Path.rglob` ignores case.
- ProcessStats (`VietnameseExcel.ProcessStats`): its globs match case-sensitively, as on POSIX. On Windows `rglob('*.xlsx')` also counts `A.XLSX`, so there the upper-case gap does not arise and the `recursive` gap (`NonRecursiveCountsNested`) remains.
- OneEntryGlob (`VietnameseExcel.OneEntryGlob`): states the POSIX glob, which keeps letter case; the Windows glob ignores it.
- UpperCaseSuffixNotCounted (`VietnameseExcel.UpperCaseSuffixNotCounted`): holds on case-sensitive file systems only. On Windows the glob counts the upper-case name, and `NonRecursiveCountsNested` is the gap that remains there.
- UpperCaseSuffixWitness (`VietnameseExcel.UpperCaseSuffixWitness`): "matches none of the four globs" is the POSIX reading; a Windows glob matches `A.XLSX` against `*.xlsx`.
- `json.loads`: a parse oracle. `detect_encoding_errors`: its findings are a parameter.
- `float()` in `_is_text_content` and the `\w` class: these are the `Oracles` parameter.
- The 70% rule: stated exactly as `10·freq ≥ 7·n` rather than with floating-point division.
- Report rendering: percentages, banners, log and print output, `generate_report`'s detail text, `get_processing_report`, `get_process_report` and `_display_processing_results` are left out. The two count lines of the JSON error report are modelled because the folder run parses them back. The report's message lines are taken to hold neither count label.
- `export_results` (both translators), `create_output_excel`, `create_text_excel`, `read_excel_file`, `process_file`, `_create_single_group_file` and `_create_single_file` are left out. They are spreadsheet output and input around the modelled data.
- Exceptions: a failing read or write is an explicit outcome argument. The JSON folder run's per-file `except` is modelled. The other `except` branches are left out, as the lines below say.
- TranslateRow (`Translator.ProjectTranslator.TranslateRow`, `CachedTranslator.CachedProjectTranslator.TranslateRow`): the per-row `except Exception` record (status `error`, message `str(e)`) of core/cross_project_translator.py:260-269 and core/cross_project_translator_cached.py:386-390 is not modelled, because no modelled step of a row raises.
- TranslateAll (`Translator.ProjectTranslator.TranslateAll`, `CachedTranslator.CachedProjectTranslator.TranslateAll`): for the same reason, every row yields a `FileNotFound` or `Looked` record and never the exception record.
- Delete (`Cache.FileCache.Delete`): a failing `unlink` that makes `delete` return False for an existing file (core/cache_manager.py:290-296) is not modelled. Unlinking always succeeds.
- Get (`Cache.FileCache.Get`): a failing `unlink` of an expired record (core/cache_manager.py:240-242) is not modelled. The source then still returns None but keeps the file; the model always deletes it.
- CleanupExpired (`Cache.FileCache.CleanupExpired`): a failing `unlink` (core/cache_manager.py:323-327) is not modelled. The source keeps that file and does not count it; the model always deletes and counts it.
- Clear (`Cache.FileCache.Clear`): a failing `unlink` that stops `clear` with a partial count (core/cache_manager.py:298-310) is not modelled.
- GetStats (`Cache.CacheManager.GetStats`): the fallback to a file count of 0 when listing the cache directory fails (core/cache_manager.py:424-428) is not modelled. The listing always succeeds.
- Unicode: `Text.Upper`, `Text.Lower` and `Text.IsDigit` map and recognise ASCII only. Python's `str.upper()`, `str.lower()`, `isdigit()` and `\d` are Unicode. The members on the next lines are stated over the ASCII versions and promise nothing about the source's result on other characters.
- ParseCellReference (`CellReference.ParseCellReference`): upper-cases and reads digits as ASCII. The source's `re.match(r'^([A-Z]+)(\d+)$', cell_ref.upper())` (core/cross_project_translator.py:41) also parses `ſ1`, `ß2` and `A١٢`, for which the model gives None.
- ParsedShape (`CellReference.ParsedShape`): "everything else gives None" holds of the ASCII upper-casing only, as for `ParseCellReference`.
- WalkMatches (`Translator.WalkMatches`): lower-cases ASCII only. Table `Đồ` matches file `đồ_v2.xlsx` in the source (core/cross_project_translator.py:307) but not in the model.
- SearchProjectFile (`Translator.SearchProjectFile`): its walk uses `WalkMatches`, with the same ASCII-only lower-casing.
- FirstWalkMatch (`Translator.FirstWalkMatch`): stated over the ASCII-only `WalkMatches`.
- FirstWalkMatchNone (`Translator.FirstWalkMatchNone`): stated over the ASCII-only `WalkMatches`.
- FirstWalkMatchFound (`Translator.FirstWalkMatchFound`): stated over the ASCII-only `WalkMatches`.
- FirstWalkMatchSpec (`Translator.FirstWalkMatchSpec`): stated over the ASCII-only `WalkMatches`.
- SearchWalkFallback (`Translator.SearchWalkFallback`): its walk half is stated over the ASCII-only `WalkMatches`.
- SearchNone (`Translator.SearchNone`): characterises None by the ASCII-only `WalkMatches`.
- IsTextContent (`TextExtractor.IsTextContent`): the digit, date and time rejections recognise ASCII digits only. The source's `isdigit()` and `\d` patterns (tools/excel_text_extractor.py:207-216) skip `２０２４-０１-０１` and `１２:３０:００`, which the model extracts.
- ExtractTextsFromDataframe (`TextExtractor.ExtractTextsFromDataframe`): filters cells with the ASCII-digit `IsTextContent`.
- ExtractedSpec (`TextExtractor.ExtractedSpec`): "text-content cell" means the ASCII-digit `IsTextContent`.
- ProcessDirectory (`VietnameseExcel.ProcessDirectory`): returns the corrected `ScannedStats`, counting the files the scan looked at. The source's `total_files_scanned` is the as-written `ProcessStats`: four globs over the whole tree (case-sensitive, as on POSIX), whatever `recursive` says (core/vietnamese_excel_processor.py:316-320). With `recursive` false and a file `sub/b.xlsx`, the source counts `b.xlsx` and the model does not (`NonRecursiveCountsNested`).
- SheetNames (`DataProcessor.SheetNames`): cuts a long name at 27 characters before `_NNN` (`BoundedSheetName`). The source cuts at 28 (tools/excel_data_processor.py:148-149, `TruncatedSheetName`), so a 40-character key gives a 32-character sheet name there and a 31-character one here.
- SheetNamesSnoc (`DataProcessor.SheetNamesSnoc`): steps the 27-character naming of `SheetNames`.
- SheetNamesAt (`DataProcessor.SheetNamesAt`): states the 27-character cut of `SheetNames`.
- SheetNamesFit (`DataProcessor.SheetNamesFit`): holds of the 27-character cut. The source's names reach 32 characters.
- GroupSheetNames (`DataProcessor.GroupSheetNames`): its loop cuts at 27 characters where the source cuts at 28.
- CreateProcessedExcel (`DataProcessor.ExcelDataProcessor.CreateProcessedExcel`): names the sheets with the 27-character cut, not the source's 28 characters plus `_NNN`.
- ValueText (`DataProcessor.ValueText`): a grouping value is an integer or a text. `pd.read_excel` (tools/excel_data_processor.py:51-53) reads a numeric column with a blank cell as float64, whose `str` is `1.0`. Non-integer numbers and dates have no `Value`.
- Grouped (`DataProcessor.Grouped`): its keys are `ValueText` of the grouping cells, so float64 keys such as `1.0` are not modelled.
- GroupedKeys (`DataProcessor.GroupedKeys`): states the keys as `str` of integers or texts, without the float64 and date keys above.
- ProcessByColumnA (`DataProcessor.ExcelDataProcessor.ProcessByColumnA`): groups by `ValueText` keys, without the float64 and date keys above.
- GeneratedFilename (`DataProcessor.GeneratedFilename`): names a file after `ValueText` of the first grouping value. A float64 column gives `1.0.xlsx` in the source and `1.xlsx` here.

## Findings

| source | as written | input that shows it | evidently intended | confidence | as-written member | corrected member |
|---|---|---|---|---|---|---|
| tools/json_error_detector/json_error_detector.py:33-60 | when the heuristics pass but `json.loads` fails, `load_json_file` falls off the end and returns a bare `None`, so the unpacking in `detect_errors` raises | an empty file: no heuristic fires and parsing fails | the parse error is returned as a load error, as the other branches do | not executed | JsonErrors.EmptyFileRaises | JsonErrors.LoadJsonFileAgrees |
| tools/excel_data_processor.py:146-150 | a cleaned sheet name over 31 characters becomes its first 28 characters, `_` and a three-digit counter: 32 characters, over Excel's limit of 31 | any cleaned name of 32 or more characters | the cut leaves room for the suffix: 27 characters, `_` and three digits | not executed | DataProcessor.TruncatedSheetNameTooLong | DataProcessor.BoundedSheetNameFits |
| core/vietnamese_excel_processor.py:316-321 | `total_files_scanned` counts `*.xlsx`/`*.xls`/`*.csv`/`*.tsv` globs over the whole tree (case-sensitive on POSIX), while the scan accepts any suffix case and honours `recursive` | on any platform, `recursive` false over a top-level `a.xlsx` and a nested `sub/b.xlsx`: 2 files scanned where 1 is scanned (`NonRecursiveWitness`); on case-sensitive platforms (POSIX), a directory holding only `A.XLSX` with Vietnamese in one cell: 1 file with Vietnamese, 0 files scanned (`UpperCaseSuffixNotCounted`) | the statistics count the files the scan looked at | not executed | VietnameseExcel.NonRecursiveCountsNested | VietnameseExcel.ScannedStatsBound |

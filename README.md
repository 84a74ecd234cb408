# Jamie's Media Command: reconciliation engine

`PlexManagerPro` (`jamies_media_command.py`) keeps named collections of
desired titles, each a media type (movie or show) and a list of items
`{title, year, found}`. A run pastes `Title (Year)` lines, merges the new
titles into a collection, searches the Plex library for each of them, tags
the hits with the collection name, and hands the misses to Radarr (movies)
or Sonarr (shows). A second pass, the monitor, walks all stored collections
and marks titles that have arrived in the library since. A Trakt helper
turns a public list into paste lines.

This project models that engine in Dafny and proves properties of it:

- `Text` holds the pieces of Python's `str` the engine uses:
  - `isspace`, `strip`, `split` on one character, `join`, `rfind`, `replace` by nothing;
  - `int()` on base-10 text and `str()` of an int.
- `PasteList` is the paste-box parser of `run_process`.
- `Store` is the collection document: a dict, so the key order is kept. It
  covers `d[k] = v`, `del d[k]`, the `_schema` default and the merge.
- `Matcher` is `find_plex`, the three-rule library match.
- `Scan` holds the ingestion pass of `run_process` and the monitor pass of `run_monitor`.
- `Dispatch` is `process_radarr` / `process_sonarr`.
- `Tree` is how a ttk `Treeview` hands cell values back: `item(...)['values']`
  converts every value with `int()` when that succeeds.
- `Trakt` holds the `slug|id` list reference, the preview filter and the import into the paste box.
- `App` is the class `MediaCommand`. Its fields are the store, the last
  copy written to the data file, and the monitor-running flag. Its methods
  are `run_process`, `run_monitor`, the delete and start-up.

The library, the tagging call, the HTTP replies and the cancel flags come
from outside. They are passed in as oracles, indexed by the position at
which the code consults them (item index, collection index). Python's
`str.lower` and `SequenceMatcher(...).ratio() > 0.9` are also parameters,
the `Collation`. Every result therefore holds for every library, every
server reply and every timing of a cancel.

### Behaviour of the code worth noting

- Identity keys are not kept unique within a collection. The merge compares
  each batch item only with the keys that existed before the call. A new
  collection stores the batch verbatim. So two lines with the same title
  and year in one paste are both stored (`Store.BatchDuplicatesBothAppended`).
  Uniqueness is preserved only when the batch itself is unique (`Store.MergeKeepsUniqueKeys`).
- The monitor reports "Scan complete." and saves even when it stopped on
  cancel. Only an exception (an entry without `type`) skips the save.
- When tagging a match raises, the ingestion loop moves on to the next
  item. The item stays pending and is not a miss, so the downloader never
  hears of it (`Scan.TagFailureStaysPending`).
- Marking an item found is not a separate operation. The scan passes set
  `found` on the stored item records.

## Model

| member | source | states |
|---|---|---|
| Media.FirstSet | jamies_media_command.py:443 | the stop position of a loop that polls cancel before each element: no poll before it was set, and the poll at it was set unless it is the end |
| Text.StripEnds | jamies_media_command.py:393 | a stripped string is the infix of the input that is empty or begins and ends with a non-whitespace character, and only whitespace lies before and after it |
| Text.StripTrailingSpace | jamies_media_command.py:389 | a stripped text with one whitespace character appended (the text widget's final newline) strips back to itself |
| Text.StripKeepsAbsent | jamies_media_command.py:393 | stripping never introduces a character |
| Text.SplitJoin | jamies_media_command.py:720 | splitting a `join` at its separator gives the parts back when no part holds the separator |
| Text.LastIndexOfSpec | jamies_media_command.py:396 | the split point of `rsplit('(', 1)` holds `(` and no `(` follows it |
| Text.LastIndexOfAt | jamies_media_command.py:396 | conversely, a `(` with no `(` after it is the split point |
| Text.ParseIntRoundTrip | jamies_media_command.py:397 | `int(str(n)) == n` for every int of at most 4300 digits, the most `str` and `int()` convert. The `int()` model skips the whitespace `int()` skips, and accepts a sign and single underscores between digits |
| Text.SeparatorRejected | jamies_media_command.py:397 | a character U+001C-U+001F before the text makes `int()` raise, although `isspace` holds for it and `strip` would drop it |
| Text.TooManyDigitsRejected | jamies_media_command.py:397 | a digit run of more than 4300 digits makes `int()` raise |
| Text.NotInIntToString | jamies_media_command.py:509 | `str(n)` holds only digits and a leading minus sign |
| PasteList.ParseList | jamies_media_command.py:389-399 | the parse loop yields exactly the line-by-line specification `Parse` of the split lines |
| PasteList.ParseLineSpec | jamies_media_command.py:393-399 | a line failing the shape test (empty, no `(`, no final `)`) is ignored. Otherwise the title is the stripped text before the last `(`. The year is `int()` of the rest with every `)` removed, with `int()`'s own whitespace and digit limit. `found` is false. A year that does not parse makes the line malformed and it is dropped |
| PasteList.NoOpenIgnored | jamies_media_command.py:394 | a line without `(` is ignored |
| PasteList.ParseAppend | jamies_media_command.py:392-399 | the parse of concatenated line lists is the concatenation of the parses |
| PasteList.SkipRejectedLine | jamies_media_command.py:395-399 | a line that is not accepted can be deleted without changing the result, so a bad line never disturbs the lines after it |
| PasteList.ParsedItemsPending | jamies_media_command.py:397 | every parsed item starts pending, and there are at most as many items as lines |
| PasteList.EntryLineAccepted | jamies_media_command.py:393-397 | a line `<title> (<year>)` with the year written by `str` and the title empty or without surrounding whitespace parses to exactly that title and year |
| PasteList.EntryLineOneLine | jamies_media_command.py:716 | an entry line of a one-line title is one line |
| PasteList.MiddleLineDropped | jamies_media_command.py:389-399 | two entry lines around a line without `(` give exactly the two items, in order, pending |
| Matcher.FirstWhereSpec | jamies_media_command.py:485-494 | each `for ... return m` loop returns the first entry meeting its rule, and None only when no entry does |
| Matcher.FindPlexSpec | jamies_media_command.py:483-499 | rule 1 (same year and lowered title) beats rule 2 (same lowered title) beats rule 3 (same year and similar title), each taking the first entry that meets it. None exactly when no entry meets rule 2 or 3. Always None when the search raised |
| Matcher.YearMismatchNeedsSameTitle | jamies_media_command.py:485-494 | a chosen entry with another year, or none, has the same lowered title |
| Matcher.ExactMatchPreferred | jamies_media_command.py:485-486 | the first entry with the year and the title is chosen, even after an entry with the title under another year |
| Matcher.FuzzyNeedsSameYear | jamies_media_command.py:486-494 | when no entry has the desired title once lowered, an entry is chosen only if it has the desired year and a similar lowered title, and it is the first such entry. Nothing is chosen exactly when no entry of that year is similar |
| Store.Put | jamies_media_command.py:423 | `d[k] = v`: the entry is set, a new key goes to the end, an existing key keeps its place, and the store stays well formed |
| Store.Remove | jamies_media_command.py:655 | `del d[n]` fails exactly when the key is absent. Otherwise the key leaves the entries and the order and nothing else changes |
| Store.Load | jamies_media_command.py:333-341 | a missing or unreadable file gives `{_schema: {version: 1}}`. A document without `_schema` gets it added at the end and keeps everything else. A document with it is kept as is |
| Store.MergeItems | jamies_media_command.py:413-420 | the merge loop appends, in batch order, exactly the batch items whose `(lower(title), year)` key is not among the existing keys, to the collection and to the scan list, with the count |
| Store.NewItemsMembers | jamies_media_command.py:417 | an item is appended if and only if its key is new (both directions) |
| Store.NewItemsAppend | jamies_media_command.py:416-420 | the filter works item by item: filtering a concatenation is concatenating the filtered parts |
| Store.MergeAgainAddsNothing | jamies_media_command.py:413-420 | merging the same batch again into the result appends nothing |
| Store.MergeKeepsUniqueKeys | jamies_media_command.py:414-420 | unique keys are kept when the existing items and the batch each have unique keys |
| Store.BatchDuplicatesBothAppended | jamies_media_command.py:414-420 | two equal-key items in one batch are both appended, so the merge does not enforce uniqueness |
| Store.MergeBatch | jamies_media_command.py:407-425 | the merge is refused exactly when the name holds an entry of another type. Otherwise the named collection becomes its old items (none for a new name) followed by the items to scan. The items to scan are the new-key items, or the whole batch for a new name. A new name goes to the end and every other entry is unchanged |
| Store.MergeBatchIdempotent | jamies_media_command.py:407-425 | merging the same batch twice: the second merge is accepted, appends nothing and leaves the store as the first left it |
| Scan.IngestPass | jamies_media_command.py:442-463 | the ingestion loop marks found exactly the hits before the first cancel and collects, in order, the items before it whose search found nothing |
| Scan.IngestKeepsItems | jamies_media_command.py:442-463 | the pass changes no title and no year, and never clears `found` |
| Scan.IngestOutcome | jamies_media_command.py:442-463 | a pending item before the stop ends up found if and only if it was matched and tagged. An item at or after the stop is untouched |
| Scan.MissesSpec | jamies_media_command.py:461-463 | every miss is an item before the stop whose search found nothing, and every such item is a miss |
| Scan.TagFailureStaysPending | jamies_media_command.py:451-455 | an item whose tagging raised stays pending, and its position adds nothing to the misses |
| Scan.IngestCancelledAtOnce | jamies_media_command.py:443 | cancel set at the first poll: nothing changes and there are no misses |
| Scan.IngestUncancelled | jamies_media_command.py:442-463 | without cancel every item is reached. An item ends pending if and only if it was a miss or its tag failed |
| Scan.ToScan | jamies_media_command.py:593 | the monitor scans, in store order, exactly the keys not starting with `_`, restricted to the target when one is given |
| Scan.ToScanDistinct | jamies_media_command.py:593 | the scan list names each collection once |
| Scan.MonitorCollection | jamies_media_command.py:598-610 | the inner monitor loop marks found exactly the pending items before the first cancel that were matched and tagged |
| Scan.MonitorItemsUncancelled | jamies_media_command.py:598-610 | without cancel a collection's item is found afterwards if and only if it was found before or has arrived |
| Scan.MonitorLoop | jamies_media_command.py:593-610 | the nested monitor loops compute the pass `MonitorPass`: every collection in scope is walked in order, an entry without a type aborts the pass, and cancel stops it |
| Scan.MonitorPassEvolves | jamies_media_command.py:593-610 | the pass keeps the key order, the keys and every type. It only turns `found` from false to true. It leaves metadata entries and, with a target, every other collection unchanged |
| Scan.MonitorCancelledAtOnce | jamies_media_command.py:596 | cancel at the first poll leaves the store unchanged |
| Dispatch.RStripSlash | jamies_media_command.py:502 | `url.rstrip('/')` is the longest prefix not ending with `/`, and only slashes were dropped |
| Dispatch.ChooseIndex | jamies_media_command.py:517 | `next(...)` picks the first candidate with the miss's year, and the first candidate when none has it |
| Dispatch.DispatchMisses | jamies_media_command.py:501-528 | nothing is attempted without a URL. Otherwise there is one attempt per miss, in order, up to the first cancel, each with its lookup URL and decision |
| Dispatch.PostedIff | jamies_media_command.py:508-527 | a POST is made if and only if the lookup answered 200 with a non-empty list, the chosen candidate is untracked and the profile parses. The POST carries the chosen candidate's fields and counts as added exactly on 201 |
| Dispatch.SkipIffTracked | jamies_media_command.py:514-520 | after a 200 with a list: a miss if and only if the list is empty, a skip if and only if the chosen candidate has a truthy id |
| Dispatch.DispatchedShape | jamies_media_command.py:502-507 | no URL means no attempt. Otherwise attempts stop at the first cancel, never exceed the misses, and cover them all without cancel |
| Dispatch.MovieTermCarriesYear | jamies_media_command.py:509 | in the movie lookup term the last space follows the title, and `int()` of the rest gives back the year |
| Trakt.SplitRef | jamies_media_command.py:694 | a successful split yields two parts without `\|` that rejoin to the reference |
| Trakt.RefRoundTrip | jamies_media_command.py:694 | the reference written at line 681 splits back into the slug text and the id text when the slug holds no `\|` |
| Trakt.SplitRefOneBar | jamies_media_command.py:694 | a reference the two-name unpacking accepts holds exactly one `\|` |
| Trakt.RefWithBarInSlug | jamies_media_command.py:681-694 | any slug holding `\|` makes the unpacking of the reference fail, whatever the id |
| Trakt.PreviewLoop | jamies_media_command.py:705-711 | the preview loop returns the rows of the specification `Preview`, and nothing when an entry's nested object is null |
| Trakt.PreviewFailsAt | jamies_media_command.py:707 | one raising entry makes the whole preview fail |
| Trakt.PreviewSpec | jamies_media_command.py:705-711 | the preview fails if and only if an entry of the wanted type holds null. Otherwise its rows are exactly those of the entries the filter keeps: the wanted type, a present object, a truthy title and a truthy year. The rows carry those fields, one per kept entry, in entry order |
| Trakt.KeptIndicesComplete | jamies_media_command.py:705-711 | every entry the filter keeps is listed among the kept positions |
| Trakt.KeptIndicesIncrease | jamies_media_command.py:705-711 | the kept positions are listed in entry order |
| Tree.ShownUnchanged | jamies_media_command.py:716-719 | the texts the tree hands back unchanged, read straight from the definition of the read-back: exactly those `int()` refuses, or whose value `str` writes the same way |
| Tree.IntCellRoundTrip | jamies_media_command.py:716 | an int written into a cell reads back as that int and shows as its `str` |
| Tree.SignedTextRewritten | jamies_media_command.py:716 | the cell text "+n" reads back as the int n and shows as "n" |
| Tree.ShownPlain | jamies_media_command.py:716 | a non-empty, stripped, one-line text is still one after the trip through the tree |
| Trakt.FormatLineIsEntryLine | jamies_media_command.py:716 | an imported line is the entry line of the title as the tree shows it and of the row's year |
| Trakt.FormatLineParses | jamies_media_command.py:716 | one imported line parses back to its row, as a pending item titled as the tree shows the title |
| Trakt.ImportRoundTrip | jamies_media_command.py:716-720 | importing a preview and running the paste parser on the box gives exactly the rows, in order, as pending items. Each title is as the tree shows it, so a title `int()` accepts comes back as `str` of its value. This holds for non-empty stripped one-line titles and years `str` writes |
| Trakt.ImportFillsForm | jamies_media_command.py:716-720 | without preview rows the form is unchanged. Otherwise the pasted box gives the rows back as pending items, the media type becomes the Trakt type, and the name field keeps its text unless a list row is selected. A selected row's name comes back as written exactly when `int()` refuses it or `str` writes its value the same way, so a list named "007" fills in "7" |
| Trakt.SignedTitleImported | jamies_media_command.py:716 | a row titled "+n" is imported as an item titled "n" |
| App.MediaCommand.constructor | jamies_media_command.py:333-341 | start-up loads the store with the `_schema` default, and the flag is clear |
| App.MediaCommand.RunProcess | jamies_media_command.py:385-476 | `run_process` sets the store and the report to those of `Process`, and the data file to the new store whenever the run saved |
| App.MediaCommand.MergeInto | jamies_media_command.py:407-425 | the merge step leaves the store as `MergeBatch` says, or unchanged on a type mismatch |
| App.MediaCommand.ScanNewItems | jamies_media_command.py:427-472 | after the first save the new items are scanned and saved and the misses dispatched, as `AfterMerge` says |
| App.MediaCommand.RunMonitor | jamies_media_command.py:580-619 | a second pass while one runs does nothing. A failed connection changes nothing. Otherwise the store becomes that of the monitor pass and is saved unless the pass aborted. The flag is back to what it was on every way out |
| App.MediaCommand.DeleteCollection | jamies_media_command.py:650-656 | a present name is removed and the store saved; an absent one raises and nothing changes |
| App.ProcessMissingInput | jamies_media_command.py:401-403 | a run without a name or without a valid item changes and writes nothing, and this happens exactly in that case |
| App.ProcessMismatch | jamies_media_command.py:408-412 | the type-mismatch report happens exactly when the name holds another type, and then nothing changes and nothing is written |
| App.ProcessFrame | jamies_media_command.py:407-465 | a run keeps the store well formed and every other entry unchanged. It adds at most the named key, at the end. If nothing is saved the store is unchanged |
| App.ProcessCollection | jamies_media_command.py:413-463 | after a saving run the named collection has the run's type, keeps its old items as a prefix, and its new items carry the titles and years of the merge |
| App.AfterMergeFrame | jamies_media_command.py:427-465 | the scan only changes the named collection, keeping its prefix and the titles and years of its new items |
| App.ProcessDispatchGate | jamies_media_command.py:469-472 | the downloader is called only with misses and cancel clear, never with more attempts than misses, and is reached when there is a URL and no cancel. Every miss is pending |
| App.AfterMergeDispatchGate | jamies_media_command.py:469-472 | the same gate, stated for the scan and hand-off step alone |
| App.DeleteSelectedAsWritten | jamies_media_command.py:653-655 | the delete as the monitor tree drives it: it succeeds only for a name `int()` refuses, and then it is the delete of that name |
| App.NumericNameNotDeleted | jamies_media_command.py:653-655 | a stored collection named by an int's decimal text (such as "2024") is not deleted from the tree, although deleting that name succeeds |

## Findings

| source | as written | input that shows it | evidently intended | confidence | as-written member | corrected member |
|---|---|---|---|---|---|---|
| jamies_media_command.py:653-655 | the name is read back from the monitor tree with `item(...)['values'][0]`, which ttk converts with `int()`, so `del` gets an int for a collection whose name is a number | a collection named "2024": the lookup of the int 2024 raises `KeyError` and nothing is deleted | delete the collection named in the selected row | not executed | App.NumericNameNotDeleted | App.MediaCommand.DeleteCollection |

The same read-back feeds `on_monitor_select` at line 634, the copy at line 645 and `force_rescan_single` at line 569, which are not part of this model.

## Left out

- The Tk widgets, the log, `after` scheduling, the status label, progress text and `update_monitor_ui` are left out: they are display only.
- The auto-refresh timer and the buttons that start threads are left out. Threads and `data_lock` are left out: the model is sequential.
- App.MediaCommand.RunMonitor: the running flag is one field, read and set in one step. The test-then-set race between threads is not modelled.
- The Plex server, `lib.search`, `addCollection`, `requests`, `quote_plus` and the clock are outside the program. Their answers are oracle parameters (`IngestEnv`, `MonitorEnv`, `DispatchEnv`).
- `str.lower` and the `SequenceMatcher` ratio are Unicode and floating-point library routines. They are kept abstract as `Collation`.
- JSON reading and writing and the configuration file are left out. The data file is modelled as its parsed content (`Option<Store>`); `onDisk` is the last store written.
- Documents whose entries are not dicts of the expected shape are left out, as are values of other JSON types (a non-list `items`, a non-int `year`). A `Meta` entry stands for any value without `type`.
- Text.ParseInt: `int()` is modelled on ASCII digits only. Other Unicode decimal digits, which Python also accepts, are left out. The 4300-digit limit is the default since Python 3.11; an older interpreter has none.
- Text.IntToString: `str` refuses ints of more than 4300 digits. The model writes them, and the lemmas that read `str` back require `WithinStrLimit`. A Trakt id past the limit, where the f-string at line 681 would raise, is not modelled.
- The downloader POST URL (lines 523 and 551) and the headers are left out. An attempt records the lookup URL and the decision, including the payload.
- `get_plex_lib` and the connection in `run_monitor` are a single reachability flag.
- Scan.IngestPass: item records are values. The aliasing between the stored collection and the scan list is modelled by writing the scanned list back into the collection (`App.WithScanned`).
- Cancel flags are free per poll. The model does not assume that a set event stays set, so every result also holds when it does.
- The downloader API key header and the response text in log messages are left out; they do not affect the decisions.
- `search_trakt` is modelled only for the `slug|id` reference of its rows and for the list name, which the import reads back into the name field (`Trakt.ImportList`). The likes and count columns are display only, and a list without a name is not modelled.
- The create form's widgets (name field, list box, media type selector) are modelled as the value `Trakt.CreateForm` that the import returns. `App.Process` takes exactly these three as its inputs: the name field text, the media type and the box text. `show_create` only switches the view.
- `force_rescan_single`, `show_monitor_context`, `on_monitor_select`, `copy_monitor_list`, `on_trakt_list_select`, `save_config` and `load_config` are left out: they are UI glue around the modelled operations.
- The confirmation dialog of the delete is left out. `DeleteCollection` is the confirmed branch.

# Model groups of show_my_designs and show_me_pdbs, in Dafny

Both programs show the Rosetta models found in one or more directories.
Each directory is a *model group*. The group is `Design` in
`show_my_designs/gui.py` and `ModelGroup` in `show_me_pdbs.py`. The two classes
are the same code line for line, and one class, `Group.ModelGroup`, models both.
A group:

- checks its directory;
- reads the metric table cached in `models.pkl`;
- parses only the model files (names matching `*.pdb*`) that the cache does
  not name;
- refuses a table with fewer than two numeric metrics;
- writes the table back to the cache;
- reads the user's notes and chosen representative from two side files.

The record parser turns a model file into a record. It offers every line to
every rule of the metric table, and a rule whose prefix starts the line stores
the line's second token. The last matching line therefore wins, and `pose`
lines count as `total_score`.

Around the groups sit the pure helpers of the two windows:

- axis titles;
- default and cycled axis metrics;
- the ordered list of selected groups;
- the notes search filter;
- the ordered dictionary of groups loaded from the command line;
- the directory walk and menu titles of `.sho` scripts.

Files:

| file | module | contents |
|---|---|---|
| `wrappers.dfy` | `Wrappers` | `Option`, `Result`, map lookup |
| `pystr.dfy` | `PyStr` | Python byte-string operations: `startswith`, `in`, `lower`, `islower`, `title`, `split`, `strip`, `readlines` |
| `pyint.dfy` | `PyInt` | `int(text)` and `str(i)`, and the round trip between them |
| `pyfloat.dfy` | `PyFloat` | `float(text)`: sign, decimal literal with fraction and exponent, `inf` and `nan`; Python's `<` on floats |
| `ordering.dfy` | `Ordering` | Python's string order, `sorted()` of a set, append-if-absent, first index, subsequences |
| `records.dfy` | `Records` | records, the metric table, both forms of `parse_record_from_pdb` |
| `disk.dfy` | `Disk` | the file system as a map from directory to listing and entries, `glob('*.pdb*')` |
| `batch.dfy` | `Batch` | `parse_records_from_pdbs` |
| `group.dfy` | `Group` | the model group class, its load and save protocol, `get_metric`, `representative`, `get_coord` |
| `group_props.dfy` | `GroupProperties` | properties relating several group operations: reload, reopen, round trips |
| `loading.dfy` | `Loading` | `load_designs` / `load_models` |
| `view.dfy` | `View` | window state: titles, axes, cycling, selection, search filter |
| `scripts.dfy` | `Scripts` | the `.sho` directory walk and menu titles |

Where the code and its documentation differ, the model follows the code:

- The last matching line decides a metric, not the first.
- A malformed metric line (no second token, or not a number) aborts the whole
  load. It does not drop only that metric.
- `show_me_pdbs.py` walks `metric_parsers` in dictionary order. No line is
  claimed by two of its rules (`Records.MetricParsersDisjoint`), so the table
  is modelled in a fixed order.

## Model

| member | source | states |
|---|---|---|
| Records.ParseRecordFromPdb | show_my_designs/gui.py:1034-1046 | The three `if` tests applied to every line, updating the record in place, give exactly the result of the metric-table parse `ApplyLines` over `MetricParsers`, including its error. |
| Records.ParseRecordFromTable | show_me_pdbs.py:987-994 | The nested loop over lines and table entries gives exactly the table parse `ApplyLines` of the same table, for any table. |
| Records.MetricParsersMatch | show_me_pdbs.py:911-923 | The total-score rule claims lines starting `total_score` or `pose`; the loop-RMSD rule claims lines starting `loop_backbone_rmsd`; the buried-unsats rule claims lines starting `delta_buried_unsats`. |
| Records.MetricParsersFacts | show_me_pdbs.py:911-923 | The table's metric names are distinct; `total_score`, `loop_rmsd` and `delta_buried_unsats` are its entries 0, 1 and 2; `path` is not a metric. |
| Records.MetricParsersDisjoint | show_me_pdbs.py:911-923 | No line is claimed by two different rules, so the dictionary's iteration order cannot change a record. |
| Records.ThreeRules | show_my_designs/gui.py:1038-1046 | One line under the table: an error when a claimed line has no readable value; otherwise each claimed metric set to the line's value and nothing else changed. |
| Records.LastMatchWins | show_my_designs/gui.py:1038-1046 | After a successful parse, a metric's cell holds the value of the LAST line its rule matches. A metric no line matches, and any non-metric key, keep their starting value. |
| Records.PathIsBaseName | show_my_designs/gui.py:1027-1028 | A parsed record's `path` is the file's base name. |
| Records.PoseSetsTotalScore | show_my_designs/gui.py:1039-1040 | A `pose` line sets `total_score` to its second token when no later line starts with `total_score` or `pose`. |
| Records.UnmatchedMetricAbsent | show_me_pdbs.py:991-994 | A metric whose condition matches no line is absent from the record. |
| Records.ParseFailsIff | show_me_pdbs.py:991-994 | The parse fails exactly when some line is claimed by a rule and has no second token, or a second token that `float()` rejects. |
| Records.ApplyRulesOutcome | show_me_pdbs.py:992-994 | One line fails exactly when a rule claims it and `float(line.split()[1])` raises (no second token, or one `float()` rejects); the failure is that line's own extraction error. |
| Records.ApplyRulesKey | show_me_pdbs.py:992-994 | One line changes a metric's cell only when that metric's rule matches the line, and then sets it to the line's value. |
| Records.ErrorPersists | show_my_designs/gui.py:1038-1046 | Once a prefix of the lines fails, the whole parse fails with that same error. |
| Records.LastMatch | show_my_designs/gui.py:1038-1046 | Returns a line the rule matches with no matching line after it, or none when no line matches. |
| Records.RuleIndex | show_me_pdbs.py:911-923 | Returns the position of the rule for a metric name, or none when no rule has that name. |
| PyStr.Split | show_me_pdbs.py:914 | Every token of `line.split()` is a non-empty run without whitespace. |
| PyStr.SplitSkipsSpace | show_me_pdbs.py:914 | Leading whitespace yields no token. |
| PyStr.SplitEmptyIff | show_me_pdbs.py:914 | There are no tokens exactly when the text is all whitespace. |
| PyStr.SplitTakesWord | show_me_pdbs.py:914 | A run of non-whitespace ended by whitespace or the end of text is the next token, whole, followed by the tokens of the rest; with the two lemmas above, the tokens are the maximal runs in order. |
| PyStr.SplitLines | show_my_designs/gui.py:1018 | `readlines()`: the lines joined give the text back; each is non-empty with a newline at most at its end, and every line but the last ends with a newline. |
| PyFloat.IntSyntaxIsFloatSyntax | show_my_designs/gui.py:1040 | Every text `int()` reads, `float()` reads as the same number. |
| PyFloat.DecimalLiteral | show_my_designs/gui.py:1040 | A literal `a.b` followed by `e` and an exponent reads as the decimal value of `a.b` times ten to that exponent. |
| PyFloat.SignedDecimal | show_my_designs/gui.py:1043 | A `-` before a decimal literal negates its value; a `+` leaves it. |
| PyFloat.UnsignedDecimalToken | show_me_pdbs.py:914 | A token that is a decimal literal reads as that literal's value. |
| PyFloat.LessTotal | show_my_designs/gui.py:84 | Without NaN, `<` on floats is a strict total order: exactly one of `x < y`, `x == y`, `y < x` holds. |
| PyInt.ParseIntOfIntToString | show_my_designs/gui.py:192-194 | `int(str(i)) == i` for every integer: a written representative reads back. |
| Batch.ParseRecordsFromPdbs | show_my_designs/gui.py:999-1032 | The loop gives exactly `ParseAll`: unreadable files skipped, each other file's record appended, a malformed line aborting the batch. |
| Batch.ParseAllRecords | show_my_designs/gui.py:1012-1029 | A successful batch has one record per readable file, in input order. Each record is the parse of that file and is named after it. |
| Batch.ParseAllFailsIff | show_my_designs/gui.py:1026-1029 | The batch fails exactly when some readable file fails to parse. |
| Batch.ParseAllErrorPersists | show_my_designs/gui.py:1001-1032 | Once the batch fails on a prefix of the files, it fails with that same error. |
| Batch.Readable | show_my_designs/gui.py:1012-1022 | The files that open: exactly the batch's names that can be read, as a subsequence of the names (input order kept). |
| Batch.ParseRecordsFromPdbsAsWritten | show_me_pdbs.py:952-985 | The show_me_pdbs batch as written succeeds only when no file can be opened, and then returns no records. Otherwise it fails with NameError on `self`. |
| Batch.WorkingBatchParsesReadableFile | show_my_designs/gui.py:1026-1028 | On one readable, well-formed file, where the as-written batch raises NameError, the working batch returns that file's record. |
| Disk.Glob | show_my_designs/gui.py:141-148 | The model files: exactly the listing's names that match `*.pdb*` (contain `.pdb`, do not start with a dot), as a subsequence of the listing, each once. |
| Disk.Put | show_my_designs/gui.py:197-198 | Writing an entry updates that entry only. A new entry goes to the end of the listing; an existing entry keeps its place. |
| Disk.Delete | show_my_designs/gui.py:200-201 | Removing an entry drops its file and its name; the listing that remains is a subsequence of the old one, so the other entries keep their order. |
| Disk.Without | show_my_designs/gui.py:200-201 | The listing without a name: exactly the other names, in their old order, without repeats if there were none. |
| Disk.FileSystem.Write | show_my_designs/gui.py:197-198 | The file system after a write differs only in that directory, which is now `Put` of the entry. |
| Disk.FileSystem.Remove | show_my_designs/gui.py:200-201 | The file system after a removal differs only in that directory, which is now `Delete` of the entry. |
| Group.ModelGroup.LoadValidated | show_my_designs/gui.py:144-181 | The part of `_load_models` after the directory checks also returns exactly `LoadModelsSpec`, and a returned table has two or more numeric metrics. On success the cache entry is written with the table and nothing else changes; on failure nothing changes. |
| Group.ModelGroup.LoadModels | show_my_designs/gui.py:122-181 | `_load_models` returns exactly `LoadModelsSpec` of the file system before the call: validation, cache split, parse and metric check. A returned table has at least two numeric metrics. The file system afterwards is `AfterLoad`, with the table written to the cache. No directory appears or disappears. |
| Group.ModelGroup.Open | show_my_designs/gui.py:49-60 | The constructor fails with `DoesNotExist` when the directory is missing. Any failure is `OpenSpec`'s error. A success is a valid new group whose table, notes and representative are `OpenSpec`'s snapshot, read after the cache write. |
| Group.ModelGroup.SetNotes | show_my_designs/gui.py:77-79 | The `notes` setter stores `s`, keeps the table and representative, and changes on disk only the group directory, which becomes `SaveNotesNode`. |
| Group.ModelGroup.SetRepresentative | show_my_designs/gui.py:89-92 | The `representative` setter stores the index (or None), keeps the rest, and changes on disk only the group directory, which becomes `SaveRepNode`. |
| Group.ModelGroup.GetMetric | show_my_designs/gui.py:98-107 | Succeeds exactly for a numeric metric; otherwise the error names that metric and carries exactly the defined metrics the message lists. On success it returns one cell per row, in table order: a cell is present exactly when the row has the metric and holds that row's number, and at least one cell is present. |
| Group.ModelGroup.Representative | show_my_designs/gui.py:82-87 | Returns the stored index when one is set. Otherwise it fails with `get_metric`'s error when `total_score` is not numeric; when it is, it returns the first row holding the least total score, skipping empty and NaN cells, and reports no minimum exactly when every cell is empty or NaN. |
| Group.ModelGroup.GetCoord | show_my_designs/gui.py:109-111 | The row is the given index, else the representative, and a failing representative is the call's error. With a row, an x metric that is not numeric is `get_metric`'s error; then a row that does not exist fails; then the call succeeds exactly when the y metric is numeric, failing with its `get_metric` error otherwise. On success the result is that row's two cells. |
| Group.ArgMin | show_my_designs/gui.py:84 | `np.argmin` returns a position holding a number (not NaN) that no other number is below, with every earlier number above it. |
| Group.DefinedMetrics | show_my_designs/gui.py:113-119 | `defined_metrics` holds exactly the columns that exist and have a number in every cell present. |
| Group.CachedPaths | show_my_designs/gui.py:152-154 | The cached base names: exactly the `path` values of the cached rows. |
| Group.Uncached | show_my_designs/gui.py:155-157 | Exactly the glob results whose base name is not cached, as a subsequence of the glob results; every result when nothing is cached. |
| Group.MessageNamesDirectory | show_my_designs/gui.py:135-142 | Every error message the loader writes names the directory in quotes. |
| Group.OnlyOneMetricMessage | show_my_designs/gui.py:173-175 | The one-metric message names that metric and the directory, each in quotes. |
| GroupProperties.ValidationOrder | show_my_designs/gui.py:135-142 | The load fails with DoesNotExist exactly when the directory is missing. It fails with NotADirectory exactly when the path exists but is not a directory, with IsEmpty exactly for an empty directory, and with NoPdbFiles exactly for a non-empty directory with no `*.pdb*` name. |
| GroupProperties.MetricCheckOutcome | show_my_designs/gui.py:171-175 | The table passes unchanged exactly when it has two or more numeric metrics. It fails with NoMetrics exactly when there are none. It fails with OnlyOneMetric when there is exactly one, and that error names the one metric and the directory. |
| GroupProperties.LoadedTableHasMetrics | show_my_designs/gui.py:171-181 | A loaded table has two or more numeric metrics and at least one row, so the cache write always happens. |
| GroupProperties.LoadedTable | show_my_designs/gui.py:147-166 | The loaded table is the cached rows, unchanged and first. Then comes one parsed record per readable, uncached model file, in glob order, each named after its file. With the cache off or absent nothing is cached and every model file is a candidate. |
| GroupProperties.LoadSucceeded | show_me_pdbs.py:188-234 | A successful load passed every validation step, read the cache, parsed the uncached files, and returned cached rows plus parsed rows, which passed the metric check. |
| GroupProperties.ReloadIsIdempotent | show_my_designs/gui.py:122-181 | After a successful load, loading again with the cache on returns the same table and leaves the file system as the first load left it. |
| GroupProperties.CacheRewriteParsesNothing | show_my_designs/gui.py:150-166 | After the cache is written, a reload with the cache on assembles the same table. The only model files the new cache does not name are ones that cannot be opened, so nothing is parsed again. |
| GroupProperties.LoadDependsOnlyOnModels | show_me_pdbs.py:188-234 | A successful load gives the same result on any directory that agrees on the listing's model files, on the cache, and on the model files' contents. |
| GroupProperties.SaveNotesKeepsModels | show_me_pdbs.py:249-254 | Saving notes changes nothing the loader reads. |
| GroupProperties.SaveRepKeepsModels | show_me_pdbs.py:256-262 | Saving or clearing the representative changes nothing the loader reads. |
| GroupProperties.SideFilesAreNotModels | show_my_designs/gui.py:51-53 | `models.pkl`, `notes.txt` and `representative.txt` never match `*.pdb*`. |
| GroupProperties.NotesRoundTrip | show_my_designs/gui.py:196-201 | After `notes = s` the notes file exists exactly when `s` is non-empty, reads back as `s` (or `""` when absent), and no other entry changes. |
| GroupProperties.RepresentativeRoundTrip | show_my_designs/gui.py:203-209 | After `representative = i` the file exists and reads back as `i`. After `representative = None` it is gone and reads back as unset. No other entry changes. |
| GroupProperties.CacheWriteKeepsAnnotations | show_my_designs/gui.py:180-194 | Writing the cache leaves the notes and representative as they read. |
| GroupProperties.SaveAnnotationsKeepsLoad | show_me_pdbs.py:249-262 | Setting notes and representative leaves a later load's table unchanged. |
| GroupProperties.SavedAnnotationsReadBack | show_my_designs/gui.py:183-209 | The side files written by the setters read back as what was set, also after the cache is rewritten. |
| GroupProperties.ReopenReadsAnnotations | show_my_designs/gui.py:49-60 | Reopening a group after setting its notes and representative gives the same table, those notes and that representative. |
| Loading.LoadGroups | show_me_pdbs.py:944-950 | Fails exactly when opening the directories in turn (`LoadAllSpec`) fails, with that error. The file system afterwards is the one the run leaves. On success the keys are the directories in first-occurrence order, each a valid group of its directory, holding the snapshot opened at the directory's last occurrence; every directory existed. |
| Loading.OpenAll | show_my_designs/gui.py:991-997 | The constructor loop: fails exactly when `LoadAllSpec` does, with its error, and leaves its file system; on success one valid new group per directory, in order, each holding the run's snapshot for it. |
| Loading.OpenNext | show_my_designs/gui.py:994-995 | One constructor call: a failure ends the run with its error; a success is a valid new group of that directory, and the run goes on from the file system its load left. |
| Loading.LoadAllConcat | show_my_designs/gui.py:991-997 | Opening `first + more` is opening `first`, then `more` on the file system `first` left; nothing of `more` is opened once `first` failed. |
| Loading.FailsAtItsTurn | show_my_designs/gui.py:991-997 | A directory whose open fails after every earlier one opened ends the run with its own error. |
| Loading.FailureHasItsTurn | show_my_designs/gui.py:991-997 | Conversely, a failed run failed at some directory whose earlier directories all opened, with that directory's error. |
| Loading.Collect | show_me_pdbs.py:945-948 | Assigning each opened group to its directory in an ordered dictionary gives a dictionary whose keys are exactly the directories. Each value is the group opened for one occurrence of its key. |
| Loading.CollectKeys | show_me_pdbs.py:945-948 | The dictionary's key order is the directories in first-occurrence order: a repeated assignment keeps the key's first position. |
| Loading.CollectLastWins | show_me_pdbs.py:945-948 | A directory named twice maps to the group opened at its last occurrence: a later assignment replaces an earlier value. |
| Loading.Dedup | show_my_designs/gui.py:991-997 | The keys of the ordered dictionary: each directory once, and every directory named. |
| Loading.DedupOfDistinct | show_my_designs/gui.py:991-997 | Directories named once each keep exactly the command-line order. |
| Ordering.SortSet | show_me_pdbs.py:283-284 | `sorted(set)`: ordered, without repeats, and holding exactly the set's members. |
| Ordering.SortedUnique | show_me_pdbs.py:283-284 | Two sorted lists without repeats and with the same members are equal, so `sorted()` of a set is determined. |
| Ordering.Sort | show_my_designs/gui.py:870 | `sorted(list)`: ordered, and a permutation of its input. |
| Ordering.AppendMissing | show_me_pdbs.py:530-532 | Appending absent items keeps the old list as a prefix. The result holds exactly the old items and the new ones. It has no repeats when the old list has none, and nothing appended was already there. |
| Ordering.AppendMissingOrder | show_me_pdbs.py:530-532 | Of two appended keys, the earlier one first occurs earlier among the items: appended keys follow their first occurrences. |
| Ordering.FirstIndex | show_me_pdbs.py:530-532 | The position of an item's first occurrence. |
| Ordering.AppendMissingPrefix | show_me_pdbs.py:946-947 | Assigning further keys never moves the keys already present. |
| View.MetricTitle | show_my_designs/gui.py:1063-1067 | A known metric gets its fixed title. Any other metric gets a title of the same length: underscores and hyphens become spaces, every other character keeps its letter up to case, a letter starting a run of letters is upper-case and a letter after a letter lower-case, and no `_` or `-` remains. |
| View.DesignDefaultAxes | show_my_designs/gui.py:229-239 | x is `loop_rmsd` if defined, else the second defined metric. y is `total_score` if defined, else also the second defined metric. It fails (IndexError) exactly when a fallback is needed and fewer than two metrics exist. |
| View.DesignAxesCoincide | show_my_designs/gui.py:232-239 | show_my_designs puts the same metric on both axes exactly when both preferred metrics are missing, or when the present one sits second and stands in for the missing one. |
| View.DefaultAxes | show_me_pdbs.py:283-292 | x is `loop_rmsd` if defined, else the second metric. y is `total_score` if defined, else the first. It fails exactly when the position needed is missing. |
| View.DefaultAxesCoincide | show_me_pdbs.py:285-292 | show_me_pdbs puts one metric on both axes exactly when one preferred metric is missing and the other sits where the fallback looks. |
| View.SharedMetrics | show_me_pdbs.py:283-284 | The intersection of every group's defined metrics; it fails for no groups. |
| View.ViewState.Start | show_me_pdbs.py:283-292 | The window's metrics are the shared metrics, sorted, with the default axes. It fails only for no groups or when the default axes fail on that sorted list. |
| View.NextIndex | show_me_pdbs.py:701-715 | The cycled position is one step on (mod n), or one more step when that position holds the other axis. With at least two distinct metrics it never lands on the other axis. |
| View.ViewState.CycleX | show_me_pdbs.py:701-707 | `cycle_x_metric` moves x to the `NextIndex` metric, keeps it defined, makes it differ from y whenever two metrics exist, and changes nothing else. |
| View.ViewState.CycleY | show_me_pdbs.py:709-715 | `cycle_y_metric` is the mirror image for y. |
| View.CycleMoves | show_my_designs/gui.py:658-670 | With three or more metrics, cycling always changes the axis. |
| View.CycleStaysWithTwo | show_my_designs/gui.py:672-684 | With exactly two metrics on different axes, cycling leaves the axis where it is. |
| View.Step | show_me_pdbs.py:703 | `(i + 1) % n` is the next position, wrapping to 0, and differs from `i` when n ≥ 2. |
| View.IndexOf | show_me_pdbs.py:702 | `list.index`: the first position holding the item. |
| View.SelectKeys | show_me_pdbs.py:522-532 | The two append loops compute exactly `MergeSelection` of the old keys and the selected rows. |
| View.ViewState.OnSelect | show_me_pdbs.py:512-532 | The new keys are `MergeSelection` of the old keys and the selected rows, and hold exactly the selected keys. The metrics and the axes do not change. |
| View.Kept | show_me_pdbs.py:526-528 | The old keys still selected: exactly those, with no repeats when the old list has none. |
| View.KeptOrder | show_my_designs/gui.py:470-472 | Of two kept keys, the earlier one came earlier among the old keys. |
| View.MergeSelectionFacts | show_my_designs/gui.py:457-478 | The merged list has no repeats and holds exactly the selected keys. It starts with the kept old keys, and every key after them is newly selected. |
| View.MergeSelectionOrder | show_my_designs/gui.py:474-476 | Of two newly selected keys, the earlier one first occurs earlier in the selection. |
| View.ReselectKeepsOrder | show_my_designs/gui.py:466-478 | Re-selecting the same set of keys leaves the list and its order unchanged. |
| View.WindowTitle | show_my_designs/gui.py:480-488 | The title starts "Show My Designs" and is exactly that with no selection. Otherwise it goes on with " (", the first key, and then ")" for one key or ", ...)" for more. |
| View.UpdateFilter | show_my_designs/gui.py:858-876 | The shown keys are sorted, without repeats, and are exactly the groups whose notes match the needle. |
| View.EmptyNeedleMatches | show_me_pdbs.py:835-846 | An empty search matches every group. |
| View.LowerNeedleIgnoresCase | show_me_pdbs.py:835-844 | A lower-case needle matches notes holding its text in any case. |
| View.MixedNeedleIsExact | show_me_pdbs.py:835-844 | A needle with an upper-case letter matches only its exact text. |
| View.LowerNotesMatchExactly | show_me_pdbs.py:840-844 | On notes without upper-case letters, matching is plain containment. |
| View.OnSetRepresentativeAsWritten | show_my_designs/gui.py:597-599 | The menu handler as written fails with AttributeError `set_representative` on every call. |
| PyStr.ContainsLower | show_me_pdbs.py:840-844 | Text found in a string is found, lower-cased, in its lower-cased copy. |
| PyStr.Title | show_my_designs/gui.py:1064 | `title()` keeps the length and each letter up to case. It upper-cases a letter that starts a run of letters and lower-cases the others. |
| Scripts.ShoSearchDirs | show_my_designs/gui.py:541-546 | The walk stops where `dirname` stops moving. On a normalized path it visits exactly `Ancestors(directory)`: the directory, then each parent, stopping before `/`. On any path each visited directory is a leading part of it and not a root. |
| Scripts.Ancestors | show_my_designs/gui.py:544-546 | The directories searched start with the group's directory, are all prefixes of it with strictly shrinking length, and never include the root. |
| Scripts.AncestorsAreSlashPrefixes | show_my_designs/gui.py:544-546 | A path is searched exactly when it is the directory itself or a leading part of it that is followed by a slash, the root excluded. |
| Scripts.DirNameOfNormalized | show_my_designs/gui.py:546 | `os.path.dirname` of a normalized path other than `/` drops the last component; the result is normalized and shorter. |
| Scripts.DoubleSlashIsItsOwnParent | show_my_designs/gui.py:546 | `dirname('//')` is `'//'`, which is not `/`. |
| Scripts.DoubleSlashWalkNeverEnds | show_my_designs/gui.py:544-546 | From `//models` the walk as written is at `//` after every turn, and never at `/`, so its loop never ends. |
| Scripts.DirNamePrefix | show_my_designs/gui.py:546 | `dirname` returns a leading part of its path. |
| Scripts.ShoTitle | show_my_designs/gui.py:554-556 | A script's title fails (IndexError) exactly when its extension-less base name is empty; otherwise it has that name's length. |
| Scripts.ShoTitleOfFoundScript | show_my_designs/gui.py:541-556 | A script the search finds, `<dir>/<stem>.sho` with a stem not starting with a dot, always gets the title: its stem with the first character upper-cased and underscores as spaces. |
| Scripts.LastIndex | show_my_designs/gui.py:554 | `rfind`: the last position holding the character, or -1. |
| Scripts.BaseName | show_my_designs/gui.py:554 | `basename`: the part after the last slash; it holds no slash and ends the path. |

## Left out

- GTK windows, widgets, menus, hotkeys, plotting, axis limits and guides. These are presentation.
- In show_my_designs, `cycle_*_metric` selects an entry of an axis menu, and the menu's `changed` callback stores the entry's metric (column 0 of its list store). The model stores the metric directly, with no menu in between.
- The pickle format and gzip decompression. The cache is a list of records. A gzipped model stands for its decompressed text, and an archive with a bad header or checksum, which raises IOError, counts as a file that cannot be opened. A corrupt deflate stream raises `zlib.error` from `readlines()`, which the `except IOError` does not catch, so it aborts the whole load; that case is not modelled.
- Binary floating point. `float()` is modelled on its syntax, and a finite value is the exact rational the literal denotes. Rounding to the nearest double, overflow of large exponents to infinity, underflow and the sign of zero are not modelled. Hexadecimal and underscore forms are not accepted by Python 2 either.
- pandas behaviour beyond the table's shape. A missing cell is absent from its row. A column is numeric exactly when some row has it and every present cell is a number.
- `os.path.abspath` and the current directory. Paths are given already absolute; the `.sho` walk also takes the leading `//` that `abspath` keeps.
- Glob metacharacters in a group's directory. `os.path.join(directory, '*.pdb*')` is itself a glob pattern, so a directory named `run[1]` would be searched as `run1`. The model lists the named directory.
- Writes and removals that the operating system refuses. Where a sub-directory stands under the name `models.pkl`, `notes.txt` or `representative.txt`, writing it raises IOError and `os.remove` of it raises OSError in the source. The model's `Put` replaces the entry and its `Delete` removes it.
- The actual glob of `.sho` files, and running scripts, pymol, chimera or xsel. These are process I/O.
- Progress output to stdout and the "Failed to read" message.
- `__str__`, `__len__`, `paths` and `representative_path`. These are one-line accessors of the table.
- Sub-directories, files without read permission and a pickle read as text are modelled as entries that cannot be opened for reading.
- Group.ModelGroup.Representative: when every total score is NaN, pandas' argmin returns NaN and indexing with it fails later. The model reports `NoMinimum` at once.
- Records.ParseRecordFromTable: modelled over a list of rules. A Python dict's iteration order is left out, which is harmless for this table by `Records.MetricParsersDisjoint`.

## Findings

| source | as written | input that shows it | evidently intended | confidence | as-written member | corrected member |
|---|---|---|---|---|---|---|
| show_me_pdbs.py:981 | The module-level `parse_records_from_pdbs` calls `self.parse_record_from_pdb`, and no `self` exists there. | Any batch with one readable model file raises NameError. | Call the module-level `parse_record_from_pdb`, as show_my_designs/gui.py:1028 does. | not executed | Batch.ParseRecordsFromPdbsAsWritten | Batch.ParseRecordsFromPdbs |
| show_my_designs/gui.py:544-546 | The `.sho` walk stops only when the directory equals `os.path.abspath('/')`. `abspath` keeps a leading `//`, and `dirname('//')` is `'//'`. | A group whose directory is given as `//models`: the loop never ends. | Stop at the root, wherever `dirname` no longer changes the path. | not executed | Scripts.DoubleSlashWalkNeverEnds | Scripts.ShoSearchDirs |
| show_my_designs/gui.py:598 | The "Set as representative" handler calls `design.set_representative(index)`, which `Design` does not define. show_me_pdbs.py:636-637 has the same defect: `on_set_representative` calls `group.set_representative(index)`, and `ModelGroup` defines only the property setter (show_me_pdbs.py:142-145). | Choosing the menu entry for any model raises AttributeError. | Assign the `representative` property, whose setter is at show_my_designs/gui.py:89-92. | not executed | View.OnSetRepresentativeAsWritten | Group.ModelGroup.SetRepresentative |

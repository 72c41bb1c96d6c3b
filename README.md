# JobTracker job list, modelled in Dafny

JobTracker is a single-screen Android app for keeping track of job
applications. Each entry has a title, a company and a status. The only logic
in it is the list of entries that the screen keeps in memory:

- the start-up load, which seeds three demo entries when nothing is saved;
- adding an entry at the front, after checking that the title and the company
  are not blank;
- changing the status of an entry in place;
- deleting an entry;
- the visible list, which applies a status filter and then a case-insensitive
  search on title and company;
- the record-level encoding of the list into the JSON array kept under one
  preference key.

Modules:

- `Jobs` (`jobs.dfy`): the `JobItem` record, the default status "Wishlist",
  the "All" filter and the three demo entries.
- `Codec` (`codec.dfy`): `encodeJobs` as a method with the source's loop,
  `decodeJobs` as a function, and the round trip between them. A record is a
  map from field name to string.
- `Query` (`query.dfy`): the status filter and the search. It proves that the
  visible list is exactly the shown entries, in stored order. It also proves
  that searching the demo list for "yod" finds only the Yodeck entry.
- `Store` (`store.dfy`): the class `JobStore`. Its field `jobs` is the
  mutable list and its field `stored` is what the preference store holds.
  The start-up load is its constructor. Add, change-status and delete are its
  methods, and each one saves afterwards. The invariant `Valid()` says that
  the stored records decode to the list on screen.
- `Seqs` (`seqs.dfy`): the Kotlin list operations that the handlers use
  (`filter`, `indexOf`, `remove(element)` and the indexed replacement), with
  the facts that pin them down. Any subsequence holding exactly the
  filtered-for elements is the filter's result. Removal and replacement
  act on exactly the first occurrence.
- `Text` (`text.dfy`): `lowercase()`, `trim()`, `isBlank()` and
  `contains()` over ASCII.
- `Wrappers` (`wrappers.dfy`): `Option`, for the nullable saved string.

Behaviour of the app that the model keeps as written:

- Adding checks `isNotBlank()` on the raw title and company. It stores them
  untrimmed.
- Statuses are never validated: not on load and not on change.
- Malformed saved JSON is not recovered from. Parsing is outside the model.
- Delete removes only the first equal entry. So a deleted entry stays visible
  when the list held a field-for-field duplicate of it (`Seqs.RemoveFirstCount`).

## Model

| member | source | states |
|---|---|---|
| Seqs.Filter | app/src/main/java/com/stelios/jobtracker/MainActivity.kt:241 | `filter` gives a subsequence of its input that holds every element satisfying the condition exactly as often as the input does, and no other element |
| Seqs.FilterUnique | app/src/main/java/com/stelios/jobtracker/MainActivity.kt:239-248 | these two facts determine the filter's result, so a filter keeps exactly the matching entries in their original order |
| Seqs.FirstIndex | app/src/main/java/com/stelios/jobtracker/MainActivity.kt:261 | `indexOf` gives -1 exactly when the entry is absent; otherwise it gives an index holding the entry with no equal entry before it |
| Seqs.FirstIndexOfSplit | app/src/main/java/com/stelios/jobtracker/MainActivity.kt:261 | for a list written as `p + [x] + q` with no `x` in `p`, `indexOf(x)` is the length of `p` |
| Seqs.RemoveFirst | app/src/main/java/com/stelios/jobtracker/MainActivity.kt:266 | `remove(job)` leaves the list unchanged when `job` is absent; otherwise the list is one shorter and has lost one copy of `job` and nothing else |
| Seqs.RemoveFirstSplit | app/src/main/java/com/stelios/jobtracker/MainActivity.kt:266 | removal takes out exactly the first equal entry: `p + [x] + q` with no `x` in `p` becomes `p + q` |
| Seqs.RemoveFirstCount | app/src/main/java/com/stelios/jobtracker/MainActivity.kt:266 | after removal the entry is still present exactly when the list held it more than once |
| Seqs.ReplaceFirst | app/src/main/java/com/stelios/jobtracker/MainActivity.kt:261-262 | `jobs[indexOf(job)] = new` keeps the length and swaps one copy of `job` for `new` |
| Seqs.ReplaceFirstSplit | app/src/main/java/com/stelios/jobtracker/MainActivity.kt:261-262 | the replacement lands on the first equal entry and leaves all other positions unchanged: `p + [x] + q` becomes `p + [new] + q` |
| Seqs.SubseqTransitive | app/src/main/java/com/stelios/jobtracker/MainActivity.kt:243-248 | a filter applied to a filtered list still gives a subsequence of the original list |
| Text.LowerChar | app/src/main/java/com/stelios/jobtracker/MainActivity.kt:237 | a lower-cased character is never an upper-case letter; an upper-case letter becomes the lower-case letter at the same place in the alphabet, any other character stays as it is |
| Text.Lower | app/src/main/java/com/stelios/jobtracker/MainActivity.kt:237-247 | `lowercase()` keeps the length, lower-cases each character and leaves no upper-case letter |
| Text.LowerIdempotent | app/src/main/java/com/stelios/jobtracker/MainActivity.kt:237 | lower-casing an already lower-cased string changes nothing |
| Text.Trim | app/src/main/java/com/stelios/jobtracker/MainActivity.kt:237 | `trim()` gives a slice of the string with only whitespace outside it, and the slice neither starts nor ends with whitespace |
| Text.TrimIdempotent | app/src/main/java/com/stelios/jobtracker/MainActivity.kt:237 | trimming an already trimmed string changes nothing |
| Text.BlankIffTrimEmpty | app/src/main/java/com/stelios/jobtracker/MainActivity.kt:99 | `isNullOrBlank()` here, like `isNotBlank()` at line 177 and `isBlank()` at line 244, is `Text.IsBlank`, which `Text.IsBlank` defines as "only whitespace", holds exactly when trimming leaves nothing |
| Text.TrimmedBlankIsEmpty | app/src/main/java/com/stelios/jobtracker/MainActivity.kt:244 | for the trimmed query, `isBlank()` is the same as being empty |
| Text.Contains | app/src/main/java/com/stelios/jobtracker/MainActivity.kt:246-247 | `contains(query)` holds exactly when the query occurs at some position of the string |
| Jobs.WithStatus | app/src/main/java/com/stelios/jobtracker/MainActivity.kt:262 | `copy(status = s)` keeps the title and the company and sets the status; the copy equals the original exactly when the status was already `s` |
| Codec.ToObject | app/src/main/java/com/stelios/jobtracker/MainActivity.kt:34-38 | each entry's record has exactly the fields title, company and status, holding the entry's values |
| Codec.EncodeJobs | app/src/main/java/com/stelios/jobtracker/MainActivity.kt:30-42 | the encoding loop emits one record per entry in list order; every record has all three fields and decodes back to its entry |
| Codec.FromObject | app/src/main/java/com/stelios/jobtracker/MainActivity.kt:47-52 | on decode, a field the record has is taken as it is; a missing title or company becomes "" and a missing status becomes "Wishlist" |
| Codec.DecodeJobs | app/src/main/java/com/stelios/jobtracker/MainActivity.kt:44-54 | `decodeJobs` gives one entry per record in array order, and a record holding all three fields gives exactly their values |
| Codec.DecodeEncode | app/src/main/java/com/stelios/jobtracker/MainActivity.kt:30-54 | decoding the encoded list gives back the same entries in the same order |
| Codec.EncodeDecode | app/src/main/java/com/stelios/jobtracker/MainActivity.kt:44-54 | records that carry exactly the three fields survive a decode followed by an encode unchanged |
| Query.SearchQuery | app/src/main/java/com/stelios/jobtracker/MainActivity.kt:237 | the prepared query is a slice of the lower-cased search box with only whitespace outside it; it has no upper-case letter and neither starts nor ends with whitespace |
| Query.SearchQueryIdempotent | app/src/main/java/com/stelios/jobtracker/MainActivity.kt:237 | preparing an already prepared query gives it back unchanged |
| Query.SearchIgnoresCase | app/src/main/java/com/stelios/jobtracker/MainActivity.kt:237-248 | lower-casing what is typed into the search box leaves the visible list unchanged: the search ignores the letter case of the query |
| Query.FilterByStatus | app/src/main/java/com/stelios/jobtracker/MainActivity.kt:239-241 | "All" returns the list unchanged; any other choice returns exactly the entries with that status, as a subsequence of the list |
| Query.VisibleJobs | app/src/main/java/com/stelios/jobtracker/MainActivity.kt:237-248 | the visible list is a subsequence of the stored list that holds exactly the entries passing the status filter and the search, each as often as the list does; a blank prepared query gives the status-filtered list |
| Query.VisibleIsFilter | app/src/main/java/com/stelios/jobtracker/MainActivity.kt:237-248 | filtering by status and then by search equals one filter by both conditions, in stored order |
| Query.ShowAll | app/src/main/java/com/stelios/jobtracker/MainActivity.kt:239-244 | with "All" and a query that trims to nothing, the whole list is shown unchanged |
| Query.BlankQueryShowsFilter | app/src/main/java/com/stelios/jobtracker/MainActivity.kt:237-244 | a search box holding only whitespace does not narrow the status-filtered list |
| Query.DemoSearch | app/src/main/java/com/stelios/jobtracker/MainActivity.kt:243-248 | searching the demo entries for "yod" under "All" shows only ("Android Developer", "Yodeck", "Applied") |
| Query.OnlyFirstVisible | app/src/main/java/com/stelios/jobtracker/MainActivity.kt:237-248 | when of three entries only the first passes the status filter and the search, the visible list is that one entry |
| Store.DemoDelete | app/src/main/java/com/stelios/jobtracker/MainActivity.kt:100-104 | the demo entries are pairwise different, so deleting one from the demo list (`remove`, line 266) removes it from the list and keeps the other two in order |
| Store.JobStore.Load | app/src/main/java/com/stelios/jobtracker/MainActivity.kt:97-110 | a missing or blank saved value gives exactly the three demo entries in order and saves them; otherwise the list is the decoded records in order; either way the store decodes to the list |
| Store.JobStore.Save | app/src/main/java/com/stelios/jobtracker/MainActivity.kt:56-58 | a save replaces the stored records with the encoding of the whole list, so that they decode to it |
| Store.JobStore.Add | app/src/main/java/com/stelios/jobtracker/MainActivity.kt:176-183 | succeeds exactly when the title and the company are both non-blank; then the new entry is at index 0, followed by the old list unchanged, and the list is saved; otherwise neither the list nor the store changes |
| Store.JobStore.ChangeStatus | app/src/main/java/com/stelios/jobtracker/MainActivity.kt:260-264 | the list becomes `ReplaceFirst(old list, job, job with the new status)`: by `Seqs.ReplaceFirstSplit` the first entry equal to `job` is replaced in place and every other position is unchanged; any status string is accepted; the list is saved |
| Store.JobStore.Delete | app/src/main/java/com/stelios/jobtracker/MainActivity.kt:265-268 | the first entry equal to `job` is removed, or nothing happens when there is none; the list is saved either way |

## Left out

- The Compose UI is not modelled: the widget tree, the drop-down `expanded` flags, the text-field state and the form reset after an add (lines 179-181). None of it affects the list.
- DataStore I/O and coroutines are not modelled. Each save is a synchronous assignment of the encoded list to `stored`. In the app, a handler changes the list and launches the save as a coroutine, and `saveJobs` encodes the live list when it runs (lines 56-58, 182, 263, 267). So once the pending saves have run, the store decodes to the final list. What the model drops is the lag: until a change's save has run, the store still holds the previous list, whereas here `Valid()` holds right after every method.
- JSON text is not modelled: neither `JSONArray.toString()` nor parsing. The constructor takes the parser as a function parameter. What org.json does with malformed text (it throws) is outside the model.
- `Codec.FromObject`: the model does not cover `optString` on a field holding a non-string or a JSON null. Records here hold only strings.
- `Text.LowerChar`: covers ASCII only. Kotlin's `lowercase()` follows Unicode, and non-ASCII letters are left unchanged here.
- `Text.Trim`: whitespace is the ASCII whitespace of `Char.isWhitespace()`. The same limit applies to `Text.BlankIffTrimEmpty` and `Text.IsBlank`. Unicode space separators are not treated as whitespace.
- `Store.JobStore.ChangeStatus`: requires the entry to be in the list. The app never checks this: with an absent entry, `indexOf` gives -1 and the assignment throws. Status cards are drawn from the list itself, so that case is not modelled.
- `Store.JobStore.Load`: models the load as the construction of the store, before any handler runs. In the app the handlers are live while the `LaunchedEffect` is still reading (lines 97-110). An entry added in that window stays in front, because the load's `addAll` (lines 105, 108) appends the demo or decoded entries after it. That interleaving, and the empty list shown until loading finishes, are not modelled.

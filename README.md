# ShareBuddy share inbox: a Dafny model

ShareBuddy is an Android "share inbox". Text, links and images shared from other apps are saved as rows of an `Item` table. The rows can then be pinned, labelled, searched, sorted, filtered and copied, and reminders can be set on them.

This project models the logic threaded through the app's Kotlin sources, one Dafny module per source file.

| module | file | source | what it holds |
|---|---|---|---|
| `Strings` | `Strings.dfy` | — | Kotlin string primitives: `trim`, `isBlank`, `ifBlank`, case-insensitive `equals`/`startsWith`, `take` in UTF-16 units, Unicode decimal digits, `compareTo` in UTF-16 code-unit order. |
| `Longs` | `Longs.dfy` | — | 64-bit `Long` wrap-around. |
| `Items` | `Item.dfy` | `data/Item.kt` | The `Item` record and its defaults. The `"\|:\|"` list codec (`Converters.fromList` / `toList`). |
| `Store` | `ItemDao.dfy` | `data/ItemDao.kt` | The table as a class over `map<id, Item>`. Ordered listing and search. |
| `LinkCleaner` | `LinkCleaner.dfy` | `util/LinkCleaner.kt` | Query-parameter cleaning of a link. |
| `Repo` | `Repository.dfy` | `data/Repository.kt` | `sortAndFilter`, the save rules, and the repository class over the table. |
| `Scheduler` | `Scheduler.dfy` | `reminder/ReminderScheduler.kt` | The pending-alarm table, keyed by `String.hashCode`. |
| `Boot` | `Boot.dfy` | `reminder/BootReceiver.kt` | Rescheduling after a reboot. |
| `Dialog` | `Dialog.dfy` | `ui/components/ReminderDialog.kt` | The reminder picker and its millisecond conversion. |
| `Share` | `Share.dfy` | `share/ShareBuddyActivity.kt` | The share screen: intent dispatch, the single save, the reminder. |
| `InboxVM` | `InboxVM.dfy` | `ui/inbox/InboxViewModel.kt` | The inbox view-model: state, selection, copy, pin, delete, label, reminders. |
| `Screen` | `Screen.dfy` | `ui/inbox/InboxScreen.kt` | Pinned/recent sections, row layout and scroll target, card texts, remaining time. |
| `Main` | `Main.dfy` | `ui/MainActivity.kt` | The main activity's own list refresh and reminder actions. |

Source paths in this table are relative to `app/src/main/java/com/mrunicorn/sb/`.

## How the platform is modelled

- **Mutable state** is modelled by classes with `modifies` clauses:
  - the table (`Store.ItemDao`);
  - the alarm table (`Scheduler.AlarmTable`);
  - the share screen (`Share.ShareSession`);
  - the view-model (`InboxVM.InboxViewModel`);
  - the dialog (`Dialog.ReminderDialogState`);
  - the scroll request (`Screen.ScrollState`);
  - the main screen (`Main.MainScreen`).
- **Loops** in the source are methods with `while` loops, each proved against a function:
  - the nested append loops of `clean`;
  - the `forEach` of the boot receiver;
  - the selection set turned into a list.
- **Collaborators** are parameters of the operations:
  - the clock (`now`);
  - the random UUID (`id`);
  - `String.hashCode` (`hash`);
  - `Uri.parse` (`parse`, with `None` standing for an exception);
  - `LinkCleaner.suggestLabel`;
  - the thumbnail fetch;
  - the per-image import (`importOne`, with `None` for "unknown type or exception");
  - OCR;
  - the relative-time phrase of `DateUtils`.
- **A URL** is a `ParsedUrl(prefix, query, suffix)`:
  - `prefix` is everything before the query;
  - `query` is the parameter pairs in order;
  - `suffix` is the fragment part.
  The rebuilt text percent-encodes names and values the way `Uri.encode` does (unreserved characters kept, every other character as UTF-8 `%XX`). This keeps the `/` count of the trailing-slash rule faithful.
- **`Long` arithmetic** that can overflow is wrapped explicitly with `Wrap64`:
  - `now + millis`;
  - `reminderAt - now`;
  - the dialog's unit products.

Four behaviours of the code that a reader might not expect:
- **Search.** It matches only `text` and `cleanedText`, not the label (`Store.SearchIgnoresLabel`).
- **Idempotence.** `clean` is not idempotent on the whole string: a path ending in `//` loses one `/` per call (`LinkCleaner.CleanNotIdempotent`). Only the filter-and-sort step on the parameters is idempotent (`LinkCleaner.CleanedQueryIdempotent`).
- **OCR.** It runs on the first stored image URI whether or not that image was imported (`Repo.ImagesRules`), not on the first successfully imported one.
- **Query trimming.** `MainActivity` passes the query untrimmed, unlike the view-model (`Main.QueryNotTrimmed`).

## Model

| member | source | states |
|---|---|---|
| Strings.TrimSlice | app/src/main/java/com/mrunicorn/sb/data/Repository.kt:22 | `trim()` yields the contiguous slice of the input between its leading and trailing whitespace, and that slice neither starts nor ends with whitespace |
| Strings.TrimEmptyIffBlank | app/src/main/java/com/mrunicorn/sb/share/ShareBuddyActivity.kt:171-172 | trimming gives the empty string exactly when the text is blank, so a non-blank share is never stored empty |
| Strings.TrimIdempotent | app/src/main/java/com/mrunicorn/sb/share/ShareBuddyActivity.kt:172 | trimming an already trimmed text changes nothing (the share screen and the repository both trim) |
| Strings.IfBlankNull | app/src/main/java/com/mrunicorn/sb/share/ShareBuddyActivity.kt:169 | `ifBlank { null }` is null exactly for a blank text and the text itself otherwise |
| Strings.Take | app/src/main/java/com/mrunicorn/sb/reminder/BootReceiver.kt:23 | `take(80)` counts UTF-16 code units: the result is a prefix of the text of at most 80 units, the whole text when it fits, and the next character would not fit |
| Strings.KeepDigits | app/src/main/java/com/mrunicorn/sb/ui/components/ReminderDialog.kt:46 | `filter { it.isDigit() }` yields only Unicode decimal digits (not only `0`-`9`), never more characters than it was given, and leaves a digit string unchanged |
| Strings.KeepDigitsChar | app/src/main/java/com/mrunicorn/sb/ui/components/ReminderDialog.kt:46 | one character is kept exactly when `isDigit` holds for it |
| Strings.KeepDigitsConcat | app/src/main/java/com/mrunicorn/sb/ui/components/ReminderDialog.kt:46 | filtering works piecewise: the filter of `a + b` is the filter of `a` followed by the filter of `b` (with the one-character case this fixes the result: every digit is kept, in order) |
| Strings.KeepDigitsKeepsDigit | app/src/main/java/com/mrunicorn/sb/ui/components/ReminderDialog.kt:46 | every digit of the text appears in the result, between the kept digits before it and those after it |
| Strings.DigitOf | app/src/main/java/com/mrunicorn/sb/ui/components/ReminderDialog.kt:46 | `Character.digit(c, 10)`: a value below 10 for a decimal digit of any script below U+10000, and `c - '0'` for `0`-`9` |
| Strings.ArabicIndicDigit | app/src/main/java/com/mrunicorn/sb/ui/components/ReminderDialog.kt:46 | Arabic-Indic five (U+0665) is a digit worth 5, and the field keeps it while dropping a letter |
| Strings.StrLtTotal | app/src/main/java/com/mrunicorn/sb/util/LinkCleaner.kt:18 | the `String.compareTo` order used by `sorted()` (UTF-16 code units, a proper prefix first) is total: two different strings are ordered one way or the other |
| Strings.StrLtTransitive | app/src/main/java/com/mrunicorn/sb/data/Repository.kt:173-174 | the `String.compareTo` order used by `sortedBy` is transitive |
| Strings.StrLtByCodeUnit | app/src/main/java/com/mrunicorn/sb/util/LinkCleaner.kt:18 | a character above U+FFFF sorts by its leading surrogate: U+1F600 comes before U+FF21 |
| Longs.Wrap64 | app/src/main/java/com/mrunicorn/sb/ui/inbox/InboxViewModel.kt:151 | a `Long` result lies in the 64-bit range, equals the exact value when that fits, and is congruent to it modulo 2^64 |
| Longs.Wrap64Mul | app/src/main/java/com/mrunicorn/sb/ui/components/ReminderDialog.kt:81-83 | wrapping a partial product before the next factor gives the same `Long` as wrapping the whole product |
| Items.NewItem | app/src/main/java/com/mrunicorn/sb/data/Item.kt:11-23 | a fresh row has the given id, type and creation time; it is unpinned, with no reminder, no images and null optional text fields |
| Items.FirstDelimiterFrom | app/src/main/java/com/mrunicorn/sb/data/Item.kt:29 | finds the leftmost `"\|:\|"` at or after a position, or reports that there is none |
| Items.NullAndBlankDecode | app/src/main/java/com/mrunicorn/sb/data/Item.kt:28-29 | `fromList(null)` is `""`; `toList(null)` and `toList` of any blank text are empty |
| Items.JoinSplit | app/src/main/java/com/mrunicorn/sb/data/Item.kt:28-29 | joining the pieces of `split("\|:\|")` with the delimiter gives the text back, whatever it holds |
| Items.TextRoundTrip | app/src/main/java/com/mrunicorn/sb/data/Item.kt:28-29 | `fromList(toList(s)) == s` for every non-blank `s` |
| Items.SplitJoin | app/src/main/java/com/mrunicorn/sb/data/Item.kt:28-29 | splitting the join of a non-empty list of `\|`-free elements gives the list back |
| Items.ListRoundTrip | app/src/main/java/com/mrunicorn/sb/data/Item.kt:28-29 | `toList(fromList(l)) == l` when no element contains `\|` and `l` is not a single blank element |
| Items.ListRoundTripLosesBlankElement | app/src/main/java/com/mrunicorn/sb/data/Item.kt:28-29 | the round trip is not total: `[""]` comes back as `[]` |
| Items.ListRoundTripSplitsDelimiter | app/src/main/java/com/mrunicorn/sb/data/Item.kt:28-29 | the round trip is not total: an element holding `"\|:\|"` comes back as two |
| Items.SplitCount | app/src/main/java/com/mrunicorn/sb/data/Item.kt:29 | `split` yields one more piece than there are non-overlapping delimiter occurrences, counted left to right |
| Items.PieceCount | app/src/main/java/com/mrunicorn/sb/data/Item.kt:29 | for non-blank `s`, `toList(s)` has 1 + (number of delimiter occurrences) elements |
| Store.InsertListedOrdered | app/src/main/java/com/mrunicorn/sb/data/ItemDao.kt:8 | inserting a row into a list ordered by `pinned DESC, createdAt DESC` keeps that order |
| Store.InsertListedDistinct | app/src/main/java/com/mrunicorn/sb/data/ItemDao.kt:8 | inserting a row with a new id into a list of distinct ids keeps the ids distinct |
| Store.ItemDao.Upsert | app/src/main/java/com/mrunicorn/sb/data/ItemDao.kt:14-15 | the row under `item.id` becomes `item`, replacing any earlier one; every other row is unchanged |
| Store.ItemDao.GetItemById | app/src/main/java/com/mrunicorn/sb/data/ItemDao.kt:17-18 | returns the row with that id exactly when one exists, and null otherwise |
| Store.ItemDao.SetPinned | app/src/main/java/com/mrunicorn/sb/data/ItemDao.kt:20-21 | only the `pinned` field of the matching row changes; an absent id changes nothing |
| Store.ItemDao.Delete | app/src/main/java/com/mrunicorn/sb/data/ItemDao.kt:23-24 | removes exactly that id; an absent id changes nothing |
| Store.ItemDao.DeleteBulk | app/src/main/java/com/mrunicorn/sb/data/Repository.kt:110 | removes exactly the listed ids (assumed contract) |
| Store.ItemDao.SetPinnedBulk | app/src/main/java/com/mrunicorn/sb/data/Repository.kt:113 | sets `pinned` on exactly the listed rows present and changes nothing else (assumed contract) |
| Store.ItemDao.SetReminder | app/src/main/java/com/mrunicorn/sb/data/Repository.kt:122 | only the `reminderAt` field of the matching row changes; an absent id changes nothing (assumed contract) |
| Store.ItemDao.Listing | app/src/main/java/com/mrunicorn/sb/data/ItemDao.kt:8-12 | the query result: exactly the selected rows, each once, in `pinned DESC, createdAt DESC` order |
| Store.ItemDao.ObserveAll | app/src/main/java/com/mrunicorn/sb/data/ItemDao.kt:8-9 | every row exactly once, pinned rows first, then newest first |
| Store.ItemDao.ObserveAllOnce | app/src/main/java/com/mrunicorn/sb/reminder/BootReceiver.kt:20 | a snapshot of every row exactly once, in the same order as `observeAll` (assumed contract) |
| Store.ItemDao.Search | app/src/main/java/com/mrunicorn/sb/data/ItemDao.kt:11-12 | exactly the rows whose `text` or `cleanedText` contains the query, each once, in the same order |
| Store.SearchIgnoresLabel | app/src/main/java/com/mrunicorn/sb/data/ItemDao.kt:11 | changing a row's label never changes whether it matches a search |
| Store.PinnedFirst | app/src/main/java/com/mrunicorn/sb/data/ItemDao.kt:8 | in a listing every pinned row comes before every unpinned row |
| Store.NewestFirstWithinGroup | app/src/main/java/com/mrunicorn/sb/data/ItemDao.kt:8 | within the pinned rows and within the unpinned rows, a row is no older than any row after it |
| LinkCleaner.NamesOf | app/src/main/java/com/mrunicorn/sb/util/LinkCleaner.kt:16 | `queryParameterNames` lists each name once, and exactly the names that have a value |
| LinkCleaner.KeptNames | app/src/main/java/com/mrunicorn/sb/util/LinkCleaner.kt:16-17 | `filterNot` keeps exactly the names that are neither deny-listed nor `utm_`-prefixed, ignoring case as the JVM does (so dotless `ı`, dotted `İ`, long `ſ` and the Kelvin sign match `i`, `i`, `s`, `k`), and keeps them distinct |
| LinkCleaner.SortNames | app/src/main/java/com/mrunicorn/sb/util/LinkCleaner.kt:18 | `sorted()` keeps the same names and the same count |
| LinkCleaner.SortNamesSorted | app/src/main/java/com/mrunicorn/sb/util/LinkCleaner.kt:18 | `sorted()` of distinct names is strictly ascending in `String.compareTo` order (UTF-16 code units) |
| LinkCleaner.SortedUnique | app/src/main/java/com/mrunicorn/sb/util/LinkCleaner.kt:18 | two strictly ascending name lists with the same members are equal |
| LinkCleaner.Group | app/src/main/java/com/mrunicorn/sb/util/LinkCleaner.kt:20-21 | the pairs appended for one name are that name with each of its values, in order |
| LinkCleaner.Encode | app/src/main/java/com/mrunicorn/sb/util/LinkCleaner.kt:21 | `Uri.encode` output holds only `%` and unreserved characters |
| LinkCleaner.EncodeUnreserved | app/src/main/java/com/mrunicorn/sb/util/LinkCleaner.kt:21 | `Uri.encode` leaves a text of unreserved characters unchanged |
| LinkCleaner.QueryText | app/src/main/java/com/mrunicorn/sb/util/LinkCleaner.kt:24 | the rebuilt query text contains no `/` |
| LinkCleaner.Clean | app/src/main/java/com/mrunicorn/sb/util/LinkCleaner.kt:12-29 | the loop-based `clean` computes the cleaned link specified by `Cleaned` (filter, sort, regroup, slash rule, fallback) |
| LinkCleaner.RebuildQuery | app/src/main/java/com/mrunicorn/sb/util/LinkCleaner.kt:16-23 | the nested `for` loops build exactly the filtered, sorted and regrouped query |
| LinkCleaner.AppendValues | app/src/main/java/com/mrunicorn/sb/util/LinkCleaner.kt:20-22 | the inner loop appends `(p, v)` for each value of `p`, in order, after what was built |
| LinkCleaner.CleanedDropsTracking | app/src/main/java/com/mrunicorn/sb/util/LinkCleaner.kt:6-17 | no output name equals a deny-listed name or starts with `utm_`, ignoring case as the JVM does |
| LinkCleaner.StrippedUnderJvmFolding | app/src/main/java/com/mrunicorn/sb/util/LinkCleaner.kt:17 | `GCLıD` (dotless i) and `msCLKid` with a Kelvin sign are stripped like `gclid` and `msclkid` |
| LinkCleaner.CleanedKeepsValues | app/src/main/java/com/mrunicorn/sb/util/LinkCleaner.kt:16-23 | every kept name keeps all its values in their original order, and a stripped name has none |
| LinkCleaner.CleanedSortedByName | app/src/main/java/com/mrunicorn/sb/util/LinkCleaner.kt:18-23 | output names never decrease, so the values of each name are contiguous |
| LinkCleaner.CleanedQueryIdempotent | app/src/main/java/com/mrunicorn/sb/util/LinkCleaner.kt:16-23 | cleaning an already cleaned query changes nothing |
| LinkCleaner.CleanFailureReturnsInput | app/src/main/java/com/mrunicorn/sb/util/LinkCleaner.kt:26-28 | when parsing or rebuilding throws, the input comes back unchanged |
| LinkCleaner.RebuildSlashes | app/src/main/java/com/mrunicorn/sb/util/LinkCleaner.kt:24 | only the text outside the query contributes `/`; with a query and no fragment the rebuilt link does not end in `/` |
| LinkCleaner.TrailingSlashRule | app/src/main/java/com/mrunicorn/sb/util/LinkCleaner.kt:25 | exactly one trailing `/` is dropped, iff the rebuilt link ends in `/` and holds more than two `/` |
| LinkCleaner.CleanedNoQuery | app/src/main/java/com/mrunicorn/sb/util/LinkCleaner.kt:24-25 | a link without a query is only subject to the trailing-slash rule |
| LinkCleaner.DropTrailingSlashTwice | app/src/main/java/com/mrunicorn/sb/util/LinkCleaner.kt:25 | the slash rule turns `p//` into `p/`, and a second application turns that into `p` |
| LinkCleaner.CleanNotIdempotent | app/src/main/java/com/mrunicorn/sb/util/LinkCleaner.kt:25 | cleaning `p//` gives `p/`, and cleaning that again gives `p`: `clean` is not idempotent |
| LinkCleaner.CleanedSinglePair | app/src/main/java/com/mrunicorn/sb/util/LinkCleaner.kt:19-25 | a cleaned query of one unreserved pair and no fragment renders as `prefix?name=value` |
| LinkCleaner.ExampleDropsUtm | app/src/test/java/com/mrunicorn/sb/util/LinkCleanerTest.kt:12-16 | `https://example.com/page?utm_source=news&utm_medium=email&id=123` cleans to `https://example.com/page?id=123` |
| LinkCleaner.ExampleMixedCase | app/src/test/java/com/mrunicorn/sb/util/LinkCleanerTest.kt:19-23 | `https://example.com/path?ID=456&UTM_CAMPAIGN=summer` cleans to `https://example.com/path?ID=456` |
| Repo.SortsBeforeTransitive | app/src/main/java/com/mrunicorn/sb/data/Repository.kt:171-175 | the strict "sorts before" order of each key is transitive |
| Repo.InsertStable | app/src/main/java/com/mrunicorn/sb/data/Repository.kt:171-175 | one insertion step adds the item to the list's members and nothing else |
| Repo.InsertStableSorted | app/src/main/java/com/mrunicorn/sb/data/Repository.kt:171-175 | inserting into a sorted list keeps it sorted |
| Repo.InsertStablePerm | app/src/main/java/com/mrunicorn/sb/data/Repository.kt:171-175 | one insertion step adds exactly one occurrence of the item |
| Repo.SortByPerm | app/src/main/java/com/mrunicorn/sb/data/Repository.kt:171-175 | sorting yields a permutation of the input |
| Repo.SortBySorted | app/src/main/java/com/mrunicorn/sb/data/Repository.kt:171-175 | no item of the sorted list sorts before an earlier one |
| Repo.SortByKeyClass | app/src/main/java/com/mrunicorn/sb/data/Repository.kt:171-175 | the sort is stable: items with equal keys keep their input order |
| Repo.KeepTypeSorted | app/src/main/java/com/mrunicorn/sb/data/Repository.kt:178-180 | the type filter keeps a sorted list sorted and keeps only items of that type |
| Repo.KeepTypeCount | app/src/main/java/com/mrunicorn/sb/data/Repository.kt:178-180 | the type filter keeps every occurrence of an item of that type and none of the others |
| Repo.KeepTypeKeyClass | app/src/main/java/com/mrunicorn/sb/data/Repository.kt:178-180 | filtering commutes with taking the items of one key, so the filter keeps relative order |
| Repo.FilterByCount | app/src/main/java/com/mrunicorn/sb/data/Repository.kt:176-181 | each filter keeps every occurrence of an admitted item and none of the others |
| Repo.SortAndFilterOrdered | app/src/main/java/com/mrunicorn/sb/data/Repository.kt:170-182 | the result has Date giving non-increasing `createdAt`, Name non-decreasing `text ?: ""`, Label non-decreasing `label ?: ""` |
| Repo.SortAndFilterExact | app/src/main/java/com/mrunicorn/sb/data/Repository.kt:170-182 | the result holds each admitted item exactly as often as the input, and nothing else |
| Repo.SortAndFilterStable | app/src/main/java/com/mrunicorn/sb/data/Repository.kt:170-182 | items with equal keys appear in the result in their order in the input |
| Repo.ExampleSortsByName | app/src/test/java/com/mrunicorn/sb/data/RepositorySortFilterTest.kt:13-17 | the test's three items sorted by Name come out as `a`, `b`, `c` |
| Repo.ExampleFiltersLinks | app/src/test/java/com/mrunicorn/sb/data/RepositorySortFilterTest.kt:19-24 | the test's three items filtered to Links leave only the link |
| Repo.TextOrLinkRules | app/src/main/java/com/mrunicorn/sb/data/Repository.kt:21-32 | the stored text is `raw.trim()`; LINK iff it starts with `http://` or `https://` ignoring case as the JVM does; only links get a cleaned text and a thumbnail; an explicit label wins, links otherwise get the suggested label and text none; new, unpinned, no reminder |
| Repo.LongSSchemeIsLink | app/src/main/java/com/mrunicorn/sb/data/Repository.kt:23 | `HTTPſ://a` (long s) is a link under the JVM's case folding, while `ftp://a` is not |
| Repo.SavedTextTrimmed | app/src/main/java/com/mrunicorn/sb/data/Repository.kt:22 | the stored text has no surrounding whitespace and is empty only when the share was blank |
| Repo.SavedUris | app/src/main/java/com/mrunicorn/sb/data/Repository.kt:43-92 | the stored image list has the length of the shared list |
| Repo.SavedUrisElementwise | app/src/main/java/com/mrunicorn/sb/data/Repository.kt:43-92 | each stored URI is the imported copy or, when the import gives nothing, the shared URI itself |
| Repo.ImagesRules | app/src/main/java/com/mrunicorn/sb/data/Repository.kt:35-107 | an IMAGE row with the list's length and order, per-element fallback, OCR text from element 0 only, no cleaned text or thumbnail, the given label |
| Repo.Repository.Inbox | app/src/main/java/com/mrunicorn/sb/data/Repository.kt:18-19 | a blank or null query lists every row; otherwise exactly the rows matching the query, each once, in list order |
| Repo.Repository.SaveTextOrLink | app/src/main/java/com/mrunicorn/sb/data/Repository.kt:21-33 | stores and returns the row given by the text-or-link rules under its id |
| Repo.Repository.SaveImages | app/src/main/java/com/mrunicorn/sb/data/Repository.kt:35-107 | stores and returns the row given by the image rules under its id |
| Repo.Repository.Delete | app/src/main/java/com/mrunicorn/sb/data/Repository.kt:109 | removes exactly that id |
| Repo.Repository.DeleteBulk | app/src/main/java/com/mrunicorn/sb/data/Repository.kt:110 | removes exactly the listed ids |
| Repo.Repository.Pin | app/src/main/java/com/mrunicorn/sb/data/Repository.kt:112 | only the row's `pinned` changes; an absent id changes nothing |
| Repo.Repository.PinBulk | app/src/main/java/com/mrunicorn/sb/data/Repository.kt:113 | only the listed rows' `pinned` changes |
| Repo.Repository.UpdateLabel | app/src/main/java/com/mrunicorn/sb/data/Repository.kt:115-120 | read-modify-write: only that row's label changes; an absent id changes nothing |
| Repo.Repository.SetReminder | app/src/main/java/com/mrunicorn/sb/data/Repository.kt:122 | only that row's `reminderAt` changes; an absent id changes nothing |
| Scheduler.Pending | app/src/main/java/com/mrunicorn/sb/reminder/ReminderScheduler.kt:27-32 | the alarm pending for an id is the one in its hash slot, and only if it carries that id |
| Scheduler.ReminderTitle | app/src/main/java/com/mrunicorn/sb/reminder/BootReceiver.kt:23 | at most 80 UTF-16 code units; a prefix of the cleaned text, else of the text, else `"Reminder"` |
| Scheduler.AlarmTable.Schedule | app/src/main/java/com/mrunicorn/sb/reminder/ReminderScheduler.kt:12-39 | puts one alarm with the given extras and time into the slot `hash(itemId)`; it is then pending for that id |
| Scheduler.AlarmTable.Cancel | app/src/main/java/com/mrunicorn/sb/reminder/ReminderScheduler.kt:42-52 | empties the slot `hash(itemId)`; nothing is then pending for that id |
| Scheduler.ScheduleReplaces | app/src/main/java/com/mrunicorn/sb/reminder/ReminderScheduler.kt:27-38 | a later schedule for the same id replaces the earlier alarm, so at most one is pending per id |
| Scheduler.CancelIdempotent | app/src/main/java/com/mrunicorn/sb/reminder/ReminderScheduler.kt:42-51 | cancelling twice is cancelling once, and cancelling an empty slot changes nothing |
| Scheduler.OtherSlotsUnchanged | app/src/main/java/com/mrunicorn/sb/reminder/ReminderScheduler.kt:27-51 | schedule and cancel leave every other slot as it was |
| Scheduler.CollisionClobbers | app/src/main/java/com/mrunicorn/sb/reminder/ReminderScheduler.kt:27-51 | two ids with equal hash share one slot: one's schedule drops the other's alarm, and one's cancel cancels the other's |
| Boot.DueItems | app/src/main/java/com/mrunicorn/sb/reminder/BootReceiver.kt:21 | only items whose reminder is set and later than the clock reading taken for that item are kept, in snapshot order |
| Boot.DueItemsExact | app/src/main/java/com/mrunicorn/sb/reminder/BootReceiver.kt:21 | an item is due iff it sits in the snapshot at an index whose own clock reading its reminder is later than |
| Boot.DueItemsWithin | app/src/main/java/com/mrunicorn/sb/reminder/BootReceiver.kt:21 | with every clock reading between `t0` and `t1`: an item with a reminder after `t1` is rescheduled as often as it occurs, one with a null reminder or one not after `t0` never, and none more often than it occurs |
| Boot.BootAlarms | app/src/main/java/com/mrunicorn/sb/reminder/BootReceiver.kt:22-23 | one alarm per due item, in order |
| Boot.BootAlarmsShape | app/src/main/java/com/mrunicorn/sb/reminder/BootReceiver.kt:23 | each rescheduled alarm carries the item's id, its stored time (later than the earliest clock reading), `deleteAfterReminder = false`, the usual title and the label |
| Boot.LastInSlot | app/src/main/java/com/mrunicorn/sb/reminder/BootReceiver.kt:22-24 | the alarm a slot ends up holding after a run is one of the run's alarms, with that slot's hash |
| Boot.ScheduleAllSlot | app/src/main/java/com/mrunicorn/sb/reminder/BootReceiver.kt:22-24 | after a run each slot holds the last alarm scheduled into it, or what it held before |
| Boot.BootRestoresReminder | app/src/main/java/com/mrunicorn/sb/reminder/BootReceiver.kt:21-24 | a due item whose hash no other due item shares has its alarm pending at its stored time after the run |
| Boot.Reschedule | app/src/main/java/com/mrunicorn/sb/reminder/BootReceiver.kt:18-26 | the `forEach` schedules the due items' alarms in order, each item tested against its own clock reading; an exception after `k` calls leaves exactly the first `k` done and is swallowed |
| Boot.OnReceive | app/src/main/java/com/mrunicorn/sb/reminder/BootReceiver.kt:14-29 | acts only on BOOT_COMPLETED or MY_PACKAGE_REPLACED, then reschedules from a snapshot of the table |
| Dialog.ParseLong | app/src/main/java/com/mrunicorn/sb/ui/components/ReminderDialog.kt:78 | `toLongOrNull` gives a value only for an optionally signed string of decimal digits (of any script) whose value fits a `Long` |
| Dialog.ParseLongRoundTrip | app/src/main/java/com/mrunicorn/sb/ui/components/ReminderDialog.kt:78 | `toLongOrNull` reads back the decimal rendering of every non-negative `Long` |
| Dialog.ConfirmArabicIndicDigit | app/src/main/java/com/mrunicorn/sb/ui/components/ReminderDialog.kt:46-84 | the input `٥` (Arabic-Indic five) with HOURS confirms 18000000 ms |
| Dialog.ConfirmedMillis | app/src/main/java/com/mrunicorn/sb/ui/components/ReminderDialog.kt:78-84 | confirm yields a duration exactly when the input parses as a positive `Long` |
| Dialog.ConfirmGuard | app/src/main/java/com/mrunicorn/sb/ui/components/ReminderDialog.kt:78-79 | on the digit-only field, confirm fires iff the input is non-empty with a value in `1..Long.MAX_VALUE`: empty, zero and overflowing input do nothing |
| Dialog.StepwiseMillis | app/src/main/java/com/mrunicorn/sb/ui/components/ReminderDialog.kt:81-83 | the source's left-to-right `Long` products equal the wrapped product by the unit's milliseconds |
| Dialog.UnitsOrdered | app/src/main/java/com/mrunicorn/sb/ui/components/ReminderDialog.kt:80-84 | when `v*86400000` fits a `Long`: MINUTES, HOURS and DAYS give `v*60000 < v*3600000 < v*86400000`, all positive |
| Dialog.ReminderDialogState.constructor | app/src/main/java/com/mrunicorn/sb/ui/components/ReminderDialog.kt:35-37 | defaults: empty input, HOURS, delete after reminder |
| Dialog.ReminderDialogState.OnValueChange | app/src/main/java/com/mrunicorn/sb/ui/components/ReminderDialog.kt:46 | the field becomes the digit filter of the new text (every Unicode decimal digit kept, in order, by `Strings.KeepDigitsKeepsDigit`) and is all digits; unit and checkbox unchanged |
| Dialog.ReminderDialogState.OnUnitSelected | app/src/main/java/com/mrunicorn/sb/ui/components/ReminderDialog.kt:60 | selects the unit; input and checkbox unchanged |
| Dialog.ReminderDialogState.OnDeleteAfterChanged | app/src/main/java/com/mrunicorn/sb/ui/components/ReminderDialog.kt:69 | sets the checkbox; input and unit unchanged |
| Dialog.ReminderDialogState.Confirm | app/src/main/java/com/mrunicorn/sb/ui/components/ReminderDialog.kt:76-87 | the button hands on the dialog's duration and the checkbox exactly when the guard passes |
| Dialog.ConfirmOverflows | app/src/main/java/com/mrunicorn/sb/ui/components/ReminderDialog.kt:83 | input `106751991168` with DAYS passes the guard and yields the negative duration `-9223372036794351616` |
| Dialog.CheckedMillis | app/src/main/java/com/mrunicorn/sb/ui/components/ReminderDialog.kt:78-84 | the corrected conversion yields only positive in-range durations equal to value × unit milliseconds |
| Dialog.CheckedAgrees | app/src/main/java/com/mrunicorn/sb/ui/components/ReminderDialog.kt:78-84 | wherever the product fits, the corrected conversion agrees with the dialog's |
| Share.ChooseSave | app/src/main/java/com/mrunicorn/sb/share/ShareBuddyActivity.kt:169-176 | non-blank text is saved trimmed; otherwise a non-empty image list is saved; otherwise nothing is saved |
| Share.ShareTitle | app/src/main/java/com/mrunicorn/sb/share/ShareBuddyActivity.kt:230 | at most 80 UTF-16 code units and a prefix of the shared text, else `"New reminder"` |
| Share.SavedTextIsTrimmedShare | app/src/main/java/com/mrunicorn/sb/share/ShareBuddyActivity.kt:171-172 | the text row stores the shared text trimmed once, although both the screen and the repository trim it |
| Share.ShareSession.constructor | app/src/main/java/com/mrunicorn/sb/share/ShareBuddyActivity.kt:43-50 | starts with no text, no images, an empty label, no saved id, not saving |
| Share.ShareSession.ParseShare | app/src/main/java/com/mrunicorn/sb/share/ShareBuddyActivity.kt:138-162 | SEND `text*` sets the text; SEND `image*` with a stream sets a one-image list; SEND_MULTIPLE sets a non-empty list; anything else changes nothing |
| Share.ShareSession.OnLabelChange | app/src/main/java/com/mrunicorn/sb/share/ShareBuddyActivity.kt:46 | sets the label text and nothing else |
| Share.ShareSession.Save | app/src/main/java/com/mrunicorn/sb/share/ShareBuddyActivity.kt:170-176 | the chosen repository save stores one row under the new id and returns it; nothing to save returns nothing; a throwing save stores nothing and reports the exception |
| Share.RowsAfterSave | app/src/main/java/com/mrunicorn/sb/share/ShareBuddyActivity.kt:165-182 | the table after `ensureSaved` gains at most the new id, and is untouched once an id is cached |
| Share.CachedAfterSave | app/src/main/java/com/mrunicorn/sb/share/ShareBuddyActivity.kt:165-182 | the id `ensureSaved` leaves cached is the old one when there was one, and otherwise can only be the id of the row this save stored |
| Share.SaveOnce | app/src/main/java/com/mrunicorn/sb/share/ShareBuddyActivity.kt:165-182 | once a save stored or found a row, a later `ensureSaved` stores nothing; the first successful attempt adds exactly its own id, and two attempts add at most their two ids |
| Share.ShareSession.EnsureSaved | app/src/main/java/com/mrunicorn/sb/share/ShareBuddyActivity.kt:165-182 | a cached id is returned without touching the table or `isSaving`; otherwise the chosen save runs once and its id is cached; a throwing save caches and stores nothing; `isSaving` is false on every exit of the uncached path, including the exception; the new table is `RowsAfterSave` of the old one; at most one row is ever created |
| Share.ShareSession.OnSave | app/src/main/java/com/mrunicorn/sb/share/ShareBuddyActivity.kt:184-196 | ignored while saving (table, cached id and flag untouched); otherwise the cached id becomes `CachedAfterSave` of the old one, the table `RowsAfterSave` of the old one, Save and Remind are enabled again (`finally`), the outcome is Saved with the cached id exactly when one is cached and Failed exactly when an uncached save throws; text, images and label unchanged |
| Share.ShareSession.ScheduleReminder | app/src/main/java/com/mrunicorn/sb/share/ShareBuddyActivity.kt:219-245 | the cached id becomes `CachedAfterSave` of the old one and a reminder is set exactly when an id is cached; with none, the table is what the save left and no alarm changes; otherwise `whenAt = now + millis` (as a `Long`) is set on the saved row and only there, and the alarm for the same id, title, time and label is pending; Save and Remind are enabled again unless a save was already running; text, images and label unchanged |
| Share.SaveThenRemind | app/src/main/java/com/mrunicorn/sb/share/ShareBuddyActivity.kt:184-245 | Save then Remind on one screen: after "Saved" the reminder is set on the saved row and the two presses store only that row; after "Nothing to save" nothing is stored and no reminder is set |
| InboxVM.InitialState | app/src/main/java/com/mrunicorn/sb/ui/inbox/InboxViewModel.kt:30-38 | the initial state is loading, with no items and no selection |
| InboxVM.ResultsQuery | app/src/main/java/com/mrunicorn/sb/ui/inbox/InboxViewModel.kt:61-65 | the query is trimmed; a blank query means list everything |
| InboxVM.CopyChoice | app/src/main/java/com/mrunicorn/sb/ui/inbox/InboxViewModel.kt:101-116 | copies `cleanedText ?: text` when non-blank, else the first URI of an IMAGE with images, else nothing |
| InboxVM.SetToList | app/src/main/java/com/mrunicorn/sb/ui/inbox/InboxViewModel.kt:180 | `toList()` of the selection holds each selected id exactly once |
| InboxVM.ToggleSelectionRules | app/src/main/java/com/mrunicorn/sb/ui/inbox/InboxViewModel.kt:166-173 | toggling adds an absent id and removes a present one, leaves other ids alone, and toggling twice restores the set |
| InboxVM.ShownItemsExact | app/src/main/java/com/mrunicorn/sb/ui/inbox/InboxViewModel.kt:67-82 | an item is shown iff it is a row selected by the query and admitted by the filter, and it is shown once |
| InboxVM.InboxViewModel.constructor | app/src/main/java/com/mrunicorn/sb/ui/inbox/InboxViewModel.kt:50-53 | empty query, filter All, sort Date, no selection |
| InboxVM.InboxViewModel.OnQueryChange | app/src/main/java/com/mrunicorn/sb/ui/inbox/InboxViewModel.kt:89-91 | sets the query and nothing else |
| InboxVM.InboxViewModel.OnFilterSelected | app/src/main/java/com/mrunicorn/sb/ui/inbox/InboxViewModel.kt:93-95 | sets the filter and nothing else |
| InboxVM.InboxViewModel.OnSortSelected | app/src/main/java/com/mrunicorn/sb/ui/inbox/InboxViewModel.kt:97-99 | sets the sort and nothing else |
| InboxVM.InboxViewModel.State | app/src/main/java/com/mrunicorn/sb/ui/inbox/InboxViewModel.kt:61-82 | the shown items are `sortAndFilter` of the rows matching the trimmed query; selection mode holds iff the selection is non-empty |
| InboxVM.InboxViewModel.TogglePin | app/src/main/java/com/mrunicorn/sb/ui/inbox/InboxViewModel.kt:118-120 | writes the negation of the item's `pinned` to its row |
| InboxVM.InboxViewModel.Delete | app/src/main/java/com/mrunicorn/sb/ui/inbox/InboxViewModel.kt:122-127 | removes the item's row |
| InboxVM.InboxViewModel.UpdateLabel | app/src/main/java/com/mrunicorn/sb/ui/inbox/InboxViewModel.kt:129-134 | only the row's label changes |
| InboxVM.InboxViewModel.CancelReminder | app/src/main/java/com/mrunicorn/sb/ui/inbox/InboxViewModel.kt:140-146 | afterwards neither a stored reminder time nor a pending alarm exists for the item |
| InboxVM.InboxViewModel.ScheduleReminder | app/src/main/java/com/mrunicorn/sb/ui/inbox/InboxViewModel.kt:148-164 | `whenAt = now + millis` (as a `Long`) is on the row and the alarm for the same id and time, with the usual title and the label, is pending |
| InboxVM.InboxViewModel.ToggleSelection | app/src/main/java/com/mrunicorn/sb/ui/inbox/InboxViewModel.kt:166-173 | the selection becomes the toggled set; query, filter and sort unchanged |
| InboxVM.InboxViewModel.ClearSelection | app/src/main/java/com/mrunicorn/sb/ui/inbox/InboxViewModel.kt:175-177 | the selection becomes empty |
| InboxVM.InboxViewModel.DeleteSelected | app/src/main/java/com/mrunicorn/sb/ui/inbox/InboxViewModel.kt:179-187 | an empty selection does nothing; otherwise exactly the selected rows are deleted, the selection is cleared and their number is reported |
| InboxVM.InboxViewModel.PinSelected | app/src/main/java/com/mrunicorn/sb/ui/inbox/InboxViewModel.kt:189-198 | an empty selection does nothing; otherwise exactly the selected rows are (un)pinned, the selection is cleared and their number is reported |
| Screen.Section | app/src/main/java/com/mrunicorn/sb/ui/inbox/InboxScreen.kt:108-109 | each section holds only items with that pin state |
| Screen.SectionMembers | app/src/main/java/com/mrunicorn/sb/ui/inbox/InboxScreen.kt:108-109 | an item is in a section iff it is in the list with that pin state |
| Screen.SectionsPartition | app/src/main/java/com/mrunicorn/sb/ui/inbox/InboxScreen.kt:362-363 | the pinned and recent sections together hold every occurrence of the list exactly once |
| Screen.SectionConcat | app/src/main/java/com/mrunicorn/sb/ui/inbox/InboxScreen.kt:108-109 | taking a section commutes with concatenation, so a section keeps the list's relative order |
| Screen.SectionKeepsOrder | app/src/main/java/com/mrunicorn/sb/ui/inbox/InboxScreen.kt:108-109 | a list in sort order gives sections in sort order |
| Screen.IndexOfFirst | app/src/main/java/com/mrunicorn/sb/ui/inbox/InboxScreen.kt:112 | `indexOfFirst` finds the first item with the id, or reports that none has it |
| Screen.LayoutPinnedPosition | app/src/main/java/com/mrunicorn/sb/ui/inbox/InboxScreen.kt:112-115 | the pinned item at index `i` is the first card for its id in the list layout, at row `1 + i` |
| Screen.PinnedBlockNoCard | app/src/main/java/com/mrunicorn/sb/ui/inbox/InboxScreen.kt:362-406 | no row of the pinned block is a card for an id no pinned item has |
| Screen.RecentBlockRow | app/src/main/java/com/mrunicorn/sb/ui/inbox/InboxScreen.kt:362-406 | the unpinned item at index `j` is row `1 + j` of the recent block, after the "Recent" header |
| Screen.LayoutOtherPosition | app/src/main/java/com/mrunicorn/sb/ui/inbox/InboxScreen.kt:119-126 | the computed offset `(pinned non-empty ? pinned + 2 : 0) + 1 + j` is the layout row of the first card for the unpinned item's id |
| Screen.AbsentFromSections | app/src/main/java/com/mrunicorn/sb/ui/inbox/InboxScreen.kt:111-128 | an id in neither section is on no item |
| Screen.ScrollState.OnItemsChanged | app/src/main/java/com/mrunicorn/sb/ui/inbox/InboxScreen.kt:107-129 | scrolls to the layout row of the first card for the pending id and clears it; an id on no item stays pending |
| Screen.ReminderText | app/src/main/java/com/mrunicorn/sb/ui/inbox/InboxScreen.kt:509-513 | the reminder chip is shown iff a reminder is set and later than now |
| Screen.CanCopyIffCopies | app/src/main/java/com/mrunicorn/sb/ui/inbox/InboxScreen.kt:588-590 | the Copy chip is enabled exactly when copying copies something |
| Screen.TitleShowsCopiedText | app/src/main/java/com/mrunicorn/sb/ui/inbox/InboxScreen.kt:560-564 | a link card's title is the text that Copy puts on the clipboard |
| Screen.LabelDialogRoundTrip | app/src/main/java/com/mrunicorn/sb/ui/inbox/InboxScreen.kt:630-646 | confirming the label dialog untouched keeps a non-blank label and turns a blank one into none |
| Screen.RemainingBounds | app/src/main/java/com/mrunicorn/sb/ui/inbox/InboxScreen.kt:670-686 | each case of the remaining-time text brackets the true difference: whole days and hours, hours and minutes, or minutes rounded down; overdue iff the difference is not positive |
| Screen.ActiveIffTimeRemains | app/src/main/java/com/mrunicorn/sb/ui/MainActivity.kt:496 | for in-range times, the alarm icon is shown iff the details dialog shows a remaining time |
| Main.MainScreen.constructor | app/src/main/java/com/mrunicorn/sb/ui/MainActivity.kt:97 | the screen starts with an empty list and the intent's `openItemId` |
| Main.MainScreen.Refresh | app/src/main/java/com/mrunicorn/sb/ui/MainActivity.kt:90-105 | the list becomes `sortAndFilter` of the rows matching the blank-to-null query; the scroll goes to the first item with `openItemId` |
| Main.MainScreen.AddReminder | app/src/main/java/com/mrunicorn/sb/ui/MainActivity.kt:364-383 | `whenAt = now + millis` (as a `Long`) is on the row and the alarm for the same id and time is pending |
| Main.MainScreen.CancelReminder | app/src/main/java/com/mrunicorn/sb/ui/MainActivity.kt:345-352 | afterwards neither a stored reminder time nor a pending alarm exists for the item |
| Main.MainCardTitle | app/src/main/java/com/mrunicorn/sb/ui/MainActivity.kt:457-461 | an image card has an empty title; other cards have the inbox screen's title |
| Main.QueryNotTrimmed | app/src/main/java/com/mrunicorn/sb/ui/MainActivity.kt:91 | a query with leading whitespace is searched as typed here, but trimmed by the view-model |

## Left out

- `Uri.parse`, `buildUpon` and `toString` are not parsed or printed character by character. A link is given with its parse: prefix, parameter pairs and suffix, where an absent parse stands for an exception. `Uri.encode` is modelled for the query text only.
- `LinkCleaner.suggestLabel` is not part of this model; it is a parameter of the save operations.
- The thumbnail fetch (`LinkThumbnailExtractor`), OCR (`TextExtractor`) and the image import are parameters. This covers the file copy, the `FileProvider` URI and the permission grants. Only their per-element `Option` results are modelled.
- Clipboard, re-share and "Clean + Re-share" intent building are platform calls with no state of their own.
- `ReminderReceiver`, `ReminderActionReceiver`, notifications and `App` are left out, since they are notification building. No snooze or done state is modelled.
- Flows, `debounce(200)`, `distinctUntilChanged`, `flatMapLatest`, `combine`, `stateIn` and coroutines are not modelled. Each operation is atomic and sequential. Races on `isSaving` are not modelled.
- SQL `LIKE` is modelled as plain substring containment. ASCII case folding and the `%` and `_` wildcards in the query are not modelled.
- Store.ItemDao.Listing: the relative order of rows with equal `pinned` and `createdAt` is left open, as SQL leaves it.
- Store.ItemDao.DeleteBulk, Store.ItemDao.SetPinnedBulk, Store.ItemDao.SetReminder, Store.ItemDao.ObserveAllOnce: these are called but not declared in `ItemDao.kt`. Each is given the map contract its name implies.
- `String.hashCode` is a parameter (`hash`), so its Java definition is not modelled.
- Rendering is left out: Compose layout, animation, `DateUtils` relative phrases (a parameter of `Screen.ReminderText`), `SimpleDateFormat` dates, Toasts and `finish()`.
- `MainActivity`'s copy action is the same decision as `InboxVM.CopyChoice`, without the "Nothing to copy" toast. Its label dialog and remaining-time text are the same expressions as the inbox screen's, modelled once.
- `MainActivity`'s other dialog flags, and the share screen's notification-permission request, are UI state with no rule to prove.
- Boot.Reschedule: an exception is modelled as an optional failure index supplied by the caller. The cause of the exception is not modelled.
- LinkCleaner.CleanedKeepsValues: a parameter's values are looked up by its decoded name. Android's `getQueryParameters(name)` matches `URLEncoder.encode(name)` against the raw query, so in the app a name whose raw form differs from that encoding (one holding `~`, `+`, `%20`, a lower-case escape or `!'()`) finds no values and is dropped: `https://x.com/p?a~b=1&id=2` becomes `…?id=2`, while the model keeps `a~b=1`. The model works on decoded names and does not capture this.
- Strings.Take: when the 80th UTF-16 unit is the first half of a surrogate pair, Kotlin's `take(80)` keeps that lone half. A Dafny `string` cannot hold a lone surrogate, so the model stops before the pair.
- Strings.Fold: case-insensitive comparison folds only the characters whose fold key is an ASCII letter. Every such comparison in the app is against an ASCII name or prefix, and there the rule is exact; two non-ASCII letters of different case are not matched.
- Strings.DigitOf: the decimal-digit table is that of Unicode 15. A device whose character data is of another Unicode version may accept other digits.
- Share.ShareSession.EnsureSaved: a throwing save is modelled as a flag of the save's environment. The exception's cause and the crash it causes when it escapes the coroutine are not modelled.

## Findings

| source | as written | input that shows it | evidently intended | confidence | as-written member | corrected member |
|---|---|---|---|---|---|---|
| app/src/main/java/com/mrunicorn/sb/ui/components/ReminderDialog.kt:80-84 | the guard only checks that the value parses and is positive; `value * 24 * 60 * 60 * 1000L` then wraps as a `Long` | input `106751991168` with unit DAYS gives `-9223372036794351616` ms, a reminder in the past | reject a value whose duration does not fit a `Long`, like an unparsable one | not executed | Dialog.ConfirmOverflows | Dialog.CheckedMillis |

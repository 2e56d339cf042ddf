# kjump bookmark launcher — a verified model of its core

kjump is a desktop launcher for bookmarks and daily tasks. The Electron main process keeps the bookmarks in a SQLite file. A React window searches, opens, edits and deletes them, and a second page keeps a to-do list per day. Without Electron the window runs in a browser and keeps its links locally.

This project models the rules of that core in Dafny:

- **The SQLite store** (`src/services/database.ts`). `Database.Store` is a class that owns:
  - the open/closed state of the `db` handle;
  - the rows of `links`;
  - the AUTOINCREMENT counter behind the ids;
  - an abstract clock standing for `CURRENT_TIMESTAMP`;
  - the `settings` table as a key/value map.

  Every exported operation is a method on it. A statement run on a closed handle returns `Failure(StoreClosed)`, because `db!` on `null` throws. A duplicate url returns `Failure(UniqueViolation)`, because of the UNIQUE column. `ORDER BY visit_count DESC, created_at DESC` and `LIKE '%q%'` are modelled in full:
  - the `%` and `_` wildcards;
  - ASCII case-insensitivity;
  - NULL never matching.
- **The url scheme rule** of `openUrl` (`src/services/urlLauncher.ts`).
- **The search hook** (`src/hooks/useSearchLinks.ts`): the blank-query rule and the browser-mode filter. The hook's state is a small class.
- **The tag menu** (`src/components/TagFilterButton.tsx`): tag extraction runs as the nested loops the component uses. A sort sits behind it, and the component also computes the button label.
- **The main window** (`src/App.tsx`): keyboard navigation, and the delete, open, edit, create and Escape handlers. They act on the links store.
- **The tasks page** (`src/pages/TaskManager.tsx`): the incomplete-only view and the toggle, delete, create and edit handlers. Also the editor's normalisation on save.
- **The two stores** (`src/store/linkStore.ts`, `src/store/taskStore.ts`): classes whose setters overwrite one field each. Setting the query or the date also resets the highlight.

The JavaScript string operations the code relies on live in `Text`:
- `trim` over the WhiteSpace and LineTerminator characters;
- ASCII case folding (`Fold`, `Lower`), as SQLite's `LIKE` and the non-Unicode `i` regex flag compare;
- `toLowerCase` (`JsFold`, `JsLower`) for the letters of the Basic Latin, Latin-1 Supplement and basic Cyrillic blocks, and the Kelvin sign;
- `startsWith`, `includes` and `split(',')`;
- the default order of `sort()`.

Where the two implementations of one rule differ, the model keeps both and proves where they agree and where they part:
- **Scheme prefixing.** The browser-mode test is case-insensitive (`/^https?:\/\//i`). `openUrl` on the desktop is case-sensitive. `App.UpperCaseSchemeDiverges` shows "HTTP://x" handled differently by the two.
- **Search.** The browser filter uses `includes` on lower-cased text. The store uses `LIKE`. `toLowerCase` folds non-ASCII letters and `LIKE` does not. `SearchLinks.BrowserAgreesWithStore` shows that for an ASCII query without `%` or `_` they accept the same links, provided no field of the link holds `İ` (U+0130) or the Kelvin sign (U+212A), the only non-ASCII characters that `toLowerCase` turns into ASCII letters. `SearchLinks.KelvinSignDiverges` shows the Kelvin sign parting them even for the ASCII query "k". `SqlLike.UnderscoreIsAWildcard` shows that a query with `_` is where they differ, and `SearchLinks.AccentedQueryDiverges` that the query "é" is another: the browser finds the title "É" and the store does not.
- **Visit count.** The window's local visit bump keeps `updated_at`. The store's `incrementVisitCount` refreshes it (`App.BumpMirrorsStore`).

How the code behaves and what the model follows:
- **Desktop-mode link edit.** The renderer exposes an `update-link` channel (electron/preload.ts:27), but the main process registers no handler for it. The awaited call therefore rejects, and `handleUpdateLink` falls into its `catch` branch, which runs the local update. `App.AppView.HandleUpdateLink` is that local update, in both modes.
- **Desktop-mode tasks.** The main process registers no handler for any task channel either. On the desktop every task handler awaits a call that rejects, and it stops before touching state. `TaskManager.TaskPage` models this as "no change" when `desktop` is set, and otherwise the browser-mode list update.
- **Timestamps.** `incrementVisitCount` and `updateLink` both refresh `updated_at`, and the model does too.

## Model

| member | source | states |
|---|---|---|
| Database.SeededKeys | src/services/database.ts:58-71 | insert-if-absent seeding never overwrites a stored value, adds every default key, and adds no other key |
| Database.SeededNoop | src/services/database.ts:66-70 | seeding a map that already holds every default key leaves it unchanged |
| Database.SeedingIdempotent | src/services/database.ts:58-71 | seeding twice gives the same settings as seeding once |
| Database.Store.constructor | src/services/database.ts:6 | before `initDatabase` the handle is null and the tables are empty |
| Database.Store.InitDatabase | src/services/database.ts:11-17 | opening keeps existing rows (`CREATE TABLE IF NOT EXISTS`) and seeds the default settings |
| Database.Store.InsertDefaultSettings | src/services/database.ts:58-71 | on an open handle, the loop inserts each of the four defaults only where its key is absent; the rows are untouched |
| Database.Store.GetAllLinks | src/services/database.ts:76-82 | every row exactly once (same multiset), ordered by visit count descending, then creation time descending; a closed handle fails |
| Database.Store.SearchLinks | src/services/database.ts:87-106 | exactly the rows whose title, url or tags is `LIKE '%q%'`, also `tags LIKE '%tag%'` only for a non-empty tag; each once, in the `getAllLinks` order |
| Database.Store.CreateLink | src/services/database.ts:111-129 | a stored url fails with a UNIQUE violation and nothing changes; otherwise one row is appended with the next id, 0 visits and NULL for empty favicon or tags, and the returned record echoes the inputs; either way exactly one row holds the url |
| Database.Store.UpdateLink | src/services/database.ts:134-142 | only title, url and tags (NULL when empty) of that row change, and `updated_at` is set; an unknown id changes nothing; another row's url fails with a UNIQUE violation |
| Database.Store.IncrementVisitCount | src/services/database.ts:147-155 | that row gains one visit and a new `updated_at`; every other row is untouched |
| Database.Store.DeleteLink | src/services/database.ts:160-163 | the rows without that id remain, in order; ids and urls stay unique |
| Database.Store.GetSettings | src/services/database.ts:168-178 | the loop copies every settings row, so the record equals the settings table |
| Database.Store.UpdateSetting | src/services/database.ts:183-186 | an existing key gets the new value; an absent key is never created |
| Database.Store.CloseDatabase | src/services/database.ts:191-196 | the handle is released, a second close does nothing, and the data is kept |
| Database.CreateVisitDeleteScenario | src/services/database.ts:111-163 | create, a clock tick, three visits, listing shows one row with 3 visits and `updated_at` after `created_at`, a duplicate create fails, two deletes leave an empty table |
| LinkTable.InsertByRank | src/services/database.ts:79 | inserting into the ORDER BY list adds exactly that row (multiset) |
| LinkTable.InsertByRankKeepsOrder | src/services/database.ts:79 | inserting keeps the visit-count-then-creation-time order |
| LinkTable.SortByRank | src/services/database.ts:79 | the ordered result is a permutation of the rows and is ordered |
| LinkTable.FilterKeepsRankOrder | src/services/database.ts:101 | a WHERE filter over an ordered list stays ordered |
| LinkTable.SearchSemantics | src/services/database.ts:90-99 | for wildcard-free query and tag, a row matches iff the lower-cased title, url or tags contains the lower-cased query, and (for a non-empty tag) non-NULL tags contain the tag |
| LinkTable.TagFilterIsSubstring | src/services/database.ts:96-99 | the tag clause is a substring test: tag "dev" selects tags "development" |
| LinkTable.Lookup | src/services/database.ts:138 | finds a row with the id exactly when one exists |
| LinkTable.OneRowPerUrl | src/services/database.ts:27 | with unique urls, a stored url is held by exactly one row |
| LinkTable.NoRowWithUrl | src/services/database.ts:27 | an absent url is held by no row |
| LinkTable.WithoutIdEffect | src/services/database.ts:161 | after the delete no row carries the id, every other row is kept, and the order is preserved |
| LinkTable.DeleteTwice | src/services/database.ts:160-163 | a second delete of the same id changes nothing |
| LinkTable.DeleteUnknown | src/services/database.ts:160-163 | deleting an id no row carries changes nothing |
| LinkTable.FilterKeepsUnique | src/services/database.ts:25-27 | removing rows keeps ids and urls unique |
| LinkTable.WithVisitLookup | src/services/database.ts:148-154 | the row with the id has visit count + 1 and new `updated_at`, every other row looks up unchanged |
| LinkTable.WithVisitUnknown | src/services/database.ts:147-155 | incrementing an unknown id changes nothing |
| LinkTable.VisitedTimesCount | src/services/database.ts:147-155 | n increments raise the row's count by exactly n |
| LinkTable.WithEditLookup | src/services/database.ts:135-141 | the edited row keeps id, favicon, visit count and creation time and takes the new title, url and tags; other rows unchanged |
| LinkTable.WithEditKeepsUnique | src/services/database.ts:25-27 | an edit that takes no other row's url keeps ids and urls unique |
| Records.NullIfEmpty | src/services/database.ts:117 | the or-null fallback: NULL exactly when the value is absent or empty, otherwise the value itself |
| SqlLike.LikeSurroundedIsContains | src/services/database.ts:90-93 | for a query without wildcards, `LIKE '%q%'` holds iff the ASCII-lower-cased text contains the lower-cased query |
| SqlLike.LikePrefixPattern | src/services/database.ts:93 | for a wildcard-free q, `LIKE 'q%'` is a case-insensitive prefix test |
| SqlLike.UnderscoreIsAWildcard | src/services/database.ts:93 | a `_` in the query matches any character, so "a-c" is found by "a_c" though it does not contain it |
| UrlLauncher.NormalizeUrl | src/services/urlLauncher.ts:8-10 | a url starting with "http://" or "https://" is kept; any other gets "https://" in front |
| UrlLauncher.NormalizedHasScheme | src/services/urlLauncher.ts:8-10 | the result always starts with a web scheme and ends with the original url |
| UrlLauncher.NormalizeIdempotent | src/services/urlLauncher.ts:8-10 | normalising twice equals normalising once |
| UrlLauncher.UpperCaseSchemeIsPrefixed | src/services/urlLauncher.ts:8 | the test is case-sensitive: "HTTP://x" becomes "https://HTTP://x" |
| SearchLinks.BlankQueryFindsNothing | src/hooks/useSearchLinks.ts:13-17 | an empty or all-whitespace query gives no results |
| SearchLinks.BrowserSearchResults | src/hooks/useSearchLinks.ts:27-38 | the results are a subsequence of the source in its order, every result matches (`toLowerCase`d title, url or tags contain the `toLowerCase`d query), and every source link left out does not match |
| SearchLinks.UntaggedFoundByTitleOrUrl | src/hooks/useSearchLinks.ts:32 | a link without tags is found only through its title or url |
| SearchLinks.BrowserAgreesWithStore | src/hooks/useSearchLinks.ts:27-33 | for a non-blank ASCII query without `%`/`_` and a link without `İ` or the Kelvin sign, the browser filter accepts the link iff the store's `searchLinks` (no tag) does |
| SearchLinks.KelvinSignDiverges | src/hooks/useSearchLinks.ts:27-30 | the browser filter finds the title "K" (U+212A) by the ASCII query "k", and the store's `LIKE` does not |
| SearchLinks.AccentedQueryDiverges | src/hooks/useSearchLinks.ts:27-30 | the browser filter finds the title "É" by the query "é", and the store's `LIKE` does not |
| SearchLinks.SearchHook.constructor | src/hooks/useSearchLinks.ts:8-9 | the hook starts with no links and not loading |
| SearchLinks.SearchHook.RunBrowserSearch | src/hooks/useSearchLinks.ts:11-48 | a blank query clears the results and leaves `loading`; otherwise the results are the browser filter and loading ends false |
| TagFilter.NonEmptyMembership | src/components/TagFilterButton.tsx:15 | `.filter(Boolean)` into a set keeps exactly the non-empty strings |
| TagFilter.AllTagsMembership | src/components/TagFilterButton.tsx:15 | a tag is collected iff some link contributes it |
| TagFilter.TagsAreTrimmedPieces | src/components/TagFilterButton.tsx:15 | a tag is offered iff it is the non-empty trimmed form of a comma-separated piece of some link's tags |
| TagFilter.TagsAreNonEmptyAndTrimmed | src/components/TagFilterButton.tsx:15 | every offered tag is non-empty with no leading or trailing whitespace |
| TagFilter.UntaggedContributesNothing | src/components/TagFilterButton.tsx:15 | a link with absent or empty tags contributes no tag |
| TagFilter.StrictlySortedIsDistinct | src/components/TagFilterButton.tsx:16 | a strictly sorted tag list has no duplicates |
| TagFilter.InsertSorted | src/components/TagFilterButton.tsx:16 | inserting adds exactly that tag to the list's elements |
| TagFilter.InsertSortedKeepsOrder | src/components/TagFilterButton.tsx:16 | inserting a new tag keeps the list strictly ascending |
| TagFilter.SortTags | src/components/TagFilterButton.tsx:16 | `Array.from(set).sort()`: strictly ascending, with exactly the set's elements |
| TagFilter.AddLinkTags | src/components/TagFilterButton.tsx:15 | the inner loop adds exactly one link's tags to the set |
| TagFilter.CollectTags | src/components/TagFilterButton.tsx:14-15 | the outer loop collects exactly the tags of all links |
| TagFilter.ExtractTags | src/components/TagFilterButton.tsx:13-17 | the memo is strictly ascending (so duplicate-free) and holds exactly the tags of all links |
| TagFilter.CurrentLabel | src/components/TagFilterButton.tsx:19-21 | a "tag:X" category is labelled X; any other category "全部" |
| TagFilter.LabelOfChosenTag | src/components/TagFilterButton.tsx:19-21 | choosing tag X labels the button X |
| App.NavigateUp | src/App.tsx:286 | `max(0, i-1)`: never below 0, and either 0 or one above |
| App.NavigateDown | src/App.tsx:290 | `min(len-1, i+1)`: never past the last index, and either the last index or one below |
| App.NavigationStaysInRange | src/App.tsx:285-291 | from a valid row, up and down stay on valid rows at most one step away |
| App.NavigateDownInEmptyList | src/App.tsx:290 | in an empty list moving down sets the highlight to -1 |
| App.DisplayLinks | src/App.tsx:23 | an empty query shows all links, any other the search results |
| App.ProcessedTagsShape | src/App.tsx:188 | tags are kept iff not blank, and then trimmed, non-empty, and stable under a second trim; the kept value is the trim of the input |
| App.BumpMirrorsStore | src/App.tsx:236-238 | the local bump equals the store's increment row by row except that `updated_at` is kept |
| App.BumpAddsOneVisitPerMatch | src/App.tsx:236-238 | the total visit count rises by exactly the number of links with the clicked id, and other links are unchanged |
| App.BrowserTargetUrl | src/App.tsx:229-232 | a url matching `^https?://` ignoring ASCII case is kept, any other gets "https://" in front |
| App.BrowserAgreesWithLauncher | src/App.tsx:229-232 | without a scheme, or with a lower-case one, browser prefixing equals `openUrl`'s |
| App.UpperCaseSchemeDiverges | src/App.tsx:230 | "HTTP://x" is kept in the browser but prefixed by `openUrl` |
| App.NewBrowserLink | src/App.tsx:140-148 | the new link has the given id, title and url, no favicon, processed tags, 0 visits and both timestamps now |
| App.AppView.constructor | src/App.tsx:16-19 | settings closed, quick-create fields empty, nothing being edited |
| App.AppView.HandleNavigateUp | src/App.tsx:285-287 | the highlight becomes `max(0, i-1)`; nothing else changes |
| App.AppView.HandleNavigateDown | src/App.tsx:289-291 | the highlight becomes `min(shown-1, i+1)` over the shown list; nothing else changes |
| App.AppView.HandleDeleteLink | src/App.tsx:168-182 | the links become those without that id, in order |
| App.AppView.HandleSelect | src/App.tsx:293-297 | Enter on a highlighted shown link opens it and bumps its visits exactly as a click does; with no link at the highlight nothing is opened and nothing changes |
| App.AppView.HandleDeleteSelected | src/App.tsx:299-305 | the highlighted shown link is deleted when the dialog is confirmed; otherwise, or with no link at the highlight, the links stay |
| App.AppView.HandleLinkClick | src/App.tsx:226-255 | the opened address is `openUrl`'s on the desktop and the case-insensitive prefixing in the browser; the clicked link gains one visit |
| App.AppView.HandleUpdateLink | src/App.tsx:184-224 | the matching links take title, url, processed tags and a new `updated_at`; editing closes |
| App.AppView.HandleCreateLink | src/App.tsx:135-156 | the new link is prepended, the form closes and the quick-create fields clear |
| App.AppView.HandleCreatedLink | src/App.tsx:158-165 | a created link is prepended and the form closes and clears; a rejected create changes nothing |
| App.AppView.HandleEscape | src/App.tsx:307-316 | close the create form first, else the settings dialog, else clear the query and reset the highlight to 0 |
| TaskManager.DisplayTasksExact | src/pages/TaskManager.tsx:138-141 | with onlyIncomplete, exactly the tasks with completed 0, each as often as it occurs, in order; otherwise all tasks |
| TaskManager.ToggleEffect | src/pages/TaskManager.tsx:147 | only tasks with the id change, only their flag, which becomes 1 or 0; flags that were 0/1 stay 0/1 |
| TaskManager.ToggleRoundTrip | src/pages/TaskManager.tsx:147 | completing then reopening restores a list whose tasks with that id were incomplete |
| TaskManager.ToggleAndView | src/pages/TaskManager.tsx:138-147 | a completed task leaves the incomplete view; a reopened one is in it |
| TaskManager.ToggleArgument | src/pages/TaskManager.tsx:30 | the button passes true exactly for an incomplete task |
| TaskManager.ToggleButtonFlips | src/pages/TaskManager.tsx:30 | pressing the button flips the task between incomplete and complete |
| TaskManager.RemoveTaskEffect | src/pages/TaskManager.tsx:154 | no task with the id remains; every other task is kept as often as it occurred, in order |
| TaskManager.TargetDate | src/pages/TaskManager.tsx:158 | an empty date falls back to the chosen day |
| TaskManager.CreatedTask | src/pages/TaskManager.tsx:163-172 | the new task is incomplete and dated with the given date or else the chosen day |
| TaskManager.UpdateEffect | src/pages/TaskManager.tsx:184 | matching tasks take the new title and notes, keep their date when none is given and take the given one otherwise, keep flag and creation time; others unchanged |
| TaskManager.EditorSaveNormalises | src/pages/TaskManager.tsx:106 | the saved title is the trim of the input; a blank note becomes absent, any other is kept as its trim |
| TaskManager.TaskPage.constructor | src/pages/TaskManager.tsx:123-124 | nothing being edited, full view |
| TaskManager.TaskPage.OnToggle | src/pages/TaskManager.tsx:143-148 | in the browser the id's flag becomes 1 or 0, and a completed task leaves the incomplete-only list; on the desktop nothing changes |
| TaskManager.TaskPage.OnDelete | src/pages/TaskManager.tsx:150-155 | in the browser the tasks with the id are removed and leave the shown list; on the desktop nothing changes |
| TaskManager.TaskPage.OnCreate | src/pages/TaskManager.tsx:157-177 | in the browser a new incomplete task is prepended and the form closes; on the desktop nothing changes |
| TaskManager.TaskPage.OnUpdate | src/pages/TaskManager.tsx:179-187 | in the browser the task is edited in place and the editor closes; on the desktop nothing changes |
| LinkStoreState.LinkStore.constructor | src/store/linkStore.ts:17-22 | no links, empty query, highlight 0, form closed, category "all" |
| LinkStoreState.LinkStore.SetLinks | src/store/linkStore.ts:23-29 | replaces only the links |
| LinkStoreState.LinkStore.SetSearchQuery | src/store/linkStore.ts:30 | sets the query and resets the highlight to 0; nothing else changes |
| LinkStoreState.LinkStore.SetSelectedIndex | src/store/linkStore.ts:31 | changes only the highlight |
| LinkStoreState.LinkStore.SetIsCreating | src/store/linkStore.ts:32 | changes only the form flag |
| LinkStoreState.LinkStore.SetSelectedCategory | src/store/linkStore.ts:33 | changes only the category |
| TaskStoreState.TaskStore.constructor | src/store/taskStore.ts:15-19 | no tasks, highlight 0, form closed, the given start-up date |
| TaskStoreState.TaskStore.SetTasks | src/store/taskStore.ts:20 | replaces only the tasks |
| TaskStoreState.TaskStore.SetSelectedDate | src/store/taskStore.ts:21 | sets the date and resets the highlight to 0 |
| TaskStoreState.TaskStore.SetSelectedIndex | src/store/taskStore.ts:22 | changes only the highlight |
| TaskStoreState.TaskStore.SetIsCreating | src/store/taskStore.ts:23 | changes only the form flag |
| Text.TrimStartShape | src/hooks/useSearchLinks.ts:13 | `trim` drops only leading whitespace, and what is left starts with a non-space |
| Text.TrimEndShape | src/hooks/useSearchLinks.ts:13 | `trim` drops only trailing whitespace, and what is left ends with a non-space |
| Text.TrimShape | src/hooks/useSearchLinks.ts:13 | `s.trim()` is empty iff `s` is all whitespace, and otherwise starts and ends with a non-space |
| Text.TrimOfTrimmed | src/components/TagFilterButton.tsx:15 | a string without surrounding whitespace is its own trim |
| Text.TrimIdempotent | src/components/TagFilterButton.tsx:15 | trimming twice equals trimming once |
| Text.ContainsAt | src/hooks/useSearchLinks.ts:30-32 | `includes` holds when the text has the substring at some offset |
| Text.ContainsWitness | src/hooks/useSearchLinks.ts:30-32 | when `includes` holds, there is an offset where the substring occurs |
| Text.JoinSplit | src/components/TagFilterButton.tsx:15 | `split(',')` gives pieces without commas that join back to the input |
| Text.SplitJoin | src/components/TagFilterButton.tsx:15 | splitting comma-free pieces joined with commas gives the pieces back |
| Text.LexIrreflexive | src/components/TagFilterButton.tsx:16 | the sort order never puts a string before itself |
| Text.LexTransitive | src/components/TagFilterButton.tsx:16 | the sort order is transitive |
| Text.FoldsAgreeOnAscii | src/hooks/useSearchLinks.ts:27-32 | except on `İ` and the Kelvin sign, `toLowerCase` and ASCII folding agree wherever either gives an ASCII character, so on ASCII text they are equal |
| Text.AsciiTermContainsAgrees | src/hooks/useSearchLinks.ts:30-32 | for an ASCII term and a text without `İ` or the Kelvin sign, `includes` on the `toLowerCase`d text and on the ASCII-folded text give the same answer |
| Text.LexTotal | src/components/TagFilterButton.tsx:16 | any two different strings are ordered one way or the other |
| Seqs.Filter | src/App.tsx:171 | `filter` keeps only accepted elements, and every accepted element |
| Seqs.FilterIsSubsequence | src/App.tsx:171 | `filter` keeps the original order |
| Seqs.FilterCount | src/pages/TaskManager.tsx:154 | `filter` keeps each accepted element as often as it occurs and drops the others |
| Seqs.FilterOfPermutation | src/services/database.ts:101 | filtering a permutation gives a permutation of the filtered list |
| Seqs.FilterKeepsAll | src/services/database.ts:160-163 | a filter every element passes changes nothing |

## Left out

- The Electron process and window lifecycle are not modelled: global shortcuts, the single-instance lock, auto-update and the dock icon. They are host plumbing with no data rules.
- The IPC bridges (electron/preload.ts, src/preload.ts, electron/main.ts) are not modelled. They forward calls unchanged.
- The desktop `search-links` handler drops the `tag` argument, so the desktop app always searches without a tag (electron/main.ts:175-177). `Database.Store.SearchLinks` models the function with its tag.
- `shell.openExternal` and `window.open` are foreign calls. Only the address handed to them is modelled, as `HandleLinkClick`'s result.
- localStorage persistence and storage events are left out, and so is the JSON round trip they imply. The store's links are exactly what the setters put there.
- The 300 ms debounce in the search hook is left out. `RunBrowserSearch` is one run of the effect once the timer fires.
- `handleSearchEnter` and `isValidUrl` are left out: they depend on the URL constructor's host parsing.
- App.AppView.HandleDeleteSelected: the `confirm` dialog is user input, so its answer is the `confirmed` parameter.
- `handleClearData` is not modelled.
- The desktop search path of the hook is left out: it forwards to the store's `searchLinks`, which is modelled.
- Database.Store.SearchLinks: letters are case-folded for ASCII only, as SQLite's built-in LIKE does.
- App.BrowserTargetUrl: case is folded for ASCII only.
- SearchLinks.BrowserSearchResults: `toLowerCase` is modelled by `Text.JsLower`, which lower-cases the letters of the Basic Latin, Latin-1 Supplement and basic Cyrillic blocks; other cased letters (Greek, Latin Extended and the rest) are left as they are, and mappings that change the length ("İ") or depend on context (final sigma) are not modelled.
- SearchLinks.BrowserAgreesWithStore: agreement is proved for ASCII queries and links without `İ` or the Kelvin sign only. For other queries the two filters differ (`SearchLinks.AccentedQueryDiverges`); a link holding the Kelvin sign parts them even on an ASCII query (`SearchLinks.KelvinSignDiverges`), and so does one holding `İ`, whose two-character lower case `Text.JsLower` does not model; beyond the letters `Text.JsLower` covers the model does not say how the filters compare.
- SearchLinks.SearchHook.RunBrowserSearch: its results use `Text.JsLower` and carry the same limit on `toLowerCase` as `SearchLinks.BrowserSearchResults`.
- Text.LexTransitive, TagFilter.SortTags, TagFilter.ExtractTags: `sort()` compares UTF-16 code units. The model compares code points, so the two orders differ for characters outside the Basic Multilingual Plane, and so can the order of the extracted tags.
- Database.Store.UpdateSetting: does not model `settings.updated_at`. No operation reads it.
- Database.Store.CreateLink: the integer width of AUTOINCREMENT and its exhaustion are not modelled; ids are unbounded.
- `CURRENT_TIMESTAMP`, `new Date()` and `Date.now()` are parameters or an abstract clock. The clock moves only through `AdvanceClock`, so two rows can share a creation time, as they can within one second in SQLite.
- TaskStoreState.TaskStore.constructor: the start-up date is a parameter instead of being derived from the system clock.
- The tag menu's `open` flag is left out. It only shows and hides the list.
- React rendering and the form components are left out, and so are the keyboard-shortcut DOM dispatch and the test-data hook.
- The indexes on `links` are left out. They affect speed only.

# Aniyomi library queries, extension details and main navigation in Dafny

This project models three parts of the Aniyomi Android app and proves
properties of them.

- **Library queries** (`library_queries.dfy`, module `LibraryQueries`). These
  are the SQL queries behind the manga library and the anime library. They
  are modelled as functions over in-memory tables: items (manga or anime),
  sub-items (chapters or episodes, each with a read or seen flag), and
  category links. The result has one row per favourite item and linked
  category. Each row carries the item's unread and read counts, and an item
  without a category gets category 0. The rows follow title order. One model
  serves both media. The per-item category lookup is an inner join.
- **Extension details** (`extension_details.dfy`, module `ExtensionDetails`).
  This is the presenter of the anime extension details screen:
  - the changelog and readme links it builds into the extensions repository;
  - the order of the extension's sources (enabled first, then by label,
    stable);
  - the base URLs whose cookies are cleared;
  - the source ids that are toggled;
  - the presenter's state (`extension`, `isLoading`, `sources`), as a class
    updated by the two flows that feed it.
- **Main navigation** (`main_navigation.dfy`, module `MainNavigation`). This
  is the state machine of the main activity.
  - The Conductor router is a class holding a backstack of transactions
    (root first), with `setRoot`, `pushController`, `popToRoot` and
    `handleBack`. The root is never popped.
  - The activity is a class with the fields its methods update: the
    selected item, `isHandlingShortcut`, `ready`, `isConfirmingExit`, the
    lift-state map, the lifted flag, the up button and the two badges.
  - The model covers the navigation listener, `setSelectedNavItem` and its
    fallback, and the intent dispatch. It also covers the back-press
    decision tree, the exit confirmation, the splash condition, the badge
    arithmetic, and the lift state that is saved on push and restored on pop.

Shared helpers:
- `wrappers.dfy` holds `Option`.
- `text.dfy` holds the Kotlin string operations used: string order,
  `substringAfter`, `split`, `replace` and `lowercase`. It also holds two
  predicates, `StartsWith` and `EndsWith`, that only the contracts use.
- `sequences.dfy` holds `sortedWith` as a stable insertion sort, and
  `distinct`.

Two places where the code's behaviour is easy to miss are modelled as
written:
- Kotlin's `substringAfter` strips the first occurrence of the prefix
  anywhere in the package name, not only at its start.
- A manga or anime shortcut without extras returns `false` and leaves
  `isHandlingShortcut` set.

## Model

Source paths are relative to the repository root. R is
`app/src/main/java/eu/kanade/tachiyomi/data/database/queries/RawQueries.kt`, P
is `app/src/main/java/eu/kanade/tachiyomi/ui/browse/animeextension/details/AnimeExtensionDetailsPresenter.kt`,
and M is `app/src/main/java/eu/kanade/tachiyomi/ui/main/MainActivity.kt`. The
table spells each path out in full.

| member | source | states |
|---|---|---|
| Text.LexLeTotal | app/src/main/java/eu/kanade/tachiyomi/data/database/queries/RawQueries.kt:36 | Any two titles compare under the string order used by ORDER BY and `compareTo`. |
| Text.LexLeTransitive | app/src/main/java/eu/kanade/tachiyomi/data/database/queries/RawQueries.kt:36 | The string order is transitive, so sorting by it is well defined. |
| Text.SubstringAfterPrefix | app/src/main/java/eu/kanade/tachiyomi/ui/browse/animeextension/details/AnimeExtensionDetailsPresenter.kt:76 | A package name that starts with the prefix loses exactly that prefix. |
| Text.SubstringAfterAbsent | app/src/main/java/eu/kanade/tachiyomi/ui/browse/animeextension/details/AnimeExtensionDetailsPresenter.kt:93 | A package name that does not contain the prefix is returned unchanged. |
| Text.IndexOf | app/src/main/java/eu/kanade/tachiyomi/ui/browse/animeextension/details/AnimeExtensionDetailsPresenter.kt:76 | The index found is an occurrence with no earlier occurrence; no index is found exactly when the string never occurs. |
| Text.SubstringAfter | app/src/main/java/eu/kanade/tachiyomi/ui/browse/animeextension/details/AnimeExtensionDetailsPresenter.kt:76 | `substringAfter` returns a suffix of the name: the whole name when the delimiter never occurs, otherwise what follows its first occurrence. |
| Text.Split | app/src/main/java/eu/kanade/tachiyomi/ui/browse/animeextension/details/AnimeExtensionDetailsPresenter.kt:130 | `split(".")` gives at least one piece, and no piece holds a dot. |
| Text.JoinSplit | app/src/main/java/eu/kanade/tachiyomi/ui/browse/animeextension/details/AnimeExtensionDetailsPresenter.kt:130 | Joining the pieces of a split with the separator gives back the string. |
| Text.SplitJoin | app/src/main/java/eu/kanade/tachiyomi/ui/browse/animeextension/details/AnimeExtensionDetailsPresenter.kt:130 | Splitting a join of separator-free pieces gives back the pieces. |
| Text.LastSegmentIsSuffix | app/src/main/java/eu/kanade/tachiyomi/ui/browse/animeextension/details/AnimeExtensionDetailsPresenter.kt:130 | The last piece (`lastOrNull`) holds no dot and ends the name. It is the whole name exactly when there is one piece, and otherwise follows a dot. |
| Text.ReplaceChar | app/src/main/java/eu/kanade/tachiyomi/ui/browse/animeextension/details/AnimeExtensionDetailsPresenter.kt:133 | `replace(".", "/")` keeps the length, turns every dot into a slash, keeps every other character, and leaves no dot. |
| Text.Lowercase | app/src/main/java/eu/kanade/tachiyomi/ui/browse/animeextension/details/AnimeExtensionDetailsPresenter.kt:62 | Lower-casing keeps the length and lower-cases each character (ASCII letters). |
| Sequences.SortBy | app/src/main/java/eu/kanade/tachiyomi/ui/browse/animeextension/details/AnimeExtensionDetailsPresenter.kt:59-63 | `sortedWith` returns a permutation of its input. |
| Sequences.SortBySorted | app/src/main/java/eu/kanade/tachiyomi/ui/browse/animeextension/details/AnimeExtensionDetailsPresenter.kt:59-63 | Under a total preorder the result is sorted: every element is ordered before every later one. |
| Sequences.SortByStable | app/src/main/java/eu/kanade/tachiyomi/ui/browse/animeextension/details/AnimeExtensionDetailsPresenter.kt:59-63 | The sort is stable: elements that compare equal keep their input order. |
| Sequences.SortByPairwise | app/src/main/java/eu/kanade/tachiyomi/data/database/queries/RawQueries.kt:35-36 | Sorting keeps any relation that holds between every two distinct positions, such as distinct ids. |
| Sequences.Distinct | app/src/main/java/eu/kanade/tachiyomi/ui/browse/animeextension/details/AnimeExtensionDetailsPresenter.kt:102 | `distinct()` has no duplicates and holds exactly the elements of its input. |
| Sequences.DistinctOfNoDuplicates | app/src/main/java/eu/kanade/tachiyomi/ui/browse/animeextension/details/AnimeExtensionDetailsPresenter.kt:102 | A list without duplicates is its own `distinct()`. |
| LibraryQueries.CountFlaggedIsCardinality | app/src/main/java/eu/kanade/tachiyomi/data/database/queries/RawQueries.kt:20-33 | The unread (read) count of an item is the number of its chapters whose read column is 0 (1). |
| LibraryQueries.CountsCoverOwned | app/src/main/java/eu/kanade/tachiyomi/data/database/queries/RawQueries.kt:18-33 | Unread plus read never exceeds the item's chapters, and equals it when every read value is 0 or 1. An item with no chapters has both counts 0 (COALESCE). |
| LibraryQueries.CountFlagged | app/src/main/java/eu/kanade/tachiyomi/data/database/queries/RawQueries.kt:18-33 | A COALESCEd count never exceeds the number of chapters, and it is 0 exactly when no chapter of the item has that read value. |
| LibraryQueries.Favourites | app/src/main/java/eu/kanade/tachiyomi/data/database/queries/RawQueries.kt:34 | The filter keeps exactly the items whose favourite column is 1. |
| LibraryQueries.GroupById | app/src/main/java/eu/kanade/tachiyomi/data/database/queries/RawQueries.kt:35 | GROUP BY id leaves one row per id, every row from the input, and the same set of ids. |
| LibraryQueries.GroupByIdOfUnique | app/src/main/java/eu/kanade/tachiyomi/data/database/queries/RawQueries.kt:35 | On a table keyed by id, grouping keeps every row. |
| LibraryQueries.GroupByIdOfKeyedFavourites | app/src/main/java/eu/kanade/tachiyomi/data/database/queries/RawQueries.kt:34-35 | On the primary-keyed table, GROUP BY id leaves the favourites exactly as they are. |
| LibraryQueries.InnerSelection | app/src/main/java/eu/kanade/tachiyomi/data/database/queries/RawQueries.kt:16-36 | The sub-select M has at most one row per id (GROUP BY id), and its rows are in ascending title order (ORDER BY title). |
| LibraryQueries.InnerSelectionRows | app/src/main/java/eu/kanade/tachiyomi/data/database/queries/RawQueries.kt:18-34 | Every row of M is a favourite item of the table, with that item's own unread and read counts. |
| LibraryQueries.InnerSelectionCovers | app/src/main/java/eu/kanade/tachiyomi/data/database/queries/RawQueries.kt:34-35 | Every favourite item has a row in M. |
| LibraryQueries.MatchingRowsAreLinks | app/src/main/java/eu/kanade/tachiyomi/data/database/queries/RawQueries.kt:38-40 | The joined rows of an item are its row of M, once per linked category id, in link order. |
| LibraryQueries.JoinEntry | app/src/main/java/eu/kanade/tachiyomi/data/database/queries/RawQueries.kt:38-40 | The LEFT JOIN gives every row of M at least one result row, and all of them carry that row's item and counts (category 0 when nothing matches). |
| LibraryQueries.CategoryJoin | app/src/main/java/eu/kanade/tachiyomi/data/database/queries/RawQueries.kt:14-40 | The outer join has at least one row per row of M, and every result row repeats some row of M. |
| LibraryQueries.RowsPerFavourite | app/src/main/java/eu/kanade/tachiyomi/data/database/queries/RawQueries.kt:16-40 | A favourite with no category link gets exactly one row, with category 0. A favourite with N links gets exactly N rows, one per linked category, all with the same counts. |
| LibraryQueries.RowsOfNonFavourite | app/src/main/java/eu/kanade/tachiyomi/data/database/queries/RawQueries.kt:34 | An item that is absent, or not a favourite, has no row. |
| LibraryQueries.LibraryView | app/src/main/java/eu/kanade/tachiyomi/data/database/queries/RawQueries.kt:14-41 | Every result row is a favourite item with its own counts, and the rows are in ascending title order. |
| LibraryQueries.JoinKeepsTitleOrder | app/src/main/java/eu/kanade/tachiyomi/data/database/queries/RawQueries.kt:36-40 | Joining the categories keeps the title order of M. |
| LibraryQueries.LibraryQuery | app/src/main/java/eu/kanade/tachiyomi/data/database/queries/RawQueries.kt:14-41 | `libraryQuery` returns only favourite mangas. Each row's unread and read counts equal the number of the manga's chapters with read = 0 and read = 1. |
| LibraryQueries.AnimelibQuery | app/src/main/java/eu/kanade/tachiyomi/data/database/queries/RawQueries.kt:43-70 | `animelibQuery` is the same computation over animes, episodes (seen column) and anime_categories. |
| LibraryQueries.CategoriesOf | app/src/main/java/eu/kanade/tachiyomi/data/database/queries/RawQueries.kt:75-81 | The category lookup for an id returns exactly the categories linked to that id. |
| LibraryQueries.JoinCategory | app/src/main/java/eu/kanade/tachiyomi/data/database/queries/RawQueries.kt:77-80 | One category appears in the join exactly when a link from the id names it. |
| LibraryQueries.CategoriesOfUnlinked | app/src/main/java/eu/kanade/tachiyomi/data/database/queries/RawQueries.kt:86-92 | An id without links has no categories (inner join). |
| ExtensionDetails.CreateUrl | app/src/main/java/eu/kanade/tachiyomi/ui/browse/animeextension/details/AnimeExtensionDetailsPresenter.kt:126-135 | Every link starts with the given base URL and ends with the given path. |
| ExtensionDetails.ShortPackage | app/src/main/java/eu/kanade/tachiyomi/ui/browse/animeextension/details/AnimeExtensionDetailsPresenter.kt:76 | For a package under `eu.kanade.tachiyomi.animeextension.`, the short name is exactly the rest. A package without that prefix is used whole. |
| ExtensionDetails.MultisrcUrlIgnoresPackage | app/src/main/java/eu/kanade/tachiyomi/ui/browse/animeextension/details/AnimeExtensionDetailsPresenter.kt:127-129 | With a non-empty factory and no path, the link is `url + "/multisrc/src/main/java/eu/kanade/tachiyomi/multisrc/" + factory`, whatever the package. |
| ExtensionDetails.OverrideUrlSegment | app/src/main/java/eu/kanade/tachiyomi/ui/browse/animeextension/details/AnimeExtensionDetailsPresenter.kt:130 | With a factory and a path, the link is `url + "/multisrc/overrides/" + factory + "/"`, then a segment, then the path. The segment holds no dot, ends the package name, and is the whole name or follows a dot: it is the last dot-segment. |
| ExtensionDetails.SingleSourceUrlDirectory | app/src/main/java/eu/kanade/tachiyomi/ui/browse/animeextension/details/AnimeExtensionDetailsPresenter.kt:132-133 | With a null or empty factory, the link is `url + "/src/"`, then the package with dots as slashes, then the path. No dot of the package survives. For a package without slashes, the directory maps back to the package. |
| ExtensionDetails.ChangelogUrl | app/src/main/java/eu/kanade/tachiyomi/ui/browse/animeextension/details/AnimeExtensionDetailsPresenter.kt:73-84 | Empty without an extension. With a changelog, a blob link ending in `/CHANGELOG.md`. Otherwise a commits link. |
| ExtensionDetails.ReadmeUrl | app/src/main/java/eu/kanade/tachiyomi/ui/browse/animeextension/details/AnimeExtensionDetailsPresenter.kt:86-96 | Empty without an extension. The FAQ page without a readme. Otherwise a blob link ending in `/README.md`. |
| ExtensionDetails.DocumentUrlsOfSingleSource | app/src/main/java/eu/kanade/tachiyomi/ui/browse/animeextension/details/AnimeExtensionDetailsPresenter.kt:76-95 | For `eu.kanade.tachiyomi.animeextension.<rest>` without a factory, the changelog, commits and readme links name `/src/<rest with dots as slashes>`. |
| ExtensionDetails.SourceOrderTotalPreorder | app/src/main/java/eu/kanade/tachiyomi/ui/browse/animeextension/details/AnimeExtensionDetailsPresenter.kt:60-63 | The two-key comparator (not enabled, then label) is a total preorder. |
| ExtensionDetails.SourceOrder | app/src/main/java/eu/kanade/tachiyomi/ui/browse/animeextension/details/AnimeExtensionDetailsPresenter.kt:59-63 | The comparator puts every enabled source strictly before every disabled one. Within a group it orders by label. |
| ExtensionDetails.Label | app/src/main/java/eu/kanade/tachiyomi/ui/browse/animeextension/details/AnimeExtensionDetailsPresenter.kt:62 | A source's label is its name, or the display name of its language in lower case, with the same length. |
| ExtensionDetails.SortSources | app/src/main/java/eu/kanade/tachiyomi/ui/browse/animeextension/details/AnimeExtensionDetailsPresenter.kt:58-64 | The sorted list is a permutation of the sources, with every enabled source before every disabled one and labels non-decreasing within each group. |
| ExtensionDetails.SortSourcesStable | app/src/main/java/eu/kanade/tachiyomi/ui/browse/animeextension/details/AnimeExtensionDetailsPresenter.kt:59-63 | Sources with equal keys keep their input order. |
| ExtensionDetails.HttpBaseUrls | app/src/main/java/eu/kanade/tachiyomi/ui/browse/animeextension/details/AnimeExtensionDetailsPresenter.kt:99-101 | Every URL is the base URL of an HTTP source, and every HTTP source's base URL is present. |
| ExtensionDetails.CookieUrls | app/src/main/java/eu/kanade/tachiyomi/ui/browse/animeextension/details/AnimeExtensionDetailsPresenter.kt:98-102 | No URLs without an extension. Otherwise no duplicates, each one the base URL of some HTTP source of the extension, and every such base URL included. |
| ExtensionDetails.ToggleSources | app/src/main/java/eu/kanade/tachiyomi/ui/browse/animeextension/details/AnimeExtensionDetailsPresenter.kt:120-124 | No request without an extension. Otherwise every source id in order, with the requested flag. |
| ExtensionDetails.FindByPkgName | app/src/main/java/eu/kanade/tachiyomi/ui/browse/animeextension/details/AnimeExtensionDetailsPresenter.kt:40 | `firstOrNull`: null exactly when no installed extension has the package. Otherwise the first one that has it. |
| ExtensionDetails.Presenter.OnInstalledExtensions | app/src/main/java/eu/kanade/tachiyomi/ui/browse/animeextension/details/AnimeExtensionDetailsPresenter.kt:38-51 | Reports the extension as uninstalled exactly when none matches, keeping the state. Otherwise the match becomes `extension`. Loading and sources are untouched. |
| ExtensionDetails.Presenter.OnExtensionSources | app/src/main/java/eu/kanade/tachiyomi/ui/browse/animeextension/details/AnimeExtensionDetailsPresenter.kt:55-70 | Loading ends and `sources` becomes the sorted list. The extension is kept. |
| ExtensionDetails.Presenter.ChangelogLink | app/src/main/java/eu/kanade/tachiyomi/ui/browse/animeextension/details/AnimeExtensionDetailsPresenter.kt:73-84 | The changelog link is empty exactly when there is no extension. |
| ExtensionDetails.Presenter.ReadmeLink | app/src/main/java/eu/kanade/tachiyomi/ui/browse/animeextension/details/AnimeExtensionDetailsPresenter.kt:86-96 | The readme link is empty exactly when there is no extension. |
| MainNavigation.ControllerWithTag | app/src/main/java/eu/kanade/tachiyomi/ui/main/MainActivity.kt:554 | `getControllerWithTag` is null exactly when no transaction has the tag. Otherwise it is the controller of the topmost one that has it. |
| MainNavigation.RootOnly | app/src/main/java/eu/kanade/tachiyomi/ui/main/MainActivity.kt:449-451 | `popToRoot` leaves the root alone, or nothing. |
| MainNavigation.Router.SetRoot | app/src/main/java/eu/kanade/tachiyomi/ui/main/MainActivity.kt:176-181 | The backstack becomes one fresh controller, tagged with the id. |
| MainNavigation.Router.PushController | app/src/main/java/eu/kanade/tachiyomi/ui/main/MainActivity.kt:203 | One fresh, untagged controller is appended. Its instance id differs from every other one. |
| MainNavigation.Router.PopToRoot | app/src/main/java/eu/kanade/tachiyomi/ui/main/MainActivity.kt:450 | The backstack becomes `RootOnly` of itself. |
| MainNavigation.Router.HandleBack | app/src/main/java/eu/kanade/tachiyomi/ui/main/MainActivity.kt:212-213 | With `PopRootControllerMode.NEVER`, back is handled when the top consumes it (no change) or when there is more than the root (the top is popped). Otherwise it is not handled. |
| MainNavigation.AfterBackKeepsRoot | app/src/main/java/eu/kanade/tachiyomi/ui/main/MainActivity.kt:213 | Going back never changes the root and removes at most one controller, never the last. |
| MainNavigation.FirstEqual | app/src/main/java/eu/kanade/tachiyomi/ui/main/MainActivity.kt:628-630 | `firstOrNull { it == id }` is the id exactly when the array holds it. |
| MainNavigation.NavIdForId | app/src/main/java/eu/kanade/tachiyomi/ui/main/MainActivity.kt:626-632 | `getNavIdForId` returns the id exactly when the style's array holds it: style 1 uses the history array, style 2 the no-manga array, anything else the default. Otherwise it returns null. |
| MainNavigation.NavIdsOfStyles | app/src/main/java/eu/kanade/tachiyomi/ui/main/MainActivity.kt:759-781 | The start screen and browse are selectable in every style; `more` never is. Style 1 has history and no updates. Style 2 has updates and no library. Any other style has the library and no history. |
| MainNavigation.ControllerForId | app/src/main/java/eu/kanade/tachiyomi/ui/main/MainActivity.kt:634-643 | `getControllerForId` installs the same screen as the listener for every nav item, and the anime library for any other id. |
| MainNavigation.SplashReleasedOnce | app/src/main/java/eu/kanade/tachiyomi/ui/main/MainActivity.kt:163-167 | For an activity that becomes ready at some time, or never, the splash stays until a release time and not after it. That time is after 500 ms and at most 5001 ms. |
| MainNavigation.KeepSplashVisible | app/src/main/java/eu/kanade/tachiyomi/ui/main/MainActivity.kt:164-167 | The splash is always kept for the first 500 ms and never after 5000 ms. Once the activity is ready, it goes as soon as 500 ms have passed. |
| MainNavigation.UpdatesBadgeAsWritten | app/src/main/java/eu/kanade/tachiyomi/ui/main/MainActivity.kt:406-411 | As written, the badge shows exactly when the preference is on and the unread count is positive, and its number is twice the unread count. The unseen count is never read. |
| MainNavigation.UpdatesBadgeAsWrittenMiscounts | app/src/main/java/eu/kanade/tachiyomi/ui/main/MainActivity.kt:406-419 | As written, 0 unread and 3 unseen updates remove the badge, and 2 unread and 0 unseen show 4. |
| MainNavigation.UpdatesBadgeAsWrittenAgrees | app/src/main/java/eu/kanade/tachiyomi/ui/main/MainActivity.kt:407-408 | The written badge equals the intended one exactly when the badge is off or the two counts are equal. |
| MainNavigation.UpdatesBadge | app/src/main/java/eu/kanade/tachiyomi/ui/main/MainActivity.kt:406-419 | The updates badge shows exactly when the preference is on and unread plus unseen is positive. Its number is that sum. |
| MainNavigation.ExtensionsBadge | app/src/main/java/eu/kanade/tachiyomi/ui/main/MainActivity.kt:422-431 | The browse badge shows exactly when the two extension-update counts sum to more than 0. Its number is the sum. |
| MainNavigation.LiftOnPush | app/src/main/java/eu/kanade/tachiyomi/ui/main/MainActivity.kt:689-698 | On a push above the root, the outgoing controller's state is saved and every other saved entry kept. At the root the map is cleared. Either way the bar starts unlifted. |
| MainNavigation.LiftOnPop | app/src/main/java/eu/kanade/tachiyomi/ui/main/MainActivity.kt:699-705 | On a pop, the incoming controller gets its saved state back, or unlifted if none was saved. The outgoing controller's entry is removed and the others are kept. |
| MainNavigation.PushThenPopRestoresLift | app/src/main/java/eu/kanade/tachiyomi/ui/main/MainActivity.kt:687-707 | A push above the root saves the lift state of the controller below and unlifts the bar. Popping back restores it and drops the popped controller's entry. |
| MainNavigation.RootChangeClearsLift | app/src/main/java/eu/kanade/tachiyomi/ui/main/MainActivity.kt:695-698 | A push that leaves only the root clears the map and unlifts the bar. |
| MainNavigation.PushChainSaves | app/src/main/java/eu/kanade/tachiyomi/ui/main/MainActivity.kt:689-694 | After a chain of pushes, every controller below the top has the state it was left in saved. |
| MainNavigation.PopChainRestores | app/src/main/java/eu/kanade/tachiyomi/ui/main/MainActivity.kt:699-705 | Popping down to any saved controller restores its state. |
| MainNavigation.LiftRoundTrip | app/src/main/java/eu/kanade/tachiyomi/ui/main/MainActivity.kt:687-707 | However deep the pushes go, returning to a controller restores the lift state the user left it in. |
| MainNavigation.DialogChangesIgnored | app/src/main/java/eu/kanade/tachiyomi/ui/main/MainActivity.kt:660-668 | A change from or to a dialog is ignored. |
| MainNavigation.NotificationToDismiss | app/src/main/java/eu/kanade/tachiyomi/ui/main/MainActivity.kt:435-438 | A notification is dismissed exactly when the intent's notification id is at least 0. |
| MainNavigation.Classify | app/src/main/java/eu/kanade/tachiyomi/ui/main/MainActivity.kt:442-530 | The dispatch on the action: no action is unknown. Tab shortcuts select a real tab other than `more`. The two over-tab shortcuts open over browse or `more`. The manga and anime shortcuts, and the three platform search actions, are recognised exactly by their constants. |
| MainNavigation.SearchOf | app/src/main/java/eu/kanade/tachiyomi/ui/main/MainActivity.kt:494-526 | A search intent opens a global search (manga or anime) only for a present, non-empty query. |
| MainNavigation.MainActivity.OnNavItemSelected | app/src/main/java/eu/kanade/tachiyomi/ui/main/MainActivity.kt:170-209 | Selecting a nav item that is not the root installs its screen as the only controller, tagged with the id; an unknown id leaves the backstack alone. Re-selecting the root performs its reselect action, which is none while a shortcut is handled; `more` at size 1 pushes settings. The selected item becomes the id, and for a nav item the root carries it afterwards. |
| MainNavigation.MainActivity.SetSelectedNavItem | app/src/main/java/eu/kanade/tachiyomi/ui/main/MainActivity.kt:614-624 | Nothing happens while finishing. Otherwise the root ends up tagged with the requested id. An id outside the style's array selects `more` and installs `getControllerForId(id)` as the only controller. |
| MainNavigation.MainActivity.MoveToStartScreen | app/src/main/java/eu/kanade/tachiyomi/ui/main/MainActivity.kt:573-575 | The root becomes the anime library (start screen), tagged and selected. |
| MainNavigation.MainActivity.OpenScreenOverTab | app/src/main/java/eu/kanade/tachiyomi/ui/main/MainActivity.kt:448-493 | The extension and download shortcuts pop to the root, select the tab and push the screen, which ends on top. Unless the activity is finishing, exactly two controllers remain: the tab's root below the opened screen. |
| MainNavigation.MainActivity.OpenEntry | app/src/main/java/eu/kanade/tachiyomi/ui/main/MainActivity.kt:462-479 | The manga and anime shortcuts pop to the root unconditionally, select the library tab, and push the entry. |
| MainNavigation.MainActivity.OpenSearch | app/src/main/java/eu/kanade/tachiyomi/ui/main/MainActivity.kt:494-526 | A search with a query leaves the root and the new search. Without one, the backstack is unchanged. |
| MainNavigation.MainActivity.HandleIntentAction | app/src/main/java/eu/kanade/tachiyomi/ui/main/MainActivity.kt:434-536 | An unknown action is not handled and clears the shortcut flag. A manga or anime shortcut without extras is not handled and leaves the flag set. Every other action is handled, sets `ready` and clears the flag. The required screen ends up on top. A manga or anime entry that is not already on top leaves exactly two controllers, the library or anime-library tab below the entry, unless the activity is finishing. |
| MainNavigation.MainActivity.StartWithIntent | app/src/main/java/eu/kanade/tachiyomi/ui/main/MainActivity.kt:236-241 | Starting without a root either handles the intent or shows the start screen. The backstack stays empty exactly for a search intent whose query is missing or empty. |
| MainNavigation.MainActivity.OnBackPressed | app/src/main/java/eu/kanade/tachiyomi/ui/main/MainActivity.kt:547-571 | Updates on the backstack delegates to the router. Size 1 without the start screen moves to the start screen. Exit confirmation happens exactly at size 1 with the start screen present, confirmExit on, no confirmation in progress and the top not consuming. Confirming exit leaves the backstack unchanged. The app is left only from a backstack of at most one controller. |
| MainNavigation.MainActivity.ShouldHandleExitConfirmation | app/src/main/java/eu/kanade/tachiyomi/ui/main/MainActivity.kt:607-612 | Exit confirmation applies exactly when the only controller is the start screen, confirmExit is on, and no confirmation is in progress. |
| MainNavigation.MainActivity.EndExitConfirmation | app/src/main/java/eu/kanade/tachiyomi/ui/main/MainActivity.kt:599-605 | The confirmation window ends. |
| MainNavigation.MainActivity.SetUnreadUpdatesBadge | app/src/main/java/eu/kanade/tachiyomi/ui/main/MainActivity.kt:406-420 | The updates badge becomes the intended badge of the two counts. |
| MainNavigation.MainActivity.SetExtensionsBadge | app/src/main/java/eu/kanade/tachiyomi/ui/main/MainActivity.kt:422-432 | The browse badge becomes the sum of the two extension-update counts, or none. |
| MainNavigation.MainActivity.SyncActivityViewWithController | app/src/main/java/eu/kanade/tachiyomi/ui/main/MainActivity.kt:645-708 | Dialog changes are ignored. Otherwise the up button shows above the root, and on phones the lift state follows `LiftOnPush` or `LiftOnPop` (on tablets it is kept). |

## Left out

- I/O and foreign calls are not modelled. This covers cookie removal, the
  update checkers, migrations, notification dismissal, extension uninstall
  and `ToggleAnimeSource`. The model keeps only the data handed to them
  (the URL list, the id list, the notification id and group).
- Coroutine flows, `collectLatest`, `merge` and `asHotFlow` are not
  modelled. Each emission is one method call on the presenter or the
  activity.
- The 2-second delay of `resetExitConfirmation` is not modelled. Its end is
  the separate `EndExitConfirmation`.
- Views, animations, window colours, insets and `showNav` are not modelled,
  nor are the app bar's visibility for Compose controllers and the
  incognito-mode handler in `onCreate`.
- The router's change listener is not called by the router here.
  `SyncActivityViewWithController` takes the change (`to`, `from`,
  `isPush`) as parameters. The other activity methods leave the lift state
  unchanged.
- Conductor child routers and transitions are not modelled. Neither is a
  controller's own back handling, beyond the `topConsumes` flag.
- `LocaleHelper.getSourceDisplayName` is a function parameter.
- ExtensionDetails.Label: `lowercase()` is modelled for ASCII letters only.
  The string order compares characters by code, as `compareTo` and SQLite's
  BINARY collation do. Surrogate pairs are not treated specially.
- The SQL text, its table and column names, and the other columns of the
  tables are not modelled. The outer query has no ORDER BY, so the model
  follows SQLite's nested-loop order: the order of M, then link order.
  LibraryQueries.RowsPerFavourite assumes ids are unique, as the primary
  key guarantees.
- GROUP BY id keeps the first row of each id. Only the id matters for a
  table keyed by id.
- Counts and badge numbers are unbounded integers. The 32-bit overflow of
  the badge sums is not modelled.
- `R.id` values are modelled as the distinct numbers 1 to 6, and a
  transaction tag `id.toString()` as the number itself.
- The splash-screen installation, `isTaskRoot`, saved-instance restoration
  and what the system does on the final back press are not modelled. That
  back press is reported as `LeaveApp` with the cache flag.
- The defaults of the extension details state (`AnimeExtensionDetailsState`)
  are not part of this model. The presenter starts with no extension,
  loading and no sources.

## Findings

| source | as written | input that shows it | evidently intended | confidence | as-written member | corrected member |
|---|---|---|---|---|---|---|
| app/src/main/java/eu/kanade/tachiyomi/ui/main/MainActivity.kt:408 | The updates badge adds `unreadUpdatesCount` to itself, and the flow at line 263 listens to `unseenUpdatesCount` twice. | unread = 0, unseen = 3: the badge is removed. unread = 2, unseen = 0: the badge shows 4. | unread chapter updates plus unseen episode updates | not executed; high | MainNavigation.UpdatesBadgeAsWrittenMiscounts | MainNavigation.UpdatesBadge |

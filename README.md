# FieldOps Suite: layout engine and script logic in Dafny

This project models four parts of the FieldOps Suite repository and proves properties of them.

- **The dashboard's widget layout engine** (`public/dashboard.js`). The page keeps a layout record
  `{order, pinned, customize}` in local storage. On boot it loads the record, checking each field on its own and
  falling back to defaults. It then reorders the `#widgets` container (saved ids first, then the widgets the
  record does not name) and sets each widget's `pinned` class, the pin button's `aria-pressed` and `draggable`.
  Drag and drop moves the dragged widget before the one whose centre is nearest to the pointer. Pin clicks,
  the customize checkbox and the reset button rewrite the shared state object and save it.
  - The value side is `Layout`: the record, load and save, the pin map, and the container order in closed form.
  - The drop-anchor rule is `DropTarget`.
  - The page itself is the class `DashboardPage.Dashboard`. Its fields are what the handlers read and write, and
    its methods are the handlers. `applyStateToDom`'s three loops and `getDragAfterElement`'s scan are methods
    with loops, proved against the functions of `Layout` and `DropTarget`.
- **Heatmap bucketing** (`scripts/generateHeatmap.js`). Each QR-scan record `{zone, count}` becomes
  `{zone, intensity}`. A count above 150 is `high`, a count above 75 is `medium`, and any other count is `low`.
- **Desktop launchers** (`scripts/createDesktopEntries.js`). This covers:
  - the file-name sanitiser;
  - the applications directory;
  - the launcher's file name;
  - the `Exec` command, which opens a web remote in the browser and the checkout otherwise;
  - the eight-line text of the `.desktop` file. Its keys follow the "Recognized desktop entry keys" section of
    the freedesktop.org Desktop Entry Specification.
- **The GitHub repository merge** (`scripts/github.js`). `fetchGithubRepos` collects the public repository page
  and, when there is a token, the user's own repositories from the authenticated page. It keeps the first
  repository of each `full_name || id || html_url` key and maps each one to a FieldOps repository record. The
  two HTTP responses are inputs. The collecting loops and the `byKey` loop are a method, proved equal to a
  functional definition whose properties are lemmas.

Shared pieces:
- `Json` is the value that `JSON.parse` produces. It comes with JavaScript truthiness, property reads (`None`
  stands for `undefined`), `||` and `String(v)`.
- `Seqs` holds generic sequence facts: keep/remove, move to the end, insert before, and permutations.
- `Wrappers` defines `Option`.

Three facts about the code shape the model:
- `dashboard.js` keeps one collection, the widgets, under one storage key.
- A saved `order` is kept when it is any array, even when its entries are not strings.
  `applyStateToDom` then ignores the entries that name no live widget.
- Reset's default order is the container's order at the moment of the click, because `getDefaultOrder`
  reads the document when it is called. So reset does not reorder the container.

## Model

| member | source | states |
|---|---|---|
| Layout.DefaultState | FieldOpsSuite_v1/public/dashboard.js:26-32 | `getDefaultState()`: the live widget order, `{}` and `false`. It is a definition without a contract; `ResetRestores` and `ReconcileOwnOrder` prove that it leaves the container as it is and loads back after a save. |
| Layout.Stored | FieldOpsSuite_v1/public/dashboard.js:12 | `localStorage.getItem(STORAGE_KEY)`: the entry under the key, `None` when there is none. It is a definition without a contract. |
| Layout.Encode | FieldOpsSuite_v1/public/dashboard.js:39 | The value `JSON.stringify(state)` writes: an object with the three fields. It is a definition; `LoadAfterSave` proves that it reads back. |
| Layout.SaveLayoutState | FieldOpsSuite_v1/public/dashboard.js:38-40 | `saveLayoutState(state)`: overwrite only the entry under the storage key. It is a definition; `LoadAfterSave` proves that loading returns the saved state. |
| Layout.LoadLayoutState | FieldOpsSuite_v1/public/dashboard.js:10-23 | A missing, empty, unparseable or `null` entry gives the default state. Otherwise `order` is kept exactly when it is an array, else the live order. `pinned` is kept exactly when it is an object, else `{}`. `customize` is the truthiness of the stored value. |
| Layout.ParsedRecord | FieldOpsSuite_v1/public/dashboard.js:12-14 | Only a parsed, non-`null` value reaches the field checks. |
| Layout.Strings | FieldOpsSuite_v1/public/dashboard.js:30-32 | The default order has one entry per live widget. |
| Layout.StringsNames | FieldOpsSuite_v1/public/dashboard.js:30-32 | The default order names exactly the live widgets, each at its own position. |
| Layout.LoadAfterSave | FieldOpsSuite_v1/public/dashboard.js:38-40 | Loading what `saveLayoutState` wrote gives back the same state, whatever the live widgets are. |
| Layout.LoadKeepsAnyOrderArray | FieldOpsSuite_v1/public/dashboard.js:16 | An `order` array is kept as stored, even with non-string entries. A record with only `order` loads as `{order, {}, false}`. |
| Layout.PlaceSavedStep | FieldOpsSuite_v1/public/dashboard.js:52-53 | One `forEach` step: append the widget the entry names when it is live. It is a definition; `PlaceSavedForm` gives the loop's closed form. |
| Layout.PlaceSaved | FieldOpsSuite_v1/public/dashboard.js:51-54 | The first loop of `applyStateToDom`, entry by entry. It is a definition; `PlaceSavedForm` and `PlaceSavedPermutes` state its effect. |
| Layout.PlaceNew | FieldOpsSuite_v1/public/dashboard.js:57-59 | The second loop, over the widgets in their starting order. It is a definition; `PlaceNewForm` and `PlaceNewPermutes` state its effect. |
| Layout.Reconcile | FieldOpsSuite_v1/public/dashboard.js:48-59 | The container order `applyStateToDom` leaves: both loops, starting from the current order. It is a definition; `ReconcileForm`, `ReconcilePermutes` and `ReconcileIdempotent` state its properties. |
| Layout.Mentioned | FieldOpsSuite_v1/public/dashboard.js:58 | An id counts as named by the saved order exactly when the order holds it as a string (`state.order.includes(id)`). |
| Layout.SavedLast | FieldOpsSuite_v1/public/dashboard.js:51-54 | The widgets the first loop appends are live and named by the order. |
| Layout.SavedLive | FieldOpsSuite_v1/public/dashboard.js:51-54 | `[id in order \| id live]` holds exactly the live widgets the order names. |
| Layout.PlaceSavedForm | FieldOpsSuite_v1/public/dashboard.js:51-54 | After the first loop, the widgets the order does not name come first, in their previous order. They are followed by the named live widgets, each at its last mention. |
| Layout.PlaceNewForm | FieldOpsSuite_v1/public/dashboard.js:57-59 | The second loop moves the unnamed widgets to the end, in `widgets` map order, and leaves the rest in order. |
| Layout.ReconcileForm | FieldOpsSuite_v1/public/dashboard.js:48-59 | After `applyStateToDom` the container holds the live widgets the order names first (each at its last mention), then the unnamed ones in their prior container order. |
| Layout.SavedLastWithoutRepeats | FieldOpsSuite_v1/public/dashboard.js:51-54 | For a saved order without repeats, each widget's last mention is its only one, so the saved order is kept. |
| Layout.ReconcileWithoutRepeats | FieldOpsSuite_v1/public/dashboard.js:48-59 | For an order without repeats the container becomes `[id in order \| id live]`, followed by the live widgets the order does not name, in their prior container order. |
| Layout.PlaceSavedPermutes | FieldOpsSuite_v1/public/dashboard.js:51-54 | The first loop neither loses nor duplicates a widget. |
| Layout.PlaceNewPermutes | FieldOpsSuite_v1/public/dashboard.js:57-59 | The second loop neither loses nor duplicates a widget. |
| Layout.ReconcilePermutes | FieldOpsSuite_v1/public/dashboard.js:48-59 | The container after reconciling is a permutation of the one before, and ids stay unique. |
| Layout.ReconcileIdempotent | FieldOpsSuite_v1/public/dashboard.js:46-78 | Reconciling against the same order a second time leaves the container unchanged. |
| Layout.ReconcileOwnOrder | FieldOpsSuite_v1/public/dashboard.js:26-32 | The container's own order (the default order) is a fixed point of reconciliation. |
| Layout.ReconcileExample | FieldOpsSuite_v1/public/dashboard.js:48-59 | A saved `[b, a]` over live widgets `a, b, x` gives `b, a, x`. |
| Layout.IsPinned | FieldOpsSuite_v1/public/dashboard.js:64 | `!!state.pinned[id]`: the id has a truthy entry. It is a definition without a contract. |
| Layout.TogglePinned | FieldOpsSuite_v1/public/dashboard.js:160-161 | The pin click: store `true` when the id is not pinned, delete the entry otherwise. It is a definition; `TogglePinnedFlips` and `ToggleTwiceRestoresMap` state its properties. |
| Layout.TogglePinnedFlips | FieldOpsSuite_v1/public/dashboard.js:160-161 | A pin click flips whether that id is pinned, leaves every other id as it was and stores only `true`. |
| Layout.ToggleTwiceRestoresPins | FieldOpsSuite_v1/public/dashboard.js:160-161 | Two clicks on one pin restore whether every id is pinned. |
| Layout.ToggleTwiceRestoresMap | FieldOpsSuite_v1/public/dashboard.js:160-161 | From a map holding only `true`, pin clicks keep storing only `true`, and two clicks on one id restore the map itself. |
| DropTarget.CentreDistance | FieldOpsSuite_v1/public/dashboard.js:93-98 | The distance is zero exactly when the widget's centre is under the pointer. |
| DropTarget.Distances | FieldOpsSuite_v1/public/dashboard.js:92-98 | There is one distance per candidate, in candidate order. |
| DropTarget.FirstMin | FieldOpsSuite_v1/public/dashboard.js:91-100 | The running best is an index of the candidates. |
| DropTarget.FirstMinIsFirstMinimum | FieldOpsSuite_v1/public/dashboard.js:91-100 | The strict `<` scan ends on a minimal distance, and every earlier candidate is strictly farther (ties go to the earliest). |
| DropTarget.Anchor | FieldOpsSuite_v1/public/dashboard.js:86-102 | `getDragAfterElement`'s answer over the candidates: `null` without any, else the candidate at the first minimal distance. It is a definition; `AnchorIsNearest` and `AnchorIsClosest` state its properties. |
| DropTarget.AnchorIsNearest | FieldOpsSuite_v1/public/dashboard.js:86-102 | The anchor is `null` exactly when there are no candidates. Otherwise it is the candidate at the first minimum distance, which exists and is unique. |
| DropTarget.AnchorIsClosest | FieldOpsSuite_v1/public/dashboard.js:86-102 | No candidate is strictly nearer to the pointer than the anchor. |
| DropTarget.AnchorExample | FieldOpsSuite_v1/public/dashboard.js:86-102 | With centres at (0, 0) and (100, 100) and the pointer at (10, 10), the first widget is the anchor. |
| DashboardPage.BoolText | FieldOpsSuite_v1/public/dashboard.js:68-71 | The attribute text of a flag is `String(flag)`. |
| DashboardPage.Flagged | FieldOpsSuite_v1/public/dashboard.js:63-71 | One widget with its `pinned` class, its pin button's `aria-pressed` and `draggable` set from the state. It is a definition; `FlagAllShows` states the result. |
| DashboardPage.FlagAll | FieldOpsSuite_v1/public/dashboard.js:62-72 | Every widget flagged from the state. It is a definition; `FlagAllShows` states the result. |
| DashboardPage.FlagAllShows | FieldOpsSuite_v1/public/dashboard.js:62-72 | After flagging, every widget's `pinned` class is `!!pinned[id]`. A pin button's `aria-pressed` is `String(isPinned)`, and `draggable` is `String(customize && !isPinned)`. Flagging again changes nothing. |
| DashboardPage.DragOverOrder | FieldOpsSuite_v1/public/dashboard.js:132-139 | The `dragover` move: the first dragging widget goes before the anchor, or to the end when there is none; nothing moves without a dragging widget. It is a definition; `DragOverMoves` states its properties. |
| DashboardPage.DragOverMoves | FieldOpsSuite_v1/public/dashboard.js:132-139 | `dragover` keeps the container a permutation without repeats. With no dragging widget nothing moves. Otherwise the dragged widget lands last (no anchor) or immediately before the anchor, and the other widgets keep their order. |
| DashboardPage.DragOverLastOnlyWhenAlone | FieldOpsSuite_v1/public/dashboard.js:132-139 | While any widget is not being dragged, the dragged widget never ends up last. |
| DashboardPage.ApplyTwice | FieldOpsSuite_v1/public/dashboard.js:46-78 | Applying the same state twice gives the same container order and the same widget flags as applying it once. |
| DashboardPage.WellFormedReordered | FieldOpsSuite_v1/public/dashboard.js:135-139 | Any reordering that is a permutation keeps the ids unique and the widget and dragging sets unchanged. |
| DashboardPage.DragOverKeepsWellFormed | FieldOpsSuite_v1/public/dashboard.js:128-140 | `dragover` keeps the page well formed and the container a permutation. |
| DashboardPage.ResetRestores | FieldOpsSuite_v1/public/dashboard.js:251-260 | Reset's default state leaves the container order as it is, and loading after reset's save returns that default. |
| DashboardPage.Dashboard.constructor | FieldOpsSuite_v1/public/dashboard.js:264-266 | Boot loads the stored state and applies it. The container is reconciled, the widgets are flagged, the toggle and body class show `customize`, nothing is dragging, and storage is untouched. |
| DashboardPage.Dashboard.ApplyStateToDom | FieldOpsSuite_v1/public/dashboard.js:46-78 | The container becomes the reconciled order, a permutation of the old one. Every widget is flagged from the state, and the toggle and body class show `customize`. |
| DashboardPage.Dashboard.PlaceSavedLoop | FieldOpsSuite_v1/public/dashboard.js:51-54 | The `state.order.forEach` loop leaves the order given by `PlaceSaved`, a permutation of the container. |
| DashboardPage.Dashboard.PlaceNewLoop | FieldOpsSuite_v1/public/dashboard.js:57-59 | The `widgets.forEach` loop leaves the order given by `PlaceNew`, a permutation of the container. |
| DashboardPage.Dashboard.FlagLoop | FieldOpsSuite_v1/public/dashboard.js:62-72 | The loop over the widgets sets every widget's class and attributes from the state and touches nothing else. |
| DashboardPage.Dashboard.GetDragAfterElement | FieldOpsSuite_v1/public/dashboard.js:86-102 | The scan returns the anchor: `null` without candidates, else the first nearest widget that is not dragging. |
| DashboardPage.Dashboard.DragStart | FieldOpsSuite_v1/public/dashboard.js:107-120 | The drag is cancelled exactly when customize mode is off or the widget is pinned, and then nothing is marked. Otherwise the widget is marked `dragging`. |
| DashboardPage.Dashboard.DragEnd | FieldOpsSuite_v1/public/dashboard.js:122-126 | `dragend` unmarks the widget and clears the drop indicator. Storage and state are unchanged. |
| DashboardPage.Dashboard.DragOver | FieldOpsSuite_v1/public/dashboard.js:128-140 | Outside customize mode nothing changes. In customize mode the indicator is shown and the container takes the `dragover` order, a permutation. |
| DashboardPage.Dashboard.MoveDragging | FieldOpsSuite_v1/public/dashboard.js:132-139 | The first dragging widget is inserted before the anchor or appended, giving the `dragover` order. |
| DashboardPage.Dashboard.Drop | FieldOpsSuite_v1/public/dashboard.js:142-147 | `drop` takes the container order as `state.order`, saves the state and clears the indicator. |
| DashboardPage.Dashboard.TogglePin | FieldOpsSuite_v1/public/dashboard.js:152-164 | A click outside a widget's pin button changes nothing. A pin click flips that pin, saves the state and applies it. |
| DashboardPage.Dashboard.CustomizeChanged | FieldOpsSuite_v1/public/dashboard.js:169-173 | `customize` becomes the checkbox value. The state is saved and applied. |
| DashboardPage.Dashboard.Reset | FieldOpsSuite_v1/public/dashboard.js:251-260 | The stored entry is removed and the default state is saved. The state becomes current order, `{}` and `false`, the container keeps its order, and the widgets and toggle show the default. |
| Heatmap.Label | FieldOpsSuite_v1/scripts/generateHeatmap.js:17 | Every bucket is written as `low`, `medium` or `high`. |
| Heatmap.Rank | FieldOpsSuite_v1/scripts/generateHeatmap.js:17 | Buckets are ranked 0 to 2. |
| Heatmap.IntensityOf | FieldOpsSuite_v1/scripts/generateHeatmap.js:17 | The nested conditional on the count. It is a definition; `IntensityBuckets` and `IntensityMonotone` state its properties. |
| Heatmap.ScanIntensity | FieldOpsSuite_v1/scripts/generateHeatmap.js:17 | The bucket of a scan record. A missing `count` gives `low`, because `undefined > 150` and `undefined > 75` are false. It is a definition; `ScanIntensityMissing` states its cases. |
| Heatmap.ScanIntensityMissing | FieldOpsSuite_v1/scripts/generateHeatmap.js:17 | A scan without a count is `low`. A scan with a count is `high` exactly above 150 and `low` exactly at or below 75. |
| Heatmap.IntensityBuckets | FieldOpsSuite_v1/scripts/generateHeatmap.js:17 | `high` exactly above 150, `medium` exactly in (75, 150], `low` exactly at or below 75. Each boundary belongs to the lower bucket. |
| Heatmap.IntensityMonotone | FieldOpsSuite_v1/scripts/generateHeatmap.js:17 | A larger count never gives a lower bucket. |
| Heatmap.Overlay | FieldOpsSuite_v1/scripts/generateHeatmap.js:15-18 | One cell per scan, in order. Each zone is copied unchanged (a missing zone stays missing) and each intensity is the bucket of that scan's count. |
| Heatmap.OverlayAppend | FieldOpsSuite_v1/scripts/generateHeatmap.js:15-18 | The overlay of two runs of scans is the two overlays joined, because the map works record by record. |
| Heatmap.OverlayExample | FieldOpsSuite_v1/tests/generateHeatmap.test.js:22-34 | Counts 10, 100 and 250 in zones A, B and C give low, medium and high. |
| DesktopEntries.IsSafeChar | FieldOpsSuite_v1/scripts/createDesktopEntries.js:15 | The class `[a-zA-Z0-9._-]`. It is a definition without a contract. |
| DesktopEntries.CodeUnits | FieldOpsSuite_v1/scripts/createDesktopEntries.js:15 | A string's length in UTF-16 code units, the length JavaScript reports. It is a definition; `SanitizeKeepsLength` uses it. |
| DesktopEntries.Units | FieldOpsSuite_v1/scripts/createDesktopEntries.js:15 | A character is one or two UTF-16 code units. |
| DesktopEntries.Replacement | FieldOpsSuite_v1/scripts/createDesktopEntries.js:15 | A safe character is kept as itself. Any other character becomes one `-` per UTF-16 code unit (two for a character above U+FFFF). |
| DesktopEntries.SanitizeFileName | FieldOpsSuite_v1/scripts/createDesktopEntries.js:14-16 | Every character of the result is in `[a-zA-Z0-9._-]`. |
| DesktopEntries.SanitizeAppend | FieldOpsSuite_v1/scripts/createDesktopEntries.js:15 | The global replace works character by character: sanitising a concatenation sanitises each part. |
| DesktopEntries.SanitizeKeepsLength | FieldOpsSuite_v1/scripts/createDesktopEntries.js:15 | The result has as many UTF-16 code units as the name. |
| DesktopEntries.SanitizeInPlace | FieldOpsSuite_v1/scripts/createDesktopEntries.js:15 | On one-unit characters the length is kept, each safe character stays in place and every other becomes `-`. |
| DesktopEntries.SanitizeUnchangedIffSafe | FieldOpsSuite_v1/scripts/createDesktopEntries.js:15 | A name is left unchanged exactly when every character is safe. |
| DesktopEntries.SanitizeIdempotent | FieldOpsSuite_v1/scripts/createDesktopEntries.js:15 | Sanitising twice gives the same as sanitising once. |
| DesktopEntries.DesktopFileName | FieldOpsSuite_v1/scripts/createDesktopEntries.js:22 | `fieldops-${sanitizeFileName(name)}.desktop`. It is a definition; `FileNameShape` states its shape. |
| DesktopEntries.FileNameShape | FieldOpsSuite_v1/scripts/createDesktopEntries.js:22 | The file name is `fieldops-` + the sanitised name + `.desktop`, and it holds only safe characters (no `/`). |
| DesktopEntries.FileNamesCanCollide | FieldOpsSuite_v1/scripts/createDesktopEntries.js:22 | The names `a b` and `a-b` share the launcher file `fieldops-a-b.desktop`. |
| DesktopEntries.JoinPath | FieldOpsSuite_v1/scripts/createDesktopEntries.js:23 | `path.join` of two segments: one `/` between them. It is a definition; `JoinPathEnds` states its result. |
| DesktopEntries.ApplicationsDir | FieldOpsSuite_v1/scripts/createDesktopEntries.js:9-12 | `getApplicationsDir()` from the value of `XDG_DATA_HOME` and the home directory. It is a definition; the three `ApplicationsDir…` lemmas state its cases. |
| DesktopEntries.JoinPathEnds | FieldOpsSuite_v1/scripts/createDesktopEntries.js:23 | A joined path ends with its last segment, after a `/` unless the first segment is empty. |
| DesktopEntries.ApplicationsDirFromXdg | FieldOpsSuite_v1/scripts/createDesktopEntries.js:9-12 | A set, non-empty `XDG_DATA_HOME` gives `$XDG_DATA_HOME/applications`, whatever the home directory is. |
| DesktopEntries.ApplicationsDirFromHome | FieldOpsSuite_v1/scripts/createDesktopEntries.js:9-12 | An unset or empty `XDG_DATA_HOME` gives `<home>/.local/share/applications`. |
| DesktopEntries.ApplicationsDirTrailingSlash | FieldOpsSuite_v1/scripts/createDesktopEntries.js:9-12 | A trailing `/` on `XDG_DATA_HOME` is not doubled. |
| DesktopEntries.StartsWith | FieldOpsSuite_v1/scripts/createDesktopEntries.js:27 | The text begins with the prefix, as the anchored `^` pattern requires. It is a definition without a contract. |
| DesktopEntries.IsWebRemote | FieldOpsSuite_v1/scripts/createDesktopEntries.js:27 | `repo.remote && /^https?:\/\//.test(repo.remote)`: a truthy remote whose text starts with `http://` or `https://`. It is a definition; `ExecCommandChoice` and `UpperCaseSchemeIsNotWeb` state its cases. |
| DesktopEntries.Shown | FieldOpsSuite_v1/scripts/createDesktopEntries.js:29 | The text `${repo.path}` inserts: `undefined` when the property is missing. It is a definition without a contract. |
| DesktopEntries.ExecCommand | FieldOpsSuite_v1/scripts/createDesktopEntries.js:27-29 | The command always starts with `xdg-open `. |
| DesktopEntries.ExecCommandChoice | FieldOpsSuite_v1/scripts/createDesktopEntries.js:27-29 | A string remote is opened exactly when it starts with `http://` or `https://`. Otherwise the path is opened. |
| DesktopEntries.UpperCaseSchemeIsNotWeb | FieldOpsSuite_v1/scripts/createDesktopEntries.js:27 | The scheme test is case-sensitive: `HTTPS://…` opens the path. |
| DesktopEntries.NullRemoteOpensPath | FieldOpsSuite_v1/scripts/createDesktopEntries.js:27-29 | A `null` remote opens the checkout path. |
| DesktopEntries.Join | FieldOpsSuite_v1/scripts/createDesktopEntries.js:40 | `parts.join(sep)`. It is a definition; `SplitJoin` and `JoinEndsWithLast` state its properties. |
| DesktopEntries.Split | FieldOpsSuite_v1/scripts/createDesktopEntries.js:40 | Splitting always yields at least one piece (the reading-back side of `join('\n')`). |
| DesktopEntries.SplitJoin | FieldOpsSuite_v1/scripts/createDesktopEntries.js:40 | Parts free of the separator are recovered exactly by splitting their join. |
| DesktopEntries.JoinEndsWithLast | FieldOpsSuite_v1/scripts/createDesktopEntries.js:40 | A join ends with its last part, so no separator trails it. |
| DesktopEntries.EntryLines | FieldOpsSuite_v1/scripts/createDesktopEntries.js:31-40 | A launcher has eight lines. |
| DesktopEntries.EntryText | FieldOpsSuite_v1/scripts/createDesktopEntries.js:31-40 | The eight lines joined with `\n`. It is a definition; `EntryTextLines` states what the text holds. |
| DesktopEntries.EntryTextLines | FieldOpsSuite_v1/scripts/createDesktopEntries.js:31-40 | For a name and command without line breaks, the text reads back as exactly the eight lines. It ends with `StartupNotify=false` and has no trailing newline. |
| DesktopEntries.EntryFor | FieldOpsSuite_v1/scripts/createDesktopEntries.js:18-43 | A launcher is produced exactly when the repository is not `null` and its `name` is a string. Otherwise the call throws. |
| DesktopEntries.EntryForRecord | FieldOpsSuite_v1/scripts/createDesktopEntries.js:18-43 | For a repository record the launcher lies in the applications directory under its own file name. Its lines name the repository and run `xdg-open` on the web remote, or else on the path. |
| GithubRepos.PageItems | FieldOpsSuite_v1/scripts/github.js:32 | `for…of` visits an array's elements, or a string's characters. Any other page has nothing to iterate, and the loop throws. |
| GithubRepos.PublicRepos | FieldOpsSuite_v1/scripts/github.js:30-35 | The public page's contribution: every item, or nothing when the request failed or the page is not iterable. It is a definition; `AuthedFailureAbsorbed` and `NoTokenPublicOnly` use it. |
| GithubRepos.Lower | FieldOpsSuite_v1/scripts/github.js:42 | Lower-casing keeps the length, leaves no ASCII capital, and keeps every other character in place. |
| GithubRepos.LowerIdempotent | FieldOpsSuite_v1/scripts/github.js:42 | Lower-casing twice gives the same as lower-casing once. |
| GithubRepos.OwnerVerdict | FieldOpsSuite_v1/scripts/github.js:42-44 | The owner test on one repository: take it, skip it, or throw (on a `null` repository, or on a truthy login that is not a string). It is a definition; `AuthedReposOwned` and `OwnerMatchIgnoresCase` state its effect. |
| GithubRepos.AuthedRepos | FieldOpsSuite_v1/scripts/github.js:41-45 | The authenticated loop: the repositories it pushes, up to the first entry that throws. It is a definition; the three `AuthedRepos…` lemmas state its properties. |
| GithubRepos.AuthedContribution | FieldOpsSuite_v1/scripts/github.js:38-49 | The authenticated page's contribution: only with a token, and nothing when the request failed. It is a definition; `NoTokenPublicOnly` and `PublicFailureAbsorbed` use it. |
| GithubRepos.Collected | FieldOpsSuite_v1/scripts/github.js:26-49 | `repos` after both loops: the public page first, then the user's authenticated repositories. It is a definition; `PublicFirst`, `NoTokenPublicOnly` and the failure lemmas state its properties. |
| GithubRepos.AuthedReposOwned | FieldOpsSuite_v1/scripts/github.js:41-45 | Every kept authenticated repository has an owner login equal to the user name ignoring case. The loop keeps no more than it is given. |
| GithubRepos.AuthedReposComplete | FieldOpsSuite_v1/scripts/github.js:41-45 | When no entry throws, every repository the user owns is kept. |
| GithubRepos.AuthedReposStopAtThrow | FieldOpsSuite_v1/scripts/github.js:39-48 | An entry on which the owner test throws ends the loop, and nothing after it is kept. |
| GithubRepos.OwnerMatchIgnoresCase | FieldOpsSuite_v1/scripts/github.js:42 | An owner `Octo` matches the user name `octo`. |
| GithubRepos.KeyOf | FieldOpsSuite_v1/scripts/github.js:54 | `r.full_name \|\| r.id \|\| r.html_url`. It is a definition; the `FirstPerKey…` lemmas are stated over it. |
| GithubRepos.IsPrimitive | FieldOpsSuite_v1/scripts/github.js:55 | A key the `Map` compares by value: `undefined`, `null`, a boolean, a number or a string. It is a definition without a contract. |
| GithubRepos.Collide | FieldOpsSuite_v1/scripts/github.js:55 | `byKey.has` answers yes for one key when the other is in the map: equal primitive keys. It is a definition without a contract. |
| GithubRepos.FirstOfKey | FieldOpsSuite_v1/scripts/github.js:55 | No earlier repository has a colliding key. It is a definition; `FirstOfKeyIff` ties it to `byKey.has`. |
| GithubRepos.PrimitiveKeys | FieldOpsSuite_v1/scripts/github.js:52-55 | The keys `byKey.has` can find. It is a definition; `FirstPerKeyCoversKeys` states that the kept repositories have them all. |
| GithubRepos.FirstPerKey | FieldOpsSuite_v1/scripts/github.js:52-56 | The de-duplicated list is no longer than its input and holds no `null`. |
| GithubRepos.FirstOfKeyIff | FieldOpsSuite_v1/scripts/github.js:54-55 | A repository is the first of its key exactly when `byKey.has(key)` is false at its turn. |
| GithubRepos.FirstPerKeyMembers | FieldOpsSuite_v1/scripts/github.js:52-56 | Every kept repository comes from the input. |
| GithubRepos.FirstPerKeyDistinct | FieldOpsSuite_v1/scripts/github.js:52-56 | No two kept repositories share a key. |
| GithubRepos.FirstPerKeyCoversKeys | FieldOpsSuite_v1/scripts/github.js:52-56 | Every key in the input is kept by some repository. |
| GithubRepos.FirstPerKeyKeepsReferenceKeys | FieldOpsSuite_v1/scripts/github.js:54-55 | A repository whose key is an object or an array is always kept. Such a key is its own reference. |
| GithubRepos.FirstPerKeyPrefix | FieldOpsSuite_v1/scripts/github.js:52-56 | The kept repositories of a prefix of the input are a prefix of the kept repositories: first-occurrence order. |
| GithubRepos.ToRecord | FieldOpsSuite_v1/scripts/github.js:59-65 | The record the `map` callback builds for one repository. It is a definition; `ResolvedRecords` states what each record of a call holds. |
| GithubRepos.Records | FieldOpsSuite_v1/scripts/github.js:59-65 | `Array.from(byKey.values()).map(...)`: one record per kept repository, in order. It is a definition; `ResolvedRecords` and `RecordsAppend` state its result. |
| GithubRepos.RecordsAppend | FieldOpsSuite_v1/scripts/github.js:59-65 | The mapping works repository by repository: the records of two runs are the two lists of records joined. |
| GithubRepos.FetchOutcome | FieldOpsSuite_v1/scripts/github.js:23-68 | The whole call: `[]` for an empty user name, otherwise the records of the first repository per key; it rejects when a `null` entry was collected. It is a definition; `FetchGithubRepos` is proved equal to it, and the lemmas below state its properties. |
| GithubRepos.ResolvedRecords | FieldOpsSuite_v1/scripts/github.js:52-65 | In a resolved call every record has `path: null` and the `GitHub Actions` provider. Its name, remote and builds URL (present exactly when the remote is truthy, then `remote + "/actions"`) come from its own collected repository. There are as many records as kept repositories, and no two of those share a key. |
| GithubRepos.FetchGithubRepos | FieldOpsSuite_v1/scripts/github.js:23-68 | The loops push the public page and then the user's own authenticated repositories, and de-duplicate. The result is what the whole call settles with. |
| GithubRepos.Dedupe | FieldOpsSuite_v1/scripts/github.js:52-65 | The `byKey` loop keeps the first repository of each key and maps them to records. It rejects when it meets a `null` entry. |
| GithubRepos.PublicFirst | FieldOpsSuite_v1/scripts/github.js:29-59 | The public page's records come first in the result, and there are no more records than collected repositories. |
| GithubRepos.NoTokenPublicOnly | FieldOpsSuite_v1/scripts/github.js:38 | Without a token only the public page contributes. |
| GithubRepos.FailuresAbsorbed | FieldOpsSuite_v1/scripts/github.js:30-48 | When both requests fail, the call still resolves, with no records. |
| GithubRepos.AuthedFailureAbsorbed | FieldOpsSuite_v1/scripts/github.js:46-48 | A failed authenticated request is absorbed: the public page's repositories are collected unchanged. |
| GithubRepos.PublicFailureAbsorbed | FieldOpsSuite_v1/scripts/github.js:33-35 | A failed public request is absorbed: only the user's authenticated repositories are collected, and the call resolves. |
| GithubRepos.MergeExample | FieldOpsSuite_v1/scripts/github.js:29-56 | A repository listed on both pages is kept once, and another owner's authenticated repository is dropped. |
| Json.TruthyValue | FieldOpsSuite_v1/scripts/github.js:42 | `Boolean(v)` for a JSON value: `null`, `false`, `0` and `""` are falsy. It is a definition without a contract. |
| Json.Truthy | FieldOpsSuite_v1/public/dashboard.js:18 | `Boolean(v)` for a property read, where `undefined` is falsy. It is a definition without a contract. |
| Json.Prop | FieldOpsSuite_v1/public/dashboard.js:16-18 | A property read on a value that is not `null`: a value exactly when the value is an object with that key, and then that field. |
| Json.Or | FieldOpsSuite_v1/scripts/github.js:54 | `a \|\| b` is truthy exactly when either operand is, and it is one of the two. |
| Json.NatText | FieldOpsSuite_v1/scripts/github.js:64 | The decimal text of a number is non-empty and made of digits. |
| Json.Text | FieldOpsSuite_v1/scripts/github.js:64 | `String(v)` as a template literal inserts it; an array is its elements' texts joined by `CommaJoin`, with `null` shown as the empty string. It is a definition without a contract. |
| Json.CommaJoin | FieldOpsSuite_v1/scripts/github.js:64 | `Array.prototype.join(",")`, which `String(array)` uses. It is a definition without a contract. |

## Left out

- Real DOM, events and `dataTransfer`. Events are method calls carrying the widget id they concern. The document
  is the container's id sequence plus the classes and attributes the handlers set. CSS classes other than
  `pinned`/`dragging`/`drop-indicator`/`customizing` are not modelled.
- The model assumes every `article.widget` is in `#widgets` and that widget ids are unique. The source's `Map`
  would silently merge duplicate ids. `getDefaultOrder` and the flag loop of `applyStateToDom` query the whole
  document, while the reordering loops and `drop` read only the container.
- `applyStateToDom` builds its `Map` from every child of `#widgets`. The model assumes every child is a widget
  with a `data-id`; a child without one (key `undefined`) is not modelled.
- `localStorage.setItem` can throw (quota exceeded, storage disabled). The handler then stops after `state` has
  changed: the pin and customize handlers never reach `applyStateToDom`, and `drop` leaves `drop-indicator` set.
  In the model every save succeeds.
- A `drop` event reaching the page only after a `dragover` called `preventDefault` (browser behaviour) is not
  modelled. `Drop` can be called in any mode.
- `Math.hypot` and fractional centres are floating point. Coordinates are integers, doubled so centres stay
  integral, and squared distances are compared, which picks the same widget.
- The text formats of `JSON.stringify`/`JSON.parse` are abstract. A stored entry is a parsed value or an
  unparseable text. JSON numbers are integers.
- Layout.LoadLayoutState: a stored `pinned` that is an array passes `typeof === 'object'` in the source and is
  kept. The model replaces it with `{}`, because an array has no string-keyed fields in this value model.
- Layout.IsPinned: inherited object properties (an id such as `constructor` reads a truthy prototype member)
  are not modelled. Only own fields count.
- The async renderers (`renderHeatmap`, `renderQrScans`, `renderDigest`) are network and markup, and are not
  part of this model.
- Heatmap.ScanIntensity: a count is an integer or missing. A fractional count, or a `count` that is a string,
  boolean or `null` (compared by JavaScript's loose `>`), is not modelled. Reading and writing the two JSON
  files, and a `qrScans.json` that is not an array, are file I/O.
- Heatmap.Overlay: a `null` element of `qrScans.json` makes `scan.zone` throw and aborts the script; a `Scan` is
  always a record, so that element is not modelled.
- DesktopEntries.JoinPath: `path.join` is modelled for two segments. It puts one `/` between them; collapsing
  repeated separators and resolving `.`/`..` are not modelled.
- The `main` loop of `createDesktopEntries.js`, `fs.mkdirSync`, `fs.writeFileSync` and the console messages
  are file I/O and logging. `EntryFor` is what each iteration computes, with `None` for the call that throws
  and is reported.
- `process.env.XDG_DATA_HOME` and `os.homedir()` are parameters.
- `httpGetJson` (HTTPS, status checks, body parsing) is abstracted as the settled result of each request.
  `encodeURIComponent` and the request headers only shape the URL and the headers, so they are not modelled.
- GithubRepos.Lower: `toLowerCase` is modelled on ASCII letters only. Other letters are left as they are.
- GithubRepos.FetchOutcome: a missing token (`undefined`) is modelled as the empty token, which is equally
  falsy.
- GithubRepos.FetchOutcome: the user name is a string. A missing (`undefined`) or `null` user name returns
  `[]` exactly as `""` does, since `!username` holds for all three, and is modelled as `""`. A user name that is
  not a string is not modelled.
- GithubRepos.IsPrimitive: object and array keys are compared by reference in the source's `Map`. The model
  treats each such key as distinct from every other, which holds for freshly parsed pages.

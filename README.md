# ReportDetailFragment — a verified model of MediaInfo's Android report screen

The Android screen `ReportDetailFragment` shows one stored MediaInfo report.
It lets the user switch between renderings ("views") of the report and export
the current rendering to a directory they pick. This project models the
decision logic of that screen in Dafny:

- the intake of the report id from the fragment arguments (`-1` or a missing key means "no report");
- the view-selection state: the default `"HTML"`, seeding from the stored preference, and the
  click handler of the "change view" submenu, which maps a title back to a view name through
  the catalog, and stores the view and rebuilds the screen only on a real change;
- the submenu itself: one item per catalog entry, in catalog order, checked exactly for the
  current view;
- the render callback: title, conversion, and for every view but HTML tab expansion, HTML
  escaping and wrapping in `<html><body><pre>…</pre></body></html>`;
- the export chain of `onActivityResult` and its fetch callback: each guard ends in one error
  or in one file named `filename.view`, typed with the catalog's MIME type or `text/plain`,
  written, flushed and closed in that order.

Layout, one module per file:

| file | module | contents |
|---|---|---|
| wrappers.dfy | Wrappers | `Option`, standing for Kotlin's nullable types |
| catalog.dfy | Catalog | `ReportView` and the lookups `findLast`, `find` and `indexOf` |
| view_menu.dfy | ViewMenu | the submenu items and the click transition `Select` |
| effects.dfy | Effects | the alphabet of observable effects (`Effect`) |
| render.dfy | Render | tab expansion, the wrapped document, the render callback's effects |
| export.dfy | Export | the `onActivityResult` guards and the export callback's effects |
| fragment.dfy | ReportDetail | class `ReportDetailFragment`, its fields and callbacks |
| scenarios.dfy | Scenarios | client methods driving whole interactions |

The screen is a class. Its fields are the current `view`, the report `id`, whether the
preferences are bound, the stored view preference, the pending fetches (the
`CompositeDisposable`), and `trace`, which records everything observable the screen does.
Every callback is proved to append exactly the effects that a pure function describes
(`RenderEffects`, `ActivityResultEffects`, `ExportEffects`, `Select`). The promised
properties are proved as lemmas about those functions.

The foreign pieces are inputs:
- `Core.convertReport` and `Html.escapeHtml` are arrow-typed constants of the class, left
  unconstrained;
- the directory's `canWrite()` is a boolean;
- how creating and writing the file goes is a `SinkFault` value;
- the host's activity and fragment manager are booleans passed to the callbacks that use them.

Behaviour of the code a reader might not expect:
- The stored view name is adopted as it is, without checking it against the catalog
  (`fragment.dfy`, `OnAttach`). The catalog invariant holds only for changes made through the
  menu (`SelectStaysInCatalog`).
- A directory pick with a result code other than OK is ignored silently; it raises no error.
- Tabs are expanded before escaping, so the escaper never sees a tab.
- A rebuild does not cancel the previous render fetch by itself. The fetch is cancelled by
  `onStop`, which the host runs when it detaches the fragment. The scenario
  `SwitchViewThenRepeat` drives that sequence.
- When writing or flushing throws, the stream is left unclosed: no `Closed` effect follows
  (`ExportIsPrefixOfSuccess`).
- A second `onCreate` with `-1` keeps the id already set (`OnCreate`).

## Model

Each method row of the class also covers the specification function its contract names:
`OnRenderDelivered` covers `Render.RenderEffects` (with `Render.Wrap`),
`OnActivityResult` covers `Export.ActivityResultEffects`, `OnExportDelivered` covers
`Export.ExportEffects`, `WriteFile` covers `Export.SinkEffects`, and `OnCreateOptionsMenu`
covers `ViewMenu.Entry` through `ViewMenu.Menu`.

| member | source | states |
|---|---|---|
| Catalog.LastWithDesc | Source/GUI/Android/app/src/main/java/net/mediaarea/mediainfo/ReportDetailFragment.kt:123 | `findLast`: the result is the index of the last entry whose description is the title; none exactly when no entry has it |
| Catalog.RequestedName | Source/GUI/Android/app/src/main/java/net/mediaarea/mediainfo/ReportDetailFragment.kt:123 | the requested name is the name of the last entry with the clicked title, and `""` when no description matches |
| Catalog.FirstWithName | Source/GUI/Android/app/src/main/java/net/mediaarea/mediainfo/ReportDetailFragment.kt:179 | `find`: the result is the index of the first entry with that name; none exactly when no entry has it |
| Catalog.MimeFor | Source/GUI/Android/app/src/main/java/net/mediaarea/mediainfo/ReportDetailFragment.kt:179 | the export MIME type is that of the first entry named `view`, and `text/plain` when there is none |
| Catalog.IndexOf | Source/GUI/Android/app/src/main/java/net/mediaarea/mediainfo/ReportDetailFragment.kt:121 | `indexOf`: -1 exactly when the entry is absent, otherwise the first position holding it |
| Catalog.RequestedNameOfEntry | Source/GUI/Android/app/src/main/java/net/mediaarea/mediainfo/ReportDetailFragment.kt:122-123 | with distinct descriptions, the item labelled with entry i's description requests entry i's name |
| Catalog.MimeOfEntry | Source/GUI/Android/app/src/main/java/net/mediaarea/mediainfo/ReportDetailFragment.kt:179 | with distinct names, exporting in entry i's view uses entry i's MIME type |
| Catalog.IndexOfEntry | Source/GUI/Android/app/src/main/java/net/mediaarea/mediainfo/ReportDetailFragment.kt:120-121 | with distinct entries, `indexOf` of the entry at position i is i |
| Catalog.RequestedNameInCatalog | Source/GUI/Android/app/src/main/java/net/mediaarea/mediainfo/ReportDetailFragment.kt:123 | a requested name is either empty or the name of a catalog entry |
| ViewMenu.Menu | Source/GUI/Android/app/src/main/java/net/mediaarea/mediainfo/ReportDetailFragment.kt:120-146 | the submenu has one item per catalog entry |
| ViewMenu.MenuEntryChecked | Source/GUI/Android/app/src/main/java/net/mediaarea/mediainfo/ReportDetailFragment.kt:122-143 | item i is labelled with entry i's description and is checked iff entry i's name is the current view |
| ViewMenu.MenuOrderIsPosition | Source/GUI/Android/app/src/main/java/net/mediaarea/mediainfo/ReportDetailFragment.kt:121-122 | with distinct entries, every item's menu order is its catalog position |
| ViewMenu.ExactlyOneChecked | Source/GUI/Android/app/src/main/java/net/mediaarea/mediainfo/ReportDetailFragment.kt:143-145 | with distinct names, exactly the current view's item is checked, and no item when the view is not in the catalog |
| ViewMenu.Select | Source/GUI/Android/app/src/main/java/net/mediaarea/mediainfo/ReportDetailFragment.kt:123-126 | the view changes iff the result differs from the current view, and then to the non-empty requested name; a non-empty requested name different from the current view always changes it |
| ViewMenu.SelectUnknownTitle | Source/GUI/Android/app/src/main/java/net/mediaarea/mediainfo/ReportDetailFragment.kt:123-125 | a title matching no description leaves the view unchanged |
| ViewMenu.SelectTakesLastMatch | Source/GUI/Android/app/src/main/java/net/mediaarea/mediainfo/ReportDetailFragment.kt:123-126 | the click switches to the last matching entry's name, unless that name is empty or already current, in which case nothing changes |
| ViewMenu.SelectIdempotent | Source/GUI/Android/app/src/main/java/net/mediaarea/mediainfo/ReportDetailFragment.kt:125 | clicking the same title a second time changes nothing |
| ViewMenu.SelectStaysInCatalog | Source/GUI/Android/app/src/main/java/net/mediaarea/mediainfo/ReportDetailFragment.kt:123-126 | starting from a catalog view, a click always leaves a catalog view current |
| ViewMenu.ClickOnItem | Source/GUI/Android/app/src/main/java/net/mediaarea/mediainfo/ReportDetailFragment.kt:120-143 | with distinct labels and names, clicking item i selects entry i (changing iff it was not current), and the rebuilt menu checks item i alone |
| Render.ExpandTabs | Source/GUI/Android/app/src/main/java/net/mediaarea/mediainfo/ReportDetailFragment.kt:93 | `replace("\t", "    ")`: the result holds no tab and is 3 characters longer per tab; what each character becomes is ExpandTabsChar |
| Render.ExpandTabsChar | Source/GUI/Android/app/src/main/java/net/mediaarea/mediainfo/ReportDetailFragment.kt:93 | a tab becomes exactly four spaces and every other character is kept; with ExpandTabsAppend this fixes the expansion of every string |
| Render.ExpandTabsAppend | Source/GUI/Android/app/src/main/java/net/mediaarea/mediainfo/ReportDetailFragment.kt:93 | expanding a concatenation is concatenating the expansions |
| Render.ExpandTabsFreeIsIdentity | Source/GUI/Android/app/src/main/java/net/mediaarea/mediainfo/ReportDetailFragment.kt:93 | a text without tabs is left unchanged |
| Render.ExpandTabsIdempotent | Source/GUI/Android/app/src/main/java/net/mediaarea/mediainfo/ReportDetailFragment.kt:93 | expanding twice is expanding once |
| Render.UnwrapWrap | Source/GUI/Android/app/src/main/java/net/mediaarea/mediainfo/ReportDetailFragment.kt:92-94 | the body wrapped in `<html><body><pre>…</pre></body></html>` is recovered exactly |
| Render.Content | Source/GUI/Android/app/src/main/java/net/mediaarea/mediainfo/ReportDetailFragment.kt:89-97 | for `"HTML"` the document is the converted text verbatim; otherwise it unwraps to the escape of the tab-expanded text |
| Render.RenderIsQuiet | Source/GUI/Android/app/src/main/java/net/mediaarea/mediainfo/ReportDetailFragment.kt:86-99 | the render callback raises no error, writes no file and converts exactly once, in display mode |
| Export.ExportFilename | Source/GUI/Android/app/src/main/java/net/mediaarea/mediainfo/ReportDetailFragment.kt:178 | the export name is the report's file name, a dot, then the view name |
| Export.StripViewSuffixInverts | Source/GUI/Android/app/src/main/java/net/mediaarea/mediainfo/ReportDetailFragment.kt:178 | the report's file name is recovered from every export name, and only export names give one back |
| Export.ActivityResultOutcomes | Source/GUI/Android/app/src/main/java/net/mediaarea/mediainfo/ReportDetailFragment.kt:149-167 | a non-OK result or another request code has no effect; otherwise exactly one effect: an error iff the data or the id is missing, else registering the export fetch for the id |
| Export.ExportIsPrefixOfSuccess | Source/GUI/Android/app/src/main/java/net/mediaarea/mediainfo/ReportDetailFragment.kt:169-194 | every export performs a prefix of convert, create, open, write, flush, close, in that order, followed by one error when it stops short |
| Export.ExportErrorCount | Source/GUI/Android/app/src/main/java/net/mediaarea/mediainfo/ReportDetailFragment.kt:169-194 | an export raises exactly one error when it fails and none when it succeeds; the stream is closed iff it succeeds |
| Export.ExportConvertsOnlyAfterChecks | Source/GUI/Android/app/src/main/java/net/mediaarea/mediainfo/ReportDetailFragment.kt:169-177 | export-mode conversion happens iff the report is non-empty and the directory writable; otherwise the only effect is one error, with no conversion and no file output |
| Export.ExportSuccess | Source/GUI/Android/app/src/main/java/net/mediaarea/mediainfo/ReportDetailFragment.kt:177-191 | a successful export creates `filename.view` with the catalog MIME type and writes the export-mode conversion, with no error |
| Export.ExportClipAsXml | Source/GUI/Android/app/src/main/java/net/mediaarea/mediainfo/ReportDetailFragment.kt:178-179 | exporting report "clip" in view "XML" typed text/xml creates "clip.XML" once, writes the converted text and raises no error |
| ReportDetail.ArgumentId | Source/GUI/Android/app/src/main/java/net/mediaarea/mediainfo/ReportDetailFragment.kt:43-48 | an id is taken iff the arguments exist, hold the key and the value is not -1, and it is that value |
| ReportDetail.ReportDetailFragment.constructor | Source/GUI/Android/app/src/main/java/net/mediaarea/mediainfo/ReportDetailFragment.kt:34-38 | a new screen shows `"HTML"`, has no id, no bound preferences, nothing pending and an empty history |
| ReportDetail.ReportDetailFragment.OnCreate | Source/GUI/Android/app/src/main/java/net/mediaarea/mediainfo/ReportDetailFragment.kt:40-52 | the id becomes the argument id when there is one, and is unchanged otherwise |
| ReportDetail.ReportDetailFragment.OnAttach | Source/GUI/Android/app/src/main/java/net/mediaarea/mediainfo/ReportDetailFragment.kt:54-69 | preferences are bound iff there is an activity; then the view becomes the stored name or `"HTML"`, otherwise it is unchanged |
| ReportDetail.ReportDetailFragment.OnStop | Source/GUI/Android/app/src/main/java/net/mediaarea/mediainfo/ReportDetailFragment.kt:71-76 | no fetch stays pending, so no later result is delivered |
| ReportDetail.ReportDetailFragment.OnCreateView | Source/GUI/Android/app/src/main/java/net/mediaarea/mediainfo/ReportDetailFragment.kt:78-104 | exactly one render fetch for the id is registered when there is an id, none when there is not |
| ReportDetail.ReportDetailFragment.OnRenderDelivered | Source/GUI/Android/app/src/main/java/net/mediaarea/mediainfo/ReportDetailFragment.kt:86-100 | a pending render fetch appends the render effects for the view current at delivery; a cleared fetch appends nothing |
| ReportDetail.ReportDetailFragment.OnCreateOptionsMenu | Source/GUI/Android/app/src/main/java/net/mediaarea/mediainfo/ReportDetailFragment.kt:118-146 | the loop builds exactly the submenu `Menu(views, view)` |
| ReportDetail.ReportDetailFragment.OnExportClicked | Source/GUI/Android/app/src/main/java/net/mediaarea/mediainfo/ReportDetailFragment.kt:109-116 | the click is consumed and one directory pick with the save request code is requested |
| ReportDetail.ReportDetailFragment.OnViewItemClicked | Source/GUI/Android/app/src/main/java/net/mediaarea/mediainfo/ReportDetailFragment.kt:122-142 | the view follows `Select`; only on a change is it stored (once, if preferences are bound) and the screen rebuilt (once, if there is a fragment manager); the click is always consumed |
| ReportDetail.ReportDetailFragment.OnError | Source/GUI/Android/app/src/main/java/net/mediaarea/mediainfo/ReportDetailFragment.kt:204-213 | one error is raised |
| ReportDetail.ReportDetailFragment.OnActivityResult | Source/GUI/Android/app/src/main/java/net/mediaarea/mediainfo/ReportDetailFragment.kt:149-167 | appends exactly `ActivityResultEffects` and registers the export fetch only when the result is OK for the save request with data and an id |
| ReportDetail.ReportDetailFragment.OnExportDelivered | Source/GUI/Android/app/src/main/java/net/mediaarea/mediainfo/ReportDetailFragment.kt:168-197 | a pending export fetch appends exactly `ExportEffects` for the view current at delivery; otherwise nothing |
| ReportDetail.ReportDetailFragment.WriteFile | Source/GUI/Android/app/src/main/java/net/mediaarea/mediainfo/ReportDetailFragment.kt:181-194 | appends exactly `SinkEffects`: create, open, write, flush, close in that order, stopping at the first failure with one error |

## Left out

- ViewMenu.Menu: its own contract states only the length; what each item holds is stated by MenuEntryChecked, MenuOrderIsPosition and ExactlyOneChecked.
- The Snackbar of `onError` and its guard on a present root view are left out. Every `onError` call is recorded as one `ErrorRaised`.
- Threads and scheduling (`subscribeOn`, `observeOn`) are left out. A delivery is a call of `OnRenderDelivered` or `OnExportDelivered` naming a pending fetch.
- A failed fetch is left out. Neither `subscribe` call supplies an error callback, so a failed fetch, or an exception thrown in either callback outside the `try` block, never reaches `onError`: it goes to RxJava's global error handler, which by default rethrows it as an uncaught exception.
- Whether a fetch delivers once or several times is not constrained. Pending fetches stay registered until `onStop`, as in a `CompositeDisposable`.
- `Core.convertReport` is native code and is not part of this model. It is an unconstrained function of (bytes, view, export mode).
- `Html.escapeHtml` is a platform call. It is an unconstrained function of a string.
- `DocumentFile`, the content resolver and the output stream are replaced by `canWrite` and a `SinkFault`. The directory URI is reduced to "result data present".
- The written bytes are represented by the converted string; UTF-8 encoding is not modelled.
- The `ClassCastException` of `onAttach`, menu inflation, `setHasOptionsMenu` and the detach/attach transaction are host mechanics. A rebuild is recorded as one `Rebuilt` effect.
- The exclusive checkable group is not modelled. The model records the value each item is given by `setChecked`.
- Bundle values other than integers (for which `getInt` gives 0) are not modelled. The arguments are a map from keys to integers.
- Ids are unbounded integers. The screen does no arithmetic on them, so 32-bit width does not matter.
- The web view's other load parameters (no base URL, `text/html`, `utf-8`) are constants and are not recorded.

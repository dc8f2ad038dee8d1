# EduResource Hub catalogue — a Dafny model

EduResource Hub is a static, client-side directory of educational links. A page
script loads a JSON list of resources once, then lets the reader narrow it with a
search box and three dropdowns (category, type, access). The repository has two
variants of that script:

- `docs/script.js`, the paged catalogue. It shows 50 cards per page under a bar of
  page buttons, and it has a light/dark theme toggle.
- `script.js`, the plain catalogue. It shows every matching card at once.

This project models the logic of both scripts as pure functions over immutable data.

- `text.dfy` (`Text`): ASCII lower-casing (`toLowerCase`), substring search
  (`includes`) and the string order used by `Array.prototype.sort`. The module proves
  that substring search agrees with a positional definition, and that the order is a
  strict total order.
- `resources.dfy` (`Resources`): a resource record whose fields are all `Option<string>`.
- `filter.dfy` (`FilterEngine`): the filter state, the per-record predicate and the
  stable filter of `applyFilters`. It also holds the updates made by the search box,
  the dropdowns, the clear button and Escape.
- `pagination.dfy` (`Pagination`): `Math.ceil` page count, `Array.prototype.slice`
  page slices, the five-button window, and the pagination bar with its edge buttons,
  ellipses and previous/next buttons.
- `options.dfy` (`Options`): the dropdown option lists (`getOptions`) and the header
  statistics (`updateStats`).
- `theme.dfy` (`Theme`): the start-up theme and the toggle.
- `paged_app.dfy` (`PagedApp`) and `list_app.dfy` (`ListApp`): each script's global
  state as a state machine, with its events and its render function.

Both scripts share the same filter predicate. A record passes when all four checks hold:

- The search term is empty, or it occurs in the lower-cased title, short
  description or category. An absent field never matches.
- The category selector is empty or equals the category exactly.
- The type selector is empty or equals the type exactly.
- The access selector is empty or equals the access type exactly.

The search term is lower-cased once, when the debounced input fires. It is not
lower-cased again when matching.

A dropdown lists "Other" for records whose field is missing or empty. Choosing
"Other" still tests exact equality, so it selects only records whose field is
literally "Other". `Options.OtherOptionSkipsMissingCategory` proves this. The header
category count does not substitute "Other" either: a missing category counts as a
value of its own (`Options.MissingCategoryCountedSeparately`).

## Model

| member | source | states |
|---|---|---|
| `Text.ContainsIffOccurs` | docs/script.js:176-178 | `includes` holds exactly when the term occurs at some position of the text, in both directions. |
| `Text.LowerIdempotent` | docs/script.js:121 | Lower-casing a term that is already lower-cased changes nothing. |
| `Text.LowerKeepsPrefix` | docs/script.js:121-176 | A lower-cased text contains the lower-cased form of any prefix of the original text. |
| `Text.LessTransitive` | docs/script.js:95 | The sort order on option strings is transitive. |
| `Text.LessTotal` | docs/script.js:95 | Any two distinct strings are ordered one way or the other. |
| `FilterEngine.Filter` | docs/script.js:173-185 | The filtered list is no longer than the full list. Every record in it comes from the full list and passes all four checks. |
| `FilterEngine.FilterIsSubsequence` | docs/script.js:173-185 | The filtered list is an order-preserving subsequence of the full list. |
| `FilterEngine.FilterCounts` | docs/script.js:173-185 | A passing record appears in the filtered list as often as in the full list. A failing record does not appear. |
| `FilterEngine.FilterMembership` | docs/script.js:175-184 | A record is in the filtered list iff it is in the full list and passes the search check and all three selector checks. |
| `FilterEngine.SearchMatchMeaning` | docs/script.js:175-178 | A non-empty term matches iff it occurs in the lower-cased text of a present title, short description or category. An absent field never matches. |
| `FilterEngine.FilterKeepsAllMatching` | script.js:145-157 | When every record passes, the filter returns the full list unchanged. |
| `FilterEngine.FilterIsAllIffAllMatch` | docs/script.js:173-185 | The filter returns the whole list exactly when every record of it passes, in both directions. |
| `FilterEngine.FilterEmptyWhenNothingMatches` | script.js:145-157 | When no record passes, the filtered list is empty. |
| `FilterEngine.NoQueryShowsAll` | docs/script.js:175-182 | An empty search with all three selectors empty accepts every record, so the filtered list is the full list. |
| `FilterEngine.FilterIdempotent` | docs/script.js:173-185 | Filtering the filtered list again with the same state changes nothing. |
| `FilterEngine.Update` | docs/script.js:118-166 | Typing stores the lower-cased text. A dropdown change sets only its own selector. Clear empties the search and every selector. Escape empties only the search. Everything else stays as it was. |
| `FilterEngine.ClearShowsAll` | docs/script.js:137-147 | After the clear action the filtered list is the full list. |
| `FilterEngine.TypedTitleIsFound` | docs/script.js:175-176 | Typing a record's title, in any ASCII letter case, satisfies that record's search check. |
| `Pagination.TotalPages` | docs/script.js:209 | The page count is the ceiling of n/50. It is zero only for an empty list. |
| `Pagination.PageSliceInRange` | docs/script.js:210-212 | For page p with 1 <= p <= totalPages, the slice is elements [(p-1)*50, min(p*50, n)). It is non-empty, and every page before the last holds exactly 50. |
| `Pagination.PageSliceBeyondEnd` | docs/script.js:210-212 | A page past the last one shows nothing. |
| `Pagination.PagesPartition` | docs/script.js:209-212 | Concatenating the slices of pages 1..totalPages reproduces the list exactly. |
| `Pagination.Window` | docs/script.js:274-280 | For 1 <= current <= total: 1 <= startPage <= current <= endPage <= total, and the window has min(5, total) pages. It starts at max(1, min(current-2, total-4)), so it is centred on the current page unless an end of the range is near. |
| `Pagination.Buttons` | docs/script.js:289-295 | The numbered buttons are the consecutive pages of the window. Exactly the current page's button is active. |
| `Pagination.RenderControls` | docs/script.js:256-309 | The bar is hidden iff there is at most one page. Previous asks for current-1 and Next for current+1, disabled on the first and last page. For a page in range there are min(5, total) numbered buttons. The "1" button and leading ellipsis appear iff the first of them is above 1 and 2. The last-page button and trailing ellipsis appear iff the last of them is below total and total-1. |
| `Pagination.ControlsShape` | docs/script.js:266-309 | The "1" button appears iff startPage > 1, and the leading ellipsis iff startPage > 2. The last-page button appears iff endPage < total, and the trailing ellipsis iff endPage < total-1. Previous is disabled iff on page 1, and Next iff on the last page. The numbered buttons ascend. |
| `Pagination.ControlsCoverAllPages` | docs/script.js:282-302 | Every page either has a button or lies in a gap marked by an ellipsis. No ellipsis marks an empty gap. The first and last pages always have a button. |
| `Pagination.ControlsStayInRange` | docs/script.js:266-309 | Every enabled control leads to a page in 1..total, and the neighbouring pages are reachable. |
| `Options.SortedDistinct` | docs/script.js:95 | `[...new Set(xs)].sort()` is strictly ascending and holds exactly the values of xs. |
| `Options.GetOptions` | docs/script.js:95 | The options are strictly sorted and free of duplicates. Each one is some record's field value, or "Other" for a missing or empty field. Every record's value is among them. |
| `Options.EveryResourceHasItsOption` | script.js:71 | Every record's field value, or "Other", is offered as an option. |
| `Options.OtherOptionSkipsMissingCategory` | docs/script.js:180 | A record with no category is listed under "Other", but selecting "Other" does not show it. |
| `Options.UpdateStats` | docs/script.js:83-91 | The resource statistic is the list length. The category statistic is the number of distinct category values. It is at most the length, and at least 1 for a non-empty list. |
| `Options.CategoryStatMatchesOptions` | script.js:59-71 | When every record has a non-empty category, the category statistic equals the number of category options. |
| `Options.MissingCategoryCountedSeparately` | script.js:64-71 | A missing category and a literal "Other" count as two categories but share one option. |
| `Theme.InitialTheme` | docs/script.js:35-38 | The start-up theme is the stored value when it is non-empty, and "light" when nothing or the empty string is stored. |
| `Theme.Toggle` | docs/script.js:40-45 | Toggling "dark" gives "light", and any other value gives "dark". The result always differs from the current value. |
| `Theme.ToggleTwice` | docs/script.js:42 | Toggling twice gives back the starting theme when it is "light" or "dark". |
| `Theme.ToggledThemeSurvivesReload` | docs/script.js:36-44 | The stored toggled theme is the one applied at the next start-up. |
| `PagedApp.ApplyFilters` | docs/script.js:171-188 | Recomputing the filter sets the current page to 1 and leaves the state consistent. |
| `PagedApp.Load` | docs/script.js:62-65 | The corrected load keeps the filter state and the page, and the new filtered list is the loaded list filtered by the current filter state. From page 1 it leaves the state consistent. The filtered list is a subsequence of the loaded list, and equals it when no filter is set. |
| `PagedApp.LoadAsWritten` | docs/script.js:62-65 | The load as written replaces the full list and sets the filtered list to all of it, keeping the filter state and page. It agrees with the corrected load exactly when every loaded record passes the current filter, so always when no filter is set. |
| `PagedApp.Step` | docs/script.js:115-172 | With the corrected load (see ## Findings): every filter event resets the page to 1 and leaves the state consistent. A page click changes only the current page. |
| `PagedApp.Render` | docs/script.js:191-253 | The empty state shows iff the filtered list is empty. Otherwise the count is the filtered length, the page count is its ceiling over 50, at most 50 cards show, and the bar is hidden iff there is one page. |
| `PagedApp.RenderShowsCurrentPage` | docs/script.js:191-216 | The empty state shows iff nothing matches. Otherwise the count is the filtered length and the cards are the current page's slice, 1 to 50 of them. The bar is hidden iff there is at most one page. |
| `PagedApp.StepKeepsConsistent` | docs/script.js:256-317 | With the corrected load (see ## Findings), every event the page can deliver keeps the filtered list equal to the filter of the full list, and keeps the current page within 1..max(1, totalPages). |
| `PagedApp.RunKeepsConsistent` | docs/script.js:115-172 | With the corrected load (see ## Findings), the invariant holds along any run of events the page can deliver. |
| `PagedApp.StepAsWritten` | docs/script.js:62-65 | With the load as written, every event other than the load behaves as in the corrected step, and the load shows the whole loaded list. |
| `PagedApp.StepAsWrittenKeepsConsistent` | docs/script.js:62-172 | As written, every deliverable event keeps the invariant when no filter is set at the time the list arrives. It then agrees with the corrected step. |
| `PagedApp.InitialLoadShowsAll` | docs/script.js:62-68 | The first load shows the whole list on page 1. |
| `PagedApp.ClearShowsAll` | docs/script.js:137-147 | The clear action shows the whole list again, from page 1. |
| `PagedApp.HundredTwentyResources` | docs/script.js:209-212 | With 120 resources there are 3 pages. Page 1 shows items 1-50 and page 3 shows items 101-120. |
| `PagedApp.MathMissesScienceLab` | docs/script.js:175-178 | The term "math" does not match a resource titled "Science Lab". |
| `PagedApp.MathFindsMathematicsHub` | docs/script.js:121-176 | The term "math" matches a resource titled "Mathematics Hub". |
| `PagedApp.LoadIgnoresPendingSearch` | docs/script.js:62-65 | As written, a search typed before the list arrives is ignored by the load, which breaks the invariant. The corrected load keeps it. |
| `ListApp.LoadAsWritten` | script.js:38-41 | The load as written sets the filtered list to the whole loaded list and keeps the filter state. It agrees with the corrected load exactly when every loaded record passes the current filter, so always when no filter is set. |
| `ListApp.Load` | script.js:38-41 | The corrected load keeps the filter state and leaves the state consistent. With no filter set, it shows the whole list. |
| `ListApp.Step` | script.js:91-157 | With the corrected load (see ## Findings), every event leaves the filtered list equal to the filter of the full list. That list is an order-preserving subsequence. |
| `ListApp.StepAsWritten` | script.js:38-41 | With the load as written, user input behaves as in the corrected step, and the load shows the whole loaded list. |
| `ListApp.StepAsWrittenKeepsConsistent` | script.js:38-157 | As written, every event keeps the invariant when no filter is set at the time the list arrives. It then agrees with the corrected step. |
| `ListApp.Render` | script.js:163-182 | The count is the filtered length. The grid shows iff the filtered list is non-empty, and then it shows every filtered record. Otherwise the empty state shows. |
| `ListApp.RenderShowsAllMatches` | script.js:144-182 | Every shown card is a passing record of the full list, and every passing record is shown, in list order. |
| `ListApp.InitialLoadShowsAll` | script.js:38-44 | The first load shows the whole list. |
| `ListApp.ClearShowsAll` | script.js:113-123 | The clear action shows the whole list, and the count reads its length. |
| `ListApp.UnknownCategoryShowsEmptyState` | script.js:152-176 | Selecting a category that no resource carries gives count 0, hides the grid and shows the empty state. |
| `ListApp.LoadIgnoresPendingSearch` | script.js:38-41 | As written, a search typed before the list arrives is ignored by the load, so a non-matching card is shown. The corrected load shows the empty state. |

## Left out

- Fetching and parsing the JSON list, the `response.ok` check and the error panel
  (docs/script.js:55-80, script.js:31-56) are network and JSON I/O. A successful load
  is the `Loaded` event carrying the parsed list. A response that is not ok, or a
  fetch or parse error, leaves the state as it was, so it needs no event. A payload
  that parses but is not an array is not modelled. Line 62 (script.js:38) stores it,
  and then the copy at line 65 (41) throws. For a string payload the copy succeeds,
  and `updateStats` throws at line 88 (script.js:64) after writing the string's length
  as the resource count. Either way the error panel shows, and every later
  `applyFilters` throws as well.
- DOM lookups, `innerHTML` templating of cards and buttons, `fillSelect` and its
  default option, `scrollIntoView`, and focus or blur are presentation. The card text
  is not modelled, including the "Check details for more info." fallback for a
  missing "why it's useful" field. The views carry the records shown instead.
- The checks for a missing page element (`if (elements.pagination)` and similar) are
  presentation. Every element is assumed to be present.
- The 300 ms search debounce is timing. `SearchTyped(text)` stands for the timer
  firing, with `text` the value the search box holds at that moment
  (docs/script.js:121). After a clear or Escape inside the 300 ms window that value is
  "", so the event then carries the empty text.
- The `/` shortcut only moves focus, so it has no state effect. Escape is modelled
  only in the case where it fires, with the search box focused.
- `localStorage` reads and writes are persistence. `Theme.InitialTheme` takes the
  stored value as a parameter, and `Theme.ToggledThemeSurvivesReload` stands for
  the write-then-read.
- The result count text ("N Found (Page p of t)") is modelled as its numbers, not as
  formatted text.
- `toLowerCase` is modelled on ASCII letters only. Locale and full Unicode case
  mapping are not modelled.
- `sort()` compares UTF-16 code units. The model compares characters by code point.
  The two orders differ only between characters above U+FFFF and characters in
  U+E000-U+FFFF.
- Field values are strings or absent. A JSON null and a missing key are both `None`,
  although `new Set(...)` in `updateStats` counts them as two values. Non-string JSON
  values are not modelled; for them `toLowerCase` would throw.
- `Math.ceil(n / 50)` on floating point is modelled as exact integer ceiling. The two
  agree for every list shorter than 2^53.
- `changePage` assigns any number without clamping, and the model's `PageClicked` does
  the same. The invariant lemmas assume a click comes from an enabled control of the
  rendered bar, because the page offers no other way to reach `changePage`.

- PagedApp.StepKeepsConsistent: proved with the corrected load. As written
  (docs/script.js:65) it fails when a search or filter is set before the list
  arrives; `PagedApp.StepAsWrittenKeepsConsistent` proves it for the script as
  written when no filter is set at load time.
- PagedApp.RunKeepsConsistent: proved for runs with the corrected load, for the
  same reason. As written, the run "type math, then load" already breaks it
  (`PagedApp.LoadIgnoresPendingSearch`).
- ListApp.Step: its consistency clause holds with the corrected load. As written
  (script.js:41) it holds only when no filter is set at load time
  (`ListApp.StepAsWrittenKeepsConsistent`).

- Behaviour that neither script implements is not modelled. Search does not look at
  the "why it's useful" text or the type. Escaped quotes in card text are not
  unescaped. `changePage` does not clamp the page number. The page count has no
  lower bound of 1, because an empty list is handled by the empty state instead.

## Findings

| source | as written | input that shows it | evidently intended | confidence | as-written member | corrected member |
|---|---|---|---|---|---|---|
| docs/script.js:62-65 | After the fetch resolves, `filteredResources` is set to the whole list. A search term stored while the list was loading is ignored, although the search box still shows it. | Type "math" before the list arrives, and let the debounce fire. Then the list loads with one resource titled "Science Lab". That card is shown under the term "math". | The loaded list is filtered by the current filter state. | medium, not executed | `PagedApp.LoadIgnoresPendingSearch` | `PagedApp.Load` |
| script.js:38-41 | The same load step as above, in the unpaged script. | Type "math" before the list arrives. Then the list loads with one resource that has no title, description or category. That card is shown. | The loaded list is filtered by the current filter state. | medium, not executed | `ListApp.LoadIgnoresPendingSearch` | `ListApp.Load` |

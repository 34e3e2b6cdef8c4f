# insightX image list — a verified Dafny model

insightX is a dashboard for uploading images and viewing them after a worker has
run object detection and NSFW classification on them. This project models the
image-list part of it. That is the logic that decides which records a listing
shows and how the user's actions change what is on screen:

- the mock backend's search, paging and lookup over its ten seed records
  (`MockData`, client/lib/mock-data.ts);
- the display helpers `truncateText` and `getObjectBadges` (`Utils`,
  client/lib/utils.ts);
- the pagination bar: the previous/next guards, the five-button page window and the
  "Showing start-end of total" label (`Pagination`, client/components/pagination.tsx);
- the home page's list state: the sort toggle, the stable comparator sort, the
  reconcile of a refreshed record, the page count, and the handlers that update
  page, limit, search term and the loaded records (`HomePage`, client/app/page.tsx);
- the upload card: the extension filter on dropped files, the queue edits, and the
  sequential upload loop with its progress arithmetic and its all-or-halt outcome
  (`Upload`, client/components/upload-zone.tsx);
- the set of ids being refreshed (`Refresh`, client/components/image-results.tsx);
- the server's extension check, and the order in which the upload endpoint checks
  before it stores anything (`ImageRouter`, api/routers/images.py);
- the detection overlay: the hover hit test, the box and label rectangles, the
  per-class colour map and the confidence shown (`DetectionViewer`,
  client/components/object-detection-viewer.tsx).

Two shared modules support them. `Records` holds the record shapes of
client/lib/types.ts plus `Option`/`Result`. `Text` holds the string and array
primitives the source relies on: ASCII lower-casing, `includes`, `split`/`join`,
`filter`, and `slice` with negative positions counted from the end. Strings are
sequences of Unicode characters rather than UTF-16 code units (see "## Left out").

Pure code is modelled as functions with lemmas about them. The components whose
state changes step by step are modelled as classes whose methods update fields:
`HomePage.Home`, `Upload.UploadZone`, `Refresh.RefreshTracker` and
`DetectionViewer.Viewer`. The loops of `getObjectBadges`, `handleUpload` (`UploadFiles`), the
progress callback, the hit test and the colour effect are `while` loops. The first
three are proved equal to specification functions (`ObjectBadges`,
`UploadReports`, `FileReports`), whose properties are proved as lemmas. The colour
effect (`DrawNewColors`) gives the `j`-th class of `NewClasses` the `j`-th draw,
and the lemmas about `NewClasses` say which classes those are and in what order.
The hit test states its result directly. Everything the code gets from outside is a
parameter:

- the HTTP responses: `Option` values, and a function giving each upload's
  progress events and outcome;
- `Math.random()`: a sequence of draws;
- the storage key and the new database id on the server.

The table below lists the members whose contracts state something. They speak
about these definitions, each of which models the cited lines directly:

- `MockData.NameMatches`, `FilterByName`, `SearchFilter` (client/lib/mock-data.ts:274-278);
  `QueryImages` (client/lib/mock-data.ts:272-291, over any seed);
  `GetMockImageById` (client/lib/mock-data.ts:294-296).
- `Pagination.HandlePrevious` (client/components/pagination.tsx:17-21);
  `HandleNext` (23-27); `PreviousDisabled` (54); `NextDisabled` (91);
  `PageNumber`, `PageWindow`, `WindowStart` (60-71); `RangeStart` (30);
  `ShownStart` (37).
- `HomePage.Key`, `StrLess`, `KeyLess` (client/app/page.tsx:83-88); `SortImages` and
  `Home.SortedImages` (80-90); `Home.PageCount` (151).
- `Upload.ClientExtension`, `IsSupported` (client/components/upload-zone.tsx:27-31);
  `OverallProgress` (69); `FileReports` (66-70); `UploadReports` (64-71).
- `ImageRouter.FileExtension` (api/routers/images.py:15).
- `DetectionViewer.BoxContains` (client/components/object-detection-viewer.tsx:99);
  `RectCovers` (65, 71); `NewClasses`, `NewClassesBefore` and `ClassesBefore`, the
  classes the colour effect draws for, in first-occurrence order (23-29).
- `Refresh.RefreshTracker.RefreshDisabled` (client/components/image-results.tsx:76, 144).

## Model

| member | source | states |
|---|---|---|
| MockData.FilterByNameMultiset | client/lib/mock-data.ts:274-278 | the name filter keeps every record whose lower-cased name includes the term, with its multiplicity, and drops every other record |
| MockData.FilterByNameAppend | client/lib/mock-data.ts:274-278 | the filter works record by record, so it keeps seed order: filtering a concatenation concatenates the filtered parts |
| MockData.FilterByEmptyTermKeepsAll | client/lib/mock-data.ts:274-278 | the empty term matches every name, so skipping the filter for an empty term changes nothing |
| MockData.QueryTotal | client/lib/mock-data.ts:274-288 | `total` is the number of seed records whose lower-cased name includes the lower-cased term, whatever the page and limit; an empty term counts them all |
| MockData.QueryPageWindow | client/lib/mock-data.ts:281-289 | for page >= 1 and limit >= 0, `data` is the filtered records from `(page-1)*limit` to `page*limit`, cut at the end, so at most `limit` and at most `total` records; a page past the end is empty |
| MockData.GetMockPaginatedImages | client/lib/mock-data.ts:272-291 | page and limit are echoed, total counts the matches among the seed records, and the page holds at most `limit` and at most `total` records |
| MockData.FindById | client/lib/mock-data.ts:294-296 | the lookup finds nothing exactly when no record has the id, and otherwise returns the first record that has it |
| MockData.MockIdsAreOneToTen | client/lib/mock-data.ts:4-269 | the seed holds ten records with ids 1 to 10 in order, so the ids are distinct |
| MockData.MockRecordsWellFormed | client/lib/mock-data.ts:4-269 | every seed record is well formed; id 5 is the only unprocessed record and has no detections and an empty output URL; id 7 is the only NSFW record and is processed with NSFW detections |
| MockData.MockFirstPage | client/lib/mock-data.ts:272-291 | page 1 with limit 5 and no search gives the first five records out of a total of 10 |
| MockData.MockLookup | client/lib/mock-data.ts:294-296 | id 999 is not found; id 2 finds the beach record |
| MockData.FilterSingleMatch | client/lib/mock-data.ts:274-278 | when exactly one record matches, the filter yields that record alone |
| MockData.BeachFilter | client/lib/mock-data.ts:274-278 | filtering the seed by "beach" keeps only the second record |
| MockData.MockSearchBeach | client/lib/mock-data.ts:272-291 | searching "beach" gives total 1 and the single record with id 2, and "BEACH" gives the same answer |
| Utils.TruncateText | client/lib/utils.ts:19-22 | a text that fits is returned unchanged; otherwise the first `maxLength` characters plus "...", `maxLength + 3` long; a negative limit counts from the end as `slice` does |
| Utils.TruncateKeepsPrefix | client/lib/utils.ts:19-22 | the result starts with the first `min(length, maxLength)` characters of the text and is at most `maxLength + 3` long |
| Utils.TruncateIdempotent | client/lib/utils.ts:19-22 | truncating a truncated text again with the same limit changes nothing |
| Utils.GetObjectBadges | client/lib/utils.ts:24-34 | the counting loop and the entries loop produce exactly `ObjectBadges`: one badge per distinct class in first-occurrence order, with its count |
| Utils.ObjectBadgesCounts | client/lib/utils.ts:26-29 | each badge's count is the number of detections of its class, and at least 1 |
| Utils.ObjectBadgesTitles | client/lib/utils.ts:24-34 | every class appears as exactly one badge title, every title is a detected class, and no detections give no badges |
| Utils.ObjectBadgesSum | client/lib/utils.ts:26-29 | the counts add up to the number of detections |
| Utils.ObjectBadgesOrder | client/lib/utils.ts:25-33 | badge titles are ordered by the first position of their class in the detections |
| Pagination.DisabledIffNoChange | client/components/pagination.tsx:17-27 | previous is disabled exactly when `handlePrevious` does nothing, next exactly when `handleNext` does nothing; an enabled button moves exactly one page |
| Pagination.HandlersStayInRange | client/components/pagination.tsx:17-27 | from a page in `[1, totalPages]`, previous and next only request pages in that range |
| Pagination.ButtonCount | client/components/pagination.tsx:60 | the number of buttons is `min(totalPages, 5)`, and 0 for a non-positive page count |
| Pagination.PageWindowShape | client/components/pagination.tsx:60-71 | the window holds `min(totalPages, 5)` consecutive increasing pages from `WindowStart` (1, the last five, or two either side of the current page), each in `[1, totalPages]` |
| Pagination.PageWindowContainsCurrent | client/components/pagination.tsx:60-76 | the window contains the current page exactly when it is a real page, and at most one button is highlighted |
| Pagination.RangeEnd | client/components/pagination.tsx:31 | the label's end is `currentPage * limit` or `total`, whichever is smaller |
| Pagination.RangeLabelMatchesPage | client/components/pagination.tsx:30-37 | for a page that has results, `1 <= start <= end <= total` and the span `start..end` has exactly as many items as the mock backend returns for that page; past the end the page is empty |
| HomePage.NextSort | client/app/page.tsx:73-78 | the clicked field becomes the sort field; a new field sorts ascending; the current field flips its direction |
| HomePage.NextSortTwice | client/app/page.tsx:22-78 | clicking the sorted field twice restores the configuration; the initial `created_at` descending becomes ascending on the first click |
| HomePage.Compare | client/app/page.tsx:80-90 | the comparator returns -1, 0 or 1 |
| HomePage.KeyLessOrder | client/app/page.tsx:80-90 | `<` on the keys of one column (JavaScript string order, `false < true`) is a strict total order |
| HomePage.CompareConsistent | client/app/page.tsx:80-90 | swapping the arguments negates the comparator; it is 0 exactly without a field or for equal keys; "not after" is transitive |
| HomePage.SortPermutes | client/app/page.tsx:80 | the sorted copy holds the same records with the same multiplicities |
| HomePage.SortOrdered | client/app/page.tsx:80-90 | the sorted copy has the same length and is ordered by the comparator, ascending or descending by the chosen column |
| HomePage.SortStable | client/app/page.tsx:80-90 | the records sharing any one key value keep their original relative order |
| HomePage.SortWithoutField | client/app/page.tsx:80-81 | without a sort field the order is unchanged |
| HomePage.Reconcile | client/app/page.tsx:138-144 | the reconciled list has the same length and the same id at every position, and every record with the updated id is replaced by the updated record |
| HomePage.ReconcileProperties | client/app/page.tsx:138-144 | only the records with the updated id change; the list is unchanged when no record has the id; reconciling twice is reconciling once; afterwards a lookup by that id finds the updated record |
| HomePage.TotalPages | client/app/page.tsx:151 | the page count is `ceil(total / limit)`: `(n-1)*limit < total <= n*limit` |
| HomePage.Home.constructor | client/app/page.tsx:16-25 | no records, loading, page 1, limit 10, total 0, empty search, sorted by `created_at` descending |
| HomePage.Home.LoadImages | client/app/page.tsx:30-45 | on success the records and total come from the response to the current page, limit and term; on failure both are kept; loading is false afterwards; page, limit, term and sort are untouched |
| HomePage.Home.HandleUploadSuccess | client/app/page.tsx:51-57 | an upload success reloads the list as `loadImages` does |
| HomePage.Home.HandlePageChange | client/app/page.tsx:59-61 | only the page changes, to the requested page |
| HomePage.Home.HandleLimitChange | client/app/page.tsx:63-66 | the limit becomes one of the offered sizes and the page goes back to 1 |
| HomePage.Home.HandleSearch | client/app/page.tsx:68-71 | the term is replaced and the page goes back to 1 |
| HomePage.Home.HandleSort | client/app/page.tsx:73-78 | the sort configuration becomes `NextSort` of the old one |
| HomePage.Home.OnImageUpdate | client/app/page.tsx:138-144 | the loaded records are reconciled with the refreshed record |
| Upload.ClientExtensionShape | client/components/upload-zone.tsx:28 | the extension is the lower-cased text after the last dot; a name without a dot is its own extension; a name ending in a dot has the empty extension |
| Upload.SupportedFiles | client/components/upload-zone.tsx:27-31 | the kept files are supported, and no more than the dropped ones |
| Upload.SupportedFilesExact | client/components/upload-zone.tsx:27-31 | the filter keeps every supported file with its multiplicity and nothing else |
| Upload.SupportedFilesKeepsAll | client/components/upload-zone.tsx:27-35 | every dropped file is kept exactly when every dropped file is supported, which is when no rejection message is set |
| Upload.SupportedFilesAppend | client/components/upload-zone.tsx:27-31 | the filter keeps the drop order |
| Upload.RemoveAt | client/components/upload-zone.tsx:50-52 | removing a valid position shortens the queue by one; an invalid position changes nothing |
| Upload.RemoveAtKeepsOthers | client/components/upload-zone.tsx:50-52 | files before the position stay put, files after it move down by one, and only the removed file is lost |
| Upload.PercentCompleted | client/components/upload-zone.tsx:67 | the rounded percentage of bytes sent: in `[0, 100]`, 100 when all bytes are sent, and within one half of `100 * loaded / total` |
| Upload.OverallProgressValue | client/components/upload-zone.tsx:69 | overall progress for file `i` at `p` percent is `(100*i + p) / n` |
| Upload.OverallProgressBounds | client/components/upload-zone.tsx:69 | overall progress stays in `[0, 100]` |
| Upload.OverallProgressMonotone | client/components/upload-zone.tsx:64-71 | overall progress never decreases as the upload advances to a higher percentage or a later file |
| Upload.OverallProgressContinuous | client/components/upload-zone.tsx:69 | file `i` at 100% and file `i+1` at 0% give the same overall progress |
| Upload.FirstFailure | client/components/upload-zone.tsx:64-72 | the position of the first failing upload: all before it succeed |
| Upload.ReportsOrdered | client/components/upload-zone.tsx:64-71 | progress values reported file after file stay in `[0, 100]` and never go back between files |
| Upload.UploadZone.constructor | client/components/upload-zone.tsx:17-21 | an empty queue, not uploading, progress 0, no error, no success |
| Upload.UploadZone.OnDrop | client/components/upload-zone.tsx:23-38 | the supported files are appended after the queue; the rejection message is set exactly when some dropped file was filtered out, and cleared otherwise |
| Upload.UploadZone.RemoveFile | client/components/upload-zone.tsx:50-52 | the file at the position is removed from the queue |
| Upload.UploadZone.ClearAll | client/components/upload-zone.tsx:110-111 | the queue becomes empty |
| Upload.UploadZone.HandleUpload | client/components/upload-zone.tsx:54-82 | an empty queue changes nothing; otherwise files are uploaded in order up to and including the first failure; all succeed: success, empty queue, callback once; one fails: the error message, no later file tried, queue kept; not uploading afterwards; the progress values set are exactly `UploadReports` of the files attempted, so they stay in `[0, 100]` and never go back between files, and `progress` ends at the last of them (0 if none) |
| Upload.UploadZone.UploadFiles | client/components/upload-zone.tsx:64-72 | files are uploaded in queue order up to and including the first failure, which is reported; the progress values set are exactly `UploadReports` of the files attempted, and `progress` ends at the last of them |
| Upload.UploadZone.ReportProgress | client/components/upload-zone.tsx:66-71 | the values set are exactly `FileReports`: one per event, the overall progress of file `i` at that event's rounded percentage; `progress` ends at the last of them and stays in `[0, 100]` |
| Upload.FileReportsInBand | client/components/upload-zone.tsx:66-70 | every value set for file `i` lies between that file at 0% and at 100% |
| Upload.UploadReportsValid | client/components/upload-zone.tsx:64-71 | the values set while uploading the first `m` files come file after file, each in its own file's band, so they stay in `[0, 100]` and never go back between files |
| Refresh.RefreshTracker.constructor | client/components/image-results.tsx:30 | no id is being refreshed |
| Refresh.RefreshTracker.BeginRefresh | client/components/image-results.tsx:36 | the id is added and its button is disabled |
| Refresh.RefreshTracker.CompleteRefresh | client/components/image-results.tsx:37-55 | the fetched record reaches the callback only on success and when a callback is given; the id is removed either way and its button is enabled again |
| Refresh.RefreshTracker.HandleRefresh | client/components/image-results.tsx:34-56 | the id is in the set while the fetch runs and is removed afterwards; no other id is added or removed |
| Refresh.RefreshTracker.OverlappingRefreshes | client/components/image-results.tsx:36-54 | with two refreshes of one id started, the first completion already removes it and re-enables the button |
| ImageRouter.ValidateImageType | api/routers/images.py:11-23 | a file is accepted exactly when its extension is allowed, and the extension is returned; a rejection is status 400 with the list of allowed types |
| ImageRouter.NotAllowedDetailText | api/routers/images.py:17-21 | the rejection detail lists ".jpg, .jpeg, .png, .gif, .webp" |
| ImageRouter.ExtensionAfterDot | api/routers/images.py:15 | the extension is a dot plus the lower-cased text after the last dot |
| ImageRouter.ExtensionWithoutDot | api/routers/images.py:15 | a name without a dot is its own extension |
| ImageRouter.UpperCaseNameAccepted | api/routers/images.py:15 | "PHOTO.JPG" is accepted as ".jpg" |
| ImageRouter.BareExtensionAccepted | api/routers/images.py:15 | a file called "png" is accepted as ".png" |
| ImageRouter.OtherNamesRejected | api/routers/images.py:15-21 | "photo." and "doc.pdf" are rejected with 400 and the list of allowed types |
| ImageRouter.DottedAllowed | api/routers/images.py:12 | a dot plus an extension is allowed exactly when the extension is one of the five image extensions |
| ImageRouter.ClientServerAgreement | api/routers/images.py:12 | every file the upload card keeps passes the server check; a file passes the server but is dropped by the card exactly when its extension is "gif" |
| ImageRouter.GifOnlyOnServer | api/routers/images.py:12 | "anim.gif" is accepted by the server and dropped by the upload card |
| ImageRouter.UploadImage | api/routers/images.py:25-50 | a rejected name causes no side effect; an accepted one stores the object, adds and commits the record, publishes the message, in that order, and answers with the new id and the name |
| DetectionViewer.FindHoveredObject | client/components/object-detection-viewer.tsx:96-103 | nothing is found exactly when no box contains the point (edges included); otherwise the first object in list order whose box contains it |
| DetectionViewer.BoxRect | client/components/object-detection-viewer.tsx:56-65 | a box is drawn from corner `(x1, y1)` to corner `(x2, y2)` |
| DetectionViewer.LabelRect | client/components/object-detection-viewer.tsx:69-71 | the label background starts at `x1`, is 20 high, ends at `y1`, and is 10 wider than the class name |
| DetectionViewer.HoverAreaIsDrawnArea | client/components/object-detection-viewer.tsx:96-103 | a hovered point lies in the drawn rectangle, and for a box with ordered corners the two areas coincide |
| DetectionViewer.ReversedBoxNeverHovered | client/components/object-detection-viewer.tsx:96-103 | a box with reversed corners is drawn but never hovered |
| DetectionViewer.LabelAboveBox | client/components/object-detection-viewer.tsx:69-71 | the label meets its box's hover area only along the top edge |
| DetectionViewer.Hue | client/components/object-detection-viewer.tsx:26 | a random hue is an integer in `[0, 360)`, the floor of the draw times 360 |
| DetectionViewer.ColorFor | client/components/object-detection-viewer.tsx:60 | a class without a colour falls back to hue 0; with all hues valid the colour is a valid hue |
| DetectionViewer.Round | client/components/object-detection-viewer.tsx:126 | `Math.round`: the nearest integer, halves rounded up |
| DetectionViewer.ConfidencePercent | client/components/object-detection-viewer.tsx:126 | a confidence in `[0, 1]` is shown as a percentage in `[0, 100]` |
| DetectionViewer.Viewer.constructor | client/components/object-detection-viewer.tsx:16-20 | nothing hovered and no colours |
| DetectionViewer.Viewer.HandleMouseMove | client/components/object-detection-viewer.tsx:84-106 | the hovered object becomes the first object whose box contains the point, or none |
| DetectionViewer.Viewer.HandleMouseLeave | client/components/object-detection-viewer.tsx:120 | nothing is hovered |
| DetectionViewer.Viewer.AssignColors | client/components/object-detection-viewer.tsx:22-30 | every class of the list gets a colour; a class that had one keeps it; the `j`-th new class, in first-occurrence order, gets the hue of the `j`-th random draw, so each new class is coloured once and a later object of the same class changes nothing; all hues stay in `[0, 360)`; a list of known classes changes nothing |
| DetectionViewer.Viewer.DrawNewColors | client/components/object-detection-viewer.tsx:23-28 | the `forEach` loop leaves the known classes' hues alone, gives the `j`-th new class the `j`-th hue, and colours no other class |
| DetectionViewer.ColorsOfNewClasses | client/components/object-detection-viewer.tsx:22-30 | once every object is passed, the map holds exactly the known classes and the classes of the list, each new class has the hue of its draw, and every hue is valid |
| DetectionViewer.NewClassesMembers | client/components/object-detection-viewer.tsx:24-25 | a class draws a hue exactly when some object has it and it had no colour before |
| DetectionViewer.NewClassesDistinct | client/components/object-detection-viewer.tsx:25-27 | no class draws twice: once coloured, a class is skipped by later objects |
| DetectionViewer.NewClassesPrefix | client/components/object-detection-viewer.tsx:24-28 | the classes drawn for while passing the first objects are drawn before those of later objects |
| DetectionViewer.NewClassAtFirstOccurrence | client/components/object-detection-viewer.tsx:24-28 | an uncoloured class draws at its first occurrence: it takes the draw right after those of the new classes of the objects before it |

## Left out

- Lower-casing (`toLowerCase`, Python `lower`) is modelled for ASCII letters only; other letters are compared as they are.
- HomePage.StrLess, Utils.TruncateText and Text.Slice work on Unicode characters. JavaScript's `<`, `length` and `slice` work on UTF-16 code units. They agree for text without characters beyond U+FFFF. Beyond that, such characters sort against U+E000–U+FFFF in the opposite order, and `truncateText` counts and cuts them differently.
- JavaScript's `Object.entries` lists integer-like keys first, in numeric order. `Utils.GetObjectBadges` assumes insertion order for every class name.
- Plain JavaScript objects inherit keys such as "constructor". A class with such a name would be miscounted by `getObjectBadges` and never coloured by the colour effect. The model uses maps with no inherited keys.
- Numbers are modelled as exact integers and reals. Floating-point rounding, `NaN` from a zero limit or a zero progress total, and `Infinity` are not modelled.
- Upload.PercentCompleted: events with an unknown or zero total are excluded by the `ByteProgress` type, and `loaded` is assumed not to exceed `total`.
- HomePage.TotalPages: requires a positive limit, which every limit the selector offers is.
- HomePage.Home.HandleLimitChange: requires one of the page sizes the selector offers (client/components/pagination.tsx:44-47), the only values the page passes; `Valid` rests on it.
- react-dropzone's own `accept` filter and 10 MiB size limit (client/components/upload-zone.tsx:40-48) are library behaviour. File sizes are carried but not checked.
- The HTTP client, the object store, the database and the message queue are not modelled. Their results are parameters, and `ImageRouter.UploadImage` records its side effects as a trace.
- `upload_image` with no filename, and content-type checks, are left out; a file always has a name here.
- Async interleaving is not modelled: overlapping loads or refreshes completing out of order, `useEffect` re-running, and the toasts. `Refresh.RefreshTracker.OverlappingRefreshes` shows one fixed interleaving.
- Canvas drawing is not modelled: fill and stroke calls, text placement, and the client-to-canvas scaling in `handleMouseMove`. Points are in canvas coordinates, and the label text width from `measureText` is a parameter.
- Boxes are assumed to have four coordinates; a `box` array of another length is not modelled.
- The hovered object is the first box in list order, while later boxes are drawn over earlier ones. The model states the list-order rule and does not relate it to drawing order.
- `page.tsx` passes `onImageUpdate` to `ResultsTable`, whose props do not declare it (client/components/results-table.tsx:24-32). The reconcile is modelled as the standalone `HomePage.Reconcile`, applied by `HomePage.Home.OnImageUpdate`.
- `getRelativeTime`, which image-results.tsx imports, is not defined in client/lib/utils.ts. It is not part of this model, and neither are `cn` and `formatDate`.
- A mock query never changes `mockImages`. In the model this holds because every query is a pure function of the seed.
- `sortedImages` returns a copy and leaves `images` in place. `HomePage.Home.SortedImages` is a function that reads the state, so it cannot change it.
- The markup-only components, the layout, and the worker's detection pipeline are not part of this model.

# Object-list page of stu, in Dafny

stu is a terminal browser for S3 buckets. Its object-list page shows the
objects under one prefix of a bucket. This project models that page:

- **The page's state.** The page holds an immutable master list of items
  (directories and files). Shown over it is an index projection: the indices
  of the items whose names contain the filter text, ordered by the sort type
  picked in the sort dialog. A cursor moves over the projection. The page
  is in exactly one view state: the list itself or one of seven dialogs.
- **Key handling.** Each key press arrives as a list of abstract user
  events. The active view state's table acts on the first event it accepts.
  In the three text dialogs a key press that none of the table's events
  match edits the text instead. `HandleKey` holds the scan over the events.
  What each row of each table does is written out, row by row, in two-state
  predicates (`DefaultOutcome`, `SortOutcome`, ... and `Outcome` over them).
  The route methods and `HandleKey` are proved to meet them.
- **Downloads and copies.** Downloading a file or a directory, "download
  as", and pasting a copied object go through the list, confirmation
  dialogs and a save dialog. All of them end in requests sent to the
  application on a channel.
- **The path wrapper.** The paste confirmation wraps bucket URIs to the
  dialog's width. It keeps path segments whole where it can and measures
  text in terminal columns. The fold `PathWrap` gives its exact lines, and
  the wrapping methods are proved to return them.

Files:

- `objects.dfy`: items, keys, download and paste payloads.
- `keys.dfy`: user events.
- `events.dfy`: application events.
- `text.dfy`: substring test, trimming, joining lines.
- `widgets.dfy`: the scroll list, confirmation toggle, sort picker,
  copy-detail picker and text input the page uses.
- `projection.dfy`: filtering and the stable sort, with their properties.
- `page.dfy`: the page as a class. `sent` is a ghost log of everything
  written to the application channel.
- `wrap.dfy`: the column-width wrappers. The loops are imperative methods,
  each proved equal to, or bounded by, a specification function.
- `scenarios.dfy`: the page's sort unit test and a page-down after a
  render, replayed through `HandleKey`.

Decisions:

- **Panics as results.** Where the source panics, the model returns a
  `fault` flag or `None`. This covers `current_selected_item` out of range,
  and a directory's `size_byte().unwrap()`.
- **Character width.** The width of a character is a parameter
  `w: char -> CharWidth` (0, 1 or 2 columns). A string's width is the sum of
  its characters' widths.
- **Timestamps.** Modification times are integers (seconds). Only their
  order is used.

## Model

| member | source | states |
|---|---|---|
| Objects.ObjectItem.SizeByte | src/pages/object_list.rs:703-710 | a size exactly for files, the file's own size; `None` for a directory |
| Objects.ObjectItem.LastModified | src/pages/object_list.rs:695-702 | a time exactly for files; `None` for a directory |
| Text.ContainsIff | src/pages/object_list.rs:646-654 | the executable `contains` holds exactly when the filter occurs as a slice of the name |
| Text.Trim | src/pages/object_list.rs:792-797 | the result is a slice of the input with only whitespace cut off both ends, and starts and ends with non-whitespace |
| Text.TrimEmptyIff | src/pages/object_list.rs:792-797 | a name trims to empty exactly when it is all whitespace (the case where `download_as` returns early) |
| Text.TrimIdempotent | src/pages/object_list.rs:164 | trimming twice is trimming once |
| Widgets.ScrollListState.SelectNext | src/pages/object_list.rs:572-574 | one row down, stopping at the last row, over the same length |
| Widgets.ScrollListState.SelectPrev | src/pages/object_list.rs:576-578 | one row up, stopping at the first |
| Widgets.ScrollListState.SelectFirst | src/pages/object_list.rs:580-582 | the first row, scrolled to the top |
| Widgets.ScrollListState.SelectLast | src/pages/object_list.rs:584-586 | the last row of a non-empty list |
| Widgets.ScrollListState.SelectNextPage | src/pages/object_list.rs:588-590 | a viewport further down, capped at the last row, never moving up |
| Widgets.ScrollListState.SelectPrevPage | src/pages/object_list.rs:592-594 | a viewport further up, capped at the first row, never moving down |
| Widgets.ScrollListState.WithHeight | src/pages/object_list.rs:304 | drawing the list records the viewport height and keeps the selection, the first visible row and the row count |
| Widgets.PagingMoves | src/pages/object_list.rs:588-594 | once the height is set, page down moves forward unless the last row is selected, page up moves back unless the first row is, and a full page down and up returns to the same row |
| Widgets.NewScrollList | src/pages/object_list.rs:78 | a fresh cursor over `n` rows: first row selected and shown |
| Widgets.ConfirmDialogState.Toggle | src/pages/object_list.rs:221-223 | left or right flips the toggle |
| Widgets.ToggleTwice | src/pages/object_list.rs:256-259 | toggling twice returns to the same button |
| Widgets.SortDialogState.SelectNext | src/pages/object_list.rs:667-671 | the highlight moves down one row, wrapping from the last to the first |
| Widgets.SortDialogState.SelectPrev | src/pages/object_list.rs:673-677 | the highlight moves up one row, wrapping; it undoes `SelectNext` |
| Widgets.SortTypesDistinct | src/pages/object_list.rs:683-711 | the seven rows name seven different sort types |
| Widgets.SelectedOneToOne | src/pages/object_list.rs:679-712 | two picker states select the same sort type exactly when they highlight the same row, and every sort type is on some row |
| Widgets.CopyDetails | src/pages/object_list.rs:621-628 | the copy-detail dialog offers at least the item's key |
| Widgets.CopyDetailDialogState.SelectNext | src/pages/object_list.rs:237-239 | the next detail row, wrapping around, same item |
| Widgets.CopyDetailDialogState.SelectPrev | src/pages/object_list.rs:240-242 | the previous detail row, undone by `SelectNext` |
| Widgets.CopyDetailDialogState.SelectedNameAndValue | src/pages/object_list.rs:243-246 | what is copied is one of the item's detail rows |
| Widgets.NewCopyDetail | src/pages/object_list.rs:621-628 | the dialog opens on the item with its key row highlighted |
| Widgets.InputDialogState.HandleKeyEvent | src/pages/object_list.rs:174-177 | a typed character is appended; backspace drops the last character; an ignored key or backspace on empty text changes nothing |
| Widgets.InsertThenBackspace | src/pages/object_list.rs:190-193 | typing a character and deleting it restores the text |
| Projection.FilterIndices | src/pages/object_list.rs:646-654 | in-range indices, strictly increasing (so each at most once), and an index is kept exactly when its item's name contains the filter |
| Projection.EmptyFilterIsIdentity | src/pages/object_list.rs:640-654 | the empty filter keeps every index in master order |
| Projection.Range | src/pages/object_list.rs:72 | `0..n`: position `k` holds `k` |
| Projection.IncreasingCovering | src/pages/object_list.rs:648-654 | an increasing in-range sequence covering every index below `n` is `0..n` |
| Projection.KeyCmpFlip | src/pages/object_list.rs:683-711 | every comparator is antisymmetric: swapping the operands flips the result |
| Projection.OppositeCmp | src/pages/object_list.rs:687-710 | a `*Desc` comparator is its `*Asc` one with the operands swapped |
| Projection.KeyCmpTrans | src/pages/object_list.rs:683-711 | every comparator's "not greater" is transitive, as `sort_by` requires |
| Projection.KeyCmpEqualTrans | src/pages/object_list.rs:683-711 | ties are transitive |
| Projection.CmpStrFlip | src/pages/object_list.rs:687-694 | string order is antisymmetric, and equal means the same string |
| Projection.CmpStrTrans | src/pages/object_list.rs:687-694 | string order is transitive |
| Projection.CmpOptFlip | src/pages/object_list.rs:695-710 | the order on optional values, with `None` first, is antisymmetric |
| Projection.InsertPermutation | src/pages/object_list.rs:679-712 | one insertion step adds exactly one index |
| Projection.SortPermutation | src/pages/object_list.rs:679-712 | sorting rearranges the projection, dropping and adding nothing |
| Projection.InsertSorted | src/pages/object_list.rs:679-712 | inserting into a sorted projection keeps it sorted |
| Projection.SortSorted | src/pages/object_list.rs:679-712 | the result is ordered by the selected comparator |
| Projection.SortStable | src/pages/object_list.rs:679-712 | the indices tying with any item keep their relative order, as a stable sort promises |
| Projection.SortedFixpoint | src/pages/object_list.rs:661-665 | sorting an already sorted projection changes nothing (why `apply_sort` leaves the list where the preview put it) |
| Projection.SortIdempotent | src/pages/object_list.rs:679-712 | sorting twice by the same type is sorting once |
| Projection.SortedUnique | src/pages/object_list.rs:679-712 | without ties, the sorted rearrangement of a projection is unique |
| Projection.DefaultAscending | src/pages/object_list.rs:684-686 | with `Default` (a plain `sort()`) the projection is in ascending index order |
| Projection.DefaultSortedIsFilterOrder | src/pages/object_list.rs:609-614 | a `Default`-sorted arrangement of the filter result is the filter result itself |
| Projection.OppositeReverses | src/pages/object_list.rs:687-710 | without ties, sorting by a `*Desc` type is the reverse of sorting by the matching `*Asc` type |
| Projection.ReverseSortedOpposite | src/pages/object_list.rs:687-710 | a reversed sorted sequence is sorted in the opposite direction |
| Projection.PermutationDistinct | src/pages/object_list.rs:648-654 | a rearrangement of a repetition-free projection has no repetitions |
| ObjectList.FirstAccepted | src/pages/object_list.rs:86-286 | the position of the first event the state's table accepts; none before it is accepted; `None` exactly when none is |
| ObjectList.Routed | src/pages/object_list.rs:86-286 | an event is routed exactly when some event of the key press is accepted, and it is one of those |
| ObjectList.OtherNeverRouted | src/pages/object_list.rs:86-286 | events of other pages never act here |
| ObjectList.RoutedIgnoresRest | src/pages/object_list.rs:86-286 | events after the one that acts make no difference |
| ObjectList.FirstAcceptedAt | src/pages/object_list.rs:86-286 | the first accepted position depends on acceptance alone |
| ObjectList.ObjectListPage.constructor | src/pages/object_list.rs:65-84 | the list view over every item in master order `0..len`, cursor at the top over `len` rows, no filter, the Default sort, nothing sent |
| ObjectList.ObjectListPage.CurrentSelectedItem | src/pages/object_list.rs:844-862 | an item exactly when the cursor indexes the projection and that index the master list (where the source panics otherwise); then it is the master item at the projection index under the cursor |
| ObjectList.ObjectListPage.CurrentSelectedObjectKey | src/pages/object_list.rs:869-877 | the page's bucket, with its path extended by the selected item's name |
| ObjectList.ObjectListPage.SelectionUnderValid | src/pages/object_list.rs:844-862 | on a consistent page the selection exists exactly when the projection is non-empty, and it matches the filter |
| ObjectList.ObjectListPage.ProjectionMembers | src/pages/object_list.rs:646-712 | an index is in the projection exactly when its name contains the filter, and each index occurs once |
| ObjectList.ObjectListPage.ObjectList | src/pages/object_list.rs:879-885 | the projected items, in projection order |
| ObjectList.ObjectListPage.ObjectListMembers | src/pages/object_list.rs:879-885 | the listed items are exactly the master items whose names match the filter |
| ObjectList.ObjectListPage.SelectNext | src/pages/object_list.rs:96-98 | the cursor moves one row down; the projection stays |
| ObjectList.ObjectListPage.SelectPrev | src/pages/object_list.rs:99-101 | the cursor moves one row up |
| ObjectList.ObjectListPage.SelectFirst | src/pages/object_list.rs:102-104 | the cursor jumps to the top |
| ObjectList.ObjectListPage.SelectLast | src/pages/object_list.rs:105-107 | the cursor jumps to the bottom |
| ObjectList.ObjectListPage.SelectNextPage | src/pages/object_list.rs:108-110 | the cursor moves a viewport down |
| ObjectList.ObjectListPage.SelectPrevPage | src/pages/object_list.rs:111-113 | the cursor moves a viewport up |
| ObjectList.ObjectListPage.SetViewportHeight | src/pages/object_list.rs:288-304 | `render`'s write into the page: the list state takes the height of the area it is drawn in, and nothing else changes |
| ObjectList.ObjectListPage.SortViewIndices | src/pages/object_list.rs:679-712 | the projection becomes its stable sort by the selected type: the same indices, now sorted; the cursor is untouched |
| ObjectList.ObjectListPage.FilterViewIndices | src/pages/object_list.rs:646-659 | the projection becomes the sorted filter result: membership is the filter predicate, each index once; the cursor is fresh over the new length |
| ObjectList.ObjectListPage.OpenFilterDialog | src/pages/object_list.rs:596-598 | the filter dialog opens |
| ObjectList.ObjectListPage.ApplyFilter | src/pages/object_list.rs:634-638 | back to the list keeping the filter, re-projected, cursor fresh |
| ObjectList.ObjectListPage.ResetFilter | src/pages/object_list.rs:640-644 | the filter is cleared and every item is listed again, sorted, cursor fresh |
| ObjectList.ObjectListPage.CloseFilterDialog | src/pages/object_list.rs:600-603 | back to the list with the filter cleared and full membership restored |
| ObjectList.ObjectListPage.OpenSortDialog | src/pages/object_list.rs:605-607 | the sort picker opens; the projection stays |
| ObjectList.ObjectListPage.CloseSortDialog | src/pages/object_list.rs:609-614 | back to the list, the picker reset to Default, the projection back in filter (master) order |
| ObjectList.ObjectListPage.ApplySort | src/pages/object_list.rs:661-665 | back to the list; the re-sort leaves the projection as it was |
| ObjectList.ObjectListPage.SelectNextSortItem | src/pages/object_list.rs:667-671 | the picker moves down and the projection is re-sorted from its current order |
| ObjectList.ObjectListPage.SelectPrevSortItem | src/pages/object_list.rs:673-677 | the picker moves up and the projection is re-sorted from its current order |
| ObjectList.ObjectListPage.OpenGoToPathDialog | src/pages/object_list.rs:616-619 | the go-to-path input opens, seeded with the current directory's path |
| ObjectList.ObjectListPage.OpenCopyDetailDialog | src/pages/object_list.rs:621-628 | the copy-detail dialog opens on the selected item |
| ObjectList.ObjectListPage.CloseCopyDetailDialog | src/pages/object_list.rs:630-632 | back to the list |
| ObjectList.ObjectListPage.OpenDownloadConfirmDialog | src/pages/object_list.rs:714-721 | the confirmation opens carrying the objects and the "as" flag, its toggle on cancel |
| ObjectList.ObjectListPage.CloseDownloadConfirmDialog | src/pages/object_list.rs:723-725 | back to the list |
| ObjectList.ObjectListPage.OpenPasteConfirmDialog | src/pages/object_list.rs:727-730 | the confirmation opens carrying the copy request, its toggle on cancel |
| ObjectList.ObjectListPage.ClosePasteConfirmDialog | src/pages/object_list.rs:732-734 | back to the list |
| ObjectList.ObjectListPage.OpenSaveDialog | src/pages/object_list.rs:820-822 | the save dialog opens seeded with the name, carrying the pending objects |
| ObjectList.ObjectListPage.CloseSaveDialog | src/pages/object_list.rs:824-826 | back to the list |
| ObjectList.ObjectListPage.OpenManagementConsole | src/pages/object_list.rs:828-832 | exactly one console request for the page's own key is sent |
| ObjectList.ObjectListPage.StartDownload | src/pages/object_list.rs:736-756 | a directory sends one enumeration request (not "as"); a file sends one download of the selected key under its own name and size |
| ObjectList.ObjectListPage.StartDownloadAs | src/pages/object_list.rs:758-769 | a directory sends one enumeration request marked "as"; a file opens the save dialog on its name and sends nothing |
| ObjectList.ObjectListPage.Download | src/pages/object_list.rs:771-790 | outside the confirmation nothing happens; cancel returns to the list and sends nothing; confirm with "as" moves the objects into the save dialog and sends nothing; confirm without it sends exactly one download of the objects into the selected directory and returns to the list; a fault exactly when there is no selection, changing nothing |
| ObjectList.ObjectListPage.DownloadAs | src/pages/object_list.rs:792-818 | an input that trims to empty keeps the dialog and sends nothing; with pending objects, one download into the trimmed name; without, one download of the selected file at its size under the trimmed name; then back to the list; a fault exactly when there is no selection, or the selected item is a directory for a single download |
| ObjectList.ObjectListPage.Paste | src/pages/object_list.rs:834-842 | the copy request is sent only when the toggle is on ok, and the dialog always closes |
| ObjectList.ObjectListPage.DefaultMoveDownRoute | src/pages/object_list.rs:96-113 | down, bottom and page down move only the cursor, by the matching scroll-list step |
| ObjectList.ObjectListPage.DefaultMoveUpRoute | src/pages/object_list.rs:96-113 | up, top and page up move only the cursor |
| ObjectList.ObjectListPage.DefaultSendRoute | src/pages/object_list.rs:90-152 | select, back, refresh, bucket list, paste and help each send exactly their one request and change nothing else |
| ObjectList.ObjectListPage.DefaultConsoleRoute | src/pages/object_list.rs:120-122 | the management-console row sends one console request for the page's key |
| ObjectList.ObjectListPage.DefaultCopyObjectRoute | src/pages/object_list.rs:132-136 | the copy row sends the selected object's key and the selected item |
| ObjectList.ObjectListPage.DefaultDialogRoute | src/pages/object_list.rs:123-131 | filter and sort open their dialogs; go-to-path opens its input seeded with the joined path; nothing else changes |
| ObjectList.ObjectListPage.DefaultCopyDetailsRoute | src/pages/object_list.rs:141-143 | the copy-details row opens the dialog on the selected item |
| ObjectList.ObjectListPage.DefaultResetFilterRoute | src/pages/object_list.rs:153-155 | the reset row clears the filter and re-projects with a fresh cursor |
| ObjectList.ObjectListPage.DefaultDownloadRoute | src/pages/object_list.rs:144-146 | the download row has the outcome of `StartDownload` on the selection |
| ObjectList.ObjectListPage.DefaultDownloadAsRoute | src/pages/object_list.rs:147-149 | the download-as row has the outcome of `StartDownloadAs` on the selection |
| ObjectList.ObjectListPage.DefaultRoute | src/pages/object_list.rs:88-156 | the list view's table, one row per event: select sends one move-down request and back one move-up; the six cursor keys move only the cursor, by the matching scroll-list step; refresh, bucket list and management console each send their one request; filter and sort open their dialogs, go-to-path opens its input seeded with the joined path; copy sends the selected key and item, paste one paste request for the current directory; copy details opens on the selected item; download and download-as have the outcomes of `StartDownload` and `StartDownloadAs`; help sends help; reset filter clears the filter and re-projects; the projection, cursor, filter and sort stay unless the row says otherwise |
| ObjectList.ObjectListPage.GoToPathApplyRoute | src/pages/object_list.rs:163-171 | apply sends one jump to the trimmed input in this bucket and returns to the list |
| ObjectList.ObjectListPage.GoToPathRoute | src/pages/object_list.rs:158-179 | close returns to the list; apply sends one jump to the trimmed input in this bucket and returns to the list; help sends help; any other key edits the input; nothing else changes |
| ObjectList.ObjectListPage.FilterApplyRoute | src/pages/object_list.rs:182-184 | apply returns to the list keeping the filter, re-projected |
| ObjectList.ObjectListPage.FilterCloseRoute | src/pages/object_list.rs:185-187 | close returns to the list with the filter cleared, re-projected |
| ObjectList.ObjectListPage.FilterEditRoute | src/pages/object_list.rs:191-194 | an unmatched key edits the filter and re-projects at once |
| ObjectList.ObjectListPage.FilterRoute | src/pages/object_list.rs:180-196 | close clears the filter and lists every item; apply keeps the filter; both return to the list re-projected with a fresh cursor; help sends help; any other key edits the filter and re-projects at once |
| ObjectList.ObjectListPage.SortCloseRoute | src/pages/object_list.rs:199-201 | close resets the picker and restores the filter order |
| ObjectList.ObjectListPage.SortMoveRoute | src/pages/object_list.rs:202-207 | down and up move the picker and re-sort from the current order |
| ObjectList.ObjectListPage.SortRoute | src/pages/object_list.rs:197-215 | down and up move the picker and re-sort from the current order; close resets the picker and restores the filter (master) order; select returns keeping the order; help sends help; the cursor never moves |
| ObjectList.ObjectListPage.PasteSelectRoute | src/pages/object_list.rs:224-226 | select returns and sends the paste request exactly when the toggle is on ok |
| ObjectList.ObjectListPage.PasteConfirmRoute | src/pages/object_list.rs:216-231 | close returns and sends nothing; left and right flip the toggle; select returns and sends the paste request exactly when the toggle is on ok; help sends help |
| ObjectList.ObjectListPage.CopyDetailRoute | src/pages/object_list.rs:232-251 | close returns; down and up move the detail row over the same item; select sends the highlighted name and value to the clipboard; help sends help |
| ObjectList.ObjectListPage.DownloadSelectRoute | src/pages/object_list.rs:260-262 | select has the outcome of `download` (cancel, fault without selection, save dialog with "as", one download otherwise) |
| ObjectList.ObjectListPage.DownloadConfirmRoute | src/pages/object_list.rs:252-267 | close returns and sends nothing; left and right flip the toggle; select has the outcome of `download`: on cancel it returns and sends nothing, on ok with no selection it faults, with "as" it opens the save dialog on the selected name carrying the objects, otherwise it sends one download of the objects into the selected directory and returns; help sends help |
| ObjectList.ObjectListPage.SaveApplyRoute | src/pages/object_list.rs:273-276 | apply has the outcome of `download_as` on the trimmed typed name |
| ObjectList.ObjectListPage.SaveEditRoute | src/pages/object_list.rs:280-282 | an unmatched key edits the name and nothing else |
| ObjectList.ObjectListPage.SaveRoute | src/pages/object_list.rs:268-284 | close returns; apply has the outcome of `download_as` on the trimmed name: an empty name stays and sends nothing, pending objects are sent as one download into that name, a selected file as one download at its size, then the list returns, and it faults without a selection or on a directory without pending objects; help sends help; any other key edits the name |
| ObjectList.ObjectListPage.DispatchText | src/pages/object_list.rs:158-196 | in a text dialog, the row of that dialog's table for the routed event, or the text edit when none is routed (all of `Outcome`) |
| ObjectList.ObjectListPage.DispatchSelect | src/pages/object_list.rs:88-156 | in the list view or a selection dialog, the row of that state's table for the routed event (all of `Outcome`: every list-view row, copy-detail select, confirmed download); nothing happens when no event is routed |
| ObjectList.ObjectListPage.Dispatch | src/pages/object_list.rs:86-286 | the routed event applied to the active state: exactly the row of that state's table (`Outcome`), at most one request sent |
| ObjectList.ObjectListPage.HandleKey | src/pages/object_list.rs:86-286 | `handle_key`: the scan stops at the first event the state's table accepts, and the page then does exactly what that table row says (`Outcome` on `Routed`); at most one request is sent; a confirmed download without "as" from the confirmation dialog sends exactly one download of the dialog's objects into the selected directory and returns to the list |
| DialogWrap.WidthAppend | src/pages/object_list.rs:1145-1147 | the width of a concatenation is the sum of the widths |
| DialogWrap.FitCount | src/pages/object_list.rs:1220-1231 | the length of the longest prefix that fits in `max` columns |
| DialogWrap.FitCountLongest | src/pages/object_list.rs:1220-1231 | that prefix fits, and one more character would not |
| DialogWrap.StrictWrap | src/pages/object_list.rs:1191-1211 | the greedy wrap as a specification: no line is empty, and there are no lines exactly when the text is empty |
| DialogWrap.StrictWrapFlatten | src/pages/object_list.rs:1191-1211 | the lines put back together are the input |
| DialogWrap.StrictWrapWidth | src/pages/object_list.rs:1191-1211 | no line is wider than `max` when no single character is |
| DialogWrap.StrictWrapSingle | src/pages/object_list.rs:1191-1211 | a non-empty text that fits is one line |
| DialogWrap.StrictWrapGreedy | src/pages/object_list.rs:1196-1205 | every line but the last is as long as it can be: the next line's first character would not fit after it |
| DialogWrap.StrictWrapHead | src/pages/object_list.rs:1196-1205 | the first line starts with the text's first character |
| DialogWrap.SplitByDisplayWidth | src/pages/object_list.rs:1215-1234 | the two parts make the input; the head fits; zero columns give an empty head; otherwise the head is the longest fitting prefix and the tail's first character would not fit |
| DialogWrap.WrapStrictByCharWidth | src/pages/object_list.rs:1191-1211 | the loop computes exactly the specified wrap: the lines make the input, none is empty, the empty text gives none, and each fits when every character does |
| DialogWrap.Split | src/pages/object_list.rs:1133 | `split('/')` gives at least one piece |
| DialogWrap.SplitPieces | src/pages/object_list.rs:1133 | no piece holds a separator, and the pieces hold only characters of the input |
| DialogWrap.JoinSplit | src/pages/object_list.rs:1133 | joining the pieces with '/' gives the input back |
| DialogWrap.SplitJoin | src/pages/object_list.rs:1133 | splitting undoes joining pieces without separators |
| DialogWrap.KeptIsJoin | src/pages/object_list.rs:1133-1143 | when no piece is empty, the kept text is the joined pieces |
| DialogWrap.PathKeptWhole | src/pages/object_list.rs:1275-1292 | a path without empty pieces is kept whole, so the wrapped lines rebuild it |
| DialogWrap.KeptNoDoubleSlash | src/pages/object_list.rs:1134-1143 | the kept text never has two separators side by side, nor one at the end |
| DialogWrap.PathTextSeparated | src/pages/object_list.rs:1294-1312 | however many separators the input doubles, the kept path has none doubled |
| DialogWrap.AppendWrappedChunks | src/pages/object_list.rs:1111-1124 | the strict chunks of the text all but the last are appended as finished lines and the last becomes the current line; an empty text changes nothing; widths are kept when every character fits |
| DialogWrap.FirstTake | src/pages/object_list.rs:1155-1166 | how much of the first piece joins the prefix: it never makes the first line wider than `max` when the prefix fits |
| DialogWrap.FirstTakeNonEmpty | src/pages/object_list.rs:1314-1327 | when the prefix leaves room for the piece's first character, the first line takes at least that character (it is not the prefix alone) |
| DialogWrap.FillFirstLine | src/pages/object_list.rs:1155-1172 | the first line is the prefix followed by the longest part of the piece that fits after it (the prefix alone when no room is left); the rest of the piece is strictly wrapped after it; the text is kept |
| DialogWrap.WrapPiece | src/pages/object_list.rs:1133-1179 | one piece, branch by branch (`PieceStep`, the pass `WrapStep` describes): an empty piece changes nothing; a piece that fits is appended to the current line; a first piece that does not fit fills the first line; a later one finishes the current line and is strictly wrapped from a fresh line; the text is kept |
| DialogWrap.WrapLongPiece | src/pages/object_list.rs:1153-1179 | a non-empty piece that does not fit after the open line meets `PieceStep`: the first piece fills the first line, a later one starts a fresh line |
| DialogWrap.WrapFirstPiece | src/pages/object_list.rs:1153-1172 | the first piece, too long for the first line, fills it and meets `PieceStep` |
| DialogWrap.WrapLaterPiece | src/pages/object_list.rs:1173-1178 | a later piece that does not fit finishes the open line, is strictly wrapped from a fresh line and meets `PieceStep` |
| DialogWrap.StepFits | src/pages/object_list.rs:1145-1151 | a piece that fits after the open line continues that line: no line is finished |
| DialogWrap.StepBreaks | src/pages/object_list.rs:1173-1178 | a later piece that does not fit after the open line, but fits on a line of its own, finishes the open line and becomes the next one whole |
| DialogWrap.WrapFromStep | src/pages/object_list.rs:1132-1180 | each pass of the loop is one step of the fold `WrapFrom`, so the loop computes exactly `WrapFrom` from the prefix alone |
| DialogWrap.BreakAndWrap | src/pages/object_list.rs:1173-1178 | the current line, if not empty, is finished; the strict chunks of the piece follow, the last one open; the text and the bounds are kept |
| DialogWrap.PieceStepKeptWhole | src/pages/object_list.rs:1101-1107 | each step keeps the pieces that fit on one line inside one line, and adds the current piece to them when it fits |
| DialogWrap.PieceStepFirstLine | src/pages/object_list.rs:1150-1166 | the first piece makes the first line and no later step changes it |
| DialogWrap.WrapPieces | src/pages/object_list.rs:1126-1180 | the loop over the pieces computes exactly `WrapFrom` from no lines and the prefix, that is every piece taken as `PieceStep` says (a piece that still fits is added to the open line); the finished lines and the current one spell the prefix and the kept path, every piece that fits on one line lies inside one line, and the first line is filled as `FillFirstLine` says |
| DialogWrap.WrapPathWithPrefix | src/pages/object_list.rs:1101-1187 | the lines are exactly `PathWrap` of the pieces: the loop `WrapFrom` (each piece added to the open line while it fits, as many pieces as fit) with its open line finished; the lines spell the prefix and the kept path (empty pieces dropped); the first line starts with the prefix; no line is empty; every line fits when the prefix and every character do; every piece that fits on one line (the first after the prefix, a later one with its separator) lies inside a single line; a first piece too long for the first line fills that line with as much of it as fits |
| DialogWrap.WrapS3PathForDialog | src/pages/object_list.rs:1088-1100 | a text that fits is one line; a bucket URI is wrapped by pieces after its scheme into exactly the `PathWrap` lines, keeping the path and every piece that fits on one line inside one line, with the first line filled; anything else is wrapped strictly; no line is empty; every line fits when every character does |
| DialogWrap.PathWrapOneLine | src/pages/object_list.rs:1101-1103 | the first line takes as many pieces as fit: when the whole kept path fits after the prefix, the result is that one line |
| DialogWrap.KeptWidthGrows | src/pages/object_list.rs:1132-1151 | the kept text only grows from piece to piece, and its width with it |
| DialogWrap.PathWrapShortExample | src/pages/object_list.rs:1101-1103 | "s3://b/a" at 20 columns is the single line "s3://b/a" |
| DialogWrap.PathWrapBasicExample | src/pages/object_list.rs:1265-1271 | the path of `test_wrap_path_with_prefix_basic` at 12 columns gives exactly "s3://bucket", "/longsegment", "/short" |
| DialogWrap.S3PrefixWidth | src/pages/object_list.rs:1094 | the scheme prefix takes five columns |
| DialogWrap.PasteConfirmPathLines | src/pages/object_list.rs:1054-1086 | both URIs of the paste confirmation wrap into non-empty lines of at most 66 columns |
| DialogWrap.StrictWrapAsciiExample | src/pages/object_list.rs:1251-1254 | "abcdef" at 3 columns wraps to "abc", "def" |
| DialogWrap.StrictWrapWideExample | src/pages/object_list.rs:1257-1263 | "A世界A" at 3 columns wraps to "A世", "界A" |
| PageScenarios.NameAscExample | src/pages/object_list.rs:1502-1508 | the sample items in master order sort by name to 4, 2, 1, 0, 3 |
| PageScenarios.NameDescExample | src/pages/object_list.rs:1510-1516 | from there, name descending gives 3, 0, 1, 2, 4 |
| PageScenarios.LastModifiedAscExample | src/pages/object_list.rs:1518-1523 | from there, oldest first gives 0, 2, 4, 3, 1; the directories come first, in the order they stood |
| PageScenarios.LastModifiedDescExample | src/pages/object_list.rs:1525-1531 | from there, newest first gives 1, 3, 4, 0, 2 |
| PageScenarios.SizeAscExample | src/pages/object_list.rs:1533-1539 | from there, smallest first gives 0, 2, 4, 1, 3 |
| PageScenarios.SizeDescExample | src/pages/object_list.rs:1541-1547 | from there, largest first gives 3, 1, 4, 0, 2 |
| PageScenarios.SampleMasterOrder | src/pages/object_list.rs:1485-1497 | a new page on the five sample items lists them as 0, 1, 2, 3, 4 |
| PageScenarios.PressDown | src/pages/object_list.rs:1503-1506 | with the picker open, the down key moves it one row and re-sorts the current projection |
| PageScenarios.RenderedSamplePage | src/pages/object_list.rs:65-84 | a new page on the five sample items drawn three rows high: the list view over five rows, cursor at the top, height 3 |
| PageScenarios.PressPageDown | src/pages/object_list.rs:108-110 | through `HandleKey`, the page-down key in the list view moves the cursor a viewport down and leaves the projection |
| PageScenarios.PageDownAfterRender | src/pages/object_list.rs:108-110 | on the sample page drawn three rows high, page down moves the cursor to row 3, and a second press stops at the last row, 4 |
| PageScenarios.PressSort | src/pages/object_list.rs:1497-1500 | the sort key in the list view opens the picker and leaves the picker's row and the projection as they were |
| PageScenarios.OpenSortPicker | src/pages/object_list.rs:1485-1501 | a new page on the sample items with the sort key pressed: the picker is open on Default over 0, 1, 2, 3, 4 |
| PageScenarios.SortItemsScenario | src/pages/object_list.rs:1482-1547 | the whole unit test through `HandleKey`: six presses of the down key leave exactly the six expected orders |

## Left out

- Drawing is left out because it is ratatui rendering: `render`, the list-item
  builders and the confirmation message builders (src/pages/object_list.rs:288-361,
  896-1086). The exceptions are the wrapping of the paste URIs and the height
  `render` stores in the list state, which are modelled.
- Rendering stores the viewport height in the list state. The model gives that
  write as `SetViewportHeight`, which a caller runs where the program draws the
  page; until it runs (after `new` and after every re-projection) the height is
  0 and paging moves by zero rows, as for a list not yet drawn. Any adjustment
  of the first visible row by the list widget while drawing is not part of
  this model; the model keeps it.
- `helps` and `short_helps` are left out: they are static help-text tables.
- Sending on the real channel is not modelled. `sent` is an append-only ghost
  log of the requests.
- The trailing `None` arguments of the two single-object download requests
  are dropped, since the page always passes `None` there.
- Collaborators whose definitions are not part of this model are modelled
  only as far as the page relies on them:
  - `ScrollListState`, `ConfirmDialogState`, `ObjectListSortDialogState`,
    `CopyDetailDialogState` and `InputDialogState` (the module `Widgets`).
  - `InputDialogState` edits at the end of the text only; its cursor is not
    modelled.
  - `CopyDetailDialogState`'s rows are assumed to be, in order: key, S3 URI,
    object URL for a directory; key, S3 URI, ARN, object URL, ETag for a file.
- `ObjectKey::with_prefix` and `joined_object_path` are not part of this model.
  The go-to-path request carries the bucket name and the trimmed text as a
  pair. The go-to-path input is seeded with the path segments joined by '/'.
- Unicode width tables are not modelled: `w` is a parameter. A string's width
  is the sum of its characters' widths.
- Timestamps are not modelled as chrono date-times: a modification time is an
  integer, and only its order matters.
- The accessors `list_state`, `current_dir_object_key` and `non_empty` are
  plain field reads. The model uses the fields (and the predicate `NonEmpty`)
  directly.
- src/main.rs, src/environment.rs and src/profile_input.rs are left out: they
  are command-line, terminal and environment input/output.
- DialogWrap.WrapPathWithPrefix: the width bound is stated only when the prefix
  fits and no single character is wider than the limit. A wider character gets
  a line of its own, as `wrap_strict_by_char_width` gives it.
- The path-wrapping unit tests (src/pages/object_list.rs:1266-1340) other than
  `test_wrap_path_with_prefix_basic` are covered by the general contracts
  (prefix first, rebuilding, no doubled separator, width, pieces kept on one
  line, the first line filled, the exact `PathWrap` lines), not as concrete runs.
- The macros `handle_user_events!` and `handle_user_events_with_default!` are
  not part of this model, and their meaning is an assumption. The model takes
  it that the arms are tried for each event of the key press in order. The
  first event that matches an arm whose guard holds runs that arm, and the
  scan ends there. The default block of the second macro runs only when no
  event matched. `Accepts`, `FirstAccepted`, `Routed` and `HandleKey` rest on
  this reading.

Notes on the code:

- Filtering always scans the whole list, even with an empty filter text. The
  model does the same, and `EmptyFilterIsIdentity` shows that the result is
  then every index in order.
- The path wrapper drops empty pieces. So the wrapped lines rebuild the input
  only when it has no empty piece: no doubled, leading or trailing separator
  after the scheme (`PathKeptWhole`).

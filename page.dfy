/** The object-list page: a master list of items, a filtered and sorted index
    projection over it, a cursor into the projection and the one active dialog,
    driven by abstract user events and sending application events. */
module ObjectList {
  import opened Objects
  import opened Text
  import opened Projection
  import opened Widgets
  import opened Keys
  import opened Events

  /** `ViewState`: which dialog is open, holding that dialog's own state and any
      payload waiting on it. */
  datatype ViewState =
    | Default
    | FilterDialog
    | SortDialog
    | GoToPathDialog(goToPath: InputDialogState)
    | CopyDetailDialog(detail: CopyDetailDialogState)
    | DownloadConfirmDialog(objs: seq<DownloadObjectInfo>, confirm: ConfirmDialogState, downloadAs: bool)
    | SaveDialog(save: InputDialogState, pending: Option<seq<DownloadObjectInfo>>)
    | PasteConfirmDialog(spec: PasteSpec, confirm: ConfirmDialogState)
  {
    /** The dialogs that hand unmatched key presses to a text buffer. */
    predicate TextEntry()
    {
      GoToPathDialog? || FilterDialog? || SaveDialog?
    }
  }

  // ---------------------------------------------------------------------------
  // Event routing
  // ---------------------------------------------------------------------------

  /** The table of events each view state reacts to. In the list view most rows
      are guarded by a non-empty projection; an event a table does not name, or
      whose guard is false, is passed over. */
  predicate Accepts(v: ViewState, nonEmpty: bool, e: UserEvent)
  {
    match v
    case Default =>
      e.ObjectListBack? || e.ObjectListBucketList? || e.ObjectListFilter? || e.ObjectListSort? ||
      e.ObjectListGoToPath? || e.ObjectListPasteObject? || e.Help? || e.ObjectListResetFilter? ||
      (nonEmpty &&
        (e.ObjectListSelect? || e.ObjectListDown? || e.ObjectListUp? || e.ObjectListGoToTop? ||
         e.ObjectListGoToBottom? || e.ObjectListPageDown? || e.ObjectListPageUp? ||
         e.ObjectListRefresh? || e.ObjectListManagementConsole? || e.ObjectListCopyObject? ||
         e.ObjectListCopyDetails? || e.ObjectListDownloadObject? || e.ObjectListDownloadObjectAs?))
    case GoToPathDialog(_) => e.InputDialogClose? || e.InputDialogApply? || e.Help?
    case FilterDialog => e.InputDialogClose? || e.InputDialogApply? || e.Help?
    case SaveDialog(_, _) => e.InputDialogClose? || e.InputDialogApply? || e.Help?
    case SortDialog =>
      e.SelectDialogClose? || e.SelectDialogDown? || e.SelectDialogUp? || e.SelectDialogSelect? || e.Help?
    case CopyDetailDialog(_) =>
      e.SelectDialogClose? || e.SelectDialogDown? || e.SelectDialogUp? || e.SelectDialogSelect? || e.Help?
    case DownloadConfirmDialog(_, _, _) =>
      e.SelectDialogClose? || e.SelectDialogLeft? || e.SelectDialogRight? || e.SelectDialogSelect? || e.Help?
    case PasteConfirmDialog(_, _) =>
      e.SelectDialogClose? || e.SelectDialogLeft? || e.SelectDialogRight? || e.SelectDialogSelect? || e.Help?
  }

  /** The position of the event that acts: the first one the table accepts. */
  function FirstAccepted(v: ViewState, nonEmpty: bool, events: seq<UserEvent>): (r: Option<nat>)
    ensures r.Some? ==> r.value < |events| && Accepts(v, nonEmpty, events[r.value])
    ensures r.Some? ==> forall j :: 0 <= j < r.value ==> !Accepts(v, nonEmpty, events[j])
    ensures r.None? <==> forall j :: 0 <= j < |events| ==> !Accepts(v, nonEmpty, events[j])
  {
    if events == [] then None
    else if Accepts(v, nonEmpty, events[0]) then Some(0)
    else
      match FirstAccepted(v, nonEmpty, events[1..])
      case None => None
      case Some(k) => Some(k + 1)
  }

  /** The event that acts, if any. */
  function Routed(v: ViewState, nonEmpty: bool, events: seq<UserEvent>): (r: Option<UserEvent>)
    ensures r.Some? <==> exists j :: 0 <= j < |events| && Accepts(v, nonEmpty, events[j])
    ensures r.Some? ==> r.value in events && Accepts(v, nonEmpty, r.value)
  {
    match FirstAccepted(v, nonEmpty, events)
    case None => None
    case Some(k) => Some(events[k])
  }

  /** An event of another page's table never acts here, wherever it stands. */
  lemma OtherNeverRouted(v: ViewState, nonEmpty: bool, events: seq<UserEvent>)
    requires forall j :: 0 <= j < |events| ==> events[j].Other?
    ensures Routed(v, nonEmpty, events) == None
  {
    forall j | 0 <= j < |events| ensures !Accepts(v, nonEmpty, events[j]) {
      assert events[j].Other?;
    }
  }

  /** Events after the one that acts make no difference. */
  lemma {:induction false} RoutedIgnoresRest(v: ViewState, nonEmpty: bool, events: seq<UserEvent>, rest: seq<UserEvent>)
    requires Routed(v, nonEmpty, events).Some?
    ensures Routed(v, nonEmpty, events + rest) == Routed(v, nonEmpty, events)
  {
    var k := FirstAccepted(v, nonEmpty, events).value;
    var all := events + rest;
    assert all[k] == events[k];
    forall j | 0 <= j < k ensures !Accepts(v, nonEmpty, all[j]) {
      assert all[j] == events[j];
    }
    FirstAcceptedAt(v, nonEmpty, all, k);
  }

  /** The first accepted position is determined by acceptance alone. */
  lemma FirstAcceptedAt(v: ViewState, nonEmpty: bool, events: seq<UserEvent>, k: nat)
    requires k < |events| && Accepts(v, nonEmpty, events[k])
    requires forall j :: 0 <= j < k ==> !Accepts(v, nonEmpty, events[j])
    ensures FirstAccepted(v, nonEmpty, events) == Some(k)
  {
  }

  // ---------------------------------------------------------------------------
  // The page
  // ---------------------------------------------------------------------------

  class ObjectListPage {
    const objectItems: seq<ObjectItem>
    const objectKey: ObjectKey
    var viewIndices: seq<nat>
    var viewState: ViewState
    var listState: ScrollListState
    var filterInput: InputDialogState
    var sortDialog: SortDialogState
    /** Everything sent on the application channel, oldest first. */
    ghost var sent: seq<AppEvent>

    /** The state a dialog holds is well formed. */
    ghost predicate DialogValid()
      reads this`viewState
    {
      viewState.CopyDetailDialog? ==> viewState.detail.Valid()
    }

    /** The projection holds exactly the indices the filter keeps, and the
        cursor ranges over it; nothing is said about the order. */
    ghost predicate Consistent()
      reads this`viewIndices, this`filterInput, this`listState, this`viewState
    {
      ValidIndices(objectItems, viewIndices) &&
      multiset(viewIndices) == multiset(FilterIndices(objectItems, filterInput.input)) &&
      listState.Valid() && listState.total == |viewIndices| &&
      DialogValid()
    }

    /** ... and the projection is ordered by the selected sort type. Only the
        order among ties is left open: a re-sort is stable with respect to the
        order before it, so it depends on the history of sorts. */
    ghost predicate Valid()
      reads this`viewIndices, this`filterInput, this`listState, this`viewState, this`sortDialog
    {
      Consistent() && Sorted(sortDialog.Selected(), objectItems, viewIndices)
    }

    /** At most one event is sent, after those sent before. */
    ghost predicate SentAtMostOne(before: seq<AppEvent>)
      reads this`sent
    {
      before <= sent && |sent| <= |before| + 1
    }

    /** `new`: the list view over every item in master order, cursor at the top,
        no filter and the Default sort. */
    constructor (items: seq<ObjectItem>, key: ObjectKey)
      ensures Valid()
      ensures objectItems == items && objectKey == key
      ensures viewState == ViewState.Default && viewIndices == Range(|items|)
      ensures listState == NewScrollList(|items|)
      ensures filterInput.input == [] && sortDialog == DefaultSortDialog && sent == []
    {
      objectItems := items;
      objectKey := key;
      viewIndices := Range(|items|);
      viewState := ViewState.Default;
      listState := NewScrollList(|items|);
      filterInput := InputDialogState([]);
      sortDialog := DefaultSortDialog;
      sent := [];
      new;
      EmptyFilterIsIdentity(items);
    }

    // -------------------------------------------------------------------------
    // Selection
    // -------------------------------------------------------------------------

    predicate NonEmpty()
      reads this`viewIndices
    {
      viewIndices != []
    }

    /** The cursor names a row of the projection and that row an item. */
    predicate HasSelection()
      reads this`viewIndices, this`listState
    {
      listState.selected < |viewIndices| && viewIndices[listState.selected] < |objectItems|
    }

    /** `current_selected_item`: the item under the cursor, `None` where the
        source panics because an index is out of range. */
    function CurrentSelectedItem(): (r: Option<ObjectItem>)
      reads this`viewIndices, this`listState
      ensures r.Some? <==> HasSelection()
      ensures r.Some? ==> r.value == objectItems[viewIndices[listState.selected]] && r.value in objectItems
    {
      if HasSelection() then Some(objectItems[viewIndices[listState.selected]]) else None
    }

    /** `current_selected_object_key`: the page's key one segment deeper, by the
        selected item's name. */
    function CurrentSelectedObjectKey(): (r: Option<ObjectKey>)
      reads this`viewIndices, this`listState
      ensures r.Some? <==> CurrentSelectedItem().Some?
      ensures r.Some? ==>
        r.value.bucketName == objectKey.bucketName &&
        |r.value.objectPath| == |objectKey.objectPath| + 1 &&
        r.value.objectPath[..|objectKey.objectPath|] == objectKey.objectPath &&
        r.value.objectPath[|objectKey.objectPath|] == CurrentSelectedItem().value.name
    {
      match CurrentSelectedItem()
      case None => None
      case Some(item) => Some(ObjectKey(objectKey.bucketName, objectKey.objectPath + [item.name]))
    }

    /** While the page is consistent the selection exists exactly when the
        projection is non-empty, and the selected item matches the filter. */
    lemma SelectionUnderValid()
      requires Valid()
      ensures HasSelection() <==> NonEmpty()
      ensures HasSelection() ==> Contains(CurrentSelectedItem().value.name, filterInput.input)
    {
      if HasSelection() {
        var i := viewIndices[listState.selected];
        assert i in multiset(FilterIndices(objectItems, filterInput.input));
      }
    }

    /** Membership of the projection is the filter predicate, each index once. */
    lemma ProjectionMembers()
      requires Valid()
      ensures forall i: nat :: i in viewIndices <==> i < |objectItems| && Contains(objectItems[i].name, filterInput.input)
      ensures Distinct(viewIndices)
    {
      var f := FilterIndices(objectItems, filterInput.input);
      forall i: nat ensures i in viewIndices <==> i in f {
        assert i in viewIndices <==> i in multiset(viewIndices);
        assert i in f <==> i in multiset(f);
      }
      assert Distinct(f);
      PermutationDistinct(f, viewIndices);
    }

    /** `object_list`: the items of the projection, in its order. */
    function ObjectList(): (r: seq<ObjectItem>)
      reads this`viewIndices
      requires ValidIndices(objectItems, viewIndices)
      ensures |r| == |viewIndices|
      ensures forall k :: 0 <= k < |r| ==> r[k] == objectItems[viewIndices[k]]
    {
      var v, items := viewIndices, objectItems;
      seq(|v|, k requires 0 <= k < |v| => items[v[k]])
    }

    /** The listed items are the master items whose names match the filter. */
    lemma ObjectListMembers()
      requires Valid()
      ensures forall it :: it in ObjectList() <==>
        exists i :: 0 <= i < |objectItems| && objectItems[i] == it && Contains(it.name, filterInput.input)
    {
      ProjectionMembers();
      var r := ObjectList();
      forall it ensures it in r <==>
        exists i :: 0 <= i < |objectItems| && objectItems[i] == it && Contains(it.name, filterInput.input)
      {
        if it in r {
          var k :| 0 <= k < |r| && r[k] == it;
          assert viewIndices[k] in viewIndices;
        }
        if exists i :: 0 <= i < |objectItems| && objectItems[i] == it && Contains(it.name, filterInput.input) {
          var i :| 0 <= i < |objectItems| && objectItems[i] == it && Contains(it.name, filterInput.input);
          assert i in viewIndices;
          var k :| 0 <= k < |viewIndices| && viewIndices[k] == i;
          assert r[k] == it;
        }
      }
    }

    method SelectNext()
      requires Valid()
      modifies this`listState
      ensures Valid() && listState == old(listState).SelectNext()
    {
      listState := listState.SelectNext();
    }

    method SelectPrev()
      requires Valid()
      modifies this`listState
      ensures Valid() && listState == old(listState).SelectPrev()
    {
      listState := listState.SelectPrev();
    }

    method SelectFirst()
      requires Valid()
      modifies this`listState
      ensures Valid() && listState == old(listState).SelectFirst()
    {
      listState := listState.SelectFirst();
    }

    method SelectLast()
      requires Valid()
      modifies this`listState
      ensures Valid() && listState == old(listState).SelectLast()
    {
      listState := listState.SelectLast();
    }

    method SelectNextPage()
      requires Valid()
      modifies this`listState
      ensures Valid() && listState == old(listState).SelectNextPage()
    {
      listState := listState.SelectNextPage();
    }

    method SelectPrevPage()
      requires Valid()
      modifies this`listState
      ensures Valid() && listState == old(listState).SelectPrevPage()
    {
      listState := listState.SelectPrevPage();
    }

    /** What `render` writes back into the page: the list widget records the
        height of the area it is drawn in, which paging then moves by. */
    method SetViewportHeight(h: nat)
      requires Valid()
      modifies this`listState
      ensures Valid() && listState == old(listState).WithHeight(h)
    {
      listState := listState.WithHeight(h);
    }

    // -------------------------------------------------------------------------
    // Projection
    // -------------------------------------------------------------------------

    /** `sort_view_indices`: stable-sort the projection by the selected type.
        The cursor is left where it was. */
    method SortViewIndices()
      requires Consistent()
      modifies this`viewIndices
      ensures Valid()
      ensures viewIndices == SortIndices(objectItems, old(viewIndices), sortDialog.Selected())
      ensures multiset(viewIndices) == multiset(old(viewIndices)) && |viewIndices| == |old(viewIndices)|
      ensures Sorted(sortDialog.Selected(), objectItems, viewIndices)
    {
      var t := sortDialog.Selected();
      SortPermutation(objectItems, viewIndices, t);
      SortSorted(objectItems, viewIndices, t);
      viewIndices := SortIndices(objectItems, viewIndices, t);
      assert |viewIndices| == |multiset(viewIndices)|;
    }

    /** `filter_view_indices`: rebuild the projection from the filter text, put
        the cursor back at the top and re-apply the selected sort. */
    method FilterViewIndices()
      requires DialogValid()
      modifies this`viewIndices, this`listState
      ensures Valid()
      ensures viewIndices == SortIndices(objectItems, FilterIndices(objectItems, filterInput.input), sortDialog.Selected())
      ensures forall i: nat :: i in viewIndices <==> i < |objectItems| && Contains(objectItems[i].name, filterInput.input)
      ensures Distinct(viewIndices)
      ensures listState == NewScrollList(|viewIndices|)
      ensures Refiltered()
    {
      viewIndices := FilterIndices(objectItems, filterInput.input);
      listState := NewScrollList(|viewIndices|);
      SortViewIndices();
      ProjectionMembers();
    }

    method OpenFilterDialog()
      requires Valid()
      modifies this`viewState
      ensures Valid() && viewState == FilterDialog
    {
      viewState := FilterDialog;
    }

    /** `apply_filter`: close the dialog keeping the filter, and re-project. */
    method ApplyFilter()
      requires Valid()
      modifies this`viewState, this`viewIndices, this`listState
      ensures Valid() && viewState == ViewState.Default
      ensures viewIndices == SortIndices(objectItems, FilterIndices(objectItems, filterInput.input), sortDialog.Selected())
      ensures listState == NewScrollList(|viewIndices|)
    {
      viewState := ViewState.Default;
      FilterViewIndices();
    }

    /** `reset_filter`: clear the filter text; every item is listed again. */
    method ResetFilter()
      requires DialogValid()
      modifies this`filterInput, this`viewIndices, this`listState
      ensures Valid() && filterInput.input == []
      ensures viewIndices == SortIndices(objectItems, Range(|objectItems|), sortDialog.Selected())
      ensures forall i: nat :: i in viewIndices <==> i < |objectItems|
      ensures listState == NewScrollList(|objectItems|)
      ensures Refiltered()
    {
      filterInput := InputDialogState([]);
      EmptyFilterIsIdentity(objectItems);
      FilterViewIndices();
      SortPermutation(objectItems, Range(|objectItems|), sortDialog.Selected());
    }

    /** `close_filter_dialog`: leave the dialog and undo the narrowing. */
    method CloseFilterDialog()
      requires Valid()
      modifies this`viewState, this`filterInput, this`viewIndices, this`listState
      ensures Valid() && viewState == ViewState.Default && filterInput.input == []
      ensures forall i: nat :: i in viewIndices <==> i < |objectItems|
      ensures viewIndices == SortIndices(objectItems, Range(|objectItems|), sortDialog.Selected())
      ensures listState == NewScrollList(|objectItems|)
      ensures Refiltered()
    {
      viewState := ViewState.Default;
      ResetFilter();
    }

    method OpenSortDialog()
      requires Valid()
      modifies this`viewState
      ensures Valid() && viewState == SortDialog
    {
      viewState := SortDialog;
    }

    /** `close_sort_dialog`: leave the picker, reset it to Default and re-sort,
        which restores the filter's master order. The cursor stays. */
    method CloseSortDialog()
      requires Valid()
      modifies this`viewState, this`sortDialog, this`viewIndices
      ensures Valid() && viewState == ViewState.Default && sortDialog == DefaultSortDialog
      ensures viewIndices == FilterIndices(objectItems, filterInput.input)
    {
      viewState := ViewState.Default;
      sortDialog := DefaultSortDialog;
      SortViewIndices();
      DefaultSortedIsFilterOrder(objectItems, filterInput.input, viewIndices);
    }

    /** `apply_sort`: leave the picker keeping its selection. The projection is
        already in that order, so it does not move. */
    method ApplySort()
      requires Valid()
      modifies this`viewState, this`viewIndices
      ensures Valid() && viewState == ViewState.Default
      ensures viewIndices == old(viewIndices)
    {
      viewState := ViewState.Default;
      SortedFixpoint(objectItems, viewIndices, sortDialog.Selected());
      SortViewIndices();
    }

    /** `select_next_sort_item`: move the picker down and preview that order. */
    method SelectNextSortItem()
      requires Valid()
      modifies this`sortDialog, this`viewIndices
      ensures Valid() && sortDialog == old(sortDialog).SelectNext()
      ensures viewIndices == SortIndices(objectItems, old(viewIndices), sortDialog.Selected())
    {
      sortDialog := sortDialog.SelectNext();
      SortViewIndices();
    }

    /** `select_prev_sort_item`: move the picker up and preview that order. */
    method SelectPrevSortItem()
      requires Valid()
      modifies this`sortDialog, this`viewIndices
      ensures Valid() && sortDialog == old(sortDialog).SelectPrev()
      ensures viewIndices == SortIndices(objectItems, old(viewIndices), sortDialog.Selected())
    {
      sortDialog := sortDialog.SelectPrev();
      SortViewIndices();
    }

    // -------------------------------------------------------------------------
    // Dialogs
    // -------------------------------------------------------------------------

    /** `open_go_to_path_dialog`: an input seeded with the current directory. */
    method OpenGoToPathDialog()
      requires Valid()
      modifies this`viewState
      ensures Valid() && viewState == GoToPathDialog(InputDialogState(JoinPath(objectKey.objectPath)))
    {
      viewState := GoToPathDialog(InputDialogState(JoinPath(objectKey.objectPath)));
    }

    /** `open_copy_detail_dialog`: the details of the selected item. */
    method OpenCopyDetailDialog()
      requires Valid() && NonEmpty()
      modifies this`viewState
      ensures Valid() && viewState == CopyDetailDialog(NewCopyDetail(CurrentSelectedItem().value))
    {
      SelectionUnderValid();
      viewState := CopyDetailDialog(NewCopyDetail(CurrentSelectedItem().value));
    }

    method CloseCopyDetailDialog()
      requires Valid()
      modifies this`viewState
      ensures Valid() && viewState == ViewState.Default
    {
      viewState := ViewState.Default;
    }

    /** `open_download_confirm_dialog`: called once the enumeration of a
        directory has finished; the toggle starts on cancel. */
    method OpenDownloadConfirmDialog(objs: seq<DownloadObjectInfo>, downloadAs: bool)
      requires Valid()
      modifies this`viewState
      ensures Valid() && viewState == DownloadConfirmDialog(objs, DefaultConfirm, downloadAs)
    {
      viewState := DownloadConfirmDialog(objs, DefaultConfirm, downloadAs);
    }

    method CloseDownloadConfirmDialog()
      requires Valid()
      modifies this`viewState
      ensures Valid() && viewState == ViewState.Default
    {
      viewState := ViewState.Default;
    }

    /** `open_paste_confirm_dialog`: called with the copy request to confirm. */
    method OpenPasteConfirmDialog(spec: PasteSpec)
      requires Valid()
      modifies this`viewState
      ensures Valid() && viewState == PasteConfirmDialog(spec, DefaultConfirm)
    {
      viewState := PasteConfirmDialog(spec, DefaultConfirm);
    }

    method ClosePasteConfirmDialog()
      requires Valid()
      modifies this`viewState
      ensures Valid() && viewState == ViewState.Default
    {
      viewState := ViewState.Default;
    }

    /** `open_save_dialog`: a name input seeded with `name`, carrying `objs`. */
    method OpenSaveDialog(objs: Option<seq<DownloadObjectInfo>>, name: string)
      requires Valid()
      modifies this`viewState
      ensures Valid() && viewState == SaveDialog(InputDialogState(name), objs)
    {
      viewState := SaveDialog(InputDialogState(name), objs);
    }

    method CloseSaveDialog()
      requires Valid()
      modifies this`viewState
      ensures Valid() && viewState == ViewState.Default
    {
      viewState := ViewState.Default;
    }

    // -------------------------------------------------------------------------
    // Downloads and copies
    // -------------------------------------------------------------------------

    /** `open_management_console`: ask for the console page of this directory. */
    method OpenManagementConsole()
      modifies this`sent
      ensures sent == old(sent) + [ObjectListOpenManagementConsole(objectKey)]
    {
      sent := sent + [ObjectListOpenManagementConsole(objectKey)];
    }

    /** `start_download`: a directory is enumerated first (and confirmed
        later); a file is downloaded at once under its own name. */
    method StartDownload()
      requires Valid() && NonEmpty()
      modifies this`sent
      ensures HasSelection()
      ensures CurrentSelectedItem().value.Dir? ==>
        sent == old(sent) + [StartLoadAllDownloadObjectList(CurrentSelectedObjectKey().value, false)]
      ensures CurrentSelectedItem().value.File? ==>
        sent == old(sent) + [StartDownloadObject(CurrentSelectedObjectKey().value,
          CurrentSelectedItem().value.name, CurrentSelectedItem().value.sizeByte)]
    {
      SelectionUnderValid();
      var item := CurrentSelectedItem().value;
      var key := CurrentSelectedObjectKey().value;
      if item.Dir? {
        sent := sent + [StartLoadAllDownloadObjectList(key, false)];
      } else {
        sent := sent + [StartDownloadObject(key, item.name, item.sizeByte)];
      }
    }

    /** `start_download_as`: a directory is enumerated first; for a file the
        save dialog opens at once, seeded with its name. */
    method StartDownloadAs()
      requires Valid() && NonEmpty()
      modifies this`sent, this`viewState
      ensures Valid() && HasSelection()
      ensures CurrentSelectedItem().value.Dir? ==>
        viewState == old(viewState) &&
        sent == old(sent) + [StartLoadAllDownloadObjectList(CurrentSelectedObjectKey().value, true)]
      ensures CurrentSelectedItem().value.File? ==>
        viewState == SaveDialog(InputDialogState(CurrentSelectedItem().value.name), None) && sent == old(sent)
    {
      SelectionUnderValid();
      var item := CurrentSelectedItem().value;
      if item.Dir? {
        sent := sent + [StartLoadAllDownloadObjectList(CurrentSelectedObjectKey().value, true)];
      } else {
        OpenSaveDialog(None, item.name);
      }
    }

    /** `download`: the confirmation of a directory download. Cancel sends
        nothing; confirm either hands the objects to the save dialog or sends
        them as one download into the selected item's name. `fault` is where the
        source panics: no selected item. */
    method Download() returns (fault: bool)
      requires Valid()
      modifies this`viewState, this`sent
      ensures Valid()
      ensures fault ==> viewState == old(viewState) && sent == old(sent)
      ensures !old(viewState).DownloadConfirmDialog? ==> !fault && viewState == old(viewState) && sent == old(sent)
      ensures old(viewState).DownloadConfirmDialog? && !old(viewState).confirm.isOk ==>
        !fault && viewState == ViewState.Default && sent == old(sent)
      ensures old(viewState).DownloadConfirmDialog? && old(viewState).confirm.isOk ==>
        (fault <==> !old(HasSelection()))
      ensures old(viewState).DownloadConfirmDialog? && old(viewState).confirm.isOk && old(viewState).downloadAs && !fault ==>
        viewState == SaveDialog(InputDialogState(old(CurrentSelectedItem()).value.name), Some(old(viewState).objs)) &&
        sent == old(sent)
      ensures old(viewState).DownloadConfirmDialog? && old(viewState).confirm.isOk && !old(viewState).downloadAs && !fault ==>
        viewState == ViewState.Default &&
        sent == old(sent) + [DownloadObjects(objectKey.bucketName, old(CurrentSelectedObjectKey()).value,
          old(CurrentSelectedItem()).value.name, old(viewState).objs)]
    {
      fault := false;
      match viewState {
        case DownloadConfirmDialog(objs, confirm, downloadAs) =>
          if confirm.isOk {
            var item := CurrentSelectedItem();
            if item.None? {
              return true;
            }
            if downloadAs {
              OpenSaveDialog(Some(objs), item.value.name);
              return false;
            }
            var key := CurrentSelectedObjectKey().value;
            sent := sent + [DownloadObjects(objectKey.bucketName, key, item.value.name, objs)];
          }
          CloseDownloadConfirmDialog();
        case _ =>
      }
    }

    /** `download_as`: apply the save dialog's name. A name that trims to empty
        keeps the dialog open and sends nothing; otherwise the carried objects
        go into that directory, or the selected file is saved under that name.
        `fault` is where the source panics: no selected item, or (for a single
        object) the selected item is a directory. */
    method DownloadAs(input: string) returns (fault: bool)
      requires Valid()
      modifies this`viewState, this`sent
      ensures Valid()
      ensures fault ==> viewState == old(viewState) && sent == old(sent)
      ensures !old(viewState).SaveDialog? || Trim(input) == [] ==>
        !fault && viewState == old(viewState) && sent == old(sent)
      ensures old(viewState).SaveDialog? && Trim(input) != [] && old(viewState).pending.Some? ==>
        (fault <==> !old(HasSelection())) &&
        (!fault ==>
          viewState == ViewState.Default &&
          sent == old(sent) + [DownloadObjects(objectKey.bucketName, old(CurrentSelectedObjectKey()).value,
            Trim(input), old(viewState).pending.value)])
      ensures old(viewState).SaveDialog? && Trim(input) != [] && old(viewState).pending.None? ==>
        (fault <==> !old(HasSelection()) || old(CurrentSelectedItem()).value.Dir?) &&
        (!fault ==>
          viewState == ViewState.Default &&
          sent == old(sent) + [StartDownloadObjectAs(old(CurrentSelectedObjectKey()).value,
            old(CurrentSelectedItem()).value.sizeByte, Trim(input))])
    {
      fault := false;
      match viewState {
        case SaveDialog(_, pending) =>
          var name := Trim(input);
          if name == [] {
            return;
          }
          var key := CurrentSelectedObjectKey();
          if key.None? {
            return true;
          }
          match pending {
            case Some(objs) =>
              sent := sent + [DownloadObjects(objectKey.bucketName, key.value, name, objs)];
            case None =>
              var size := CurrentSelectedItem().value.SizeByte();
              if size.None? {
                return true;
              }
              sent := sent + [StartDownloadObjectAs(key.value, size.value, name)];
          }
          CloseSaveDialog();
        case _ =>
      }
    }

    /** `paste`: the copy request is sent only when the toggle is on ok; the
        dialog closes either way. */
    method Paste()
      requires Valid()
      modifies this`viewState, this`sent
      ensures Valid()
      ensures !old(viewState).PasteConfirmDialog? ==> viewState == old(viewState) && sent == old(sent)
      ensures old(viewState).PasteConfirmDialog? ==>
        viewState == ViewState.Default &&
        sent == old(sent) + (if old(viewState).confirm.isOk then [PasteObject(old(viewState).spec)] else [])
    {
      match viewState {
        case PasteConfirmDialog(spec, confirm) =>
          if confirm.isOk {
            sent := sent + [PasteObject(spec)];
          }
          ClosePasteConfirmDialog();
        case _ =>
      }
    }

    // -------------------------------------------------------------------------
    // What a routed event does, row by row of each state's table
    // -------------------------------------------------------------------------

    /** The view state becomes `v` and exactly `evs` are sent; the projection,
        the cursor, the filter and the sort selection stay as they were. */
    twostate predicate Becomes(v: ViewState, evs: seq<AppEvent>)
      reads this
    {
      viewIndices == old(viewIndices) && listState == old(listState) &&
      filterInput == old(filterInput) && sortDialog == old(sortDialog) &&
      viewState == v && sent == old(sent) + evs
    }

    /** Only the cursor moves, to `next`. */
    twostate predicate MovesTo(next: ScrollListState)
      reads this
    {
      listState == next && viewIndices == old(viewIndices) && filterInput == old(filterInput) &&
      sortDialog == old(sortDialog) && viewState == old(viewState) && sent == old(sent)
    }

    /** The projection was rebuilt from the filter text, re-sorted, and the
        cursor put back at the top. */
    ghost predicate Refiltered()
      reads this`viewIndices, this`filterInput, this`listState, this`sortDialog
    {
      viewIndices == SortIndices(objectItems, FilterIndices(objectItems, filterInput.input), sortDialog.Selected()) &&
      listState == NewScrollList(|viewIndices|)
    }

    /** The picker moves to `d` and the projection is re-sorted by its type;
        nothing else changes. */
    twostate predicate Resorted(d: SortDialogState)
      reads this
    {
      ValidIndices(objectItems, old(viewIndices)) &&
      sortDialog == d && viewIndices == SortIndices(objectItems, old(viewIndices), d.Selected()) &&
      listState == old(listState) && filterInput == old(filterInput) &&
      viewState == old(viewState) && sent == old(sent)
    }

    /** `start_download` on the selected `item` at `key`. */
    twostate predicate StartDownloadOutcome(item: ObjectItem, key: ObjectKey)
      reads this
    {
      if item.Dir? then Becomes(old(viewState), [StartLoadAllDownloadObjectList(key, false)])
      else Becomes(old(viewState), [StartDownloadObject(key, item.name, item.sizeByte)])
    }

    /** `start_download_as` on the selected `item` at `key`. */
    twostate predicate StartDownloadAsOutcome(item: ObjectItem, key: ObjectKey)
      reads this
    {
      if item.Dir? then Becomes(old(viewState), [StartLoadAllDownloadObjectList(key, true)])
      else Becomes(SaveDialog(InputDialogState(item.name), None), [])
    }

    /** The list view's table. The rows guarded by a non-empty projection find
        an item under the cursor. */
    twostate predicate DefaultOutcome(e: UserEvent)
      reads this
    {
      old(listState).Valid() &&
      match e
      case ObjectListSelect => Becomes(old(viewState), [ObjectListMoveDown])
      case ObjectListBack => Becomes(old(viewState), [ObjectListMoveUp])
      case ObjectListDown => MovesTo(old(listState).SelectNext())
      case ObjectListUp => MovesTo(old(listState).SelectPrev())
      case ObjectListGoToTop => MovesTo(old(listState).SelectFirst())
      case ObjectListGoToBottom => MovesTo(old(listState).SelectLast())
      case ObjectListPageDown => MovesTo(old(listState).SelectNextPage())
      case ObjectListPageUp => MovesTo(old(listState).SelectPrevPage())
      case ObjectListRefresh => Becomes(old(viewState), [AppEvent.ObjectListRefresh])
      case ObjectListBucketList => Becomes(old(viewState), [BackToBucketList])
      case ObjectListManagementConsole => Becomes(old(viewState), [ObjectListOpenManagementConsole(objectKey)])
      case ObjectListFilter => Becomes(FilterDialog, [])
      case ObjectListSort => Becomes(SortDialog, [])
      case ObjectListGoToPath => Becomes(GoToPathDialog(InputDialogState(JoinPath(objectKey.objectPath))), [])
      case ObjectListCopyObject =>
        old(HasSelection()) &&
        Becomes(old(viewState), [CopyObject(old(CurrentSelectedObjectKey()).value, old(CurrentSelectedItem()).value)])
      case ObjectListPasteObject => Becomes(old(viewState), [StartPasteObject(objectKey)])
      case ObjectListCopyDetails =>
        old(HasSelection()) && Becomes(CopyDetailDialog(NewCopyDetail(old(CurrentSelectedItem()).value)), [])
      case ObjectListDownloadObject =>
        old(HasSelection()) &&
        StartDownloadOutcome(old(CurrentSelectedItem()).value, old(CurrentSelectedObjectKey()).value)
      case ObjectListDownloadObjectAs =>
        old(HasSelection()) &&
        StartDownloadAsOutcome(old(CurrentSelectedItem()).value, old(CurrentSelectedObjectKey()).value)
      case Help => Becomes(old(viewState), [OpenHelp])
      case ObjectListResetFilter =>
        filterInput.input == [] && Refiltered() &&
        sortDialog == old(sortDialog) && viewState == old(viewState) && sent == old(sent)
      case _ => false
    }

    /** The go-to-path dialog's table over its input `st`; no match edits it. */
    twostate predicate GoToPathOutcome(st: InputDialogState, r: Option<UserEvent>, key: KeyEvent)
      reads this
    {
      match r
      case None => Becomes(GoToPathDialog(st.HandleKeyEvent(key)), [])
      case Some(InputDialogClose) => Becomes(ViewState.Default, [])
      case Some(InputDialogApply) => Becomes(ViewState.Default, [GoToPath(objectKey.bucketName, Trim(st.input))])
      case Some(Help) => Becomes(old(viewState), [OpenHelp])
      case Some(_) => false
    }

    /** The filter dialog's table; no match edits the filter and re-projects. */
    twostate predicate FilterOutcome(r: Option<UserEvent>, key: KeyEvent)
      reads this
    {
      match r
      case None =>
        viewState == FilterDialog && filterInput == old(filterInput).HandleKeyEvent(key) && Refiltered() &&
        sortDialog == old(sortDialog) && sent == old(sent)
      case Some(InputDialogApply) =>
        viewState == ViewState.Default && filterInput == old(filterInput) && Refiltered() &&
        sortDialog == old(sortDialog) && sent == old(sent)
      case Some(InputDialogClose) =>
        viewState == ViewState.Default && filterInput.input == [] && Refiltered() &&
        sortDialog == old(sortDialog) && sent == old(sent)
      case Some(Help) => Becomes(old(viewState), [OpenHelp])
      case Some(_) => false
    }

    /** The sort picker's table. */
    twostate predicate SortOutcome(e: UserEvent)
      reads this
    {
      match e
      case SelectDialogClose =>
        viewState == ViewState.Default && sortDialog == DefaultSortDialog &&
        viewIndices == FilterIndices(objectItems, filterInput.input) &&
        listState == old(listState) && filterInput == old(filterInput) && sent == old(sent)
      case SelectDialogDown => Resorted(old(sortDialog).SelectNext())
      case SelectDialogUp => Resorted(old(sortDialog).SelectPrev())
      case SelectDialogSelect => Becomes(ViewState.Default, [])
      case Help => Becomes(old(viewState), [OpenHelp])
      case _ => false
    }

    /** The copy-detail picker's table over its state `d`. */
    twostate predicate CopyDetailOutcome(d: CopyDetailDialogState, e: UserEvent)
      reads this
    {
      d.Valid() &&
      match e
      case SelectDialogClose => Becomes(ViewState.Default, [])
      case SelectDialogDown => Becomes(CopyDetailDialog(d.SelectNext()), [])
      case SelectDialogUp => Becomes(CopyDetailDialog(d.SelectPrev()), [])
      case SelectDialogSelect =>
        Becomes(old(viewState), [CopyToClipboard(d.SelectedNameAndValue().0, d.SelectedNameAndValue().1)])
      case Help => Becomes(old(viewState), [OpenHelp])
      case _ => false
    }

    /** The paste confirmation's table over its request and toggle. */
    twostate predicate PasteConfirmOutcome(spec: PasteSpec, confirm: ConfirmDialogState, e: UserEvent)
      reads this
    {
      match e
      case SelectDialogClose => Becomes(ViewState.Default, [])
      case SelectDialogLeft => Becomes(PasteConfirmDialog(spec, confirm.Toggle()), [])
      case SelectDialogRight => Becomes(PasteConfirmDialog(spec, confirm.Toggle()), [])
      case SelectDialogSelect => Becomes(ViewState.Default, if confirm.isOk then [PasteObject(spec)] else [])
      case Help => Becomes(old(viewState), [OpenHelp])
      case _ => false
    }

    /** `download` from the confirmation over `objs`: cancel sends nothing; a
        confirm with no item under the cursor panics; otherwise the objects go
        to the save dialog, or are sent as one download into the item's name. */
    twostate predicate DownloadOutcome(objs: seq<DownloadObjectInfo>, confirm: ConfirmDialogState, downloadAs: bool, fault: bool)
      reads this
    {
      if !confirm.isOk then !fault && Becomes(ViewState.Default, [])
      else if !old(HasSelection()) then fault && Becomes(old(viewState), [])
      else
        var item := old(CurrentSelectedItem()).value;
        !fault &&
        if downloadAs then Becomes(SaveDialog(InputDialogState(item.name), Some(objs)), [])
        else Becomes(ViewState.Default,
          [DownloadObjects(objectKey.bucketName, old(CurrentSelectedObjectKey()).value, item.name, objs)])
    }

    /** The download confirmation's table. */
    twostate predicate DownloadConfirmOutcome(objs: seq<DownloadObjectInfo>, confirm: ConfirmDialogState, downloadAs: bool,
                                              e: UserEvent, fault: bool)
      reads this
    {
      match e
      case SelectDialogClose => !fault && Becomes(ViewState.Default, [])
      case SelectDialogLeft => !fault && Becomes(DownloadConfirmDialog(objs, confirm.Toggle(), downloadAs), [])
      case SelectDialogRight => !fault && Becomes(DownloadConfirmDialog(objs, confirm.Toggle(), downloadAs), [])
      case SelectDialogSelect => DownloadOutcome(objs, confirm, downloadAs, fault)
      case Help => !fault && Becomes(old(viewState), [OpenHelp])
      case _ => false
    }

    /** `download_as` with the typed `name` trimmed: an empty name changes
        nothing; with no item under the cursor, or a directory selected for a
        single-object save, the source panics; otherwise one download is sent
        and the list view returns. */
    twostate predicate DownloadAsOutcome(name: string, pending: Option<seq<DownloadObjectInfo>>, fault: bool)
      reads this
    {
      if name == [] then !fault && Becomes(old(viewState), [])
      else if !old(HasSelection()) then fault && Becomes(old(viewState), [])
      else
        var item := old(CurrentSelectedItem()).value;
        var key := old(CurrentSelectedObjectKey()).value;
        match pending
        case Some(objs) => !fault && Becomes(ViewState.Default, [DownloadObjects(objectKey.bucketName, key, name, objs)])
        case None =>
          if item.Dir? then fault && Becomes(old(viewState), [])
          else !fault && Becomes(ViewState.Default, [StartDownloadObjectAs(key, item.sizeByte, name)])
    }

    /** The save dialog's table over its input `st`; no match edits the name. */
    twostate predicate SaveOutcome(st: InputDialogState, pending: Option<seq<DownloadObjectInfo>>,
                                   r: Option<UserEvent>, key: KeyEvent, fault: bool)
      reads this
    {
      match r
      case None => !fault && Becomes(SaveDialog(st.HandleKeyEvent(key), pending), [])
      case Some(InputDialogClose) => !fault && Becomes(ViewState.Default, [])
      case Some(InputDialogApply) => DownloadAsOutcome(Trim(st.input), pending, fault)
      case Some(Help) => !fault && Becomes(old(viewState), [OpenHelp])
      case Some(_) => false
    }

    /** The effect of `handle_key` once the state's table has chosen the event
        `r` (`None` when it accepts none of the key press's events): the row of
        the table of the state the page was in. A selection dialog ignores a
        key press with no match; a text dialog edits its text. `fault` is where
        the source panics. */
    twostate predicate Outcome(r: Option<UserEvent>, key: KeyEvent, fault: bool)
      reads this
    {
      match old(viewState)
      case Default => !fault && if r.None? then Becomes(old(viewState), []) else DefaultOutcome(r.value)
      case GoToPathDialog(st) => !fault && GoToPathOutcome(st, r, key)
      case FilterDialog => !fault && FilterOutcome(r, key)
      case SaveDialog(st, pending) => SaveOutcome(st, pending, r, key, fault)
      case SortDialog => !fault && if r.None? then Becomes(old(viewState), []) else SortOutcome(r.value)
      case CopyDetailDialog(d) =>
        !fault && if r.None? then Becomes(old(viewState), []) else CopyDetailOutcome(d, r.value)
      case DownloadConfirmDialog(objs, confirm, downloadAs) =>
        if r.None? then !fault && Becomes(old(viewState), [])
        else DownloadConfirmOutcome(objs, confirm, downloadAs, r.value, fault)
      case PasteConfirmDialog(spec, confirm) =>
        !fault && if r.None? then Becomes(old(viewState), []) else PasteConfirmOutcome(spec, confirm, r.value)
    }

    // -------------------------------------------------------------------------
    // Key handling, one view state at a time
    // -------------------------------------------------------------------------

    /** The list view's table: the rows that move the cursor down. */
    method DefaultMoveDownRoute(e: UserEvent)
      requires Valid() && viewState.Default? && Accepts(viewState, NonEmpty(), e)
      requires e.ObjectListDown? || e.ObjectListGoToBottom? || e.ObjectListPageDown?
      modifies this`listState
      ensures Valid() && SentAtMostOne(old(sent)) && DefaultOutcome(e)
    {
      match e {
        case ObjectListDown => SelectNext();
        case ObjectListGoToBottom => SelectLast();
        case ObjectListPageDown => SelectNextPage();
      }
    }

    /** The list view's table: the rows that move the cursor up. */
    method DefaultMoveUpRoute(e: UserEvent)
      requires Valid() && viewState.Default? && Accepts(viewState, NonEmpty(), e)
      requires e.ObjectListUp? || e.ObjectListGoToTop? || e.ObjectListPageUp?
      modifies this`listState
      ensures Valid() && SentAtMostOne(old(sent)) && DefaultOutcome(e)
    {
      match e {
        case ObjectListUp => SelectPrev();
        case ObjectListGoToTop => SelectFirst();
        case ObjectListPageUp => SelectPrevPage();
      }
    }

    /** The list view's table: the rows that send a fixed event. */
    method DefaultSendRoute(e: UserEvent)
      requires Valid() && viewState.Default? && Accepts(viewState, NonEmpty(), e)
      requires e.ObjectListSelect? || e.ObjectListBack? || e.ObjectListRefresh? || e.ObjectListBucketList? ||
               e.ObjectListPasteObject? || e.Help?
      modifies this`sent
      ensures Valid() && SentAtMostOne(old(sent)) && DefaultOutcome(e)
    {
      match e {
        case ObjectListSelect => sent := sent + [ObjectListMoveDown];
        case ObjectListBack => sent := sent + [ObjectListMoveUp];
        case ObjectListRefresh => sent := sent + [AppEvent.ObjectListRefresh];
        case ObjectListBucketList => sent := sent + [BackToBucketList];
        case ObjectListPasteObject => sent := sent + [StartPasteObject(objectKey)];
        case Help => sent := sent + [OpenHelp];
      }
    }

    /** The list view's table: the management-console row. */
    method DefaultConsoleRoute()
      requires Valid() && viewState.Default?
      modifies this`sent
      ensures Valid() && SentAtMostOne(old(sent)) && DefaultOutcome(ObjectListManagementConsole)
    {
      OpenManagementConsole();
    }

    /** The list view's table: the copy-object row sends the selected key and
        item. */
    method DefaultCopyObjectRoute()
      requires Valid() && viewState.Default? && Accepts(viewState, NonEmpty(), ObjectListCopyObject)
      modifies this`sent
      ensures Valid() && SentAtMostOne(old(sent)) && DefaultOutcome(ObjectListCopyObject)
    {
      SelectionUnderValid();
      sent := sent + [CopyObject(CurrentSelectedObjectKey().value, CurrentSelectedItem().value)];
    }

    /** The list view's table: the rows that open an empty dialog. */
    method DefaultDialogRoute(e: UserEvent)
      requires Valid() && viewState.Default? && Accepts(viewState, NonEmpty(), e)
      requires e.ObjectListFilter? || e.ObjectListSort? || e.ObjectListGoToPath?
      modifies this`viewState
      ensures Valid() && SentAtMostOne(old(sent)) && DefaultOutcome(e)
    {
      match e {
        case ObjectListFilter => OpenFilterDialog();
        case ObjectListSort => OpenSortDialog();
        case ObjectListGoToPath => OpenGoToPathDialog();
      }
    }

    /** The list view's table: the copy-details row. */
    method DefaultCopyDetailsRoute()
      requires Valid() && viewState.Default? && Accepts(viewState, NonEmpty(), ObjectListCopyDetails)
      modifies this`viewState
      ensures Valid() && SentAtMostOne(old(sent)) && DefaultOutcome(ObjectListCopyDetails)
    {
      SelectionUnderValid();
      OpenCopyDetailDialog();
    }

    /** The list view's table: the reset-filter row. */
    method DefaultResetFilterRoute()
      requires Valid() && viewState.Default?
      modifies this`filterInput, this`viewIndices, this`listState
      ensures Valid() && SentAtMostOne(old(sent)) && DefaultOutcome(ObjectListResetFilter)
    {
      ResetFilter();
    }

    /** The list view's table: the download row. */
    method DefaultDownloadRoute()
      requires Valid() && viewState.Default? && Accepts(viewState, NonEmpty(), ObjectListDownloadObject)
      modifies this`sent
      ensures Valid() && SentAtMostOne(old(sent)) && DefaultOutcome(ObjectListDownloadObject)
    {
      StartDownload();
    }

    /** The list view's table: the download-as row. */
    method DefaultDownloadAsRoute()
      requires Valid() && viewState.Default? && Accepts(viewState, NonEmpty(), ObjectListDownloadObjectAs)
      modifies this`viewState, this`sent
      ensures Valid() && SentAtMostOne(old(sent)) && DefaultOutcome(ObjectListDownloadObjectAs)
    {
      StartDownloadAs();
    }

    /** The list view's table. */
    method DefaultRoute(e: UserEvent)
      requires Valid() && viewState.Default? && Accepts(viewState, NonEmpty(), e)
      modifies this
      ensures Valid() && SentAtMostOne(old(sent)) && DefaultOutcome(e)
    {
      if e.ObjectListDown? || e.ObjectListGoToBottom? || e.ObjectListPageDown? {
        DefaultMoveDownRoute(e);
      } else if e.ObjectListUp? || e.ObjectListGoToTop? || e.ObjectListPageUp? {
        DefaultMoveUpRoute(e);
      } else if e.ObjectListFilter? || e.ObjectListSort? || e.ObjectListGoToPath? {
        DefaultDialogRoute(e);
      } else if e.ObjectListCopyDetails? {
        DefaultCopyDetailsRoute();
      } else if e.ObjectListResetFilter? {
        DefaultResetFilterRoute();
      } else if e.ObjectListDownloadObject? {
        DefaultDownloadRoute();
      } else if e.ObjectListDownloadObjectAs? {
        DefaultDownloadAsRoute();
      } else if e.ObjectListManagementConsole? {
        DefaultConsoleRoute();
      } else if e.ObjectListCopyObject? {
        DefaultCopyObjectRoute();
      } else {
        DefaultSendRoute(e);
      }
    }

    /** The go-to-path dialog's apply row: the trimmed input is sent as a
        prefix of this bucket. */
    method GoToPathApplyRoute(key: KeyEvent)
      requires Valid() && viewState.GoToPathDialog?
      modifies this`viewState, this`sent
      ensures Valid() && SentAtMostOne(old(sent))
      ensures GoToPathOutcome(old(viewState).goToPath, Some(InputDialogApply), key)
    {
      sent := sent + [GoToPath(objectKey.bucketName, Trim(viewState.goToPath.input))];
      viewState := ViewState.Default;
    }

    /** The go-to-path dialog: an unmatched key edits the input. */
    method GoToPathRoute(r: Option<UserEvent>, key: KeyEvent)
      requires Valid() && viewState.GoToPathDialog? && (r.Some? ==> Accepts(viewState, NonEmpty(), r.value))
      modifies this`viewState, this`sent
      ensures Valid() && SentAtMostOne(old(sent)) && GoToPathOutcome(old(viewState).goToPath, r, key)
    {
      if r == Some(InputDialogClose) {
        viewState := ViewState.Default;
      } else if r == Some(InputDialogApply) {
        GoToPathApplyRoute(key);
      } else if r.Some? {
        sent := sent + [OpenHelp];
      } else {
        viewState := GoToPathDialog(viewState.goToPath.HandleKeyEvent(key));
      }
    }

    /** The filter dialog's apply row: keep the filter and re-project. */
    method FilterApplyRoute(key: KeyEvent)
      requires Valid() && viewState.FilterDialog?
      modifies this`viewState, this`viewIndices, this`listState
      ensures Valid() && SentAtMostOne(old(sent)) && FilterOutcome(Some(InputDialogApply), key)
    {
      ApplyFilter();
    }

    /** The filter dialog's close row: clear the filter and re-project. */
    method FilterCloseRoute(key: KeyEvent)
      requires Valid() && viewState.FilterDialog?
      modifies this`viewState, this`filterInput, this`viewIndices, this`listState
      ensures Valid() && SentAtMostOne(old(sent)) && FilterOutcome(Some(InputDialogClose), key)
    {
      CloseFilterDialog();
    }

    /** The filter dialog with no match: edit the filter and re-project. */
    method FilterEditRoute(key: KeyEvent)
      requires Valid() && viewState.FilterDialog?
      modifies this`filterInput, this`viewIndices, this`listState
      ensures Valid() && SentAtMostOne(old(sent)) && FilterOutcome(None, key)
    {
      filterInput := filterInput.HandleKeyEvent(key);
      FilterViewIndices();
    }

    /** The filter dialog: every unmatched key edits the filter and re-projects
        at once. */
    method FilterRoute(r: Option<UserEvent>, key: KeyEvent)
      requires Valid() && viewState.FilterDialog? && (r.Some? ==> Accepts(viewState, NonEmpty(), r.value))
      modifies this`viewState, this`sent, this`filterInput, this`viewIndices, this`listState
      ensures Valid() && SentAtMostOne(old(sent)) && FilterOutcome(r, key)
    {
      if r == Some(InputDialogApply) {
        FilterApplyRoute(key);
      } else if r == Some(InputDialogClose) {
        FilterCloseRoute(key);
      } else if r.Some? {
        sent := sent + [OpenHelp];
      } else {
        FilterEditRoute(key);
      }
    }

    /** The sort picker's close row: reset the picker and restore the filter's
        order. */
    method SortCloseRoute()
      requires Valid() && viewState.SortDialog?
      modifies this`viewState, this`sortDialog, this`viewIndices
      ensures Valid() && SentAtMostOne(old(sent)) && SortOutcome(SelectDialogClose)
    {
      CloseSortDialog();
    }

    /** The sort picker's down and up rows preview the highlighted order. */
    method SortMoveRoute(e: UserEvent)
      requires Valid() && viewState.SortDialog? && (e.SelectDialogDown? || e.SelectDialogUp?)
      modifies this`sortDialog, this`viewIndices
      ensures Valid() && SentAtMostOne(old(sent)) && SortOutcome(e)
    {
      if e.SelectDialogDown? {
        SelectNextSortItem();
      } else {
        SelectPrevSortItem();
      }
    }

    /** The sort picker: moving the highlight previews the order at once. */
    method SortRoute(e: UserEvent)
      requires Valid() && viewState.SortDialog? && Accepts(viewState, NonEmpty(), e)
      modifies this`viewState, this`sent, this`sortDialog, this`viewIndices
      ensures Valid() && SentAtMostOne(old(sent)) && SortOutcome(e)
    {
      match e {
        case SelectDialogClose => SortCloseRoute();
        case SelectDialogDown => SortMoveRoute(e);
        case SelectDialogUp => SortMoveRoute(e);
        case SelectDialogSelect => ApplySort();
        case Help => sent := sent + [OpenHelp];
      }
    }

    /** The paste confirmation's select row. */
    method PasteSelectRoute()
      requires Valid() && viewState.PasteConfirmDialog?
      modifies this`viewState, this`sent
      ensures Valid() && SentAtMostOne(old(sent))
      ensures PasteConfirmOutcome(old(viewState).spec, old(viewState).confirm, SelectDialogSelect)
    {
      Paste();
    }

    /** The paste confirmation: left and right flip the toggle. */
    method PasteConfirmRoute(e: UserEvent)
      requires Valid() && viewState.PasteConfirmDialog? && Accepts(viewState, NonEmpty(), e)
      modifies this`viewState, this`sent
      ensures Valid() && SentAtMostOne(old(sent))
      ensures PasteConfirmOutcome(old(viewState).spec, old(viewState).confirm, e)
    {
      match e {
        case SelectDialogClose => ClosePasteConfirmDialog();
        case SelectDialogLeft => viewState := PasteConfirmDialog(viewState.spec, viewState.confirm.Toggle());
        case SelectDialogRight => viewState := PasteConfirmDialog(viewState.spec, viewState.confirm.Toggle());
        case SelectDialogSelect => PasteSelectRoute();
        case Help => sent := sent + [OpenHelp];
      }
    }

    /** The copy-detail picker: select copies the highlighted value. */
    method CopyDetailRoute(e: UserEvent)
      requires Valid() && viewState.CopyDetailDialog? && Accepts(viewState, NonEmpty(), e)
      modifies this`viewState, this`sent
      ensures Valid() && SentAtMostOne(old(sent)) && CopyDetailOutcome(old(viewState).detail, e)
    {
      var d := viewState.detail;
      match e {
        case SelectDialogClose => CloseCopyDetailDialog();
        case SelectDialogDown => viewState := CopyDetailDialog(d.SelectNext());
        case SelectDialogUp => viewState := CopyDetailDialog(d.SelectPrev());
        case SelectDialogSelect =>
          var (name, value) := d.SelectedNameAndValue();
          sent := sent + [CopyToClipboard(name, value)];
        case Help => sent := sent + [OpenHelp];
      }
    }

    /** The download confirmation's select row: `download`. */
    method DownloadSelectRoute() returns (fault: bool)
      requires Valid() && viewState.DownloadConfirmDialog?
      modifies this`viewState, this`sent
      ensures Valid() && SentAtMostOne(old(sent))
      ensures DownloadOutcome(old(viewState).objs, old(viewState).confirm, old(viewState).downloadAs, fault)
    {
      fault := Download();
    }

    /** The download confirmation. */
    method DownloadConfirmRoute(e: UserEvent) returns (fault: bool)
      requires Valid() && viewState.DownloadConfirmDialog? && Accepts(viewState, NonEmpty(), e)
      modifies this`viewState, this`sent
      ensures Valid() && SentAtMostOne(old(sent))
      ensures DownloadConfirmOutcome(old(viewState).objs, old(viewState).confirm, old(viewState).downloadAs, e, fault)
    {
      fault := false;
      match e {
        case SelectDialogClose => CloseDownloadConfirmDialog();
        case SelectDialogLeft =>
          viewState := DownloadConfirmDialog(viewState.objs, viewState.confirm.Toggle(), viewState.downloadAs);
        case SelectDialogRight =>
          viewState := DownloadConfirmDialog(viewState.objs, viewState.confirm.Toggle(), viewState.downloadAs);
        case SelectDialogSelect => fault := DownloadSelectRoute();
        case Help => sent := sent + [OpenHelp];
      }
    }

    /** The save dialog's apply row: `download_as` with the typed name. */
    method SaveApplyRoute() returns (fault: bool)
      requires Valid() && viewState.SaveDialog?
      modifies this`viewState, this`sent
      ensures Valid() && SentAtMostOne(old(sent))
      ensures DownloadAsOutcome(Trim(old(viewState).save.input), old(viewState).pending, fault)
    {
      fault := DownloadAs(viewState.save.input);
    }

    /** The save dialog with no match: edit the name. */
    method SaveEditRoute(key: KeyEvent)
      requires Valid() && viewState.SaveDialog?
      modifies this`viewState
      ensures Valid() && SentAtMostOne(old(sent))
      ensures SaveOutcome(old(viewState).save, old(viewState).pending, None, key, false)
    {
      viewState := SaveDialog(viewState.save.HandleKeyEvent(key), viewState.pending);
    }

    /** The save dialog: apply hands the typed name to `download_as`; an
        unmatched key edits the name. */
    method SaveRoute(r: Option<UserEvent>, key: KeyEvent) returns (fault: bool)
      requires Valid() && viewState.SaveDialog? && (r.Some? ==> Accepts(viewState, NonEmpty(), r.value))
      modifies this`viewState, this`sent
      ensures Valid() && SentAtMostOne(old(sent))
      ensures SaveOutcome(old(viewState).save, old(viewState).pending, r, key, fault)
    {
      fault := false;
      if r == Some(InputDialogClose) {
        CloseSaveDialog();
      } else if r == Some(InputDialogApply) {
        fault := SaveApplyRoute();
      } else if r.Some? {
        sent := sent + [OpenHelp];
      } else {
        SaveEditRoute(key);
      }
    }

    /** A routed event (or none) in a text dialog: go to path, filter, save. */
    method DispatchText(r: Option<UserEvent>, key: KeyEvent) returns (fault: bool)
      requires Valid() && viewState.TextEntry() && (r.Some? ==> Accepts(viewState, NonEmpty(), r.value))
      modifies this
      ensures Valid() && SentAtMostOne(old(sent)) && Outcome(r, key, fault)
    {
      fault := false;
      if viewState.GoToPathDialog? {
        GoToPathRoute(r, key);
      } else if viewState.FilterDialog? {
        FilterRoute(r, key);
      } else {
        fault := SaveRoute(r, key);
      }
    }

    /** A routed event (or none) in the list view or a selection dialog. */
    method DispatchSelect(r: Option<UserEvent>, key: KeyEvent) returns (fault: bool)
      requires Valid() && !viewState.TextEntry() && (r.Some? ==> Accepts(viewState, NonEmpty(), r.value))
      modifies this
      ensures Valid() && SentAtMostOne(old(sent)) && Outcome(r, key, fault)
    {
      fault := false;
      if r.None? {
        return;
      }
      var e := r.value;
      match viewState {
        case Default => DefaultRoute(e);
        case SortDialog => SortRoute(e);
        case CopyDetailDialog(_) => CopyDetailRoute(e);
        case DownloadConfirmDialog(_, _, _) => fault := DownloadConfirmRoute(e);
        case PasteConfirmDialog(_, _) => PasteConfirmRoute(e);
      }
    }

    /** One key press's routed event (or none) applied to the active view
        state, through that state's table. */
    method Dispatch(r: Option<UserEvent>, key: KeyEvent) returns (fault: bool)
      requires Valid() && (r.Some? ==> Accepts(viewState, NonEmpty(), r.value))
      modifies this
      ensures Valid() && SentAtMostOne(old(sent)) && Outcome(r, key, fault)
    {
      if viewState.TextEntry() {
        fault := DispatchText(r, key);
      } else {
        fault := DispatchSelect(r, key);
      }
    }

    /** `handle_key`: scan the events of one key press in order, stop at the
        first one the active view state's table accepts and apply its row; in a
        text dialog, a key press none of whose events is accepted edits the
        text instead. `fault` is where the source panics. */
    method HandleKey(events: seq<UserEvent>, key: KeyEvent) returns (fault: bool)
      requires Valid()
      modifies this
      ensures Valid() && SentAtMostOne(old(sent))
      ensures Outcome(Routed(old(viewState), old(NonEmpty()), events), key, fault)
      // a confirmed download of a directory, not "as", sends exactly one download of the enumerated objects
      ensures var r := Routed(old(viewState), old(NonEmpty()), events);
        r == Some(SelectDialogSelect) && old(viewState).DownloadConfirmDialog? && old(viewState).confirm.isOk &&
        !old(viewState).downloadAs && old(HasSelection()) ==>
          !fault && viewState == ViewState.Default &&
          sent == old(sent) + [DownloadObjects(objectKey.bucketName, old(CurrentSelectedObjectKey()).value,
            old(CurrentSelectedItem()).value.name, old(viewState).objs)]
    {
      var i := 0;
      while i < |events| && !Accepts(viewState, NonEmpty(), events[i])
        invariant 0 <= i <= |events|
        invariant forall j :: 0 <= j < i ==> !Accepts(viewState, NonEmpty(), events[j])
      {
        i := i + 1;
      }
      var r := if i < |events| then Some(events[i]) else None;
      assert r == Routed(viewState, NonEmpty(), events);
      fault := Dispatch(r, key);
    }
  }
}

/** The widget states the object-list page holds: the scrolling cursor, the
    confirmation toggle, the sort picker, the copy-detail picker and the text
    input buffer. Their own source is outside this model; each is given the
    behaviour the page relies on. */
module Widgets {
  import opened Objects
  import opened Projection

  /** `ScrollListState`: the selected row of the projection, the first visible
      row, the number of rows and the viewport height (set when the list is
      drawn). */
  datatype ScrollListState = ScrollListState(selected: nat, offset: nat, total: nat, height: nat)
  {
    /** The selection is a row of the projection (or 0 when it is empty), and
        the first visible row is never below it. */
    predicate Valid()
    {
      (if total == 0 then selected == 0 else selected < total) && offset <= selected
    }

    /** The rows on screen start at `offset` and still show the selection. */
    function Follow(sel: nat): (r: ScrollListState)
      requires total == 0 ==> sel == 0
      requires total > 0 ==> sel < total
      ensures r.Valid() && r.selected == sel && r.total == total && r.height == height
      ensures height > 0 ==> sel < r.offset + height
    {
      var off :=
        if sel < offset then sel
        else if height > 0 && sel >= offset + height then sel - height + 1
        else offset;
      ScrollListState(sel, off, total, height)
    }

    /** One row down, stopping at the last row. */
    function SelectNext(): (r: ScrollListState)
      requires Valid()
      ensures r.Valid() && r.total == total
      ensures total > 0 ==> r.selected == if selected + 1 < total then selected + 1 else total - 1
    {
      if total == 0 then this else Follow(if selected + 1 < total then selected + 1 else total - 1)
    }

    /** One row up, stopping at the first row. */
    function SelectPrev(): (r: ScrollListState)
      requires Valid()
      ensures r.Valid() && r.total == total
      ensures r.selected == if selected > 0 then selected - 1 else 0
    {
      if total == 0 then this else Follow(if selected > 0 then selected - 1 else 0)
    }

    /** The first row, scrolled to the top. */
    function SelectFirst(): (r: ScrollListState)
      requires Valid()
      ensures r.Valid() && r.total == total && r.selected == 0 && r.offset == 0
    {
      ScrollListState(0, 0, total, height)
    }

    /** The last row. */
    function SelectLast(): (r: ScrollListState)
      requires Valid()
      ensures r.Valid() && r.total == total
      ensures total > 0 ==> r.selected == total - 1
    {
      if total == 0 then this else Follow(total - 1)
    }

    /** Drawing the list records the height of the area it is drawn in; the
        selection, the first visible row and the row count stay. */
    function WithHeight(h: nat): (r: ScrollListState)
      requires Valid()
      ensures r.Valid() && r.height == h
      ensures r.selected == selected && r.offset == offset && r.total == total
    {
      ScrollListState(selected, offset, total, h)
    }

    /** A viewport further down, stopping at the last row. */
    function SelectNextPage(): (r: ScrollListState)
      requires Valid()
      ensures r.Valid() && r.total == total && r.selected >= selected
      ensures total > 0 ==> r.selected == if selected + height < total then selected + height else total - 1
    {
      if total == 0 then this
      else Follow(if selected + height < total then selected + height else total - 1)
    }

    /** A viewport further up, stopping at the first row. */
    function SelectPrevPage(): (r: ScrollListState)
      requires Valid()
      ensures r.Valid() && r.total == total && r.selected <= selected
      ensures r.selected == if selected >= height then selected - height else 0
    {
      if total == 0 then this else Follow(if selected >= height then selected - height else 0)
    }
  }

  /** Paging moves by the viewport height: once the list has been drawn with a
      height, page down moves forward unless the last row is selected, page up
      moves back unless the first row is, and a full page down and up returns
      to the same row. */
  lemma PagingMoves(st: ScrollListState)
    requires st.Valid() && st.height > 0
    ensures st.selected + 1 < st.total ==> st.SelectNextPage().selected > st.selected
    ensures st.selected > 0 ==> st.SelectPrevPage().selected < st.selected
    ensures st.selected + st.height < st.total ==>
      st.SelectNextPage().SelectPrevPage().selected == st.selected
  {
  }

  /** `ScrollListState::new(n)`: the first row selected and shown. */
  function NewScrollList(total: nat): (r: ScrollListState)
    ensures r.Valid() && r.total == total && r.selected == 0 && r.offset == 0
  {
    ScrollListState(0, 0, total, 0)
  }

  /** `ConfirmDialogState`: whether the toggle rests on the confirming button. */
  datatype ConfirmDialogState = ConfirmDialogState(isOk: bool)
  {
    /** The left/right keys flip the toggle. */
    function Toggle(): (r: ConfirmDialogState)
      ensures r.isOk != isOk
    {
      ConfirmDialogState(!isOk)
    }
  }

  /** Toggling twice returns to the same button. */
  lemma ToggleTwice(st: ConfirmDialogState)
    ensures st.Toggle().Toggle() == st
  {
  }

  /** A new confirmation dialog rests on the cancelling button. */
  const DefaultConfirm: ConfirmDialogState := ConfirmDialogState(false)

  /** The sort picker lists the seven sort types in this order. */
  const SortTypes: seq<SortType> :=
    [SortType.Default, NameAsc, NameDesc, LastModifiedAsc, LastModifiedDesc, SizeAsc, SizeDesc]

  type SortIndex = i: nat | i < 7

  /** `ObjectListSortDialogState`: the highlighted row of the sort picker. */
  datatype SortDialogState = SortDialogState(selected: SortIndex)
  {
    function Selected(): (t: SortType)
      ensures t == SortTypes[selected]
    {
      SortTypes[selected]
    }

    /** The next row, from the last back to the first. */
    function SelectNext(): (r: SortDialogState)
      ensures r.selected == (selected + 1) % 7
    {
      SortDialogState(if selected == 6 then 0 else selected + 1)
    }

    /** The previous row, from the first round to the last. */
    function SelectPrev(): (r: SortDialogState)
      ensures r.selected == (selected + 6) % 7
      ensures r.SelectNext() == this
    {
      SortDialogState(if selected == 0 then 6 else selected - 1)
    }
  }

  /** A new or reset picker highlights the Default sort. */
  const DefaultSortDialog: SortDialogState := SortDialogState(0)

  /** Each row of the picker names a different sort type. */
  lemma SortTypesDistinct()
    ensures forall i, j :: 0 <= i < j < 7 ==> SortTypes[i] != SortTypes[j]
  {
  }

  /** The picker's rows and the sort types correspond one to one: two picker
      states select the same sort exactly when they highlight the same row, and
      every sort type is on some row. */
  lemma SelectedOneToOne(a: SortDialogState, b: SortDialogState, t: SortType)
    ensures a.Selected() == b.Selected() <==> a == b
    ensures exists d: SortDialogState :: d.Selected() == t
  {
    SortTypesDistinct();
    if a.selected < b.selected {
      assert SortTypes[a.selected] != SortTypes[b.selected];
    } else if b.selected < a.selected {
      assert SortTypes[b.selected] != SortTypes[a.selected];
    }
    var k: SortIndex := match t
      case Default => 0 case NameAsc => 1 case NameDesc => 2 case LastModifiedAsc => 3
      case LastModifiedDesc => 4 case SizeAsc => 5 case SizeDesc => 6;
    assert SortDialogState(k).Selected() == t;
  }

  /** The names and values the copy-detail dialog offers for an item. */
  function CopyDetails(item: ObjectItem): (d: seq<(string, string)>)
    ensures |d| >= 1 && d[0] == ("Key", item.key)
  {
    match item
    case Dir(_, key, s3Uri, objectUrl) =>
      [("Key", key), ("S3 URI", s3Uri), ("Object URL", objectUrl)]
    case File(_, _, _, key, s3Uri, arn, objectUrl, eTag) =>
      [("Key", key), ("S3 URI", s3Uri), ("ARN", arn), ("Object URL", objectUrl), ("ETag", eTag)]
  }

  /** `CopyDetailDialogState`: the item and its highlighted detail row. */
  datatype CopyDetailDialogState = CopyDetailDialogState(item: ObjectItem, selected: nat)
  {
    predicate Valid()
    {
      selected < |CopyDetails(item)|
    }

    function SelectNext(): (r: CopyDetailDialogState)
      requires Valid()
      ensures r.Valid() && r.item == item
      ensures r.selected == (selected + 1) % |CopyDetails(item)|
    {
      CopyDetailDialogState(item, if selected + 1 == |CopyDetails(item)| then 0 else selected + 1)
    }

    function SelectPrev(): (r: CopyDetailDialogState)
      requires Valid()
      ensures r.Valid() && r.item == item
      ensures r.SelectNext() == this
    {
      CopyDetailDialogState(item, if selected == 0 then |CopyDetails(item)| - 1 else selected - 1)
    }

    /** `selected_name_and_value`: what is copied to the clipboard. */
    function SelectedNameAndValue(): (nv: (string, string))
      requires Valid()
      ensures nv in CopyDetails(item)
    {
      CopyDetails(item)[selected]
    }
  }

  /** A copy-detail dialog opens on its first row. */
  function NewCopyDetail(item: ObjectItem): (r: CopyDetailDialogState)
    ensures r.Valid() && r.item == item && r.SelectedNameAndValue() == ("Key", item.key)
  {
    CopyDetailDialogState(item, 0)
  }

  /** A raw key press as a text field sees it. */
  datatype KeyEvent = Insert(c: char) | Backspace | Ignored

  /** `InputDialogState`: the text of an input dialog, edited at its end. */
  datatype InputDialogState = InputDialogState(input: string)
  {
    /** `handle_key_event`: type a character or delete the last one. */
    function HandleKeyEvent(k: KeyEvent): (r: InputDialogState)
      ensures k.Insert? ==> r.input == input + [k.c]
      ensures k.Backspace? && input != [] ==> r.input + [input[|input| - 1]] == input
      ensures (k.Backspace? && input == []) || k.Ignored? ==> r == this
    {
      match k
      case Insert(c) => InputDialogState(input + [c])
      case Backspace => if input == [] then this else InputDialogState(input[..|input| - 1])
      case Ignored => this
    }
  }

  /** Typing a character and deleting it again leaves the text as it was. */
  lemma InsertThenBackspace(st: InputDialogState, c: char)
    ensures st.HandleKeyEvent(Insert(c)).HandleKeyEvent(Backspace) == st
  {
    assert (st.input + [c])[..|st.input|] == st.input;
  }
}

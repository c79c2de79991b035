/** The sort scenario of the page's own unit test: five items, the picker
    stepped down through every sort type, each step re-sorting the order the
    previous one left. Timestamps are seconds from the epoch read as UTC; only
    their order matters. */
module PageScenarios {
  import opened Objects
  import opened Projection
  import opened Widgets
  import opened Keys
  import opened ObjectList

  const SampleItems: seq<ObjectItem> := [
    Dir("rid", "", "", ""),
    File("file", 1024, 1704200462, "", "", "", "", ""),
    Dir("dir", "", "", ""),
    File("xyz", 1048576, 1704067199, "", "", "", "", ""),
    File("abc", 0, -125281123200, "", "", "", "", "")
  ]

  const SampleKey: ObjectKey := ObjectKey("test-bucket", ["path", "to"])

  lemma NameAscThree()
    ensures SortIndices(SampleItems, [2, 3, 4], NameAsc) == [4, 2, 3]
  {
    assert [4][1..] == [];
    assert SortIndices(SampleItems, [4], NameAsc) == [4];
    assert [3, 4][1..] == [4];
    assert KeyCmp(NameAsc, SampleItems, 3, 4) == Greater;
    assert SortIndices(SampleItems, [3, 4], NameAsc) == [4, 3];
    assert [2, 3, 4][1..] == [3, 4];
    assert KeyCmp(NameAsc, SampleItems, 2, 4) == Greater;
    assert KeyCmp(NameAsc, SampleItems, 2, 3) == Less;
  }

  lemma NameAscFourInsert()
    ensures Projection.Insert(NameAsc, SampleItems, 1, [4, 2, 3]) == [4, 2, 1, 3]
  {
    assert KeyCmp(NameAsc, SampleItems, 1, 4) == Greater;
    assert KeyCmp(NameAsc, SampleItems, 1, 2) == Greater;
    assert KeyCmp(NameAsc, SampleItems, 1, 3) == Less;
  }

  lemma NameAscFour()
    ensures SortIndices(SampleItems, [1, 2, 3, 4], NameAsc) == [4, 2, 1, 3]
  {
    NameAscThree();
    NameAscFourInsert();
    assert [1, 2, 3, 4][1..] == [2, 3, 4];
  }

  lemma NameAscExampleInsert()
    ensures Projection.Insert(NameAsc, SampleItems, 0, [4, 2, 1, 3]) == [4, 2, 1, 0, 3]
  {
    assert KeyCmp(NameAsc, SampleItems, 0, 4) == Greater;
    assert KeyCmp(NameAsc, SampleItems, 0, 2) == Greater;
    assert KeyCmp(NameAsc, SampleItems, 0, 1) == Greater;
    assert KeyCmp(NameAsc, SampleItems, 0, 3) == Less;
  }

  /** Name ascending, from the master order. */
  lemma NameAscExample()
    ensures SortIndices(SampleItems, [0, 1, 2, 3, 4], NameAsc) == [4, 2, 1, 0, 3]
  {
    NameAscFour();
    NameAscExampleInsert();
    assert [0, 1, 2, 3, 4][1..] == [1, 2, 3, 4];
  }

  lemma NameDescThree()
    ensures SortIndices(SampleItems, [1, 0, 3], NameDesc) == [3, 0, 1]
  {
    assert [3][1..] == [];
    assert SortIndices(SampleItems, [3], NameDesc) == [3];
    assert [0, 3][1..] == [3];
    assert KeyCmp(NameDesc, SampleItems, 0, 3) == Greater;
    assert SortIndices(SampleItems, [0, 3], NameDesc) == [3, 0];
    assert [1, 0, 3][1..] == [0, 3];
    assert KeyCmp(NameDesc, SampleItems, 1, 3) == Greater;
    assert KeyCmp(NameDesc, SampleItems, 1, 0) == Greater;
  }

  lemma NameDescFourInsert()
    ensures Projection.Insert(NameDesc, SampleItems, 2, [3, 0, 1]) == [3, 0, 1, 2]
  {
    assert KeyCmp(NameDesc, SampleItems, 2, 3) == Greater;
    assert KeyCmp(NameDesc, SampleItems, 2, 0) == Greater;
    assert KeyCmp(NameDesc, SampleItems, 2, 1) == Greater;
  }

  lemma NameDescFour()
    ensures SortIndices(SampleItems, [2, 1, 0, 3], NameDesc) == [3, 0, 1, 2]
  {
    NameDescThree();
    NameDescFourInsert();
    assert [2, 1, 0, 3][1..] == [1, 0, 3];
  }

  lemma NameDescExampleInsert()
    ensures Projection.Insert(NameDesc, SampleItems, 4, [3, 0, 1, 2]) == [3, 0, 1, 2, 4]
  {
    assert KeyCmp(NameDesc, SampleItems, 4, 3) == Greater;
    assert KeyCmp(NameDesc, SampleItems, 4, 0) == Greater;
    assert KeyCmp(NameDesc, SampleItems, 4, 1) == Greater;
    assert KeyCmp(NameDesc, SampleItems, 4, 2) == Greater;
  }

  /** Name descending, from the name-ascending order. */
  lemma NameDescExample()
    ensures SortIndices(SampleItems, [4, 2, 1, 0, 3], NameDesc) == [3, 0, 1, 2, 4]
  {
    NameDescFour();
    NameDescExampleInsert();
    assert [4, 2, 1, 0, 3][1..] == [2, 1, 0, 3];
  }

  lemma LastModifiedAscThree()
    ensures SortIndices(SampleItems, [1, 2, 4], LastModifiedAsc) == [2, 4, 1]
  {
    assert [4][1..] == [];
    assert SortIndices(SampleItems, [4], LastModifiedAsc) == [4];
    assert [2, 4][1..] == [4];
    assert KeyCmp(LastModifiedAsc, SampleItems, 2, 4) == Less;
    assert SortIndices(SampleItems, [2, 4], LastModifiedAsc) == [2, 4];
    assert [1, 2, 4][1..] == [2, 4];
    assert KeyCmp(LastModifiedAsc, SampleItems, 1, 2) == Greater;
    assert KeyCmp(LastModifiedAsc, SampleItems, 1, 4) == Greater;
  }

  lemma LastModifiedAscFourInsert()
    ensures Projection.Insert(LastModifiedAsc, SampleItems, 0, [2, 4, 1]) == [0, 2, 4, 1]
  {
    assert KeyCmp(LastModifiedAsc, SampleItems, 0, 2) == Equal;
  }

  lemma LastModifiedAscFour()
    ensures SortIndices(SampleItems, [0, 1, 2, 4], LastModifiedAsc) == [0, 2, 4, 1]
  {
    LastModifiedAscThree();
    LastModifiedAscFourInsert();
    assert [0, 1, 2, 4][1..] == [1, 2, 4];
  }

  lemma LastModifiedAscExampleInsert()
    ensures Projection.Insert(LastModifiedAsc, SampleItems, 3, [0, 2, 4, 1]) == [0, 2, 4, 3, 1]
  {
    assert KeyCmp(LastModifiedAsc, SampleItems, 3, 0) == Greater;
    assert KeyCmp(LastModifiedAsc, SampleItems, 3, 2) == Greater;
    assert KeyCmp(LastModifiedAsc, SampleItems, 3, 4) == Greater;
    assert KeyCmp(LastModifiedAsc, SampleItems, 3, 1) == Less;
  }

  /** Oldest first, from the name-descending order; the directories have no
      time, so they come first, in the order they stood. */
  lemma LastModifiedAscExample()
    ensures SortIndices(SampleItems, [3, 0, 1, 2, 4], LastModifiedAsc) == [0, 2, 4, 3, 1]
  {
    LastModifiedAscFour();
    LastModifiedAscExampleInsert();
    assert [3, 0, 1, 2, 4][1..] == [0, 1, 2, 4];
  }

  lemma LastModifiedDescThree()
    ensures SortIndices(SampleItems, [4, 3, 1], LastModifiedDesc) == [1, 3, 4]
  {
    assert [1][1..] == [];
    assert SortIndices(SampleItems, [1], LastModifiedDesc) == [1];
    assert [3, 1][1..] == [1];
    assert KeyCmp(LastModifiedDesc, SampleItems, 3, 1) == Greater;
    assert SortIndices(SampleItems, [3, 1], LastModifiedDesc) == [1, 3];
    assert [4, 3, 1][1..] == [3, 1];
    assert KeyCmp(LastModifiedDesc, SampleItems, 4, 1) == Greater;
    assert KeyCmp(LastModifiedDesc, SampleItems, 4, 3) == Greater;
  }

  lemma LastModifiedDescFourInsert()
    ensures Projection.Insert(LastModifiedDesc, SampleItems, 2, [1, 3, 4]) == [1, 3, 4, 2]
  {
    assert KeyCmp(LastModifiedDesc, SampleItems, 2, 1) == Greater;
    assert KeyCmp(LastModifiedDesc, SampleItems, 2, 3) == Greater;
    assert KeyCmp(LastModifiedDesc, SampleItems, 2, 4) == Greater;
  }

  lemma LastModifiedDescFour()
    ensures SortIndices(SampleItems, [2, 4, 3, 1], LastModifiedDesc) == [1, 3, 4, 2]
  {
    LastModifiedDescThree();
    LastModifiedDescFourInsert();
    assert [2, 4, 3, 1][1..] == [4, 3, 1];
  }

  lemma LastModifiedDescExampleInsert()
    ensures Projection.Insert(LastModifiedDesc, SampleItems, 0, [1, 3, 4, 2]) == [1, 3, 4, 0, 2]
  {
    assert KeyCmp(LastModifiedDesc, SampleItems, 0, 1) == Greater;
    assert KeyCmp(LastModifiedDesc, SampleItems, 0, 3) == Greater;
    assert KeyCmp(LastModifiedDesc, SampleItems, 0, 4) == Greater;
    assert KeyCmp(LastModifiedDesc, SampleItems, 0, 2) == Equal;
  }

  /** Newest first, from the oldest-first order; the directories go last,
      still in the order they stood. */
  lemma LastModifiedDescExample()
    ensures SortIndices(SampleItems, [0, 2, 4, 3, 1], LastModifiedDesc) == [1, 3, 4, 0, 2]
  {
    LastModifiedDescFour();
    LastModifiedDescExampleInsert();
    assert [0, 2, 4, 3, 1][1..] == [2, 4, 3, 1];
  }

  lemma SizeAscThree()
    ensures SortIndices(SampleItems, [4, 0, 2], SizeAsc) == [0, 2, 4]
  {
    assert [2][1..] == [];
    assert SortIndices(SampleItems, [2], SizeAsc) == [2];
    assert [0, 2][1..] == [2];
    assert KeyCmp(SizeAsc, SampleItems, 0, 2) == Equal;
    assert SortIndices(SampleItems, [0, 2], SizeAsc) == [0, 2];
    assert [4, 0, 2][1..] == [0, 2];
    assert KeyCmp(SizeAsc, SampleItems, 4, 0) == Greater;
    assert KeyCmp(SizeAsc, SampleItems, 4, 2) == Greater;
  }

  lemma SizeAscFourInsert()
    ensures Projection.Insert(SizeAsc, SampleItems, 3, [0, 2, 4]) == [0, 2, 4, 3]
  {
    assert KeyCmp(SizeAsc, SampleItems, 3, 0) == Greater;
    assert KeyCmp(SizeAsc, SampleItems, 3, 2) == Greater;
    assert KeyCmp(SizeAsc, SampleItems, 3, 4) == Greater;
  }

  lemma SizeAscFour()
    ensures SortIndices(SampleItems, [3, 4, 0, 2], SizeAsc) == [0, 2, 4, 3]
  {
    SizeAscThree();
    SizeAscFourInsert();
    assert [3, 4, 0, 2][1..] == [4, 0, 2];
  }

  lemma SizeAscExampleInsert()
    ensures Projection.Insert(SizeAsc, SampleItems, 1, [0, 2, 4, 3]) == [0, 2, 4, 1, 3]
  {
    assert KeyCmp(SizeAsc, SampleItems, 1, 0) == Greater;
    assert KeyCmp(SizeAsc, SampleItems, 1, 2) == Greater;
    assert KeyCmp(SizeAsc, SampleItems, 1, 4) == Greater;
    assert KeyCmp(SizeAsc, SampleItems, 1, 3) == Less;
  }

  /** Smallest first, from the newest-first order; the directories have no
      size and come first. */
  lemma SizeAscExample()
    ensures SortIndices(SampleItems, [1, 3, 4, 0, 2], SizeAsc) == [0, 2, 4, 1, 3]
  {
    SizeAscFour();
    SizeAscExampleInsert();
    assert [1, 3, 4, 0, 2][1..] == [3, 4, 0, 2];
  }

  lemma SizeDescThree()
    ensures SortIndices(SampleItems, [4, 1, 3], SizeDesc) == [3, 1, 4]
  {
    assert [3][1..] == [];
    assert SortIndices(SampleItems, [3], SizeDesc) == [3];
    assert [1, 3][1..] == [3];
    assert KeyCmp(SizeDesc, SampleItems, 1, 3) == Greater;
    assert SortIndices(SampleItems, [1, 3], SizeDesc) == [3, 1];
    assert [4, 1, 3][1..] == [1, 3];
    assert KeyCmp(SizeDesc, SampleItems, 4, 3) == Greater;
    assert KeyCmp(SizeDesc, SampleItems, 4, 1) == Greater;
  }

  lemma SizeDescFourInsert()
    ensures Projection.Insert(SizeDesc, SampleItems, 2, [3, 1, 4]) == [3, 1, 4, 2]
  {
    assert KeyCmp(SizeDesc, SampleItems, 2, 3) == Greater;
    assert KeyCmp(SizeDesc, SampleItems, 2, 1) == Greater;
    assert KeyCmp(SizeDesc, SampleItems, 2, 4) == Greater;
  }

  lemma SizeDescFour()
    ensures SortIndices(SampleItems, [2, 4, 1, 3], SizeDesc) == [3, 1, 4, 2]
  {
    SizeDescThree();
    SizeDescFourInsert();
    assert [2, 4, 1, 3][1..] == [4, 1, 3];
  }

  lemma SizeDescExampleInsert()
    ensures Projection.Insert(SizeDesc, SampleItems, 0, [3, 1, 4, 2]) == [3, 1, 4, 0, 2]
  {
    assert KeyCmp(SizeDesc, SampleItems, 0, 3) == Greater;
    assert KeyCmp(SizeDesc, SampleItems, 0, 1) == Greater;
    assert KeyCmp(SizeDesc, SampleItems, 0, 4) == Greater;
    assert KeyCmp(SizeDesc, SampleItems, 0, 2) == Equal;
  }

  /** Largest first, from the smallest-first order. */
  lemma SizeDescExample()
    ensures SortIndices(SampleItems, [0, 2, 4, 1, 3], SizeDesc) == [3, 1, 4, 0, 2]
  {
    SizeDescFour();
    SizeDescExampleInsert();
    assert [0, 2, 4, 1, 3][1..] == [2, 4, 1, 3];
  }

  /** The page starts in master order. */
  lemma SampleMasterOrder()
    ensures Range(|SampleItems|) == [0, 1, 2, 3, 4]
  {
    var r := Range(|SampleItems|);
    assert r[0] == 0 && r[1] == 1 && r[2] == 2 && r[3] == 3 && r[4] == 4;
  }

  /** One press of the picker's down key while the picker is open: the picker
      moves one row and previews that order, re-sorting the current view. */
  method PressDown(page: ObjectListPage)
    requires page.Valid() && page.viewState == SortDialog
    modifies page
    ensures page.Valid() && page.viewState == SortDialog
    ensures page.sortDialog == old(page.sortDialog).SelectNext()
    ensures page.viewIndices == SortIndices(page.objectItems, old(page.viewIndices), page.sortDialog.Selected())
  {
    assert FirstAccepted(SortDialog, page.NonEmpty(), [SelectDialogDown]) == Some(0);
    var _ := page.HandleKey([SelectDialogDown], KeyEvent.Insert('j'));
  }

  /** One press of the sort key in the list view: the picker opens and the
      view is left as it was. */
  method PressSort(page: ObjectListPage)
    requires page.Valid() && page.viewState == ViewState.Default
    modifies page
    ensures page.Valid() && page.viewState == SortDialog
    ensures page.sortDialog == old(page.sortDialog) && page.viewIndices == old(page.viewIndices)
  {
    assert FirstAccepted(ViewState.Default, page.NonEmpty(), [ObjectListSort]) == Some(0);
    var _ := page.HandleKey([ObjectListSort], KeyEvent.Insert('o'));
  }

  /** One press of the page-down key in the list view: the cursor moves a
      viewport down and nothing else changes. */
  method PressPageDown(page: ObjectListPage)
    requires page.Valid() && page.viewState == ViewState.Default && page.NonEmpty()
    modifies page
    ensures page.Valid() && page.viewState == ViewState.Default
    ensures page.listState == old(page.listState).SelectNextPage() && page.viewIndices == old(page.viewIndices)
  {
    assert FirstAccepted(ViewState.Default, page.NonEmpty(), [ObjectListPageDown]) == Some(0);
    var _ := page.HandleKey([ObjectListPageDown], KeyEvent.Insert('f'));
  }

  /** A new page on the five sample items, drawn three rows high. */
  method RenderedSamplePage() returns (page: ObjectListPage)
    ensures fresh(page) && page.Valid() && page.viewState == ViewState.Default && page.NonEmpty()
    ensures page.listState == ScrollListState(0, 0, 5, 3)
  {
    page := new ObjectListPage(SampleItems, SampleKey);
    assert |page.viewIndices| == |SampleItems| == 5;
    page.SetViewportHeight(3);
  }

  /** Paging after a render: on the sample page drawn three rows high, the
      page-down key moves the cursor three rows, and a second press stops at
      the last row. */
  method PageDownAfterRender() returns (first: nat, second: nat)
    ensures first == 3 && second == 4
  {
    var page := RenderedSamplePage();
    PressPageDown(page);
    assert page.listState == ScrollListState(3, 1, 5, 3);
    first := page.listState.selected;
    PressPageDown(page);
    assert page.listState == ScrollListState(4, 2, 5, 3);
    second := page.listState.selected;
  }

  /** A new page on the five sample items with the sort picker opened. */
  method OpenSortPicker() returns (page: ObjectListPage)
    ensures fresh(page) && page.Valid() && page.objectItems == SampleItems
    ensures page.viewState == SortDialog && page.sortDialog == DefaultSortDialog
    ensures page.viewIndices == [0, 1, 2, 3, 4]
  {
    page := new ObjectListPage(SampleItems, SampleKey);
    SampleMasterOrder();
    PressSort(page);
  }

  /** The page's sort test: open the picker on the five sample items, then
      step down through the six orders; each preview re-sorts the order the
      previous one left. */
  method SortItemsScenario() returns (views: seq<seq<nat>>)
    ensures views == [[4, 2, 1, 0, 3], [3, 0, 1, 2, 4], [0, 2, 4, 3, 1],
                      [1, 3, 4, 0, 2], [0, 2, 4, 1, 3], [3, 1, 4, 0, 2]]
  {
    var page := OpenSortPicker();
    PressDown(page);
    NameAscExample();
    var nameAsc := page.viewIndices;
    PressDown(page);
    NameDescExample();
    var nameDesc := page.viewIndices;
    PressDown(page);
    LastModifiedAscExample();
    var lastModifiedAsc := page.viewIndices;
    PressDown(page);
    LastModifiedDescExample();
    var lastModifiedDesc := page.viewIndices;
    PressDown(page);
    SizeAscExample();
    var sizeAsc := page.viewIndices;
    PressDown(page);
    SizeDescExample();
    views := [nameAsc, nameDesc, lastModifiedAsc, lastModifiedDesc, sizeAsc, page.viewIndices];
  }
}

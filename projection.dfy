/** The filter/sort projection of the object list: a sequence of indices into
    the master item list, which itself is never reordered. */
module Projection {
  import opened Objects
  import opened Text

  datatype Ordering = Less | Equal | Greater {
    function Flip(): (r: Ordering)
      ensures (r == Equal) == (this == Equal)
    {
      match this
      case Less => Greater
      case Equal => Equal
      case Greater => Less
    }
  }

  /** The entries of the sort dialog, in the order the dialog lists them. */
  datatype SortType =
    | Default | NameAsc | NameDesc | LastModifiedAsc | LastModifiedDesc | SizeAsc | SizeDesc

  /** Every index points into the master list. */
  predicate ValidIndices(items: seq<ObjectItem>, s: seq<nat>)
  {
    forall k :: 0 <= k < |s| ==> s[k] < |items|
  }

  predicate Increasing(s: seq<nat>)
  {
    forall i, j :: 0 <= i < j < |s| ==> s[i] < s[j]
  }

  predicate Distinct(s: seq<nat>)
  {
    forall i, j :: 0 <= i < j < |s| ==> s[i] != s[j]
  }

  // ---------------------------------------------------------------------------
  // Filtering
  // ---------------------------------------------------------------------------

  /** The indices below `n` whose item name contains `filter`, in index order. */
  function FilterPrefix(items: seq<ObjectItem>, filter: string, n: nat): (r: seq<nat>)
    requires n <= |items|
    ensures forall k :: 0 <= k < |r| ==> r[k] < n
    ensures Increasing(r)
    ensures forall i: nat :: i in r <==> i < n && Contains(items[i].name, filter)
  {
    if n == 0 then []
    else
      var r := FilterPrefix(items, filter, n - 1);
      if Contains(items[n - 1].name, filter) then r + [n - 1] else r
  }

  /** `filter_view_indices`: enumerate the master list, keep the indices whose
      name contains the filter text (case-sensitive), collect in index order. */
  function FilterIndices(items: seq<ObjectItem>, filter: string): (r: seq<nat>)
    ensures ValidIndices(items, r) && Increasing(r)
    ensures forall i: nat :: i in r <==> i < |items| && Contains(items[i].name, filter)
  {
    FilterPrefix(items, filter, |items|)
  }

  function Range(n: nat): (r: seq<nat>)
    ensures |r| == n && forall k :: 0 <= k < n ==> r[k] == k
  {
    if n == 0 then [] else Range(n - 1) + [n - 1]
  }

  /** An empty filter keeps every item, in master order. */
  lemma {:induction false} EmptyFilterIsIdentity(items: seq<ObjectItem>)
    ensures FilterIndices(items, []) == Range(|items|)
    ensures forall i: nat :: i in Range(|items|) <==> i < |items|
  {
    var r := FilterIndices(items, []);
    var n := |items|;
    // every index is present and the indices are strictly increasing below n
    forall i: nat | i < n ensures i in r {
      assert [] <= items[i].name;
    }
    IncreasingCovering(r, n);
  }

  /** A strictly increasing sequence below `n` that contains every index below
      `n` is `0, 1, ..., n - 1`. */
  lemma {:induction false} IncreasingCovering(r: seq<nat>, n: nat)
    requires Increasing(r)
    requires forall k :: 0 <= k < |r| ==> r[k] < n
    requires forall i: nat :: i < n ==> i in r
    ensures r == Range(n)
  {
    if n == 0 {
    } else {
      assert n - 1 in r;
      var p :| 0 <= p < |r| && r[p] == n - 1;
      var last := |r| - 1;
      assert r[last] == n - 1;
      var front := r[..last];
      forall i: nat | i < n - 1 ensures i in front {
        assert i in r;
        var q :| 0 <= q < |r| && r[q] == i;
        assert q != last;
        assert front[q] == i;
      }
      forall k | 0 <= k < |front| ensures front[k] < n - 1 {
        assert r[k] < r[last];
      }
      IncreasingCovering(front, n - 1);
      assert r == front + [n - 1];
    }
  }

  // ---------------------------------------------------------------------------
  // Comparators
  // ---------------------------------------------------------------------------

  function CmpInt(a: int, b: int): Ordering
  {
    if a < b then Less else if a > b then Greater else Equal
  }

  /** `String::cmp`: lexicographic on characters (for UTF-8 this is the same as
      comparing the bytes). */
  function CmpStr(a: string, b: string): Ordering
  {
    if a == [] then (if b == [] then Equal else Less)
    else if b == [] then Greater
    else if a[0] < b[0] then Less
    else if a[0] > b[0] then Greater
    else CmpStr(a[1..], b[1..])
  }

  /** `Option::cmp`: `None` orders before every `Some`. */
  function CmpOpt(a: Option<int>, b: Option<int>): Ordering
  {
    match (a, b)
    case (None, None) => Equal
    case (None, Some(_)) => Less
    case (Some(_), None) => Greater
    case (Some(x), Some(y)) => CmpInt(x, y)
  }

  /** The comparator `sort_view_indices` passes to `sort_by` for each sort type;
      a `*Desc` type compares with the operands swapped. */
  function KeyCmp(t: SortType, items: seq<ObjectItem>, a: nat, b: nat): Ordering
    requires a < |items| && b < |items|
  {
    match t
    case Default => CmpInt(a, b)
    case NameAsc => CmpStr(items[a].name, items[b].name)
    case NameDesc => CmpStr(items[b].name, items[a].name)
    case LastModifiedAsc => CmpOpt(items[a].LastModified(), items[b].LastModified())
    case LastModifiedDesc => CmpOpt(items[b].LastModified(), items[a].LastModified())
    case SizeAsc => CmpOpt(items[a].SizeByte(), items[b].SizeByte())
    case SizeDesc => CmpOpt(items[b].SizeByte(), items[a].SizeByte())
  }

  lemma {:induction false} CmpStrFlip(a: string, b: string)
    ensures CmpStr(a, b) == CmpStr(b, a).Flip()
    ensures CmpStr(a, b) == Equal <==> a == b
  {
    if a != [] && b != [] && a[0] == b[0] {
      CmpStrFlip(a[1..], b[1..]);
      assert a == [a[0]] + a[1..] && b == [b[0]] + b[1..];
    }
  }

  lemma {:induction false} CmpStrTrans(a: string, b: string, c: string)
    requires CmpStr(a, b) != Greater && CmpStr(b, c) != Greater
    ensures CmpStr(a, c) != Greater
  {
    if a != [] && b != [] && c != [] && a[0] == b[0] && b[0] == c[0] {
      CmpStrTrans(a[1..], b[1..], c[1..]);
    }
  }

  lemma CmpOptFlip(a: Option<int>, b: Option<int>)
    ensures CmpOpt(a, b) == CmpOpt(b, a).Flip()
    ensures CmpOpt(a, b) == Equal <==> a == b
  {
  }

  /** Every comparator is antisymmetric: swapping the operands flips the result. */
  lemma KeyCmpFlip(t: SortType, items: seq<ObjectItem>, a: nat, b: nat)
    requires a < |items| && b < |items|
    ensures KeyCmp(t, items, a, b) == KeyCmp(t, items, b, a).Flip()
  {
    match t
    case Default =>
    case NameAsc => CmpStrFlip(items[a].name, items[b].name);
    case NameDesc => CmpStrFlip(items[b].name, items[a].name);
    case LastModifiedAsc => CmpOptFlip(items[a].LastModified(), items[b].LastModified());
    case LastModifiedDesc => CmpOptFlip(items[b].LastModified(), items[a].LastModified());
    case SizeAsc => CmpOptFlip(items[a].SizeByte(), items[b].SizeByte());
    case SizeDesc => CmpOptFlip(items[b].SizeByte(), items[a].SizeByte());
  }

  /** Every comparator's "not greater" is transitive. */
  lemma KeyCmpTrans(t: SortType, items: seq<ObjectItem>, a: nat, b: nat, c: nat)
    requires a < |items| && b < |items| && c < |items|
    requires KeyCmp(t, items, a, b) != Greater && KeyCmp(t, items, b, c) != Greater
    ensures KeyCmp(t, items, a, c) != Greater
  {
    match t
    case Default =>
    case NameAsc => CmpStrTrans(items[a].name, items[b].name, items[c].name);
    case NameDesc => CmpStrTrans(items[c].name, items[b].name, items[a].name);
    case LastModifiedAsc =>
    case LastModifiedDesc =>
    case SizeAsc =>
    case SizeDesc =>
  }

  /** Ties form an equivalence: `Equal` is transitive. */
  lemma KeyCmpEqualTrans(t: SortType, items: seq<ObjectItem>, a: nat, b: nat, c: nat)
    requires a < |items| && b < |items| && c < |items|
    requires KeyCmp(t, items, a, b) == Equal && KeyCmp(t, items, b, c) == Equal
    ensures KeyCmp(t, items, a, c) == Equal
  {
    KeyCmpTrans(t, items, a, b, c);
    KeyCmpFlip(t, items, a, b);
    KeyCmpFlip(t, items, b, c);
    KeyCmpTrans(t, items, c, b, a);
    KeyCmpFlip(t, items, a, c);
  }

  /** The sort type with the same key in the other direction. */
  function Opposite(t: SortType): SortType
    requires t != Default
  {
    match t
    case NameAsc => NameDesc
    case NameDesc => NameAsc
    case LastModifiedAsc => LastModifiedDesc
    case LastModifiedDesc => LastModifiedAsc
    case SizeAsc => SizeDesc
    case SizeDesc => SizeAsc
  }

  // ---------------------------------------------------------------------------
  // Stable sorting
  // ---------------------------------------------------------------------------

  /** Sorted by `t`: no element compares greater than one after it. */
  predicate Sorted(t: SortType, items: seq<ObjectItem>, s: seq<nat>)
    requires ValidIndices(items, s)
  {
    forall i, j :: 0 <= i < j < |s| ==> KeyCmp(t, items, s[i], s[j]) != Greater
  }

  /** Insert `x` in front of the first element it is not greater than.
      Elements equal to `x` stay after it. */
  function Insert(t: SortType, items: seq<ObjectItem>, x: nat, s: seq<nat>): (r: seq<nat>)
    requires x < |items| && ValidIndices(items, s)
    ensures ValidIndices(items, r)
  {
    if s == [] || KeyCmp(t, items, x, s[0]) != Greater then [x] + s
    else [s[0]] + Insert(t, items, x, s[1..])
  }

  /** Inserting adds exactly `x`. */
  lemma {:induction false} InsertPermutation(t: SortType, items: seq<ObjectItem>, x: nat, s: seq<nat>)
    requires x < |items| && ValidIndices(items, s)
    ensures multiset(Insert(t, items, x, s)) == multiset(s) + multiset{x}
  {
    if s != [] && KeyCmp(t, items, x, s[0]) == Greater {
      InsertPermutation(t, items, x, s[1..]);
      assert s == [s[0]] + s[1..];
    }
  }

  /** The effect of `view_indices.sort_by(cmp)` (a stable sort) for sort type `t`,
      stated as an insertion sort. */
  function SortIndices(items: seq<ObjectItem>, s: seq<nat>, t: SortType): (r: seq<nat>)
    requires ValidIndices(items, s)
    ensures ValidIndices(items, r)
  {
    if s == [] then [] else Insert(t, items, s[0], SortIndices(items, s[1..], t))
  }

  /** Sorting rearranges the indices and drops or adds none. */
  lemma {:induction false} SortPermutation(items: seq<ObjectItem>, s: seq<nat>, t: SortType)
    requires ValidIndices(items, s)
    ensures multiset(SortIndices(items, s, t)) == multiset(s)
  {
    if s != [] {
      SortPermutation(items, s[1..], t);
      InsertPermutation(t, items, s[0], SortIndices(items, s[1..], t));
      assert s == [s[0]] + s[1..];
    }
  }

  /** Putting in front of a sorted sequence an element not greater than any of
      its elements keeps it sorted. */
  lemma SortedCons(t: SortType, items: seq<ObjectItem>, h: nat, tail: seq<nat>)
    requires h < |items| && ValidIndices(items, tail) && Sorted(t, items, tail)
    requires forall j :: 0 <= j < |tail| ==> KeyCmp(t, items, h, tail[j]) != Greater
    ensures ValidIndices(items, [h] + tail) && Sorted(t, items, [h] + tail)
  {
    var r := [h] + tail;
    forall i, j | 0 <= i < j < |r| ensures KeyCmp(t, items, r[i], r[j]) != Greater {
      assert r[j] == tail[j - 1];
      if i > 0 {
        assert r[i] == tail[i - 1];
      }
    }
  }

  /** An element not greater than the head of a sorted sequence is not greater
      than any of its elements. */
  lemma BelowHead(t: SortType, items: seq<ObjectItem>, x: nat, s: seq<nat>)
    requires x < |items| && s != [] && ValidIndices(items, s) && Sorted(t, items, s)
    requires KeyCmp(t, items, x, s[0]) != Greater
    ensures forall j :: 0 <= j < |s| ==> KeyCmp(t, items, x, s[j]) != Greater
  {
    forall j | 0 < j < |s| ensures KeyCmp(t, items, x, s[j]) != Greater {
      KeyCmpTrans(t, items, x, s[0], s[j]);
    }
  }

  /** The head of a sorted sequence is not greater than anything inserted
      behind it. */
  lemma HeadBelowInsert(t: SortType, items: seq<ObjectItem>, x: nat, s: seq<nat>)
    requires x < |items| && s != [] && ValidIndices(items, s) && Sorted(t, items, s)
    requires KeyCmp(t, items, x, s[0]) == Greater
    ensures forall j :: 0 <= j < |Insert(t, items, x, s[1..])| ==>
      KeyCmp(t, items, s[0], Insert(t, items, x, s[1..])[j]) != Greater
  {
    var tail := Insert(t, items, x, s[1..]);
    InsertPermutation(t, items, x, s[1..]);
    KeyCmpFlip(t, items, x, s[0]);
    forall j | 0 <= j < |tail| ensures KeyCmp(t, items, s[0], tail[j]) != Greater {
      assert tail[j] in multiset(tail);
      if tail[j] != x {
        assert tail[j] in multiset(s[1..]);
        var m :| 0 <= m < |s[1..]| && s[1..][m] == tail[j];
        assert s[m + 1] == tail[j];
      }
    }
  }

  lemma {:induction false} InsertSorted(t: SortType, items: seq<ObjectItem>, x: nat, s: seq<nat>)
    requires x < |items| && ValidIndices(items, s) && Sorted(t, items, s)
    ensures Sorted(t, items, Insert(t, items, x, s))
  {
    if s == [] {
    } else if KeyCmp(t, items, x, s[0]) != Greater {
      BelowHead(t, items, x, s);
      SortedCons(t, items, x, s);
    } else {
      SortedTail(t, items, s);
      InsertSorted(t, items, x, s[1..]);
      HeadBelowInsert(t, items, x, s);
      SortedCons(t, items, s[0], Insert(t, items, x, s[1..]));
    }
  }

  /** The result is ordered by the chosen key. */
  lemma {:induction false} SortSorted(items: seq<ObjectItem>, s: seq<nat>, t: SortType)
    requires ValidIndices(items, s)
    ensures Sorted(t, items, SortIndices(items, s, t))
  {
    if s != [] {
      SortSorted(items, s[1..], t);
      InsertSorted(t, items, s[0], SortIndices(items, s[1..], t));
    }
  }

  /** The elements tying with `y`, in their order in `s`. */
  function Ties(t: SortType, items: seq<ObjectItem>, s: seq<nat>, y: nat): seq<nat>
    requires ValidIndices(items, s) && y < |items|
  {
    if s == [] then []
    else (if KeyCmp(t, items, s[0], y) == Equal then [s[0]] else []) + Ties(t, items, s[1..], y)
  }

  lemma {:induction false} InsertTies(t: SortType, items: seq<ObjectItem>, x: nat, s: seq<nat>, y: nat)
    requires x < |items| && ValidIndices(items, s) && y < |items|
    ensures Ties(t, items, Insert(t, items, x, s), y) ==
      (if KeyCmp(t, items, x, y) == Equal then [x] else []) + Ties(t, items, s, y)
  {
    if s == [] || KeyCmp(t, items, x, s[0]) != Greater {
      TiesCons(t, items, x, s, y);
    } else {
      InsertTies(t, items, x, s[1..], y);
      TiesCons(t, items, s[0], Insert(t, items, x, s[1..]), y);
      if KeyCmp(t, items, x, y) == Equal {
        TiesSwap(t, items, x, s[0], y);
      }
    }
  }

  lemma TiesCons(t: SortType, items: seq<ObjectItem>, h: nat, s: seq<nat>, y: nat)
    requires h < |items| && ValidIndices(items, s) && y < |items|
    ensures ValidIndices(items, [h] + s)
    ensures Ties(t, items, [h] + s, y) == (if KeyCmp(t, items, h, y) == Equal then [h] else []) + Ties(t, items, s, y)
  {
    assert ([h] + s)[1..] == s;
  }

  /** The insertion moved `x` behind `h`, which is greater: they cannot both
      tie with `y`. */
  lemma TiesSwap(t: SortType, items: seq<ObjectItem>, x: nat, h: nat, y: nat)
    requires x < |items| && h < |items| && y < |items|
    requires KeyCmp(t, items, x, h) == Greater && KeyCmp(t, items, x, y) == Equal
    ensures KeyCmp(t, items, h, y) != Equal
  {
    if KeyCmp(t, items, h, y) == Equal {
      KeyCmpFlip(t, items, h, y);
      KeyCmpEqualTrans(t, items, x, y, h);
    }
  }

  /** Stability: the elements that tie with any `y` keep their relative order. */
  lemma {:induction false} SortStable(items: seq<ObjectItem>, s: seq<nat>, t: SortType, y: nat)
    requires ValidIndices(items, s) && y < |items|
    ensures Ties(t, items, SortIndices(items, s, t), y) == Ties(t, items, s, y)
  {
    if s != [] {
      SortStable(items, s[1..], t, y);
      InsertTies(t, items, s[0], SortIndices(items, s[1..], t), y);
    }
  }

  /** Sorting an already sorted sequence changes nothing. */
  lemma {:induction false} SortedFixpoint(items: seq<ObjectItem>, s: seq<nat>, t: SortType)
    requires ValidIndices(items, s) && Sorted(t, items, s)
    ensures SortIndices(items, s, t) == s
  {
    if s != [] {
      SortedFixpoint(items, s[1..], t);
      assert s == [s[0]] + s[1..];
    }
  }

  /** Sorting is idempotent. */
  lemma SortIdempotent(items: seq<ObjectItem>, s: seq<nat>, t: SortType)
    requires ValidIndices(items, s)
    ensures SortIndices(items, SortIndices(items, s, t), t) == SortIndices(items, s, t)
  {
    SortSorted(items, s, t);
    SortedFixpoint(items, SortIndices(items, s, t), t);
  }

  lemma SortedTail(t: SortType, items: seq<ObjectItem>, a: seq<nat>)
    requires a != [] && ValidIndices(items, a) && Sorted(t, items, a)
    ensures ValidIndices(items, a[1..]) && Sorted(t, items, a[1..])
  {
    var a' := a[1..];
    forall i, j | 0 <= i < j < |a'| ensures KeyCmp(t, items, a'[i], a'[j]) != Greater {
      assert a'[i] == a[i + 1] && a'[j] == a[j + 1];
    }
  }

  lemma TieFreeTail(t: SortType, items: seq<ObjectItem>, a: seq<nat>)
    requires a != [] && ValidIndices(items, a) && TieFree(t, items, a)
    ensures ValidIndices(items, a[1..]) && TieFree(t, items, a[1..])
  {
    var a' := a[1..];
    forall i, j | 0 <= i < |a'| && 0 <= j < |a'| && KeyCmp(t, items, a'[i], a'[j]) == Equal
      ensures a'[i] == a'[j]
    {
      assert a'[i] == a[i + 1] && a'[j] == a[j + 1];
    }
  }

  /** The first elements of two such arrangements agree. */
  lemma SortedHeads(t: SortType, items: seq<ObjectItem>, a: seq<nat>, b: seq<nat>)
    requires a != [] && b != [] && ValidIndices(items, a) && ValidIndices(items, b)
    requires Sorted(t, items, a) && Sorted(t, items, b)
    requires multiset(a) == multiset(b) && TieFree(t, items, a)
    ensures a[0] == b[0]
  {
    var x, y := a[0], b[0];
    assert y in multiset(a);
    var n :| 0 <= n < |a| && a[n] == y;
    assert x in multiset(b);
    var m :| 0 <= m < |b| && b[m] == x;
    assert KeyCmp(t, items, x, y) != Greater by {
      if n > 0 { assert KeyCmp(t, items, a[0], a[n]) != Greater; } else { KeyCmpFlip(t, items, x, x); }
    }
    assert KeyCmp(t, items, y, x) != Greater by {
      if m > 0 { assert KeyCmp(t, items, b[0], b[m]) != Greater; } else { KeyCmpFlip(t, items, y, y); }
    }
    KeyCmpFlip(t, items, x, y);
    assert KeyCmp(t, items, a[0], a[n]) == Equal;
  }

  /** Two sorted arrangements of the same elements are equal when no two
      different elements of them tie. */
  lemma {:induction false} SortedUnique(t: SortType, items: seq<ObjectItem>, a: seq<nat>, b: seq<nat>)
    requires ValidIndices(items, a) && ValidIndices(items, b)
    requires Sorted(t, items, a) && Sorted(t, items, b)
    requires multiset(a) == multiset(b)
    requires TieFree(t, items, a)
    ensures a == b
  {
    MultisetLength(a, b);
    if a != [] {
      SortedHeads(t, items, a, b);
      MultisetTails(a, b);
      SortedTail(t, items, a);
      SortedTail(t, items, b);
      TieFreeTail(t, items, a);
      SortedUnique(t, items, a[1..], b[1..]);
      assert a == [a[0]] + a[1..] && b == [b[0]] + b[1..];
    }
  }

  lemma MultisetLength(a: seq<nat>, b: seq<nat>)
    requires multiset(a) == multiset(b)
    ensures |a| == |b|
  {
    assert |multiset(a)| == |multiset(b)|;
  }

  /** Taking the same first element off two permutations leaves permutations. */
  lemma MultisetTails(a: seq<nat>, b: seq<nat>)
    requires a != [] && b != [] && a[0] == b[0] && multiset(a) == multiset(b)
    ensures multiset(a[1..]) == multiset(b[1..])
  {
    var x := a[0];
    assert a == [x] + a[1..] && b == [x] + b[1..];
    assert multiset(a) == multiset([x]) + multiset(a[1..]);
    assert multiset(b) == multiset([x]) + multiset(b[1..]);
    assert multiset(a[1..]) == multiset(a) - multiset([x]);
  }

  /** With the Default type the result is in ascending index order. */
  lemma DefaultAscending(items: seq<ObjectItem>, s: seq<nat>)
    requires ValidIndices(items, s) && Distinct(s)
    ensures Increasing(SortIndices(items, s, Default))
  {
    var r := SortIndices(items, s, Default);
    SortSorted(items, s, Default);
    SortPermutation(items, s, Default);
    PermutationDistinct(s, r);
  }

  /** A Default-sorted arrangement of a filter result is the filter result itself. */
  lemma DefaultSortedIsFilterOrder(items: seq<ObjectItem>, filter: string, v: seq<nat>)
    requires ValidIndices(items, v) && Sorted(Default, items, v)
    requires multiset(v) == multiset(FilterIndices(items, filter))
    ensures v == FilterIndices(items, filter)
  {
    var f := FilterIndices(items, filter);
    assert TieFree(Default, items, f);
    SortedUnique(Default, items, f, v);
  }

  /** No two different elements of `s` tie under `t`. */
  predicate TieFree(t: SortType, items: seq<ObjectItem>, s: seq<nat>)
    requires ValidIndices(items, s)
  {
    forall i, j :: 0 <= i < |s| && 0 <= j < |s| && KeyCmp(t, items, s[i], s[j]) == Equal ==> s[i] == s[j]
  }

  lemma OppositeCmp(t: SortType, items: seq<ObjectItem>, a: nat, b: nat)
    requires t != Default && a < |items| && b < |items|
    ensures KeyCmp(Opposite(t), items, a, b) == KeyCmp(t, items, b, a)
  {
  }

  lemma ReverseSortedOpposite(t: SortType, items: seq<ObjectItem>, s: seq<nat>)
    requires t != Default && ValidIndices(items, s) && Sorted(t, items, s)
    ensures ValidIndices(items, Reverse(s)) && Sorted(Opposite(t), items, Reverse(s))
  {
    var rev := Reverse(s);
    forall i, j | 0 <= i < j < |rev| ensures KeyCmp(Opposite(t), items, rev[i], rev[j]) != Greater {
      OppositeCmp(t, items, rev[i], rev[j]);
      assert KeyCmp(t, items, s[|s| - 1 - j], s[|s| - 1 - i]) != Greater;
    }
  }

  lemma TieFreePermutation(t: SortType, items: seq<ObjectItem>, s: seq<nat>, r: seq<nat>)
    requires t != Default && ValidIndices(items, s) && ValidIndices(items, r)
    requires multiset(r) == multiset(s) && TieFree(t, items, s)
    ensures TieFree(Opposite(t), items, r)
  {
    forall i, j | 0 <= i < |r| && 0 <= j < |r| && KeyCmp(Opposite(t), items, r[i], r[j]) == Equal
      ensures r[i] == r[j]
    {
      assert r[i] in multiset(s) && r[j] in multiset(s);
      var p :| 0 <= p < |s| && s[p] == r[i];
      var q :| 0 <= q < |s| && s[q] == r[j];
      OppositeCmp(t, items, r[i], r[j]);
      KeyCmpFlip(t, items, r[i], r[j]);
    }
  }

  /** Sorting by the opposite direction of a key reverses the result, when no two
      elements tie on that key. */
  lemma OppositeReverses(items: seq<ObjectItem>, s: seq<nat>, t: SortType)
    requires t != Default && ValidIndices(items, s) && TieFree(t, items, s)
    ensures SortIndices(items, s, Opposite(t)) == Reverse(SortIndices(items, s, t))
  {
    var up := SortIndices(items, s, t);
    var down := SortIndices(items, s, Opposite(t));
    SortSorted(items, s, t);
    SortSorted(items, s, Opposite(t));
    SortPermutation(items, s, t);
    SortPermutation(items, s, Opposite(t));
    ReverseMultiset(up);
    ReverseSortedOpposite(t, items, up);
    TieFreePermutation(t, items, s, down);
    SortedUnique(Opposite(t), items, down, Reverse(up));
  }

  function Reverse(s: seq<nat>): (r: seq<nat>)
    ensures |r| == |s| && forall k :: 0 <= k < |s| ==> r[k] == s[|s| - 1 - k]
  {
    if s == [] then [] else Reverse(s[1..]) + [s[0]]
  }

  lemma {:induction false} ReverseMultiset(s: seq<nat>)
    ensures multiset(Reverse(s)) == multiset(s)
  {
    if s != [] {
      ReverseMultiset(s[1..]);
      assert s == [s[0]] + s[1..];
    }
  }

  lemma {:induction false} MultisetDistinct(s: seq<nat>)
    ensures Distinct(s) <==> forall x :: multiset(s)[x] <= 1
  {
    if s != [] {
      var t := s[1..];
      MultisetDistinct(t);
      assert s == [s[0]] + t;
      assert multiset(s) == multiset{s[0]} + multiset(t);
      if Distinct(s) {
        assert s[0] !in t;
        assert Distinct(t) by {
          forall i, j | 0 <= i < j < |t| ensures t[i] != t[j] {
            assert t[i] == s[i + 1] && t[j] == s[j + 1];
          }
        }
      }
      if forall x :: multiset(s)[x] <= 1 {
        assert forall x :: multiset(t)[x] <= multiset(s)[x];
        assert multiset(t)[s[0]] == 0;
        forall i, j | 0 <= i < j < |s| ensures s[i] != s[j] {
          if i == 0 {
            assert s[j] == t[j - 1];
          } else {
            assert s[i] == t[i - 1] && s[j] == t[j - 1];
          }
        }
      }
    }
  }

  /** A permutation of a sequence without repetitions has none either. */
  lemma PermutationDistinct(a: seq<nat>, b: seq<nat>)
    requires multiset(a) == multiset(b) && Distinct(a)
    ensures Distinct(b)
  {
    MultisetDistinct(a);
    MultisetDistinct(b);
  }
}

/** The display-width text wrapper used for long storage paths in the paste
    confirmation dialog. Display width is measured in terminal columns: each
    character has a width of 0, 1 or 2 taken from the Unicode width tables,
    which are a parameter `w` here. */
module DialogWrap {
  import opened Text

  /** The columns one character occupies. Characters without a width (control
      characters) count as 0, as `width(ch).unwrap_or(0)` does. */
  type CharWidth = n: nat | n <= 2

  /** `UnicodeWidthStr::width`, taken as the sum of the character widths. */
  function Width(w: char -> CharWidth, s: string): nat
  {
    if s == [] then 0 else Width(w, s[..|s| - 1]) + w(s[|s| - 1])
  }

  lemma {:induction false} WidthAppend(w: char -> CharWidth, a: string, b: string)
    ensures Width(w, a + b) == Width(w, a) + Width(w, b)
    decreases |b|
  {
    if b == [] {
      assert a + b == a;
    } else {
      assert (a + b)[..|a + b| - 1] == a + b[..|b| - 1];
      WidthAppend(w, a, b[..|b| - 1]);
    }
  }

  lemma WidthSnoc(w: char -> CharWidth, s: string, c: char)
    ensures Width(w, s + [c]) == Width(w, s) + w(c)
  {
    assert (s + [c])[..|s|] == s;
  }

  lemma WidthCons(w: char -> CharWidth, c: char, s: string)
    ensures Width(w, [c] + s) == w(c) + Width(w, s)
  {
    WidthAppend(w, [c], s);
    assert [c][..0] == [];
  }

  /** Every character of `s` is at most `max` columns wide. */
  predicate AllFit(w: char -> CharWidth, s: string, max: nat)
  {
    forall c :: c in s ==> w(c) <= max
  }

  /** The length of the longest prefix of `s` whose width does not exceed `max`
      (widths are never negative, so the fitting prefixes are the short ones). */
  function FitCount(w: char -> CharWidth, s: string, max: nat): (n: nat)
    ensures n <= |s|
    decreases |s|
  {
    if s == [] || w(s[0]) > max then 0 else 1 + FitCount(w, s[1..], max - w(s[0]))
  }

  /** The counted prefix fits, and one character more does not. */
  lemma {:induction false} FitCountLongest(w: char -> CharWidth, s: string, max: nat)
    ensures Width(w, s[..FitCount(w, s, max)]) <= max
    ensures FitCount(w, s, max) < |s| ==> Width(w, s[..FitCount(w, s, max) + 1]) > max
    decreases |s|
  {
    var n := FitCount(w, s, max);
    if s == [] {
    } else if w(s[0]) > max {
      assert s[..1] == [s[0]] + [];
      WidthCons(w, s[0], []);
    } else {
      FitCountLongest(w, s[1..], max - w(s[0]));
      assert s[..n] == [s[0]] + s[1..][..n - 1];
      WidthCons(w, s[0], s[1..][..n - 1]);
      if n < |s| {
        assert s[..n + 1] == [s[0]] + s[1..][..n];
        WidthCons(w, s[0], s[1..][..n]);
      }
    }
  }

  /** A prefix that already fits is covered by the fitting count. */
  lemma {:induction false} FitCountCovers(w: char -> CharWidth, u: string, r: string, max: nat)
    requires Width(w, u) <= max
    ensures FitCount(w, u + r, max) >= |u|
    decreases |u|
  {
    if u != [] {
      WidthCons(w, u[0], u[1..]);
      assert u == [u[0]] + u[1..];
      assert (u + r)[1..] == u[1..] + r;
      FitCountCovers(w, u[1..], r, max - w(u[0]));
    }
  }

  /** A fitting prefix followed by a character that does not fit ends the count. */
  lemma FitCountStops(w: char -> CharWidth, u: string, c: char, r: string, max: nat)
    requires Width(w, u) <= max && Width(w, u) + w(c) > max
    ensures FitCount(w, u + [c] + r, max) == |u|
  {
    var s := u + [c] + r;
    FitCountCovers(w, u, [c] + r, max);
    assert u + ([c] + r) == s;
    var n := FitCount(w, s, max);
    FitCountLongest(w, s, max);
    if n > |u| {
      assert s[..n] == (u + [c]) + s[|u| + 1..n];
      WidthAppend(w, u + [c], s[|u| + 1..n]);
      WidthSnoc(w, u, c);
    }
  }

  /** The strict wrapping as a specification: each line is the longest prefix of
      what is left that fits in `max` columns, or its first character alone when
      not even that fits. */
  function StrictWrap(w: char -> CharWidth, s: string, max: nat): (lines: seq<string>)
    ensures NonEmptyLines(lines)
    ensures lines == [] <==> s == []
    decreases |s|
  {
    if s == [] then []
    else
      var n := FitCount(w, s, max);
      var k := if n == 0 then 1 else n;
      [s[..k]] + StrictWrap(w, s[k..], max)
  }

  /** No line is empty. */
  predicate NonEmptyLines(lines: seq<string>)
  {
    forall k :: 0 <= k < |lines| ==> lines[k] != []
  }

  /** No line is wider than `max` columns. */
  predicate LinesWithin(w: char -> CharWidth, lines: seq<string>, max: nat)
  {
    forall k :: 0 <= k < |lines| ==> Width(w, lines[k]) <= max
  }

  lemma LinesAppend(w: char -> CharWidth, a: seq<string>, b: seq<string>, max: nat)
    ensures NonEmptyLines(a + b) <==> NonEmptyLines(a) && NonEmptyLines(b)
    ensures LinesWithin(w, a + b, max) <==> LinesWithin(w, a, max) && LinesWithin(w, b, max)
    ensures Flatten(a + b) == Flatten(a) + Flatten(b)
  {
    if NonEmptyLines(a) && NonEmptyLines(b) {
      forall k | 0 <= k < |a + b| ensures (a + b)[k] != [] {
        if k >= |a| { assert (a + b)[k] == b[k - |a|]; }
      }
    }
    if LinesWithin(w, a, max) && LinesWithin(w, b, max) {
      forall k | 0 <= k < |a + b| ensures Width(w, (a + b)[k]) <= max {
        if k >= |a| { assert (a + b)[k] == b[k - |a|]; }
      }
    }
    if NonEmptyLines(a + b) {
      forall k | 0 <= k < |a| ensures a[k] != [] { assert (a + b)[k] == a[k]; }
      forall k | 0 <= k < |b| ensures b[k] != [] { assert (a + b)[|a| + k] == b[k]; }
    }
    if LinesWithin(w, a + b, max) {
      forall k | 0 <= k < |a| ensures Width(w, a[k]) <= max { assert (a + b)[k] == a[k]; }
      forall k | 0 <= k < |b| ensures Width(w, b[k]) <= max { assert (a + b)[|a| + k] == b[k]; }
    }
    FlattenAppend(a, b);
  }

  /** The length of the first line of a non-empty text. */
  function FirstLineLength(w: char -> CharWidth, s: string, max: nat): (k: nat)
    requires s != []
    ensures 1 <= k <= |s|
    ensures StrictWrap(w, s, max) == [s[..k]] + StrictWrap(w, s[k..], max)
  {
    var n := FitCount(w, s, max);
    if n == 0 then 1 else n
  }

  /** The lines put back together are the input. */
  lemma {:induction false} StrictWrapFlatten(w: char -> CharWidth, s: string, max: nat)
    ensures Flatten(StrictWrap(w, s, max)) == s
    decreases |s|
  {
    if s != [] {
      var k := FirstLineLength(w, s, max);
      StrictWrapFlatten(w, s[k..], max);
      FlattenCons(s[..k], StrictWrap(w, s[k..], max));
      assert s == s[..k] + s[k..];
    }
  }

  /** No line is wider than `max` when no single character is. */
  lemma {:induction false} StrictWrapWidth(w: char -> CharWidth, s: string, max: nat)
    requires AllFit(w, s, max)
    ensures LinesWithin(w, StrictWrap(w, s, max), max)
    decreases |s|
  {
    if s != [] {
      var n := FitCount(w, s, max);
      var k := if n == 0 then 1 else n;
      FitCountLongest(w, s, max);
      assert s[0] in s;
      assert forall c :: c in s[k..] ==> c in s;
      StrictWrapWidth(w, s[k..], max);
      LinesAppend(w, [s[..k]], StrictWrap(w, s[k..], max), max);
    }
  }

  /** A text that fits is one line. */
  lemma StrictWrapSingle(w: char -> CharWidth, s: string, max: nat)
    requires s != [] && Width(w, s) <= max
    ensures StrictWrap(w, s, max) == [s]
  {
    FitCountCovers(w, s, [], max);
    assert s + [] == s;
    assert s[..|s|] == s;
  }

  /** Every line but the last is as long as it can be: the first character of
      the next line would make it too wide. */
  lemma {:induction false} StrictWrapGreedy(w: char -> CharWidth, s: string, max: nat, k: nat)
    requires k + 1 < |StrictWrap(w, s, max)|
    requires Width(w, StrictWrap(w, s, max)[k]) <= max
    ensures Width(w, StrictWrap(w, s, max)[k] + [StrictWrap(w, s, max)[k + 1][0]]) > max
    decreases |s|
  {
    var m := FirstLineLength(w, s, max);
    if k == 0 {
      GreedyFirst(w, s, max);
    } else {
      var k': nat := k - 1;
      StrictWrapGreedy(w, s[m..], max, k');
    }
  }

  /** The first line starts the text. */
  lemma StrictWrapHead(w: char -> CharWidth, s: string, max: nat)
    requires s != []
    ensures StrictWrap(w, s, max)[0][0] == s[0]
  {
    var k := FirstLineLength(w, s, max);
    assert s[..k][0] == s[0];
  }

  /** The first line, when it fits, cannot take the next character too. */
  lemma GreedyFirst(w: char -> CharWidth, s: string, max: nat)
    requires 1 < |StrictWrap(w, s, max)|
    requires Width(w, StrictWrap(w, s, max)[0]) <= max
    ensures Width(w, StrictWrap(w, s, max)[0] + [StrictWrap(w, s, max)[1][0]]) > max
  {
    var m := FirstLineLength(w, s, max);
    var rest := StrictWrap(w, s[m..], max);
    assert s[m..] != [];
    StrictWrapHead(w, s[m..], max);
    assert rest[0][0] == s[m];
    assert s[..1] == [] + [s[0]];
    WidthSnoc(w, [], s[0]);
    FitCountLongest(w, s, max);
    assert s[..m + 1] == s[..m] + [s[m]];
  }

  /** `split_by_display_width`: the longest prefix of `s` that fits in `max`
      columns and what is left after it; a zero width takes nothing. */
  method SplitByDisplayWidth(w: char -> CharWidth, s: string, max: nat) returns (head: string, tail: string)
    ensures head + tail == s
    ensures Width(w, head) <= max
    ensures max == 0 ==> head == []
    ensures max > 0 ==> |head| == FitCount(w, s, max)
    ensures max > 0 && tail != [] ==> Width(w, head + [tail[0]]) > max
  {
    if max == 0 {
      return [], s;
    }
    var curW := 0;
    var i := 0;
    head := [];
    while i < |s|
      invariant 0 <= i <= |s| && head == s[..i]
      invariant curW == Width(w, head) <= max
      invariant FitCount(w, s, max) == i + FitCount(w, s[i..], max - curW)
    {
      var cw := w(s[i]);
      assert s[i..][0] == s[i] && s[i..][1..] == s[i + 1..];
      if curW + cw > max {
        break;
      }
      assert s[..i + 1] == head + [s[i]];
      WidthSnoc(w, head, s[i]);
      head := head + [s[i]];
      curW := curW + cw;
      i := i + 1;
    }
    tail := s[i..];
    assert head + tail == s;
    FitCountLongest(w, s, max);
    if tail != [] {
      assert tail[0] == s[i];
      assert s[..i + 1] == head + [tail[0]];
    }
  }

  /** `wrap_strict_by_char_width`: accumulate characters until the next one
      would pass `max` columns, then start a new line. */
  method WrapStrictByCharWidth(w: char -> CharWidth, s: string, max: nat) returns (lines: seq<string>)
    ensures lines == StrictWrap(w, s, max)
    ensures Flatten(lines) == s && NonEmptyLines(lines) && (lines == [] <==> s == [])
    ensures AllFit(w, s, max) ==> LinesWithin(w, lines, max)
  {
    lines := [];
    var cur: string := [];
    var count := 0;
    var i := 0;
    assert cur + s[i..] == s;
    while i < |s|
      invariant StrictLoopInv(w, s, max, i, lines, cur, count)
    {
      lines, cur, count := StrictStep(w, s, max, i, lines, cur, count);
      i := i + 1;
    }
    assert s[i..] == [] && cur + [] == cur;
    if cur != [] {
      LastLine(w, cur, max);
      lines := lines + [cur];
    }
    StrictWrapFlatten(w, s, max);
    if AllFit(w, s, max) {
      StrictWrapWidth(w, s, max);
    }
  }

  /** What the wrapping loop keeps true: `count` is the width of the current
      line, which fits (or is one character), and the finished lines followed
      by the wrapping of the current line and the rest are the wrapping of `s`. */
  ghost predicate StrictLoopInv(w: char -> CharWidth, s: string, max: nat, i: nat,
                                lines: seq<string>, cur: string, count: nat)
  {
    i <= |s| &&
    count == Width(w, cur) &&
    (cur != [] ==> count <= max || |cur| == 1) &&
    (cur == [] ==> count == 0) &&
    lines + StrictWrap(w, cur + s[i..], max) == StrictWrap(w, s, max)
  }

  /** One pass of the wrapping loop: character `i` starts a new line when it
      does not fit on the current one. */
  method StrictStep(w: char -> CharWidth, s: string, max: nat, i: nat,
                    lines: seq<string>, cur: string, count: nat)
    returns (lines': seq<string>, cur': string, count': nat)
    requires i < |s| && StrictLoopInv(w, s, max, i, lines, cur, count)
    ensures StrictLoopInv(w, s, max, i + 1, lines', cur', count')
  {
    var c := s[i];
    var cw := w(c);
    ghost var r := s[i + 1..];
    assert s[i..] == [c] + r;
    lines', cur', count' := lines, cur, count;
    if count + cw > max {
      if cur != [] {
        CutStep(w, lines, cur, c, r, max);
        lines' := lines + [cur];
        cur' := [];
      }
      count' := 0;
    }
    assert lines' + StrictWrap(w, cur' + ([c] + r), max) == StrictWrap(w, s, max);
    WidthSnoc(w, cur', c);
    SnocShift(cur', c, r);
    cur' := cur' + [c];
    count' := count' + cw;
  }

  /** The wrapping of a current line followed by a character that does not fit
      puts the current line first. */
  lemma CutBefore(w: char -> CharWidth, cur: string, c: char, r: string, max: nat)
    requires cur != [] && (Width(w, cur) <= max || |cur| == 1) && Width(w, cur) + w(c) > max
    ensures StrictWrap(w, cur + ([c] + r), max) == [cur] + StrictWrap(w, [c] + r, max)
  {
    var s := cur + [c] + r;
    assert s == cur + ([c] + r);
    if Width(w, cur) <= max {
      FitCountStops(w, cur, c, r, max);
    } else {
      assert s[..1] == [s[0]] + [];
      WidthCons(w, s[0], []);
      assert cur == [s[0]];
    }
    assert s[..|cur|] == cur && s[|cur|..] == [c] + r;
  }

  /** Cutting the current line off keeps the invariant of the wrapping loop. */
  lemma CutStep(w: char -> CharWidth, lines: seq<string>, cur: string, c: char, r: string, max: nat)
    requires cur != [] && (Width(w, cur) <= max || |cur| == 1) && Width(w, cur) + w(c) > max
    ensures (lines + [cur]) + StrictWrap(w, [] + ([c] + r), max) == lines + StrictWrap(w, cur + ([c] + r), max)
  {
    CutBefore(w, cur, c, r, max);
    assert [] + ([c] + r) == [c] + r;
  }

  lemma SnocShift(cur: string, c: char, r: string)
    ensures (cur + [c]) + r == cur + ([c] + r)
  {
  }

  /** A non-empty current line left at the end is the last line. */
  lemma LastLine(w: char -> CharWidth, cur: string, max: nat)
    requires cur != [] && (Width(w, cur) <= max || |cur| == 1)
    ensures StrictWrap(w, cur, max) == [cur]
  {
    if Width(w, cur) <= max {
      StrictWrapSingle(w, cur, max);
    } else {
      assert cur[1..] == [];
      assert cur[..1] == cur;
    }
  }

  /** `str::split('/')`: the pieces between separators; there is always one more
      piece than there are separators. */
  function Split(s: string): (segs: seq<string>)
    ensures |segs| >= 1
  {
    if s == [] then [[]]
    else
      var rest := Split(s[1..]);
      if s[0] == '/' then [[]] + rest else [[s[0]] + rest[0]] + rest[1..]
  }

  /** The pieces hold no separator, and only characters of `s`. */
  lemma {:induction false} SplitPieces(s: string)
    ensures |Split(s)| > 1 ==> '/' in s
    ensures forall k :: 0 <= k < |Split(s)| ==> '/' !in Split(s)[k]
    ensures forall k, c :: 0 <= k < |Split(s)| && c in Split(s)[k] ==> c in s
  {
    if s != [] {
      SplitPieces(s[1..]);
      var rest := Split(s[1..]);
      assert forall c :: c in s[1..] ==> c in s;
      if s[0] == '/' {
        assert forall k :: 1 <= k < |Split(s)| ==> Split(s)[k] == rest[k - 1];
      } else {
        assert Split(s)[0] == [s[0]] + rest[0];
        assert forall k :: 1 <= k < |Split(s)| ==> Split(s)[k] == rest[k];
      }
    }
  }

  /** The pieces joined again with '/'. */
  function Join(segs: seq<string>): string
    requires |segs| >= 1
  {
    if |segs| == 1 then segs[0] else segs[0] + "/" + Join(segs[1..])
  }

  /** Joining undoes splitting. */
  lemma {:induction false} JoinSplit(s: string)
    ensures Join(Split(s)) == s
  {
    if s != [] {
      JoinSplit(s[1..]);
      var rest := Split(s[1..]);
      if s[0] == '/' {
        assert ([[]] + rest)[1..] == rest;
      } else {
        var segs := [[s[0]] + rest[0]] + rest[1..];
        if |rest| > 1 {
          assert segs[1..] == rest[1..];
          assert Join(rest) == rest[0] + "/" + Join(rest[1..]);
        }
      }
    }
  }

  /** Splitting undoes joining pieces that contain no separator. */
  lemma {:induction false} SplitJoin(segs: seq<string>)
    requires |segs| >= 1 && forall k :: 0 <= k < |segs| ==> '/' !in segs[k]
    ensures Split(Join(segs)) == segs
    decreases |segs|, |segs[0]|
  {
    var x := segs[0];
    if |segs| == 1 {
      SplitNoSlash(x);
    } else if x == [] {
      var rest := segs[1..];
      SplitJoin(rest);
      assert Join(segs) == "/" + Join(rest);
      assert Join(segs)[1..] == Join(rest);
      assert segs == [[]] + rest;
    } else {
      var segs' := [x[1..]] + segs[1..];
      assert '/' !in x[1..] by { assert forall c :: c in x[1..] ==> c in x; }
      SplitJoin(segs');
      assert segs'[1..] == segs[1..];
      assert Join(segs) == [x[0]] + Join(segs');
      assert Join(segs)[1..] == Join(segs');
      assert [x[0]] + x[1..] == x;
      assert segs == [[x[0]] + segs'[0]] + segs'[1..];
    }
  }

  lemma {:induction false} SplitNoSlash(x: string)
    requires '/' !in x
    ensures Split(x) == [x]
  {
    if x != [] {
      assert '/' !in x[1..] by { assert forall c :: c in x[1..] ==> c in x; }
      SplitNoSlash(x[1..]);
      assert x == [x[0]] + x[1..];
    }
  }

  /** What the path wrapper keeps of piece `j`: nothing for an empty piece, the
      piece itself right after the prefix, and otherwise the piece with the
      separator in front. */
  function Piece(segs: seq<string>, j: nat): string
    requires j < |segs|
  {
    if segs[j] == [] then [] else if j == 0 then segs[j] else "/" + segs[j]
  }

  /** The kept text of the first `n` pieces. */
  function Kept(segs: seq<string>, n: nat): string
    requires n <= |segs|
  {
    if n == 0 then [] else Kept(segs, n - 1) + Piece(segs, n - 1)
  }

  /** One more piece kept. */
  lemma KeptUnfold(segs: seq<string>, m: nat, n: nat)
    requires n == m + 1 <= |segs|
    ensures Kept(segs, n) == Kept(segs, m) + Piece(segs, m)
  {
  }

  lemma {:induction false} JoinSnoc(segs: seq<string>, x: string)
    requires |segs| >= 1
    ensures Join(segs + [x]) == Join(segs) + "/" + x
    decreases |segs|
  {
    if |segs| == 1 {
      assert (segs + [x])[1..] == [x];
    } else {
      assert (segs + [x])[1..] == segs[1..] + [x];
      JoinSnoc(segs[1..], x);
    }
  }

  /** Without empty pieces nothing is dropped: the kept text is the joined text. */
  lemma {:induction false} KeptIsJoin(segs: seq<string>, n: nat)
    requires 1 <= n <= |segs| && forall k :: 0 <= k < |segs| ==> segs[k] != []
    ensures Kept(segs, n) == Join(segs[..n])
  {
    if n == 1 {
      assert segs[..1] == [segs[0]];
    } else {
      var m: nat := n - 1;
      KeptIsJoin(segs, m);
      KeptJoinStep(segs, m, n);
    }
  }

  lemma KeptJoinStep(segs: seq<string>, m: nat, n: nat)
    requires 1 <= m && n == m + 1 <= |segs| && segs[m] != []
    requires Kept(segs, m) == Join(segs[..m])
    ensures Kept(segs, n) == Join(segs[..n])
  {
    KeptUnfold(segs, m, n);
    assert Piece(segs, m) == "/" + segs[m];
    JoinPrefixSnoc(segs, m, n);
  }

  lemma JoinPrefixSnoc(segs: seq<string>, m: nat, n: nat)
    requires 1 <= m && n == m + 1 <= |segs|
    ensures Join(segs[..n]) == Join(segs[..m]) + ("/" + segs[m])
  {
    assert segs[..n] == segs[..m] + [segs[m]];
    JoinSnoc(segs[..m], segs[m]);
    Assoc(Join(segs[..m]), "/", segs[m]);
  }

  /** The text the path wrapper keeps of `rest`: its pieces with the empty
      ones (and their separators) dropped. */
  function PathText(rest: string): string
  {
    var segs := Split(rest);
    Kept(segs, |segs|)
  }

  /** A path with no empty piece (no leading, trailing or doubled separator) is
      kept whole. */
  lemma PathKeptWhole(rest: string)
    requires forall k :: 0 <= k < |Split(rest)| ==> Split(rest)[k] != []
    ensures PathText(rest) == rest
  {
    var segs := Split(rest);
    KeptIsJoin(segs, |segs|);
    assert segs[..|segs|] == segs;
    JoinSplit(rest);
  }

  /** Two separators are never next to each other. */
  predicate NoDoubleSlash(s: string)
  {
    forall k :: 0 <= k < |s| - 1 ==> !DoubleSlashAt(s, k)
  }

  /** No doubled separator and no separator at the end. */
  predicate Separated(s: string)
  {
    NoDoubleSlash(s) && !EndsWithSlash(s)
  }

  /** The text ends with a separator. */
  predicate EndsWithSlash(s: string)
  {
    s != [] && s[|s| - 1] == '/'
  }

  /** Positions `k` and `k + 1` both hold a separator. */
  predicate DoubleSlashAt(s: string, k: nat)
    requires k + 1 < |s|
  {
    s[k] == '/' && s[k + 1] == '/'
  }

  /** The kept text has no empty piece, so no doubled separator, and does not end
      with a separator. */
  lemma {:induction false} KeptNoDoubleSlash(segs: seq<string>, n: nat)
    requires n <= |segs| && forall k :: 0 <= k < |segs| ==> '/' !in segs[k]
    ensures Separated(Kept(segs, n))
  {
    if n > 0 {
      var m: nat := n - 1;
      KeptNoDoubleSlash(segs, m);
      PieceShape(segs, m);
      KeptSeparatedStep(segs, m, n);
    }
  }

  lemma KeptSeparatedStep(segs: seq<string>, m: nat, n: nat)
    requires n == m + 1 <= |segs| && Separated(Kept(segs, m)) && Separated(Piece(segs, m))
    ensures Separated(Kept(segs, n))
  {
    KeptUnfold(segs, m, n);
    NoDoubleSlashAppend(Kept(segs, m), Piece(segs, m));
  }

  /** The path the wrapper keeps has no doubled separator, however many the
      input had. */
  lemma PathTextSeparated(rest: string)
    ensures Separated(PathText(rest))
  {
    SplitPieces(rest);
    KeptNoDoubleSlash(Split(rest), |Split(rest)|);
  }

  /** A kept piece has no doubled separator and does not end with one. */
  lemma PieceShape(segs: seq<string>, j: nat)
    requires j < |segs| && '/' !in segs[j]
    ensures Separated(Piece(segs, j))
  {
    var seg := segs[j];
    var p := Piece(segs, j);
    assert forall k :: 0 <= k < |seg| ==> seg[k] in seg;
    forall k | 0 <= k < |p| - 1 ensures !DoubleSlashAt(p, k) {
      if j > 0 {
        assert p[k + 1] == seg[k];
      } else {
        assert p[k] == seg[k];
      }
    }
    if p != [] {
      assert p[|p| - 1] == seg[|seg| - 1];
    }
  }

  /** Appending to a text that does not end with a separator keeps separators
      apart. */
  lemma NoDoubleSlashAppend(a: string, p: string)
    requires Separated(a) && Separated(p)
    ensures Separated(a + p)
  {
    if p == [] {
      assert a + p == a;
    } else {
      assert (a + p)[|a + p| - 1] == p[|p| - 1];
    }
    forall k | 0 <= k < |a + p| - 1 ensures !DoubleSlashAt(a + p, k) {
      if k + 1 < |a| {
        assert !DoubleSlashAt(a, k);
        assert (a + p)[k] == a[k] && (a + p)[k + 1] == a[k + 1];
      } else if k + 1 == |a| {
        assert (a + p)[k] == a[|a| - 1];
      } else {
        assert !DoubleSlashAt(p, k - |a|);
        assert (a + p)[k] == p[k - |a|] && (a + p)[k + 1] == p[k + 1 - |a|];
      }
    }
  }

  /** The nested `append_wrapped_chunks`: strictly wrap `text`, keep every chunk
      but the last as a finished line and the last one as the new current line;
      an empty text changes nothing. */
  method AppendWrappedChunks(w: char -> CharWidth, lines: seq<string>, current: string, text: string, max: nat)
    returns (lines': seq<string>, current': string)
    ensures text == [] ==> lines' == lines && current' == current
    ensures text != [] ==> Flatten(lines') + current' == Flatten(lines) + text && current' != []
    ensures |lines'| >= |lines| && lines'[..|lines|] == lines
    ensures NonEmptyLines(lines) ==> NonEmptyLines(lines')
    ensures AllFit(w, text, max) && LinesWithin(w, lines, max) ==>
      LinesWithin(w, lines', max) && (text != [] ==> Width(w, current') <= max)
    ensures text != [] ==>
      lines' == lines + ChunkLines(StrictWrap(w, text, max)) && current' == OpenChunk(StrictWrap(w, text, max))
  {
    var chunks := WrapStrictByCharWidth(w, text, max);
    StrictWrapFlatten(w, text, max);
    if chunks == [] {
      return lines, current;
    }
    lines' := lines + chunks[..|chunks| - 1];
    current' := chunks[|chunks| - 1];
    SplitLast(w, lines, chunks, max);
    if AllFit(w, text, max) {
      StrictWrapWidth(w, text, max);
    }
  }

  /** The chunks of a strict wrapping that become finished lines: all but the
      last. */
  function ChunkLines(chunks: seq<string>): seq<string>
  {
    if chunks == [] then [] else chunks[..|chunks| - 1]
  }

  /** The chunk that stays open as the current line: the last, if any. */
  function OpenChunk(chunks: seq<string>): string
  {
    if chunks == [] then [] else chunks[|chunks| - 1]
  }

  /** Appending all chunks but the last to the finished lines, with the last as
      the current line. */
  lemma SplitLast(w: char -> CharWidth, lines: seq<string>, chunks: seq<string>, max: nat)
    requires chunks != [] && NonEmptyLines(chunks)
    ensures Flatten(lines + chunks[..|chunks| - 1]) + chunks[|chunks| - 1] == Flatten(lines) + Flatten(chunks)
    ensures chunks[|chunks| - 1] != []
    ensures |lines + chunks[..|chunks| - 1]| >= |lines| && (lines + chunks[..|chunks| - 1])[..|lines|] == lines
    ensures NonEmptyLines(lines) ==> NonEmptyLines(lines + chunks[..|chunks| - 1])
    ensures LinesWithin(w, chunks, max) && LinesWithin(w, lines, max) ==>
      LinesWithin(w, lines + chunks[..|chunks| - 1], max) && Width(w, chunks[|chunks| - 1]) <= max
  {
    var init, last := chunks[..|chunks| - 1], chunks[|chunks| - 1];
    assert chunks == init + [last];
    LinesAppend(w, init, [last], max);
    LinesAppend(w, lines, init, max);
    FlattenCons(last, []);
    FlattenAppend(lines, init);
    assert (lines + init)[..|lines|] == lines;
  }

  /** The first line starts with the prefix; before any line is finished, the
      current one does. */
  predicate Led(prefix: string, lines: seq<string>, current: string)
  {
    if lines == [] then prefix <= current else prefix <= lines[0]
  }

  /** What the path wrapper keeps true piece after piece: led by the prefix with
      no empty line when there is a prefix, and within `max` columns when `fit`. */
  predicate PathInv(w: char -> CharWidth, prefix: string, max: nat, fit: bool,
                    lines: seq<string>, current: string)
  {
    (prefix != [] ==> Led(prefix, lines, current) && NonEmptyLines(lines)) &&
    (fit ==> LinesWithin(w, lines, max) && Width(w, current) <= max)
  }

  /** The finished lines and the current one spell the prefix and the kept text
      of the first `i` pieces. */
  predicate Reassembles(lines: seq<string>, current: string, prefix: string, segs: seq<string>, i: nat)
    requires i <= |segs|
  {
    Flatten(lines) + current == prefix + Kept(segs, i)
  }

  lemma Assoc(a: string, b: string, c: string)
    ensures (a + b) + c == a + (b + c)
  {
  }

  /** Finishing the current line. */
  lemma PushLine(w: char -> CharWidth, prefix: string, max: nat, fit: bool,
                 lines: seq<string>, current: string)
    requires PathInv(w, prefix, max, fit, lines, current)
    requires prefix != [] && lines == [] ==> current != []
    requires current != [] || prefix == []
    ensures PathInv(w, prefix, max, fit, lines + [current], [])
    ensures Flatten(lines + [current]) == Flatten(lines) + current
  {
    LinesAppend(w, lines, [current], max);
    FlattenCons(current, []);
    if lines != [] {
      assert (lines + [current])[0] == lines[0];
    }
  }

  /** Continuing the current line with text that still fits (when `fit`). */
  lemma Extend(w: char -> CharWidth, prefix: string, max: nat, fit: bool,
               lines: seq<string>, current: string, x: string)
    requires PathInv(w, prefix, max, fit, lines, current)
    requires fit ==> Width(w, current) + Width(w, x) <= max
    ensures PathInv(w, prefix, max, fit, lines, current + x)
  {
    WidthAppend(w, current, x);
    if lines == [] && prefix <= current {
      assert (current + x)[..|prefix|] == current[..|prefix|];
    }
  }

  /** After wrapping chunks behind at least one finished line. */
  lemma AfterChunks(w: char -> CharWidth, prefix: string, max: nat, fit: bool,
                    lines: seq<string>, lines': seq<string>, current': string, text: string)
    requires PathInv(w, prefix, max, fit, lines, [])
    requires lines != [] || prefix == []
    requires |lines'| >= |lines| && lines'[..|lines|] == lines
    requires NonEmptyLines(lines) ==> NonEmptyLines(lines')
    requires fit ==> AllFit(w, text, max)
    requires AllFit(w, text, max) && LinesWithin(w, lines, max) ==>
      LinesWithin(w, lines', max) && (text != [] ==> Width(w, current') <= max)
    requires text != []
    ensures PathInv(w, prefix, max, fit, lines', current')
  {
    if lines != [] {
      assert lines'[0] == lines'[..|lines|][0];
    }
  }

  /** How much of the first piece joins the prefix on the first line when the
      whole piece does not: the longest part that fits in the columns the
      prefix leaves, and nothing when it leaves none. */
  function FirstTake(w: char -> CharWidth, prefix: string, max: nat, segment: string): (n: nat)
    ensures n <= |segment|
    ensures Width(w, prefix) <= max ==> Width(w, prefix + segment[..n]) <= max
  {
    var room := if max >= Width(w, prefix) then max - Width(w, prefix) else 0;
    FitCountLongest(w, segment, room);
    WidthAppend(w, prefix, segment[..FitCount(w, segment, room)]);
    if room == 0 then assert prefix + segment[..0] == prefix; 0 else FitCount(w, segment, room)
  }

  /** When the prefix leaves room for the first character of the piece, the
      first line takes at least that character: it is never the prefix alone. */
  lemma FirstTakeNonEmpty(w: char -> CharWidth, prefix: string, max: nat, segment: string)
    requires segment != [] && Width(w, prefix) < max && Width(w, prefix) + w(segment[0]) <= max
    ensures FirstTake(w, prefix, max, segment) >= 1
  {
  }

  /** When the first piece does not fit after the prefix, the first line is the
      prefix followed by as much of the piece as fits. */
  predicate FirstLineFilled(w: char -> CharWidth, prefix: string, max: nat, segs: seq<string>,
                            lines: seq<string>)
    requires |segs| >= 1
  {
    Piece(segs, 0) != [] && Width(w, prefix) + Width(w, Piece(segs, 0)) > max ==>
      lines != [] && lines[0] == prefix + segs[0][..FirstTake(w, prefix, max, segs[0])]
  }

  /** The step keeps the first line: it is made by the first piece and left
      alone by every later one. */
  lemma PieceStepFirstLine(w: char -> CharWidth, prefix: string, max: nat, segs: seq<string>, i: nat,
                           lines: seq<string>, current: string, lines': seq<string>, current': string)
    requires i < |segs| && (i == 0 ==> current == prefix)
    requires PieceStep(w, prefix, max, segs, i, lines, current, lines', current')
    requires i >= 1 ==> FirstLineFilled(w, prefix, max, segs, lines)
    ensures FirstLineFilled(w, prefix, max, segs, lines')
  {
    var p := Piece(segs, i);
    if i > 0 && lines != [] && p != [] && Width(w, current) + Width(w, p) > max {
      assert lines'[0] == Finish(lines, current)[0] == lines[0];
    }
  }

  /** The first piece when it does not fit after the prefix: fill the first
      line with as much of it as fits (or, with no room left, finish the prefix
      alone) and wrap the rest strictly. */
  method FillFirstLine(w: char -> CharWidth, prefix: string, max: nat, ghost fit: bool, segment: string)
    returns (lines: seq<string>, current: string)
    requires segment != [] && PathInv(w, prefix, max, fit, [], prefix)
    requires fit ==> AllFit(w, segment, max) && Width(w, prefix) <= max
    ensures Flatten(lines) + current == prefix + segment
    ensures PathInv(w, prefix, max, fit, lines, current)
    ensures var n := FirstTake(w, prefix, max, segment);
      var c := StrictWrap(w, segment[n..], max);
      lines == [prefix + segment[..n]] + ChunkLines(c) && current == OpenChunk(c)
  {
    var curW := Width(w, prefix);
    var remain := if max >= curW then max - curW else 0;
    if remain == 0 {
      PushLine(w, prefix, max, fit, [], prefix);
      lines := [prefix];
      current := [];
      var lines', current' := AppendWrappedChunks(w, lines, current, segment, max);
      AfterChunks(w, prefix, max, fit, lines, lines', current', segment);
      lines, current := lines', current';
      assert prefix + segment[..0] == prefix && segment[0..] == segment;
    } else {
      var head, tail := SplitByDisplayWidth(w, segment, remain);
      assert head == segment[..|head|] && tail == segment[|head|..];
      assert fit ==> AllFit(w, tail, max);
      Extend(w, prefix, max, fit, [], prefix, head);
      current := prefix + head;
      PushLine(w, prefix, max, fit, [], current);
      lines := [current];
      current := [];
      assert Flatten(lines) == prefix + head;
      if tail != [] {
        var lines', current' := AppendWrappedChunks(w, lines, current, tail, max);
        AfterChunks(w, prefix, max, fit, lines, lines', current', tail);
        lines, current := lines', current';
        Assoc(prefix, head, tail);
      } else {
        assert head == segment;
      }
    }
  }

  /** The finished lines once the current line is finished, if there is one. */
  function Finish(lines: seq<string>, current: string): seq<string>
  {
    if current == [] then lines else lines + [current]
  }

  /** One pass of the loop over `wrap_path_with_prefix`'s pieces, branch by
      branch, giving the finished lines and the open line after piece `i`: an
      empty piece is skipped; a piece that fits continues the current line; the
      first piece otherwise fills the first line (the prefix and as much of it
      as fits) and is strictly wrapped after that; any later piece otherwise
      finishes the current line and is strictly wrapped from a fresh line. */
  function WrapStep(w: char -> CharWidth, prefix: string, max: nat, segs: seq<string>, i: nat,
                    lines: seq<string>, current: string): (seq<string>, string)
    requires i < |segs|
  {
    var p := Piece(segs, i);
    if p == [] then
      (lines, current)
    else if Width(w, current) + Width(w, p) <= max then
      (lines, current + p)
    else if i == 0 then
      var n := FirstTake(w, prefix, max, segs[0]);
      var c := StrictWrap(w, segs[0][n..], max);
      ([prefix + segs[0][..n]] + ChunkLines(c), OpenChunk(c))
    else
      var c := StrictWrap(w, p, max);
      (Finish(lines, current) + ChunkLines(c), OpenChunk(c))
  }

  /** `lines'` and `current'` are what `WrapStep` makes of piece `i`. */
  predicate PieceStep(w: char -> CharWidth, prefix: string, max: nat, segs: seq<string>, i: nat,
                      lines: seq<string>, current: string, lines': seq<string>, current': string)
    requires i < |segs|
  {
    (lines', current') == WrapStep(w, prefix, max, segs, i, lines, current)
  }

  /** The loop of `wrap_path_with_prefix` from piece `i` on, started from the
      finished lines `lines` and the open line `current`. */
  function WrapFrom(w: char -> CharWidth, prefix: string, max: nat, segs: seq<string>, i: nat,
                    lines: seq<string>, current: string): (seq<string>, string)
    requires i <= |segs|
    decreases |segs| - i
  {
    if i == |segs| then (lines, current)
    else
      var next := WrapStep(w, prefix, max, segs, i, lines, current);
      WrapFrom(w, prefix, max, segs, i + 1, next.0, next.1)
  }

  /** The lines `wrap_path_with_prefix` returns for the pieces `segs` after
      `prefix`: the loop run from the prefix alone, and its open line finished. */
  function PathWrap(w: char -> CharWidth, prefix: string, max: nat, segs: seq<string>): seq<string>
  {
    var r := WrapFrom(w, prefix, max, segs, 0, [], prefix);
    Finish(r.0, r.1)
  }

  /** One step of the loop is one step of `WrapFrom`. */
  lemma WrapFromStep(w: char -> CharWidth, prefix: string, max: nat, segs: seq<string>, i: nat, next: nat,
                     lines: seq<string>, current: string, lines': seq<string>, current': string)
    requires next == i + 1 <= |segs|
    requires PieceStep(w, prefix, max, segs, i, lines, current, lines', current')
    ensures WrapFrom(w, prefix, max, segs, next, lines', current') ==
            WrapFrom(w, prefix, max, segs, i, lines, current)
  {
  }

  /** One pass of the loop over the pieces, as `PieceStep` describes it. */
  method WrapPiece(w: char -> CharWidth, prefix: string, max: nat, ghost fit: bool,
                   segs: seq<string>, i: nat, lines: seq<string>, current: string)
    returns (lines': seq<string>, current': string)
    requires i < |segs| && (i == 0 ==> lines == [] && current == prefix)
    requires PathInv(w, prefix, max, fit, lines, current)
    requires fit ==> AllFit(w, Piece(segs, i), max) && Width(w, prefix) <= max
    ensures Flatten(lines') + current' == (Flatten(lines) + current) + Piece(segs, i)
    ensures PathInv(w, prefix, max, fit, lines', current')
    ensures PieceStep(w, prefix, max, segs, i, lines, current, lines', current')
  {
    // the piece to append: empty for an empty segment, with its separator after the first
    var toAppend := Piece(segs, i);
    if toAppend == [] {
      StepEmpty(w, prefix, max, segs, i, lines, current);
      return lines, current;
    }
    if Width(w, current) + Width(w, toAppend) <= max {
      StepFits(w, prefix, max, segs, i, lines, current);
      lines', current' := AppendPiece(w, prefix, max, fit, lines, current, toAppend);
    } else {
      lines', current' := WrapLongPiece(w, prefix, max, fit, segs, i, lines, current);
    }
  }

  /** A non-empty piece that does not fit after the open line: the first one
      fills the first line, a later one starts a fresh line. */
  method WrapLongPiece(w: char -> CharWidth, prefix: string, max: nat, ghost fit: bool,
                       segs: seq<string>, i: nat, lines: seq<string>, current: string)
    returns (lines': seq<string>, current': string)
    requires i < |segs| && (i == 0 ==> lines == [] && current == prefix)
    requires Piece(segs, i) != [] && Width(w, current) + Width(w, Piece(segs, i)) > max
    requires PathInv(w, prefix, max, fit, lines, current)
    requires fit ==> AllFit(w, Piece(segs, i), max) && Width(w, prefix) <= max
    ensures Flatten(lines') + current' == (Flatten(lines) + current) + Piece(segs, i)
    ensures PathInv(w, prefix, max, fit, lines', current')
    ensures PieceStep(w, prefix, max, segs, i, lines, current, lines', current')
  {
    if i == 0 {
      lines', current' := WrapFirstPiece(w, prefix, max, fit, segs, current);
    } else {
      lines', current' := WrapLaterPiece(w, prefix, max, fit, segs, i, lines, current);
    }
  }

  /** The first piece, too long for the first line, fills it. */
  method WrapFirstPiece(w: char -> CharWidth, prefix: string, max: nat, ghost fit: bool,
                        segs: seq<string>, current: string)
    returns (lines': seq<string>, current': string)
    requires |segs| >= 1 && current == prefix
    requires Piece(segs, 0) != [] && Width(w, current) + Width(w, Piece(segs, 0)) > max
    requires PathInv(w, prefix, max, fit, [], current)
    requires fit ==> AllFit(w, Piece(segs, 0), max) && Width(w, prefix) <= max
    ensures Flatten(lines') + current' == (Flatten([]) + current) + Piece(segs, 0)
    ensures PathInv(w, prefix, max, fit, lines', current')
    ensures PieceStep(w, prefix, max, segs, 0, [], current, lines', current')
  {
    StepFirst(w, prefix, max, segs, [], current);
    lines', current' := FillFirstLine(w, prefix, max, fit, segs[0]);
  }

  /** A later piece that does not fit after the open line starts a fresh line. */
  method WrapLaterPiece(w: char -> CharWidth, prefix: string, max: nat, ghost fit: bool,
                        segs: seq<string>, i: nat, lines: seq<string>, current: string)
    returns (lines': seq<string>, current': string)
    requires 1 <= i < |segs|
    requires Piece(segs, i) != [] && Width(w, current) + Width(w, Piece(segs, i)) > max
    requires PathInv(w, prefix, max, fit, lines, current)
    requires fit ==> AllFit(w, Piece(segs, i), max)
    ensures Flatten(lines') + current' == (Flatten(lines) + current) + Piece(segs, i)
    ensures PathInv(w, prefix, max, fit, lines', current')
    ensures PieceStep(w, prefix, max, segs, i, lines, current, lines', current')
  {
    StepLater(w, prefix, max, segs, i, lines, current);
    lines', current' := BreakAndWrap(w, prefix, max, fit, lines, current, Piece(segs, i));
  }

  /** An empty piece leaves the lines as they are. */
  lemma StepEmpty(w: char -> CharWidth, prefix: string, max: nat, segs: seq<string>, i: nat,
                  lines: seq<string>, current: string)
    requires i < |segs| && Piece(segs, i) == []
    ensures WrapStep(w, prefix, max, segs, i, lines, current) == (lines, current)
  {
  }

  /** The first piece, when it does not fit after the prefix. */
  lemma StepFirst(w: char -> CharWidth, prefix: string, max: nat, segs: seq<string>,
                  lines: seq<string>, current: string)
    requires |segs| >= 1 && Piece(segs, 0) != [] && Width(w, current) + Width(w, Piece(segs, 0)) > max
    ensures var n := FirstTake(w, prefix, max, segs[0]);
      var c := StrictWrap(w, segs[0][n..], max);
      WrapStep(w, prefix, max, segs, 0, lines, current) == ([prefix + segs[0][..n]] + ChunkLines(c), OpenChunk(c))
  {
  }

  /** A later piece, when it does not fit after the open line. */
  lemma StepLater(w: char -> CharWidth, prefix: string, max: nat, segs: seq<string>, i: nat,
                  lines: seq<string>, current: string)
    requires 1 <= i < |segs| && Piece(segs, i) != [] && Width(w, current) + Width(w, Piece(segs, i)) > max
    ensures var c := StrictWrap(w, Piece(segs, i), max);
      WrapStep(w, prefix, max, segs, i, lines, current) == (Finish(lines, current) + ChunkLines(c), OpenChunk(c))
  {
  }

  /** A piece that fits continues the current line. */
  method AppendPiece(w: char -> CharWidth, prefix: string, max: nat, ghost fit: bool,
                     lines: seq<string>, current: string, text: string)
    returns (lines': seq<string>, current': string)
    requires PathInv(w, prefix, max, fit, lines, current)
    requires Width(w, current) + Width(w, text) <= max
    ensures Flatten(lines') + current' == (Flatten(lines) + current) + text
    ensures PathInv(w, prefix, max, fit, lines', current')
    ensures lines' == lines && current' == current + text
  {
    Extend(w, prefix, max, fit, lines, current, text);
    Assoc(Flatten(lines), current, text);
    lines', current' := lines, current + text;
  }

  /** A piece that does not fit: finish the current line, if any, and wrap the
      piece strictly on the lines after it. */
  method BreakAndWrap(w: char -> CharWidth, prefix: string, max: nat, ghost fit: bool,
                      lines: seq<string>, current: string, text: string)
    returns (lines': seq<string>, current': string)
    requires text != [] && PathInv(w, prefix, max, fit, lines, current)
    requires fit ==> AllFit(w, text, max)
    ensures Flatten(lines') + current' == (Flatten(lines) + current) + text
    ensures PathInv(w, prefix, max, fit, lines', current')
    ensures var c := StrictWrap(w, text, max);
      lines' == Finish(lines, current) + ChunkLines(c) && current' == OpenChunk(c)
  {
    var done := lines;
    if current != [] {
      PushLine(w, prefix, max, fit, lines, current);
      done := lines + [current];
    } else {
      assert Flatten(lines) + current == Flatten(lines);
    }
    lines', current' := AppendWrappedChunks(w, done, [], text, max);
    AfterChunks(w, prefix, max, fit, done, lines', current', text);
  }

  /** `p` occurs as one run of characters inside `line`. */
  ghost predicate Infix(p: string, line: string)
  {
    exists u, v :: line == u + p + v
  }

  /** `p` lies inside one of the lines. */
  ghost predicate OnOneLine(p: string, lines: seq<string>)
  {
    exists k :: 0 <= k < |lines| && Infix(p, lines[k])
  }

  /** Piece `j` is one that fits on one line: it is not empty, and it fits
      after the prefix (the first piece) or on a line of its own, separator
      included (any later piece). */
  predicate FitsWhole(w: char -> CharWidth, prefix: string, max: nat, segs: seq<string>, j: nat)
    requires j < |segs|
  {
    Piece(segs, j) != [] &&
    if j == 0 then Width(w, prefix) + Width(w, Piece(segs, 0)) <= max else Width(w, Piece(segs, j)) <= max
  }

  /** Each of the first `n` pieces that fits on one line lies inside one of the
      lines. */
  ghost predicate KeptWhole(w: char -> CharWidth, prefix: string, max: nat, segs: seq<string>, n: nat,
                            lines: seq<string>)
    requires n <= |segs|
  {
    forall j :: 0 <= j < n && FitsWhole(w, prefix, max, segs, j) ==> OnOneLine(Piece(segs, j), lines)
  }

  /** The step keeps pieces whole: the pieces kept on one line so far stay
      there, and piece `i` joins them when it fits on one line. */
  lemma PieceStepKeptWhole(w: char -> CharWidth, prefix: string, max: nat, segs: seq<string>, i: nat,
                           lines: seq<string>, current: string, lines': seq<string>, current': string)
    requires i < |segs| && (i == 0 ==> current == prefix)
    requires PieceStep(w, prefix, max, segs, i, lines, current, lines', current')
    requires KeptWhole(w, prefix, max, segs, i, lines + [current])
    ensures KeptWhole(w, prefix, max, segs, i + 1, lines' + [current'])
  {
    var p := Piece(segs, i);
    if p == [] {
      KeptWholeAdd(w, prefix, max, segs, i, lines + [current]);
    } else if Width(w, current) + Width(w, p) <= max {
      KeptWholeExtend(w, prefix, max, segs, i, lines, current, p);
      InfixAt(lines', current, p, []);
      assert current + p + [] == current';
      KeptWholeAdd(w, prefix, max, segs, i, lines' + [current']);
    } else if i == 0 {
      KeptWholeAdd(w, prefix, max, segs, i, lines' + [current']);
    } else {
      var c := StrictWrap(w, p, max);
      if Width(w, p) <= max {
        StrictWrapSingle(w, p, max);
      }
      assert lines'[..|Finish(lines, current)|] == Finish(lines, current);
      BreakKeptWhole(w, prefix, max, segs, i, lines, current, lines', current');
    }
  }

  /** After a break, the earlier pieces stay on the finished lines, and a
      piece that fits on one line is the whole of the new current line. */
  lemma BreakKeptWhole(w: char -> CharWidth, prefix: string, max: nat, segs: seq<string>, i: nat,
                       lines: seq<string>, current: string, out: seq<string>, last: string)
    requires i < |segs| && KeptWhole(w, prefix, max, segs, i, lines + [current])
    requires |Finish(lines, current)| <= |out| && out[..|Finish(lines, current)|] == Finish(lines, current)
    requires FitsWhole(w, prefix, max, segs, i) ==> last == Piece(segs, i)
    ensures KeptWhole(w, prefix, max, segs, i + 1, out + [last])
  {
    assert (out + [last])[..|Finish(lines, current)|] == Finish(lines, current);
    KeptWholeFinish(w, prefix, max, segs, i, lines, current, out + [last]);
    if FitsWhole(w, prefix, max, segs, i) {
      InfixAt(out, [], last, []);
      assert [] + last + [] == last;
    }
    KeptWholeAdd(w, prefix, max, segs, i, out + [last]);
  }

  /** The last line `u + p + v` holds `p`. */
  lemma InfixAt(lines: seq<string>, u: string, p: string, v: string)
    ensures OnOneLine(p, lines + [u + p + v])
  {
    assert (lines + [u + p + v])[|lines|] == u + p + v;
  }

  /** One more piece, kept on one line if it fits on one. */
  lemma KeptWholeAdd(w: char -> CharWidth, prefix: string, max: nat, segs: seq<string>, n: nat,
                     lines: seq<string>)
    requires n < |segs| && KeptWhole(w, prefix, max, segs, n, lines)
    requires FitsWhole(w, prefix, max, segs, n) ==> OnOneLine(Piece(segs, n), lines)
    ensures KeptWhole(w, prefix, max, segs, n + 1, lines)
  {
  }

  /** Text appended to the current line leaves every piece on its line. */
  lemma KeptWholeExtend(w: char -> CharWidth, prefix: string, max: nat, segs: seq<string>, n: nat,
                        lines: seq<string>, current: string, x: string)
    requires n <= |segs| && KeptWhole(w, prefix, max, segs, n, lines + [current])
    ensures KeptWhole(w, prefix, max, segs, n, lines + [current + x])
  {
    forall j | 0 <= j < n && FitsWhole(w, prefix, max, segs, j)
      ensures OnOneLine(Piece(segs, j), lines + [current + x])
    {
      var p := Piece(segs, j);
      var k :| 0 <= k < |lines| + 1 && Infix(p, (lines + [current])[k]);
      if k < |lines| {
        assert (lines + [current + x])[k] == (lines + [current])[k];
      } else {
        var u, v :| current == u + p + v;
        assert current + x == u + p + (v + x);
        InfixAt(lines, u, p, v + x);
      }
    }
  }

  /** Finishing the current line and adding lines after it leaves every piece
      on its line. */
  lemma KeptWholeFinish(w: char -> CharWidth, prefix: string, max: nat, segs: seq<string>, n: nat,
                        lines: seq<string>, current: string, out: seq<string>)
    requires n <= |segs| && KeptWhole(w, prefix, max, segs, n, lines + [current])
    requires |Finish(lines, current)| <= |out| && out[..|Finish(lines, current)|] == Finish(lines, current)
    ensures KeptWhole(w, prefix, max, segs, n, out)
  {
    var done := Finish(lines, current);
    forall j | 0 <= j < n && FitsWhole(w, prefix, max, segs, j)
      ensures OnOneLine(Piece(segs, j), out)
    {
      var p := Piece(segs, j);
      var k :| 0 <= k < |lines| + 1 && Infix(p, (lines + [current])[k]);
      InfixNonEmpty(p, (lines + [current])[k]);
      assert (lines + [current])[k] == done[k] == out[k];
    }
  }

  /** Only a non-empty line holds a non-empty piece. */
  lemma InfixNonEmpty(p: string, line: string)
    requires Infix(p, line) && p != []
    ensures line != []
  {
    var u, v :| line == u + p + v;
    assert |line| == |u| + |p| + |v|;
  }

  /** `wrap_path_with_prefix`: wrap `s`, which begins with `prefix`, keeping the
      '/'-separated pieces after the prefix whole where they fit, dropping empty
      pieces, and strictly wrapping a piece only when it does not fit on a line
      of its own. A first piece too long for the first line fills that line. */
  method WrapPathWithPrefix(w: char -> CharWidth, s: string, prefix: string, max: nat)
    returns (lines: seq<string>)
    requires |prefix| <= |s|
    ensures Flatten(lines) == prefix + PathText(s[|prefix|..])
    ensures prefix != [] ==> lines != [] && prefix <= lines[0] && NonEmptyLines(lines)
    ensures Width(w, prefix) <= max && AllFit(w, s, max) ==> LinesWithin(w, lines, max)
    ensures KeptWhole(w, prefix, max, Split(s[|prefix|..]), |Split(s[|prefix|..])|, lines)
    ensures FirstLineFilled(w, prefix, max, Split(s[|prefix|..]), lines)
    ensures lines == PathWrap(w, prefix, max, Split(s[|prefix|..]))
  {
    var segs := Split(s[|prefix|..]);
    ghost var fit := Width(w, prefix) <= max && AllFit(w, s, max);
    var current;
    lines, current := WrapPieces(w, s, prefix, max, fit, segs);
    ClosePath(w, prefix, max, fit, lines, current);
    CloseWhole(w, prefix, max, segs, lines, current);
    if current != [] {
      lines := lines + [current];
    }
  }

  /** The loop of `wrap_path_with_prefix` over the pieces: the finished lines
      and the open one spell the prefix and the kept text. */
  method WrapPieces(w: char -> CharWidth, s: string, prefix: string, max: nat, ghost fit: bool,
                    segs: seq<string>)
    returns (lines: seq<string>, current: string)
    requires |prefix| <= |s| && segs == Split(s[|prefix|..])
    requires fit ==> Width(w, prefix) <= max && AllFit(w, s, max)
    ensures Flatten(lines) + current == prefix + PathText(s[|prefix|..])
    ensures PathInv(w, prefix, max, fit, lines, current)
    ensures KeptWhole(w, prefix, max, segs, |segs|, lines + [current])
    ensures FirstLineFilled(w, prefix, max, segs, lines)
    ensures (lines, current) == WrapFrom(w, prefix, max, segs, 0, [], prefix)
  {
    lines := [];
    current := prefix;
    var i := 0;
    assert Flatten(lines) + current == prefix + Kept(segs, 0);
    while i < |segs|
      invariant 0 <= i <= |segs|
      invariant Reassembles(lines, current, prefix, segs, i)
      invariant i == 0 ==> lines == [] && current == prefix
      invariant PathInv(w, prefix, max, fit, lines, current)
      invariant KeptWhole(w, prefix, max, segs, i, lines + [current])
      invariant i >= 1 ==> FirstLineFilled(w, prefix, max, segs, lines)
      invariant WrapFrom(w, prefix, max, segs, i, lines, current) == WrapFrom(w, prefix, max, segs, 0, [], prefix)
    {
      var next := i + 1;
      lines, current := PathStep(w, s, prefix, max, fit, segs, i, next, lines, current);
      i := next;
    }
  }

  /** Finishing the last line, if any is left open. */
  lemma ClosePath(w: char -> CharWidth, prefix: string, max: nat, fit: bool,
                  lines: seq<string>, current: string)
    requires PathInv(w, prefix, max, fit, lines, current)
    ensures var out := if current != [] then lines + [current] else lines;
      Flatten(out) == Flatten(lines) + current &&
      (prefix != [] ==> out != [] && prefix <= out[0] && NonEmptyLines(out)) &&
      (fit ==> LinesWithin(w, out, max))
  {
    if current != [] {
      PushLine(w, prefix, max, fit, lines, current);
    } else {
      assert Flatten(lines) + current == Flatten(lines);
    }
  }

  /** Finishing the last line keeps every piece on its line and the first line
      as it was. */
  lemma CloseWhole(w: char -> CharWidth, prefix: string, max: nat, segs: seq<string>,
                   lines: seq<string>, current: string)
    requires |segs| >= 1 && KeptWhole(w, prefix, max, segs, |segs|, lines + [current])
    requires FirstLineFilled(w, prefix, max, segs, lines)
    ensures KeptWhole(w, prefix, max, segs, |segs|, Finish(lines, current))
    ensures FirstLineFilled(w, prefix, max, segs, Finish(lines, current))
  {
    KeptWholeFinish(w, prefix, max, segs, |segs|, lines, current, Finish(lines, current));
    if lines != [] {
      assert Finish(lines, current)[0] == lines[0];
    }
  }

  /** The loop body of `wrap_path_with_prefix`: piece `i` wrapped, and the
      invariant carried to the next piece. */
  method PathStep(w: char -> CharWidth, s: string, prefix: string, max: nat, ghost fit: bool,
                  segs: seq<string>, i: nat, next: nat, lines: seq<string>, current: string)
    returns (lines': seq<string>, current': string)
    requires |prefix| <= |s| && segs == Split(s[|prefix|..]) && next == i + 1 <= |segs|
    requires fit ==> Width(w, prefix) <= max && AllFit(w, s, max)
    requires Reassembles(lines, current, prefix, segs, i)
    requires i == 0 ==> lines == [] && current == prefix
    requires PathInv(w, prefix, max, fit, lines, current)
    requires KeptWhole(w, prefix, max, segs, i, lines + [current])
    requires i >= 1 ==> FirstLineFilled(w, prefix, max, segs, lines)
    ensures Reassembles(lines', current', prefix, segs, next)
    ensures PathInv(w, prefix, max, fit, lines', current')
    ensures KeptWhole(w, prefix, max, segs, next, lines' + [current'])
    ensures FirstLineFilled(w, prefix, max, segs, lines')
    ensures WrapFrom(w, prefix, max, segs, next, lines', current') == WrapFrom(w, prefix, max, segs, i, lines, current)
  {
    if fit {
      PieceFits(w, s, |prefix|, max, i);
    }
    lines', current' := WrapPiece(w, prefix, max, fit, segs, i, lines, current);
    ReassemblesStep(lines, current, lines', current', prefix, segs, i, next);
    PieceStepKeptWhole(w, prefix, max, segs, i, lines, current, lines', current');
    PieceStepFirstLine(w, prefix, max, segs, i, lines, current, lines', current');
    WrapFromStep(w, prefix, max, segs, i, next, lines, current, lines', current');
  }

  /** Every character of a kept piece, separators included, is one of `s`. */
  lemma PieceFits(w: char -> CharWidth, s: string, start: nat, max: nat, i: nat)
    requires start <= |s| && i < |Split(s[start..])| && AllFit(w, s, max)
    ensures AllFit(w, Piece(Split(s[start..]), i), max)
  {
    var rest := s[start..];
    SplitPieces(rest);
    assert forall c :: c in rest ==> c in s;
  }

  lemma ReassemblesStep(lines: seq<string>, current: string, lines': seq<string>, current': string,
                        prefix: string, segs: seq<string>, i: nat, next: nat)
    requires next == i + 1 <= |segs| && Reassembles(lines, current, prefix, segs, i)
    requires Flatten(lines') + current' == (Flatten(lines) + current) + Piece(segs, i)
    ensures Reassembles(lines', current', prefix, segs, next)
  {
    KeptUnfold(segs, i, next);
    Assoc(prefix, Kept(segs, i), Piece(segs, i));
  }

  /** The scheme prefix of a bucket URI. */
  const S3Prefix: string := "s3://"

  /** `wrap_s3_path_for_dialog`: a text that fits is one line; a bucket URI is
      wrapped by pieces after its scheme prefix; anything else strictly. */
  method WrapS3PathForDialog(w: char -> CharWidth, s: string, max: nat) returns (lines: seq<string>)
    ensures Width(w, s) <= max ==> lines == [s]
    ensures Width(w, s) > max && !(S3Prefix <= s) ==> lines == StrictWrap(w, s, max)
    ensures Width(w, s) > max && S3Prefix <= s ==>
      Flatten(lines) == S3Prefix + PathText(s[|S3Prefix|..]) &&
      S3Prefix <= lines[0]
    ensures forall k :: 0 <= k < |lines| ==> (lines[k] != [] || s == [])
    ensures AllFit(w, s, max) && Width(w, S3Prefix) <= max ==>
      forall k :: 0 <= k < |lines| ==> Width(w, lines[k]) <= max
    ensures Width(w, s) > max && S3Prefix <= s ==>
      KeptWhole(w, S3Prefix, max, Split(s[|S3Prefix|..]), |Split(s[|S3Prefix|..])|, lines) &&
      FirstLineFilled(w, S3Prefix, max, Split(s[|S3Prefix|..]), lines) &&
      lines == PathWrap(w, S3Prefix, max, Split(s[|S3Prefix|..]))
  {
    if Width(w, s) <= max {
      return [s];
    }
    if S3Prefix <= s {
      lines := WrapPathWithPrefix(w, s, S3Prefix, max);
    } else {
      lines := WrapStrictByCharWidth(w, s, max);
      if AllFit(w, s, max) {
        StrictWrapWidth(w, s, max);
      }
    }
  }

  /** A piece that fits after the open line continues it. */
  lemma StepFits(w: char -> CharWidth, prefix: string, max: nat, segs: seq<string>, i: nat,
                 lines: seq<string>, current: string)
    requires i < |segs| && Width(w, current) + Width(w, Piece(segs, i)) <= max
    ensures WrapStep(w, prefix, max, segs, i, lines, current) == (lines, current + Piece(segs, i))
  {
    assert current + [] == current;
  }

  /** A later piece that does not fit after the open line, but fits on a line of
      its own, finishes that line and opens the next one. */
  lemma StepBreaks(w: char -> CharWidth, prefix: string, max: nat, segs: seq<string>, i: nat,
                   lines: seq<string>, current: string)
    requires 1 <= i < |segs| && Piece(segs, i) != [] && current != []
    requires Width(w, current) + Width(w, Piece(segs, i)) > max && Width(w, Piece(segs, i)) <= max
    ensures WrapStep(w, prefix, max, segs, i, lines, current) == (lines + [current], Piece(segs, i))
  {
    var c := StrictWrap(w, Piece(segs, i), max);
    StrictWrapSingle(w, Piece(segs, i), max);
    assert ChunkLines(c) == [] && OpenChunk(c) == Piece(segs, i);
    assert Finish(lines, current) + [] == lines + [current];
  }

  /** The kept text only grows from piece to piece, and so does its width. */
  lemma {:induction false} KeptWidthGrows(w: char -> CharWidth, segs: seq<string>, m: nat, n: nat)
    requires m <= n <= |segs|
    ensures Width(w, Kept(segs, m)) <= Width(w, Kept(segs, n))
    decreases n - m
  {
    if m < n {
      var k: nat := n - 1;
      KeptUnfold(segs, k, n);
      WidthAppend(w, Kept(segs, k), Piece(segs, k));
      KeptWidthGrows(w, segs, m, k);
    }
  }

  /** While the whole kept text fits after the prefix, each piece continues the
      one open line. */
  lemma {:induction false} OneLineFrom(w: char -> CharWidth, prefix: string, max: nat, segs: seq<string>, i: nat)
    requires i <= |segs| && Width(w, prefix) + Width(w, Kept(segs, |segs|)) <= max
    ensures WrapFrom(w, prefix, max, segs, i, [], prefix + Kept(segs, i)) == ([], prefix + Kept(segs, |segs|))
    decreases |segs| - i
  {
    if i < |segs| {
      var next := i + 1;
      var p := Piece(segs, i);
      KeptUnfold(segs, i, next);
      KeptWidthGrows(w, segs, next, |segs|);
      WidthAppend(w, Kept(segs, i), p);
      WidthAppend(w, prefix, Kept(segs, i));
      Assoc(prefix, Kept(segs, i), p);
      StepFits(w, prefix, max, segs, i, [], prefix + Kept(segs, i));
      WrapFromStep(w, prefix, max, segs, i, next, [], prefix + Kept(segs, i), [], prefix + Kept(segs, next));
      OneLineFrom(w, prefix, max, segs, next);
    }
  }

  /** The first line takes as many pieces as fit: a path whose kept text fits
      after the prefix is that one line. */
  lemma PathWrapOneLine(w: char -> CharWidth, prefix: string, max: nat, segs: seq<string>)
    requires Width(w, prefix) + Width(w, Kept(segs, |segs|)) <= max
    requires prefix + Kept(segs, |segs|) != []
    ensures PathWrap(w, prefix, max, segs) == [prefix + Kept(segs, |segs|)]
  {
    OneLineFrom(w, prefix, max, segs, 0);
    assert prefix + Kept(segs, 0) == prefix;
  }

  /** Printable ASCII text takes one column per character. */
  lemma {:induction false} NarrowWidth(w: char -> CharWidth, s: string)
    requires AsciiNarrow(w) && forall k :: 0 <= k < |s| ==> ' ' <= s[k] <= '~'
    ensures Width(w, s) == |s|
    decreases |s|
  {
    if s != [] {
      var t := s[..|s| - 1];
      assert forall k :: 0 <= k < |t| ==> t[k] == s[k];
      NarrowWidth(w, t);
    }
  }

  /** The pieces of the path in `test_wrap_path_with_prefix_basic`. */
  lemma SplitBasicExample()
    ensures Split("bucket/longsegment/short") == ["bucket", "longsegment", "short"]
  {
    var segs := ["bucket", "longsegment", "short"];
    assert Join(segs[2..]) == "short";
    assert Join(segs[1..]) == "longsegment/short";
    assert Join(segs) == "bucket/longsegment/short";
    SplitJoin(segs);
  }

  /** The widths of the pieces of `test_wrap_path_with_prefix_basic`. */
  lemma BasicExampleWidths(w: char -> CharWidth)
    requires AsciiNarrow(w)
    ensures Width(w, S3Prefix) == 5 && Width(w, "bucket") == 6 && Width(w, "s3://bucket") == 11
    ensures Width(w, "/longsegment") == 12 && Width(w, "/short") == 6
  {
    S3PrefixWidth(w);
    NarrowWidth(w, "bucket");
    NarrowWidth(w, "/longsegment");
    NarrowWidth(w, "/short");
    NarrowWidth(w, "s3://bucket");
  }

  /** The first pass for `test_wrap_path_with_prefix_basic` at 12 columns:
      the bucket joins the prefix. */
  lemma BasicExampleStep0(w: char -> CharWidth, segs: seq<string>)
    requires AsciiNarrow(w) && segs == ["bucket", "longsegment", "short"]
    ensures WrapStep(w, S3Prefix, 12, segs, 0, [], S3Prefix) == ([], "s3://bucket")
  {
    BasicExampleWidths(w);
    assert Piece(segs, 0) == "bucket" && S3Prefix + "bucket" == "s3://bucket";
    StepFits(w, S3Prefix, 12, segs, 0, [], S3Prefix);
  }

  /** The second pass: the next piece exactly fills a line of its own. */
  lemma BasicExampleStep1(w: char -> CharWidth, segs: seq<string>)
    requires AsciiNarrow(w) && segs == ["bucket", "longsegment", "short"]
    ensures WrapStep(w, S3Prefix, 12, segs, 1, [], "s3://bucket") == (["s3://bucket"], "/longsegment")
  {
    var none: seq<string> := [];
    BasicExampleWidths(w);
    assert Piece(segs, 1) == "/longsegment" && none + ["s3://bucket"] == ["s3://bucket"];
    StepBreaks(w, S3Prefix, 12, segs, 1, none, "s3://bucket");
  }

  /** The third pass: the last piece is put on a new line. */
  lemma BasicExampleStep2(w: char -> CharWidth, segs: seq<string>)
    requires AsciiNarrow(w) && segs == ["bucket", "longsegment", "short"]
    ensures WrapStep(w, S3Prefix, 12, segs, 2, ["s3://bucket"], "/longsegment") ==
            (["s3://bucket", "/longsegment"], "/short")
  {
    BasicExampleWidths(w);
    assert Piece(segs, 2) == "/short" && ["s3://bucket"] + ["/longsegment"] == ["s3://bucket", "/longsegment"];
    StepBreaks(w, S3Prefix, 12, segs, 2, ["s3://bucket"], "/longsegment");
  }

  /** The loop run over those three passes, and its last line finished. */
  lemma BasicExampleWrap(w: char -> CharWidth, segs: seq<string>)
    requires AsciiNarrow(w) && segs == ["bucket", "longsegment", "short"]
    ensures PathWrap(w, S3Prefix, 12, segs) == ["s3://bucket", "/longsegment", "/short"]
  {
    var none: seq<string> := [];
    var one := ["s3://bucket"];
    var two := ["s3://bucket", "/longsegment"];
    BasicExampleStep0(w, segs);
    BasicExampleStep1(w, segs);
    BasicExampleStep2(w, segs);
    WrapFromStep(w, S3Prefix, 12, segs, 0, 1, none, S3Prefix, none, "s3://bucket");
    WrapFromStep(w, S3Prefix, 12, segs, 1, 2, none, "s3://bucket", one, "/longsegment");
    WrapFromStep(w, S3Prefix, 12, segs, 2, 3, one, "/longsegment", two, "/short");
  }

  /** `test_wrap_path_with_prefix_basic`, worked out to the exact lines. */
  lemma PathWrapBasicExample(w: char -> CharWidth)
    requires AsciiNarrow(w)
    ensures PathWrap(w, S3Prefix, 12, Split("bucket/longsegment/short")) ==
            ["s3://bucket", "/longsegment", "/short"]
  {
    SplitBasicExample();
    BasicExampleWrap(w, Split("bucket/longsegment/short"));
  }

  /** The pieces of "b/a", and what of them is kept. */
  lemma SplitShortExample()
    ensures Split("b/a") == ["b", "a"] && Kept(["b", "a"], 2) == "b/a"
  {
    var segs := ["b", "a"];
    assert Join(segs[1..]) == "a" && Join(segs) == "b/a";
    SplitJoin(segs);
    assert Kept(segs, 1) == "b";
    KeptUnfold(segs, 1, 2);
  }

  /** A short bucket URI stays on the first line: "s3://b/a" at 20 columns is
      the single line "s3://b/a". */
  lemma PathWrapShortExample(w: char -> CharWidth)
    requires AsciiNarrow(w)
    ensures PathWrap(w, S3Prefix, 20, Split("b/a")) == ["s3://b/a"]
  {
    SplitShortExample();
    ShortExampleWrap(w, Split("b/a"));
  }

  /** The one line of "s3://b/a" at 20 columns, from its pieces. */
  lemma ShortExampleWrap(w: char -> CharWidth, segs: seq<string>)
    requires AsciiNarrow(w) && segs == ["b", "a"] && Kept(segs, 2) == "b/a"
    ensures PathWrap(w, S3Prefix, 20, segs) == ["s3://b/a"]
  {
    S3PrefixWidth(w);
    NarrowWidth(w, "b/a");
    assert S3Prefix + "b/a" == "s3://b/a";
    PathWrapOneLine(w, S3Prefix, 20, segs);
  }

  /** Printable ASCII takes one column, as the Unicode width tables have it. */
  predicate AsciiNarrow(w: char -> CharWidth)
  {
    forall c: char :: ' ' <= c <= '~' ==> w(c) == 1
  }

  lemma S3PrefixWidth(w: char -> CharWidth)
    requires AsciiNarrow(w)
    ensures Width(w, S3Prefix) == 5
  {
    assert S3Prefix == ['s'] + "3://" && "3://" == ['3'] + "://" && "://" == [':'] + "//";
    assert "//" == ['/'] + "/" && "/" == ['/'] + "";
    WidthCons(w, 's', "3://");
    WidthCons(w, '3', "://");
    WidthCons(w, ':', "//");
    WidthCons(w, '/', "/");
    WidthCons(w, '/', "");
  }

  /** Text width of the confirmation dialog: 70 columns less borders and padding. */
  const ConfirmDialogTextWidth: nat := 66

  /** The source and destination lines of the paste confirmation message: both
      URIs, wrapped for the dialog, never pass its text width. */
  method PasteConfirmPathLines(w: char -> CharWidth, srcBucket: string, srcKey: string,
                               dstBucket: string, dstKey: string)
    returns (from: seq<string>, to: seq<string>)
    requires AsciiNarrow(w)
    ensures forall k :: 0 <= k < |from| ==> from[k] != [] && Width(w, from[k]) <= ConfirmDialogTextWidth
    ensures forall k :: 0 <= k < |to| ==> to[k] != [] && Width(w, to[k]) <= ConfirmDialogTextWidth
  {
    S3PrefixWidth(w);
    var fromUri := S3Prefix + srcBucket + "/" + srcKey;
    var toUri := S3Prefix + dstBucket + "/" + dstKey;
    from := WrapS3PathForDialog(w, fromUri, ConfirmDialogTextWidth);
    to := WrapS3PathForDialog(w, toUri, ConfirmDialogTextWidth);
  }

  /** Six narrow characters at three columns make two lines of three. */
  lemma StrictWrapAsciiExample(w: char -> CharWidth)
    requires AsciiNarrow(w)
    ensures StrictWrap(w, "abcdef", 3) == ["abc", "def"]
  {
    assert w('a') == 1 && w('b') == 1 && w('c') == 1 && w('d') == 1 && w('e') == 1 && w('f') == 1;
    var s := "abcdef";
    assert s[1..] == "bcdef" && "bcdef"[1..] == "cdef" && "cdef"[1..] == "def";
    assert "def"[1..] == "ef" && "ef"[1..] == "f" && "f"[1..] == [];
    assert FitCount(w, "def", 0) == 0;
    assert FitCount(w, s, 3) == 3;
    assert FitCount(w, "f", 1) == 1;
    assert FitCount(w, "def", 3) == 3;
    assert s[..3] == "abc" && s[3..] == "def";
    assert "def"[..3] == "def" && "def"[3..] == [];
  }
  /** Wide characters count two columns: "A世" and "界A" both take three. */
  lemma StrictWrapWideExample(w: char -> CharWidth)
    requires w('A') == 1 && w('世') == 2 && w('界') == 2
    ensures StrictWrap(w, "A世界A", 3) == ["A世", "界A"]
  {
    var s := "A世界A";
    assert s[1..] == "世界A" && "世界A"[1..] == "界A" && "界A"[1..] == "A" && "A"[1..] == [];
    assert FitCount(w, "界A", 0) == 0;
    assert FitCount(w, s, 3) == 2;
    assert FitCount(w, "界A", 3) == 2;
    assert s[..2] == "A世" && s[2..] == "界A";
    assert "界A"[..2] == "界A" && "界A"[2..] == [];
  }
}

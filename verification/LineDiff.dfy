/** The line diff shown at a configuration trust decision: the LCS table, the edit script read off
    it, and the rendering with context, gap markers and escaping (crates/tole-cli/src/config_trust.rs). */
module LineDiff {
  import opened Common
  import opened Text

  const MAX_DIFF_LINES := 2000

  newtype u32 = n: int | 0 <= n < 0x1_0000_0000

  datatype Tag = Keep | Removed | Added

  datatype Op = Op(tag: Tag, line: string)

  // ----------------------------------------------- subsequences and the LCS

  /** `c` can be obtained from `a` by deleting lines. */
  ghost predicate IsSubseq(c: seq<string>, a: seq<string>)
  {
    c == [] ||
    (a != [] && ((c[0] == a[0] && IsSubseq(c[1..], a[1..])) || IsSubseq(c, a[1..])))
  }

  /** The recurrence the table is filled by, on suffixes. */
  function Lcs(a: seq<string>, b: seq<string>): nat
    decreases |a| + |b|
  {
    if a == [] || b == [] then 0
    else if a[0] == b[0] then Lcs(a[1..], b[1..]) + 1
    else
      var down, right := Lcs(a[1..], b), Lcs(a, b[1..]);
      if down >= right then down else right
  }

  lemma {:induction false} SubseqTails(c: seq<string>, a: seq<string>)
    requires c != [] && a != [] && IsSubseq(c, a)
    ensures IsSubseq(c[1..], a[1..])
  {
    if !(c[0] == a[0] && IsSubseq(c[1..], a[1..])) {
      SubseqTails(c, a[1..]);
      SubseqSkip(c[1..], a[1..]);
    }
  }

  lemma SubseqSkip(c: seq<string>, a: seq<string>)
    requires a != [] && IsSubseq(c, a[1..])
    ensures IsSubseq(c, a)
  {
  }

  /** No common subsequence is longer than the table says. */
  lemma {:induction false} LcsIsUpperBound(c: seq<string>, a: seq<string>, b: seq<string>)
    requires IsSubseq(c, a) && IsSubseq(c, b)
    ensures |c| <= Lcs(a, b)
    decreases |a| + |b|
  {
    if c == [] {
    } else if a[0] == b[0] {
      SubseqTails(c, a);
      SubseqTails(c, b);
      LcsIsUpperBound(c[1..], a[1..], b[1..]);
    } else if c[0] != a[0] {
      LcsIsUpperBound(c, a[1..], b);
    } else {
      LcsIsUpperBound(c, a, b[1..]);
    }
  }

  lemma {:induction false} LcsFitsShorter(a: seq<string>, b: seq<string>)
    ensures Lcs(a, b) <= |a| && Lcs(a, b) <= |b|
    decreases |a| + |b|
  {
    if a == [] || b == [] {
    } else if a[0] == b[0] {
      LcsFitsShorter(a[1..], b[1..]);
    } else {
      LcsFitsShorter(a[1..], b);
      LcsFitsShorter(a, b[1..]);
    }
  }

  lemma {:induction false} LcsMonotone(a: seq<string>, b: seq<string>)
    requires a != []
    ensures Lcs(a[1..], b) <= Lcs(a, b)
    decreases |a| + |b|
  {
    if b != [] && a[0] == b[0] {
      LcsRightStep(a[1..], b);
    }
  }

  lemma {:induction false} LcsSymmetric(a: seq<string>, b: seq<string>)
    ensures Lcs(a, b) == Lcs(b, a)
    decreases |a| + |b|
  {
    if a == [] || b == [] {
    } else if a[0] == b[0] {
      LcsSymmetric(a[1..], b[1..]);
    } else {
      LcsSymmetric(a[1..], b);
      LcsSymmetric(a, b[1..]);
    }
  }

  /** Dropping one line of the second text costs at most one. */
  lemma {:induction false} LcsRightStep(a: seq<string>, b: seq<string>)
    requires b != []
    ensures Lcs(a, b) <= Lcs(a, b[1..]) + 1
    decreases |a| + |b|
  {
    if a == [] {
    } else if a[0] == b[0] {
      if b[1..] != [] {
        LcsMonotone(a, b[1..]);
      }
    } else {
      LcsRightStep(a[1..], b);
      LcsMonotone(a, b[1..]);
    }
  }

  // -------------------------------------------------------------- the script

  function KeptLines(ops: seq<Op>): seq<string>
  {
    if ops == [] then []
    else (if ops[0].tag.Keep? then [ops[0].line] else []) + KeptLines(ops[1..])
  }

  /** The lines a script reads: kept and removed. */
  function OldText(ops: seq<Op>): seq<string>
  {
    if ops == [] then []
    else (if ops[0].tag.Added? then [] else [ops[0].line]) + OldText(ops[1..])
  }

  /** The lines a script writes: kept and added. */
  function NewText(ops: seq<Op>): seq<string>
  {
    if ops == [] then []
    else (if ops[0].tag.Removed? then [] else [ops[0].line]) + NewText(ops[1..])
  }

  /** Number of removed and added lines. */
  function Changes(ops: seq<Op>): nat
  {
    if ops == [] then 0
    else (if ops[0].tag.Keep? then 0 else 1) + Changes(ops[1..])
  }

  /** `ops` turns `a` into `b`. */
  ghost predicate Transforms(ops: seq<Op>, a: seq<string>, b: seq<string>)
  {
    OldText(ops) == a && NewText(ops) == b
  }

  function Tagged(tag: Tag, lines: seq<string>): (ops: seq<Op>)
    ensures |ops| == |lines|
  {
    if lines == [] then [] else [Op(tag, lines[0])] + Tagged(tag, lines[1..])
  }

  /** The script the backtrack produces: keep equal heads, else take the branch with the longer
      remaining LCS, removing first on a tie. */
  function Script(a: seq<string>, b: seq<string>): seq<Op>
    decreases |a| + |b|
  {
    if a == [] || b == [] then Tagged(Removed, a) + Tagged(Added, b)
    else if a[0] == b[0] then [Op(Keep, a[0])] + Script(a[1..], b[1..])
    else if Lcs(a[1..], b) >= Lcs(a, b[1..]) then [Op(Removed, a[0])] + Script(a[1..], b)
    else [Op(Added, b[0])] + Script(a, b[1..])
  }

  lemma {:induction false} TaggedTexts(a: seq<string>, b: seq<string>)
    ensures Transforms(Tagged(Removed, a) + Tagged(Added, b), a, b)
    ensures KeptLines(Tagged(Removed, a) + Tagged(Added, b)) == []
    decreases |a| + |b|
  {
    var ops := Tagged(Removed, a) + Tagged(Added, b);
    if a != [] {
      TaggedTexts(a[1..], b);
      assert ops[1..] == Tagged(Removed, a[1..]) + Tagged(Added, b);
    } else if b != [] {
      TaggedTexts(a, b[1..]);
      assert ops[1..] == Tagged(Removed, a) + Tagged(Added, b[1..]);
    }
  }

  /** The script spells both texts and keeps exactly as many lines as the table promises. */
  lemma {:induction false} ScriptIsExact(a: seq<string>, b: seq<string>)
    ensures Transforms(Script(a, b), a, b)
    ensures |KeptLines(Script(a, b))| == Lcs(a, b)
    decreases |a| + |b|
  {
    var ops := Script(a, b);
    if a == [] || b == [] {
      TaggedTexts(a, b);
    } else {
      if a[0] == b[0] {
        ScriptIsExact(a[1..], b[1..]);
        assert ops[1..] == Script(a[1..], b[1..]);
      } else if ops[0].tag.Removed? {
        ScriptIsExact(a[1..], b);
        assert ops[1..] == Script(a[1..], b);
      } else {
        ScriptIsExact(a, b[1..]);
        assert ops[1..] == Script(a, b[1..]);
      }
    }
  }

  /** What any script keeps is common to the texts it reads and writes. */
  lemma {:induction false} KeptIsCommon(ops: seq<Op>)
    ensures IsSubseq(KeptLines(ops), OldText(ops))
    ensures IsSubseq(KeptLines(ops), NewText(ops))
  {
    if ops != [] {
      KeptIsCommon(ops[1..]);
      var c, a, b := KeptLines(ops), OldText(ops), NewText(ops);
      var c', a', b' := KeptLines(ops[1..]), OldText(ops[1..]), NewText(ops[1..]);
      match ops[0].tag
      case Keep =>
        assert c[1..] == c' && a[1..] == a' && b[1..] == b';
      case Removed =>
        assert c == c' && a[1..] == a' && b == b';
        SubseqSkip(c, a);
      case Added =>
        assert c == c' && a == a' && b[1..] == b';
        SubseqSkip(c, b);
    }
  }

  lemma {:induction false} ChangesCount(ops: seq<Op>)
    ensures Changes(ops) + 2 * |KeptLines(ops)| == |OldText(ops)| + |NewText(ops)|
  {
    if ops != [] {
      ChangesCount(ops[1..]);
    }
  }

  /** The LCS is attained: the kept lines of the script are a common subsequence of that length, and
      no common subsequence is longer. */
  lemma LcsIsLongest(a: seq<string>, b: seq<string>)
    ensures exists c :: IsSubseq(c, a) && IsSubseq(c, b) && |c| == Lcs(a, b)
    ensures forall c :: IsSubseq(c, a) && IsSubseq(c, b) ==> |c| <= Lcs(a, b)
  {
    ScriptIsExact(a, b);
    KeptIsCommon(Script(a, b));
    forall c | IsSubseq(c, a) && IsSubseq(c, b) ensures |c| <= Lcs(a, b) {
      LcsIsUpperBound(c, a, b);
    }
  }

  /** No script between the same two texts has fewer changes. */
  lemma ScriptIsMinimal(a: seq<string>, b: seq<string>, other: seq<Op>)
    requires Transforms(other, a, b)
    ensures Changes(Script(a, b)) <= Changes(other)
  {
    KeptIsCommon(other);
    LcsIsUpperBound(KeptLines(other), a, b);
    ScriptIsExact(a, b);
    ChangesCount(Script(a, b));
    ChangesCount(other);
  }

  /** The diff is empty of changes exactly for equal texts. */
  lemma {:induction false} UnchangedIffEqual(a: seq<string>, b: seq<string>)
    ensures Changes(Script(a, b)) == 0 <==> a == b
  {
    ScriptIsExact(a, b);
    if Changes(Script(a, b)) == 0 {
      UnchangedTexts(Script(a, b));
    }
    if a == b {
      ScriptOfEqual(a);
    }
  }

  lemma {:induction false} UnchangedTexts(ops: seq<Op>)
    requires Changes(ops) == 0
    ensures OldText(ops) == NewText(ops)
  {
    if ops != [] { UnchangedTexts(ops[1..]); }
  }

  lemma {:induction false} ScriptOfEqual(a: seq<string>)
    ensures Changes(Script(a, a)) == 0
  {
    if a != [] {
      ScriptOfEqual(a[1..]);
      assert Script(a, a)[1..] == Script(a[1..], a[1..]);
    }
  }

  lemma {:induction false} TaggedLines(tag: Tag, lines: seq<string>)
    ensures forall k :: 0 <= k < |lines| ==> Tagged(tag, lines)[k] == Op(tag, lines[k])
  {
    if lines != [] { TaggedLines(tag, lines[1..]); }
  }

  /** Inside every changed block the removals stand before the additions: an added line is never
      directly followed by a removed one. */
  lemma {:induction false} RemovalsComeFirst(a: seq<string>, b: seq<string>, k: nat)
    requires k + 1 < |Script(a, b)|
    ensures !(Script(a, b)[k].tag.Added? && Script(a, b)[k + 1].tag.Removed?)
    decreases |a| + |b|
  {
    var ops := Script(a, b);
    if a == [] || b == [] {
      TaggedLines(Removed, a);
      TaggedLines(Added, b);
    } else {
      var a', b' := if ops[0].tag.Added? then a else a[1..], if ops[0].tag.Removed? then b else b[1..];
      assert ops[1..] == Script(a', b');
      if k > 0 {
        RemovalsComeFirst(a', b', k - 1);
      } else if ops[0].tag.Added? {
        // Skipping b[0] was strictly better, so skipping a[0] next cannot be as good as the whole.
        LcsSymmetric(a[1..], b);
        LcsSymmetric(a[1..], b[1..]);
        LcsMonotone(b, a[1..]);
        AddedThenRemoved(a, b);
      }
    }
  }

  lemma AddedThenRemoved(a: seq<string>, b: seq<string>)
    requires a != [] && b != [] && a[0] != b[0]
    requires Lcs(a[1..], b) < Lcs(a, b[1..])
    requires Lcs(a[1..], b[1..]) <= Lcs(a[1..], b)
    ensures Script(a, b[1..]) != [] && !Script(a, b[1..])[0].tag.Removed?
  {
  }

  // --------------------------------------------- the table and the backtrack

  ghost predicate RowHolds(lcs: array2<u32>, a: seq<string>, b: seq<string>, i: nat)
    requires lcs.Length0 == |a| + 1 && lcs.Length1 == |b| + 1 && i <= |a|
    reads lcs
  {
    forall j :: 0 <= j <= |b| ==> lcs[i, j] as int == Lcs(a[i..], b[j..])
  }

  /** Every cell holds the LCS length of the two suffixes it stands for. */
  ghost predicate TableHolds(lcs: array2<u32>, a: seq<string>, b: seq<string>)
    reads lcs
  {
    lcs.Length0 == |a| + 1 && lcs.Length1 == |b| + 1 &&
    forall i :: 0 <= i <= |a| ==> RowHolds(lcs, a, b, i)
  }

  lemma CellStep(a: seq<string>, b: seq<string>, i: nat, j: nat)
    requires i < |a| && j < |b|
    ensures Lcs(a[i..], b[j..]) ==
            if a[i] == b[j] then Lcs(a[i + 1..], b[j + 1..]) + 1
            else if Lcs(a[i + 1..], b[j..]) >= Lcs(a[i..], b[j + 1..]) then Lcs(a[i + 1..], b[j..])
            else Lcs(a[i..], b[j + 1..])
    ensures Script(a[i..], b[j..]) ==
            if a[i] == b[j] then [Op(Keep, a[i])] + Script(a[i + 1..], b[j + 1..])
            else if Lcs(a[i + 1..], b[j..]) >= Lcs(a[i..], b[j + 1..]) then [Op(Removed, a[i])] + Script(a[i + 1..], b[j..])
            else [Op(Added, b[j])] + Script(a[i..], b[j + 1..])
  {
    assert a[i..][1..] == a[i + 1..] && b[j..][1..] == b[j + 1..];
  }

  /** Fills one row of the table from the row below it. */
  method FillRow(a: seq<string>, b: seq<string>, lcs: array2<u32>, i: nat)
    requires |a| <= MAX_DIFF_LINES && |b| <= MAX_DIFF_LINES && i < |a|
    requires lcs.Length0 == |a| + 1 && lcs.Length1 == |b| + 1
    requires RowHolds(lcs, a, b, i + 1) && lcs[i, |b|] == 0
    modifies lcs
    ensures RowHolds(lcs, a, b, i)
    ensures forall p, q :: 0 <= p <= |a| && p != i && 0 <= q <= |b| ==> lcs[p, q] == old(lcs[p, q])
  {
    for j := |b| downto 0
      invariant forall p, q :: 0 <= p <= |a| && p != i && 0 <= q <= |b| ==> lcs[p, q] == old(lcs[p, q])
      invariant RowHolds(lcs, a, b, i + 1)
      invariant forall q :: j <= q <= |b| ==> lcs[i, q] as int == Lcs(a[i..], b[q..])
    {
      CellStep(a, b, i, j);
      LcsFitsShorter(a[i + 1..], b[j + 1..]);
      assert lcs[i + 1, j] as int == Lcs(a[i + 1..], b[j..]);
      assert lcs[i + 1, j + 1] as int == Lcs(a[i + 1..], b[j + 1..]);
      lcs[i, j] :=
        if a[i] == b[j] then lcs[i + 1, j + 1] + 1
        else if lcs[i + 1, j] >= lcs[i, j + 1] then lcs[i + 1, j] else lcs[i, j + 1];
    }
  }

  /** Fills the table backwards. The cap on the lines keeps every cell inside `u32`. */
  method FillTable(a: seq<string>, b: seq<string>) returns (lcs: array2<u32>)
    requires |a| <= MAX_DIFF_LINES && |b| <= MAX_DIFF_LINES
    ensures fresh(lcs)
    ensures TableHolds(lcs, a, b)
  {
    lcs := new u32[|a| + 1, |b| + 1]((i, j) => 0);
    for i := |a| downto 0
      invariant fresh(lcs) && lcs.Length0 == |a| + 1 && lcs.Length1 == |b| + 1
      invariant forall p :: 0 <= p < i ==> lcs[p, |b|] == 0
      invariant forall p :: i <= p <= |a| ==> RowHolds(lcs, a, b, p)
    {
      label before:
      FillRow(a, b, lcs, i);
      forall p | i < p <= |a| ensures RowHolds(lcs, a, b, p) {
        assert old@before(RowHolds(lcs, a, b, p));
      }
    }
  }

  lemma TableAt(lcs: array2<u32>, a: seq<string>, b: seq<string>, i: nat, j: nat)
    requires TableHolds(lcs, a, b) && i <= |a| && j <= |b|
    ensures lcs[i, j] as int == Lcs(a[i..], b[j..])
  {
    hide Lcs;
    assert RowHolds(lcs, a, b, i);
  }

  lemma ScriptEnds(a: seq<string>, b: seq<string>, i: nat, j: nat)
    requires i <= |a| && j <= |b| && (i == |a| || j == |b|)
    ensures Script(a[i..], b[j..]) == Tagged(Removed, a[i..]) + Tagged(Added, b[j..])
  {
  }

  /** Reads the script off a filled table. */
  method Backtrack(a: seq<string>, b: seq<string>, lcs: array2<u32>) returns (ops: seq<Op>)
    requires TableHolds(lcs, a, b)
    ensures ops == Script(a, b)
  {
    hide Lcs, Script, Tagged, RowHolds;
    ops := [];
    var i, j := 0, 0;
    assert a[0..] == a && b[0..] == b && [] + Script(a, b) == Script(a, b);
    while i < |a| && j < |b|
      invariant 0 <= i <= |a| && 0 <= j <= |b|
      invariant ops + Script(a[i..], b[j..]) == Script(a, b)
    {
      CellStep(a, b, i, j);
      TableAt(lcs, a, b, i + 1, j);
      TableAt(lcs, a, b, i, j + 1);
      ghost var head := ops;
      if a[i] == b[j] {
        ops := ops + [Op(Keep, a[i])];
        i, j := i + 1, j + 1;
      } else if lcs[i + 1, j] >= lcs[i, j + 1] {
        ops := ops + [Op(Removed, a[i])];
        i := i + 1;
      } else {
        ops := ops + [Op(Added, b[j])];
        j := j + 1;
      }
      ConcatAssociates(head, [ops[|head|]], Script(a[i..], b[j..]));
    }
    ScriptEnds(a, b, i, j);
    ConcatAssociates(ops, Tagged(Removed, a[i..]), Tagged(Added, b[j..]));
    ops := ops + Tagged(Removed, a[i..]) + Tagged(Added, b[j..]);
  }

  // --------------------------------------------------------------- rendering

  /** The kept line at `k` is within two positions of a change (or is one). */
  predicate Shown(ops: seq<Op>, k: nat)
    requires k < |ops|
  {
    !ops[k].tag.Keep? || exists p | 0 <= p < |ops| && k - 2 <= p <= k + 2 :: !ops[p].tag.Keep?
  }

  /** One printed line: an operation, or the marker for an omitted run. */
  datatype Item = Line(op: Op) | Gap

  /** End of the maximal run of omitted operations that starts at `k`. */
  function RunEnd(ops: seq<Op>, k: nat): (e: nat)
    requires k <= |ops|
    ensures k <= e <= |ops|
    ensures forall p :: k <= p < e ==> !Shown(ops, p)
    ensures e < |ops| ==> Shown(ops, e)
    decreases |ops| - k
  {
    if k == |ops| || Shown(ops, k) then k else RunEnd(ops, k + 1)
  }

  /** The reference rendering: shown operations in order, one marker per maximal omitted run. */
  function Items(ops: seq<Op>, k: nat): seq<Item>
    requires k <= |ops|
    decreases |ops| - k
  {
    if k == |ops| then []
    else if Shown(ops, k) then [Line(ops[k])] + Items(ops, k + 1)
    else [Gap] + Items(ops, RunEnd(ops, k + 1))
  }

  /** The rendering loop with its pending-gap flag. */
  method RenderItems(ops: seq<Op>) returns (items: seq<Item>)
    ensures items == Items(ops, 0)
  {
    items := [];
    var gap := false;
    for k := 0 to |ops|
      invariant !gap ==> items + Items(ops, k) == Items(ops, 0)
      invariant gap ==> items + [Gap] + Items(ops, RunEnd(ops, k)) == Items(ops, 0)
    {
      ghost var before := items;
      if !Shown(ops, k) {
        assert items + ([Gap] + Items(ops, RunEnd(ops, k + 1))) == items + [Gap] + Items(ops, RunEnd(ops, k + 1));
        gap := true;
      } else {
        if gap {
          items := items + [Gap];
          gap := false;
        }
        assert items + ([Line(ops[k])] + Items(ops, k + 1)) == items + [Line(ops[k])] + Items(ops, k + 1);
        items := items + [Line(ops[k])];
      }
    }
    if gap {
      items := items + [Gap];
    }
  }

  function LinesOf(items: seq<Item>): seq<Op>
  {
    if items == [] then []
    else (if items[0].Line? then [items[0].op] else []) + LinesOf(items[1..])
  }

  function ShownOps(ops: seq<Op>, k: nat): seq<Op>
    requires k <= |ops|
    decreases |ops| - k
  {
    if k == |ops| then []
    else (if Shown(ops, k) then [ops[k]] else []) + ShownOps(ops, k + 1)
  }

  lemma {:induction false} SkipOmitted(ops: seq<Op>, k: nat, e: nat)
    requires k <= e <= |ops|
    requires forall p :: k <= p < e ==> !Shown(ops, p)
    ensures ShownOps(ops, k) == ShownOps(ops, e)
    decreases e - k
  {
    if k < e { SkipOmitted(ops, k + 1, e); }
  }

  /** No marker follows another. */
  predicate GapsAreApart(items: seq<Item>)
  {
    forall p :: 0 <= p < |items| - 1 ==> items[p].Line? || items[p + 1].Line?
  }

  /** Without the markers, exactly the shown operations are printed, in order; two markers never
      stand next to each other. */
  lemma {:induction false} ItemsShowExactly(ops: seq<Op>, k: nat)
    requires k <= |ops|
    ensures LinesOf(Items(ops, k)) == ShownOps(ops, k)
    ensures GapsAreApart(Items(ops, k))
    ensures k < |ops| ==> Items(ops, k) != [] && (Items(ops, k)[0].Gap? <==> !Shown(ops, k))
    decreases |ops| - k
  {
    if k < |ops| {
      hide Shown, Items, ShownOps, GapsAreApart, LinesOf, RunEnd;
      var next := if Shown(ops, k) then k + 1 else RunEnd(ops, k + 1);
      var item, rest := if Shown(ops, k) then Line(ops[k]) else Gap, Items(ops, next);
      FirstShown(ops, k);
      ItemsShowExactly(ops, next);
      assert Items(ops, k) == [item] + rest;
      GapsStayApart(item, rest);
      LinesOfCons(item, rest);
      if !Shown(ops, k) { SkipOmitted(ops, k, next); }
    }
  }

  lemma GapsStayApart(item: Item, rest: seq<Item>)
    requires GapsAreApart(rest) && (item.Line? || rest == [] || rest[0].Line?)
    ensures GapsAreApart([item] + rest)
  {
    var all := [item] + rest;
    forall p | 0 <= p < |all| - 1
      ensures all[p].Line? || all[p + 1].Line?
    {
      assert p > 0 ==> all[p] == rest[p - 1];
      assert all[p + 1] == rest[p];
    }
  }

  lemma LinesOfCons(item: Item, rest: seq<Item>)
    ensures LinesOf([item] + rest) == (if item.Line? then [item.op] else []) + LinesOf(rest)
  {
    assert ([item] + rest)[1..] == rest;
  }

  lemma FirstShown(ops: seq<Op>, k: nat)
    requires k < |ops|
    ensures Shown(ops, k) ==> Items(ops, k) == [Line(ops[k])] + Items(ops, k + 1) && ShownOps(ops, k) == [ops[k]] + ShownOps(ops, k + 1)
    ensures !Shown(ops, k) ==> Items(ops, k) == [Gap] + Items(ops, RunEnd(ops, k + 1))
  {
    hide Shown;
  }

  /** Where the stretch of the first item ends. */
  function StretchEnd(ops: seq<Op>, k: nat): (next: nat)
    requires k < |ops|
    ensures k < next <= |ops|
  {
    if Shown(ops, k) then k + 1 else RunEnd(ops, k + 1)
  }

  /** Where each item ends in the script. */
  function Cuts(ops: seq<Op>, k: nat): seq<nat>
    requires k <= |ops|
    decreases |ops| - k
  {
    if k == |ops| then [] else [StretchEnd(ops, k)] + Cuts(ops, StretchEnd(ops, k))
  }

  /** The item stands for the operations from `from` to `to`: a line for one shown operation, a marker
      for a run of omitted ones that nothing omitted follows. */
  predicate StandsFor(ops: seq<Op>, item: Item, from: nat, to: nat)
    requires from < to <= |ops|
  {
    match item
    case Line(op) => to == from + 1 && Shown(ops, from) && op == ops[from]
    case Gap => (forall p :: from <= p < to ==> !Shown(ops, p)) && (to < |ops| ==> Shown(ops, to))
  }

  /** The items cut the operations from `k` on into consecutive stretches, one for each item. */
  predicate Tiles(ops: seq<Op>, items: seq<Item>, cuts: seq<nat>, k: nat)
    decreases |items|
  {
    if items == [] then k == |ops| && cuts == []
    else
      cuts != [] && k < cuts[0] <= |ops| && StandsFor(ops, items[0], k, cuts[0]) &&
      Tiles(ops, items[1..], cuts[1..], cuts[0])
  }

  /** Every operation is printed or stands behind a marker, and the markers stand for exactly the
      maximal runs of omitted operations: a run is preceded by a printed line or the start, and ends
      only at a shown operation or the end of the script. */
  lemma {:induction false} ItemsTile(ops: seq<Op>, k: nat)
    requires k <= |ops|
    ensures Tiles(ops, Items(ops, k), Cuts(ops, k), k)
    decreases |ops| - k
  {
    if k < |ops| {
      hide Shown, StandsFor, Items, Cuts, StretchEnd;
      FirstItem(ops, k);
      FirstStandsFor(ops, k);
      ItemsTile(ops, StretchEnd(ops, k));
    }
  }

  lemma FirstItem(ops: seq<Op>, k: nat)
    requires k < |ops|
    ensures Items(ops, k) == [if Shown(ops, k) then Line(ops[k]) else Gap] + Items(ops, StretchEnd(ops, k))
    ensures Cuts(ops, k) == [StretchEnd(ops, k)] + Cuts(ops, StretchEnd(ops, k))
  {
    hide Shown, RunEnd;
  }

  lemma FirstStandsFor(ops: seq<Op>, k: nat)
    requires k < |ops|
    ensures StandsFor(ops, if Shown(ops, k) then Line(ops[k]) else Gap, k, StretchEnd(ops, k))
  {
    hide Shown, Items, Cuts;
  }

  /** The cutting determines the rendering: whatever tiles the operations that way is the list of
      printed items. */
  lemma {:induction false} TilesDetermine(ops: seq<Op>, items: seq<Item>, cuts: seq<nat>, k: nat)
    requires k <= |ops| && Tiles(ops, items, cuts, k)
    ensures items == Items(ops, k) && cuts == Cuts(ops, k)
    decreases |items|
  {
    if items != [] {
      hide StandsFor, Items, Cuts, Shown, StretchEnd;
      StretchIs(ops, items[0], k, cuts[0]);
      FirstItem(ops, k);
      TilesDetermine(ops, items[1..], cuts[1..], cuts[0]);
      assert items == [items[0]] + items[1..] && cuts == [cuts[0]] + cuts[1..];
    }
  }

  lemma StretchIs(ops: seq<Op>, item: Item, k: nat, e: nat)
    requires k < e <= |ops| && StandsFor(ops, item, k, e)
    ensures StretchEnd(ops, k) == e && item == if Shown(ops, k) then Line(ops[k]) else Gap
  {
    hide Shown, RunEnd;
    if item.Gap? {
      assert !Shown(ops, k);
      RunEndIs(ops, k + 1, e);
    }
  }

  lemma {:induction false} RunEndIs(ops: seq<Op>, k: nat, e: nat)
    requires k <= e <= |ops| && (forall p :: k <= p < e ==> !Shown(ops, p)) && (e < |ops| ==> Shown(ops, e))
    ensures RunEnd(ops, k) == e
    decreases e - k
  {
    if k < e { RunEndIs(ops, k + 1, e); }
  }

  /** No change is ever hidden: what the rendering drops is kept text only. */
  lemma {:induction false} ChangesSurvive(ops: seq<Op>, k: nat)
    requires k <= |ops|
    ensures Changes(ShownOps(ops, k)) == Changes(ops[k..])
    decreases |ops| - k
  {
    if k < |ops| {
      ChangesSurvive(ops, k + 1);
      assert ops[k..][1..] == ops[k + 1..];
      assert Shown(ops, k) ==> ShownOps(ops, k)[1..] == ShownOps(ops, k + 1);
      assert !Shown(ops, k) ==> ShownOps(ops, k) == ShownOps(ops, k + 1);
    }
  }

  // -------------------------------------------------------- escaping and text

  /** `char::is_control`: C0, DEL and C1. */
  predicate IsControl(c: char) { c as int < 0x20 || 0x7F <= c as int < 0xA0 }

  /** Control characters, bidi marks and overrides, separators and invisibles. */
  predicate IsUnsafe(c: char)
  {
    var n := c as int;
    IsControl(c) || n == 0xAD || n == 0x61C || n == 0x180E || 0x200B <= n <= 0x200F ||
    0x2028 <= n <= 0x202E || 0x2060 <= n <= 0x2064 || 0x2066 <= n <= 0x2069 || n == 0xFEFF
  }

  function EscapeChar(c: char): string
  {
    if c == '\n' then "\n"
    else if c == '\t' then "\\t"
    else if IsUnsafe(c) then "\\u{" + Numeral(c as int, Hex) + "}"
    else [c]
  }

  function Sanitized(s: string): string
  {
    if s == "" then "" else EscapeChar(s[0]) + Sanitized(s[1..])
  }

  lemma {:induction false} SanitizedSnoc(s: string, c: char)
    ensures Sanitized(s + [c]) == Sanitized(s) + EscapeChar(c)
  {
    hide EscapeChar;
    if s == "" {
      assert (s + [c])[1..] == "";
    } else {
      SanitizedSnoc(s[1..], c);
      var head, rest, last := EscapeChar(s[0]), Sanitized(s[1..]), EscapeChar(c);
      assert (s + [c])[0] == s[0] && (s + [c])[1..] == s[1..] + [c];
      ConcatAssociates(head, rest, last);
    }
  }

  method Sanitize(s: string) returns (out: string)
    ensures out == Sanitized(s)
  {
    hide EscapeChar;
    out := "";
    for k := 0 to |s|
      invariant out == Sanitized(s[..k])
    {
      SanitizedSnoc(s[..k], s[k]);
      assert s[..k + 1] == s[..k] + [s[k]];
      out := out + EscapeChar(s[k]);
    }
    assert s[..|s|] == s;
  }

  /** Nothing unsafe survives escaping except the newline, and newlines are neither made nor lost. */
  lemma {:induction false} SanitizedIsSafe(s: string)
    ensures forall c | c in Sanitized(s) :: c == '\n' || !IsUnsafe(c)
    ensures '\n' in Sanitized(s) <==> '\n' in s
  {
    if s != "" {
      SanitizedIsSafe(s[1..]);
    }
  }

  /** Escaping leaves a text alone exactly when it holds nothing to escape. */
  lemma {:induction false} SanitizedIdentity(s: string)
    ensures Sanitized(s) == s <==> (forall c | c in s :: c == '\n' || !IsUnsafe(c))
  {
    if s != "" {
      SanitizedIdentity(s[1..]);
      if EscapeChar(s[0]) == [s[0]] {
        assert Sanitized(s)[1..] == Sanitized(s[1..]);
        assert s == [s[0]] + s[1..];
      } else {
        SanitizedNotShorter(s[1..]);
        assert s[0] in s && s[0] != '\n' && IsUnsafe(s[0]);
        assert |EscapeChar(s[0])| > 1;
      }
    }
  }

  /** An escaped character can be read back: a tab by its letter, any other by its number in hexadecimal. */
  lemma EscapeReads(c: char)
    requires c != '\n' && IsUnsafe(c)
    ensures var text := Sanitized([c]);
            if c == '\t' then text == "\\t"
            else |text| > 4 && text[..3] == "\\u{" && text[|text| - 1] == '}' &&
                 DigitsValue(text[3..|text| - 1], Hex) == Some(c as int)
  {
    hide IsUnsafe;
    var hex := Numeral(c as int, Hex);
    assert Sanitized([c]) == EscapeChar(c);
    NumeralValue(c as int, Hex);
    if c != '\t' { assert EscapeChar(c)[3..|hex| + 3] == hex; }
  }

  lemma {:induction false} SanitizedNotShorter(s: string)
    ensures |Sanitized(s)| >= |s|
  {
    if s != "" { SanitizedNotShorter(s[1..]); }
  }

  function TagChar(tag: Tag): char
  {
    match tag case Keep => ' ' case Removed => '-' case Added => '+'
  }

  /** One output line. */
  function ItemText(item: Item): string
  {
    match item
    case Gap => "  ..."
    case Line(op) => [TagChar(op.tag), ' '] + Sanitized(op.line)
  }

  function ItemTexts(items: seq<Item>): (texts: seq<string>)
    ensures |texts| == |items|
  {
    if items == [] then [] else [ItemText(items[0])] + ItemTexts(items[1..])
  }

  /** The items shown for two texts. */
  function DiffItems(old_: string, new_: string): seq<Item>
  {
    Items(Script(SplitLines(old_), SplitLines(new_)), 0)
  }

  predicate OverCap(old_: string, new_: string)
  {
    |SplitLines(old_)| > MAX_DIFF_LINES || |SplitLines(new_)| > MAX_DIFF_LINES
  }

  lemma {:induction false} ItemTextsAreClean(items: seq<Item>)
    requires forall i | i in items :: i.Line? ==> '\n' !in i.op.line
    ensures forall t | t in ItemTexts(items) :: '\n' !in t && forall c | c in t :: !IsUnsafe(c)
  {
    if items != [] {
      ItemTextsAreClean(items[1..]);
      if items[0].Line? { SanitizedIsSafe(items[0].op.line); }
    }
  }

  lemma {:induction false} ItemsComeFromOps(ops: seq<Op>, k: nat)
    requires k <= |ops|
    ensures forall i | i in Items(ops, k) :: i.Line? ==> i.op in ops
    decreases |ops| - k
  {
    if k < |ops| {
      ItemsComeFromOps(ops, k + 1);
      ItemsComeFromOps(ops, RunEnd(ops, k + 1));
    }
  }

  lemma {:induction false} OpLinesComeFromTexts(ops: seq<Op>)
    ensures forall o | o in ops :: o.line in OldText(ops) || o.line in NewText(ops)
  {
    if ops != [] { OpLinesComeFromTexts(ops[1..]); }
  }

  /** The diff text cuts back into exactly its lines, and whatever the two texts hold, it prints no
      control, bidi or invisible character besides its own newlines. */
  lemma DiffTextIsFaithful(old_: string, new_: string)
    ensures var texts := ItemTexts(DiffItems(old_, new_));
            SplitLines(JoinLines(texts)) == texts &&
            forall t | t in texts :: forall c | c in t :: !IsUnsafe(c)
  {
    var a, b := SplitLines(old_), SplitLines(new_);
    var ops := Script(a, b);
    ScriptIsExact(a, b);
    OpLinesComeFromTexts(ops);
    ItemsComeFromOps(ops, 0);
    ItemTextsAreClean(Items(ops, 0));
    ItemsShowExactly(ops, 0);
    SplitAfterJoin(ItemTexts(Items(ops, 0)));
  }

  // ------------------------------------------------------- what the text says

  function SanitizedAll(lines: seq<string>): (r: seq<string>)
    ensures |r| == |lines|
  {
    if lines == [] then [] else [Sanitized(lines[0])] + SanitizedAll(lines[1..])
  }

  predicate Starts(line: string, sign: char) { |line| >= 2 && line[0] == sign && line[1] == ' ' }

  /** The lines with this sign, without it and the blank behind it. */
  function Signed(lines: seq<string>, sign: char): seq<string>
  {
    if lines == [] then []
    else (if Starts(lines[0], sign) then [lines[0][2..]] else []) + Signed(lines[1..], sign)
  }

  /** The lines with this sign or none. */
  function Side(lines: seq<string>, sign: char): seq<string>
  {
    if lines == [] then []
    else (if Starts(lines[0], sign) || Starts(lines[0], ' ') then [lines[0][2..]] else []) + Side(lines[1..], sign)
  }

  /** The printed lines lead from `a` to `b`: `- ` shows the next line of `a`, `+ ` the next of `b`, two blanks
      the next of both, and `  ...` stands for one or more lines that both have next. */
  ghost predicate Reads(lines: seq<string>, a: seq<string>, b: seq<string>)
  {
    if lines == [] then a == [] && b == []
    else
      var line, rest := lines[0], lines[1..];
      (Starts(line, '-') && a != [] && line[2..] == Sanitized(a[0]) && Reads(rest, a[1..], b)) ||
      (Starts(line, '+') && b != [] && line[2..] == Sanitized(b[0]) && Reads(rest, a, b[1..])) ||
      (Starts(line, ' ') && a != [] && b != [] && a[0] == b[0] && line[2..] == Sanitized(a[0]) &&
       Reads(rest, a[1..], b[1..])) ||
      (line == "  ..." &&
       exists n :: 0 < n <= |a| && n <= |b| && a[..n] == b[..n] && Reads(rest, a[n..], b[n..]))
  }

  /** `all` is `c` and `d` shuffled together. */
  ghost predicate Merges(c: seq<string>, d: seq<string>, all: seq<string>)
  {
    if all == [] then c == [] && d == []
    else
      (c != [] && c[0] == all[0] && Merges(c[1..], d, all[1..])) ||
      (d != [] && d[0] == all[0] && Merges(c, d[1..], all[1..]))
  }

  /** What the signs stand for: apart from lines common to both texts, the `- ` lines are what the old one has
      and the `+ ` lines what the new one has, each in order, and no more lines are signed than must be. */
  ghost predicate SignsTell(lines: seq<string>, a: seq<string>, b: seq<string>)
  {
    exists kept, removed, added ::
      Merges(kept, removed, a) && Merges(kept, added, b) && |kept| == Lcs(a, b) &&
      Signed(lines, '-') == SanitizedAll(removed) && Signed(lines, '+') == SanitizedAll(added)
  }

  function TaggedAs(ops: seq<Op>, tag: Tag): seq<string>
  {
    if ops == [] then [] else (if ops[0].tag == tag then [ops[0].line] else []) + TaggedAs(ops[1..], tag)
  }

  lemma MergeLeft(line: string, c: seq<string>, d: seq<string>, all: seq<string>)
    requires Merges(c, d, all)
    ensures Merges([line] + c, d, [line] + all)
  {
    assert ([line] + c)[1..] == c && ([line] + all)[1..] == all;
  }

  lemma MergeRight(line: string, c: seq<string>, d: seq<string>, all: seq<string>)
    requires Merges(c, d, all)
    ensures Merges(c, [line] + d, [line] + all)
  {
    assert ([line] + d)[1..] == d && ([line] + all)[1..] == all;
  }

  lemma {:induction false} ScriptMerges(ops: seq<Op>)
    ensures Merges(KeptLines(ops), TaggedAs(ops, Removed), OldText(ops))
    ensures Merges(KeptLines(ops), TaggedAs(ops, Added), NewText(ops))
  {
    if ops != [] {
      hide Merges;
      var line, rest := ops[0].line, ops[1..];
      ScriptMerges(rest);
      match ops[0].tag
      case Keep =>
        assert TaggedAs(ops, Removed) == TaggedAs(rest, Removed) && TaggedAs(ops, Added) == TaggedAs(rest, Added);
        MergeLeft(line, KeptLines(rest), TaggedAs(rest, Removed), OldText(rest));
        MergeLeft(line, KeptLines(rest), TaggedAs(rest, Added), NewText(rest));
      case Removed =>
        assert TaggedAs(ops, Added) == TaggedAs(rest, Added) && NewText(ops) == NewText(rest) && KeptLines(ops) == KeptLines(rest);
        MergeRight(line, KeptLines(rest), TaggedAs(rest, Removed), OldText(rest));
      case Added =>
        assert TaggedAs(ops, Removed) == TaggedAs(rest, Removed) && OldText(ops) == OldText(rest) && KeptLines(ops) == KeptLines(rest);
        MergeRight(line, KeptLines(rest), TaggedAs(rest, Added), NewText(rest));
    } else {
      assert Merges([], [], []);
    }
  }

  lemma FrontOp(ops: seq<Op>, k: nat)
    requires k < |ops|
    ensures var op, rest := ops[k], ops[k + 1..];
            && OldText(ops[k..]) == (if op.tag.Added? then [] else [op.line]) + OldText(rest)
            && NewText(ops[k..]) == (if op.tag.Removed? then [] else [op.line]) + NewText(rest)
            && TaggedAs(ops[k..], Removed) == (if op.tag.Removed? then [op.line] else []) + TaggedAs(rest, Removed)
            && TaggedAs(ops[k..], Added) == (if op.tag.Added? then [op.line] else []) + TaggedAs(rest, Added)
  {
    assert ops[k..][1..] == ops[k + 1..];
  }

  /** The text of a run of kept lines is the same on both sides. */
  lemma {:induction false} KeptRun(ops: seq<Op>, k: nat, e: nat) returns (run: seq<string>)
    requires k <= e <= |ops| && forall p :: k <= p < e ==> ops[p].tag.Keep?
    ensures |run| == e - k
    ensures OldText(ops[k..]) == run + OldText(ops[e..]) && NewText(ops[k..]) == run + NewText(ops[e..])
    ensures TaggedAs(ops[k..], Removed) == TaggedAs(ops[e..], Removed)
    ensures TaggedAs(ops[k..], Added) == TaggedAs(ops[e..], Added)
    decreases e - k
  {
    hide OldText, NewText, TaggedAs;
    run := [];
    if k < e {
      FrontOp(ops, k);
      var rest := KeptRun(ops, k + 1, e);
      run := [ops[k].line] + rest;
      ConcatAssociates([ops[k].line], rest, OldText(ops[e..]));
      ConcatAssociates([ops[k].line], rest, NewText(ops[e..]));
    }
  }

  /** One more printed line, signed or not. */
  lemma SignedLine(op: Op, rest: seq<string>, tagged: seq<string>, sign: char)
    requires (sign == '-' || sign == '+') && Signed(rest, sign) == SanitizedAll(tagged)
    ensures var tag := if sign == '-' then Removed else Added;
            Signed([ItemText(Line(op))] + rest, sign) == SanitizedAll((if op.tag == tag then [op.line] else []) + tagged)
  {
    hide Sanitized;
    var lines := [ItemText(Line(op))] + rest;
    assert lines[1..] == rest && lines[0][2..] == Sanitized(op.line);
    assert ([op.line] + tagged)[1..] == tagged && [] + tagged == tagged;
  }

  lemma SignedGap(rest: seq<string>, sign: char)
    requires sign == '-' || sign == '+'
    ensures Signed([ItemText(Gap)] + rest, sign) == Signed(rest, sign)
  {
    assert ([ItemText(Gap)] + rest)[1..] == rest;
  }

  lemma {:induction false} ItemsAreSigned(ops: seq<Op>, k: nat)
    requires k <= |ops|
    ensures Signed(ItemTexts(Items(ops, k)), '-') == SanitizedAll(TaggedAs(ops[k..], Removed))
    ensures Signed(ItemTexts(Items(ops, k)), '+') == SanitizedAll(TaggedAs(ops[k..], Added))
    decreases |ops| - k
  {
    if k < |ops| {
      hide Shown, Sanitized, SanitizedAll, ItemText, Signed, TaggedAs, Items;
      var next := StretchEnd(ops, k);
      var item := if Shown(ops, k) then Line(ops[k]) else Gap;
      var rest := ItemTexts(Items(ops, next));
      FirstItem(ops, k);
      ItemsAreSigned(ops, next);
      assert Items(ops, k)[1..] == Items(ops, next);
      if Shown(ops, k) {
        FrontOp(ops, k);
        SignedLine(ops[k], rest, TaggedAs(ops[next..], Removed), '-');
        SignedLine(ops[k], rest, TaggedAs(ops[next..], Added), '+');
      } else {
        SignedGap(rest, '-');
        SignedGap(rest, '+');
        OmittedIsKept(ops, k, next);
        var run := KeptRun(ops, k, next);
      }
    }
  }

  lemma OmittedIsKept(ops: seq<Op>, k: nat, e: nat)
    requires k < |ops| && !Shown(ops, k) && e == StretchEnd(ops, k)
    ensures forall p :: k <= p < e ==> ops[p].tag.Keep?
  {
    forall p | k <= p < e
      ensures ops[p].tag.Keep?
    {
      assert !Shown(ops, p);
    }
  }

  lemma {:induction false} ItemsRead(ops: seq<Op>, k: nat)
    requires k <= |ops|
    ensures Reads(ItemTexts(Items(ops, k)), OldText(ops[k..]), NewText(ops[k..]))
    decreases |ops| - k
  {
    if k < |ops| {
      hide Shown, Sanitized, ItemText, Items, Reads, OldText, NewText;
      var next := StretchEnd(ops, k);
      var rest := ItemTexts(Items(ops, next));
      FirstItem(ops, k);
      ItemsRead(ops, next);
      assert Items(ops, k)[1..] == Items(ops, next);
      if Shown(ops, k) {
        FrontOp(ops, k);
        LineReads(ops[k], rest, OldText(ops[next..]), NewText(ops[next..]));
      } else {
        OmittedIsKept(ops, k, next);
        var run := KeptRun(ops, k, next);
        GapReads(rest, OldText(ops[k..]), NewText(ops[k..]), next - k);
      }
    }
  }

  lemma LineReads(op: Op, rest: seq<string>, a: seq<string>, b: seq<string>)
    requires Reads(rest, a, b)
    ensures Reads([ItemText(Line(op))] + rest,
                  (if op.tag.Added? then [] else [op.line]) + a, (if op.tag.Removed? then [] else [op.line]) + b)
  {
    hide Sanitized;
    var lines := [ItemText(Line(op))] + rest;
    assert lines[1..] == rest && lines[0][2..] == Sanitized(op.line);
    assert ([op.line] + a)[1..] == a && ([op.line] + b)[1..] == b && [] + a == a && [] + b == b;
  }

  lemma GapReads(rest: seq<string>, a: seq<string>, b: seq<string>, n: nat)
    requires 0 < n <= |a| && n <= |b| && a[..n] == b[..n] && Reads(rest, a[n..], b[n..])
    ensures Reads([ItemText(Gap)] + rest, a, b)
  {
    assert ([ItemText(Gap)] + rest)[1..] == rest;
  }

  /** The printed diff can be read: it leads from the old text to the new one, and signs no line without need. */
  lemma DiffReads(old_: string, new_: string)
    ensures var lines := SplitLines(JoinLines(ItemTexts(DiffItems(old_, new_))));
            Reads(lines, SplitLines(old_), SplitLines(new_)) && SignsTell(lines, SplitLines(old_), SplitLines(new_))
  {
    hide Items, ItemTexts, Reads, Lcs, Merges, SplitLines, JoinLines, Signed, SanitizedAll, Script;
    var a, b := SplitLines(old_), SplitLines(new_);
    var ops := Script(a, b);
    DiffTextIsFaithful(old_, new_);
    ScriptIsExact(a, b);
    assert ops[0..] == ops;
    ItemsRead(ops, 0);
    ItemsAreSigned(ops, 0);
    ScriptMerges(ops);
  }

  lemma {:induction false} MergeCount(c: seq<string>, d: seq<string>, all: seq<string>)
    requires Merges(c, d, all)
    ensures |all| == |c| + |d|
  {
    if all != [] {
      if c != [] && c[0] == all[0] && Merges(c[1..], d, all[1..]) {
        MergeCount(c[1..], d, all[1..]);
      } else {
        MergeCount(c, d[1..], all[1..]);
      }
    }
  }

  /** As many lines are signed as the old text and the new one have beyond their longest common
      subsequence. */
  lemma SignsAreCounted(lines: seq<string>, a: seq<string>, b: seq<string>)
    requires SignsTell(lines, a, b)
    ensures |Signed(lines, '-')| == |a| - Lcs(a, b) && |Signed(lines, '+')| == |b| - Lcs(a, b)
  {
    hide Lcs, Merges, Signed;
    var kept, removed, added :|
      Merges(kept, removed, a) && Merges(kept, added, b) && |kept| == Lcs(a, b) &&
      Signed(lines, '-') == SanitizedAll(removed) && Signed(lines, '+') == SanitizedAll(added);
    MergeCount(kept, removed, a);
    MergeCount(kept, added, b);
  }

  /** With no marker among its lines a diff shows both texts whole: its unsigned lines and its `- ` lines
      spell the old one, its unsigned lines and its `+ ` lines the new one. */
  lemma {:induction false} SidesSpell(lines: seq<string>, a: seq<string>, b: seq<string>)
    requires Reads(lines, a, b) && "  ..." !in lines
    ensures Side(lines, '-') == SanitizedAll(a) && Side(lines, '+') == SanitizedAll(b)
  {
    hide Sanitized;
    if lines != [] {
      var line, rest := lines[0], lines[1..];
      assert "  ..." !in rest;
      if Starts(line, '-') {
        SidesSpell(rest, a[1..], b);
      } else if Starts(line, '+') {
        SidesSpell(rest, a, b[1..]);
      } else {
        SidesSpell(rest, a[1..], b[1..]);
      }
    }
  }

  predicate IsPlain(line: string) { forall c | c in line :: !IsUnsafe(c) }

  lemma {:induction false} PlainLines(lines: seq<string>)
    requires forall l | l in lines :: IsPlain(l)
    ensures SanitizedAll(lines) == lines
  {
    if lines != [] {
      hide Sanitized;
      assert IsPlain(lines[0]);
      SanitizedIdentity(lines[0]);
      PlainLines(lines[1..]);
      assert lines == [lines[0]] + lines[1..];
    }
  }

  /** Texts without anything to escape are spelled as they are. */
  lemma PlainSidesSpell(lines: seq<string>, a: seq<string>, b: seq<string>)
    requires Reads(lines, a, b) && "  ..." !in lines
    requires forall l | l in a + b :: IsPlain(l)
    ensures Side(lines, '-') == a && Side(lines, '+') == b
  {
    hide Reads, IsPlain, SanitizedAll;
    SidesSpell(lines, a, b);
    assert forall l | l in a :: l in a + b;
    assert forall l | l in b :: l in a + b;
    PlainLines(a);
    PlainLines(b);
  }

  method LineDiff(old_: string, new_: string) returns (text: string)
    ensures OverCap(old_, new_) ==>
      text == "changed (" + Numeral(|SplitLines(old_)|, Dec) + " lines -> " + Numeral(|SplitLines(new_)|, Dec) + " lines)"
    ensures !OverCap(old_, new_) ==> text == JoinLines(ItemTexts(DiffItems(old_, new_)))
    ensures !OverCap(old_, new_) ==>
      Reads(SplitLines(text), SplitLines(old_), SplitLines(new_)) && SignsTell(SplitLines(text), SplitLines(old_), SplitLines(new_))
  {
    var a, b := SplitLines(old_), SplitLines(new_);
    if |a| > MAX_DIFF_LINES || |b| > MAX_DIFF_LINES {
      return "changed (" + Numeral(|a|, Dec) + " lines -> " + Numeral(|b|, Dec) + " lines)";
    }
    var lcs := FillTable(a, b);
    var ops := Backtrack(a, b, lcs);
    var items := RenderItems(ops);
    text := JoinLines(ItemTexts(items));
    DiffReads(old_, new_);
  }
}

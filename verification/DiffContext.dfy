/** How much of the unchanged text a diff shows around the changes, read off its lines
    (crates/tole-cli/src/config_trust.rs). */
module DiffContext {
  import opened Common
  import opened Text
  import opened LineDiff

  /** Where the operations of the `i`-th printed item start. */
  function Position(ops: seq<Op>, i: nat): (p: nat)
    ensures p <= |ops|
  {
    if i == 0 then 0
    else
      var before := Position(ops, i - 1);
      if before < |ops| then StretchEnd(ops, before) else before
  }

  function ItemAt(ops: seq<Op>, p: nat): Item
    requires p < |ops|
  {
    if Shown(ops, p) then Line(ops[p]) else Gap
  }

  lemma {:induction false} ItemsFrom(ops: seq<Op>, i: nat)
    requires i <= |Items(ops, 0)|
    ensures Items(ops, 0)[i..] == Items(ops, Position(ops, i))
  {
    hide Shown, StretchEnd, Items;
    if i > 0 {
      ItemsFrom(ops, i - 1);
      var p := Position(ops, i - 1);
      assert Items(ops, 0)[i - 1..] != [];
      assert p < |ops| by { NothingLeft(ops, p); }
      FirstItem(ops, p);
      assert Items(ops, 0)[i..] == Items(ops, 0)[i - 1..][1..];
    }
  }

  lemma NothingLeft(ops: seq<Op>, p: nat)
    requires p <= |ops|
    ensures p == |ops| ==> Items(ops, p) == []
    ensures p < |ops| ==> Items(ops, p) != []
  {
    hide Shown;
  }

  /** The `i`-th item is that of its position, and there is one more exactly when operations are left. */
  lemma ItemIs(ops: seq<Op>, i: nat)
    requires i < |Items(ops, 0)|
    ensures var p := Position(ops, i);
            p < |ops| && Items(ops, 0)[i] == ItemAt(ops, p) && Position(ops, i + 1) == StretchEnd(ops, p)
    ensures i + 1 < |Items(ops, 0)| <==> Position(ops, i + 1) < |ops|
  {
    hide Shown, StretchEnd, Items;
    ItemsFrom(ops, i);
    ItemsFrom(ops, i + 1);
    NothingLeft(ops, Position(ops, i));
    NothingLeft(ops, Position(ops, i + 1));
    FirstItem(ops, Position(ops, i));
    assert Items(ops, 0)[i..][0] == Items(ops, 0)[i];
  }

  /** A shown operation is followed by the item of the next one. */
  lemma NextItem(ops: seq<Op>, i: nat)
    requires i < |Items(ops, 0)| && Position(ops, i) < |ops| && Shown(ops, Position(ops, i))
    ensures Position(ops, i + 1) == Position(ops, i) + 1
  {
    hide Shown, Items;
    ItemIs(ops, i);
  }

  /** It follows that of the one before, when that is shown too. */
  lemma PreviousItem(ops: seq<Op>, i: nat)
    requires i < |Items(ops, 0)| && Position(ops, i) > 0 && Shown(ops, Position(ops, i) - 1)
    ensures i > 0 && Position(ops, i - 1) == Position(ops, i) - 1
  {
    hide Shown, Items;
    if i > 0 { ItemIs(ops, i - 1); }
  }

  /** What is near a change is shown. */
  lemma NearIsShown(ops: seq<Op>, p: nat, q: nat)
    requires p < |ops| && q < |ops| && p - 2 <= q <= p + 2 && !ops[p].tag.Keep?
    ensures Shown(ops, q)
  {
  }

  lemma ShownIsNear(ops: seq<Op>, q: nat) returns (p: nat)
    requires q < |ops| && Shown(ops, q)
    ensures p < |ops| && p - 2 <= q <= p + 2 && !ops[p].tag.Keep?
  {
    if !ops[q].tag.Keep? {
      p := q;
    } else {
      p :| 0 <= p < |ops| && q - 2 <= p <= q + 2 && !ops[p].tag.Keep?;
    }
  }

  /** Going from a shown operation to a change near it, the items keep step with the operations. */
  lemma KeepStep(ops: seq<Op>, i: nat, p: nat) returns (j: nat)
    requires i < |Items(ops, 0)| && p < |ops| && !ops[p].tag.Keep?
    requires p - 2 <= Position(ops, i) <= p + 2
    ensures j < |Items(ops, 0)| && j - 2 <= i <= j + 2 && Position(ops, j) == p
    decreases if Position(ops, i) < p then p - Position(ops, i) else Position(ops, i) - p
  {
    hide Shown, Items, Position;
    var q := Position(ops, i);
    ItemIs(ops, i);
    if q < p {
      NearIsShown(ops, p, q);
      NextItem(ops, i);
      j := Ahead(ops, i, p);
    } else if p < q {
      NearIsShown(ops, p, q - 1);
      PreviousItem(ops, i);
      j := Behind(ops, i, p);
    } else {
      j := i;
    }
  }

  lemma Ahead(ops: seq<Op>, i: nat, p: nat) returns (j: nat)
    requires i < |Items(ops, 0)| && p < |ops| && !ops[p].tag.Keep?
    requires Position(ops, i) <= p <= Position(ops, i) + 2
    ensures j < |Items(ops, 0)| && j == i + (p - Position(ops, i)) && Position(ops, j) == p
    decreases p - Position(ops, i)
  {
    hide Shown, Items, Position;
    j := i;
    if Position(ops, i) < p {
      ItemIs(ops, i);
      NearIsShown(ops, p, Position(ops, i));
      NextItem(ops, i);
      j := Ahead(ops, i + 1, p);
    }
  }

  lemma Behind(ops: seq<Op>, i: nat, p: nat) returns (j: nat)
    requires i < |Items(ops, 0)| && p < |ops| && !ops[p].tag.Keep?
    requires p <= Position(ops, i) <= p + 2
    ensures j < |Items(ops, 0)| && i == j + (Position(ops, i) - p) && Position(ops, j) == p
    decreases Position(ops, i) - p
  {
    hide Shown, Items, Position;
    j := i;
    if p < Position(ops, i) {
      ItemIs(ops, i);
      NearIsShown(ops, p, Position(ops, i) - 1);
      PreviousItem(ops, i);
      j := Behind(ops, i - 1, p);
    }
  }

  predicate IsChange(item: Item) { item.Line? && !item.op.tag.Keep? }

  /** Two items at most lie between a kept line and a change, and more than two around a marker. */
  lemma ItemsKeepDistance(ops: seq<Op>, i: nat)
    requires i < |Items(ops, 0)|
    ensures var items := Items(ops, 0);
            if items[i].Line? then exists j | 0 <= j < |items| && i - 2 <= j <= i + 2 :: IsChange(items[j])
            else forall j | 0 <= j < |items| && i - 2 <= j <= i + 2 :: !IsChange(items[j])
  {
    hide Shown, Items, Position;
    ItemIs(ops, i);
    var items := Items(ops, 0);
    if items[i].Line? {
      var p := ShownIsNear(ops, Position(ops, i));
      var j := KeepStep(ops, i, p);
      ItemIs(ops, j);
      NearIsShown(ops, p, p);
      assert IsChange(items[j]);
    } else {
      forall j | 0 <= j < |items| && i - 2 <= j <= i + 2
        ensures !IsChange(items[j])
      {
        MarkerIsFar(ops, i, j);
      }
    }
  }

  lemma MarkerIsFar(ops: seq<Op>, i: nat, j: nat)
    requires i < |Items(ops, 0)| && j < |Items(ops, 0)| && i - 2 <= j <= i + 2 && Items(ops, 0)[i].Gap?
    ensures !IsChange(Items(ops, 0)[j])
  {
    hide Shown, Items, Position;
    ItemIs(ops, j);
    ItemIs(ops, i);
    if IsChange(Items(ops, 0)[j]) {
      var p := Position(ops, j);
      NearIsShown(ops, p, p);
      if j < i { MarkerBehind(ops, j, i); } else if i < j { MarkerAhead(ops, i, j); }
    }
  }

  /** The item after a change stands for a shown operation, and so does the one after that. */
  lemma MarkerBehind(ops: seq<Op>, j: nat, i: nat)
    requires j < i <= j + 2 && i < |Items(ops, 0)| && IsChange(Items(ops, 0)[j])
    ensures Items(ops, 0)[i].Line?
  {
    hide Shown, Items, Position;
    ItemIs(ops, j);
    ItemIs(ops, j + 1);
    ItemIs(ops, i);
    var p := Position(ops, j);
    NearIsShown(ops, p, p);
    NextItem(ops, j);
    NearIsShown(ops, p, p + 1);
    if i == j + 2 {
      NextItem(ops, j + 1);
      NearIsShown(ops, p, p + 2);
    }
  }

  lemma MarkerAhead(ops: seq<Op>, i: nat, j: nat)
    requires i < j <= i + 2 && j < |Items(ops, 0)| && IsChange(Items(ops, 0)[j])
    ensures Items(ops, 0)[i].Line?
  {
    hide Shown, Items, Position;
    ItemIs(ops, j);
    ItemIs(ops, i);
    ItemIs(ops, i + 1);
    var p := Position(ops, j);
    assert p > 0 by { Grows(ops, j); }
    NearIsShown(ops, p, p - 1);
    PreviousItem(ops, j);
    if i == j - 2 {
      assert p - 1 > 0 by { Grows(ops, j - 1); }
      NearIsShown(ops, p, p - 2);
      PreviousItem(ops, j - 1);
    }
  }

  lemma Grows(ops: seq<Op>, i: nat)
    requires 0 < i < |Items(ops, 0)|
    ensures Position(ops, i) > 0
  {
    hide Shown, Items, Position;
    ItemIs(ops, i - 1);
  }

  predicate IsSigned(line: string) { Starts(line, '-') || Starts(line, '+') }

  /** In the text of a diff, a line of context has a signed line at most two lines away; around the marker of
      an omission, unless the old text has a line of three dots to be taken for one, no signed line is that
      near. */
  lemma ContextIsTwoLines(old_: string, new_: string, i: nat)
    requires !OverCap(old_, new_)
    ensures var lines := SplitLines(JoinLines(ItemTexts(DiffItems(old_, new_))));
            i < |lines| ==>
              && (Starts(lines[i], ' ') && lines[i] != "  ..." ==>
                    exists j | 0 <= j < |lines| && i - 2 <= j <= i + 2 :: IsSigned(lines[j]))
              && (lines[i] == "  ..." && "..." !in SplitLines(old_) ==>
                    forall j | 0 <= j < |lines| && i - 2 <= j <= i + 2 :: !IsSigned(lines[j]))
  {
    hide Items, SplitLines, JoinLines, Script, OverCap;
    var items := DiffItems(old_, new_);
    var lines := ItemTexts(items);
    DiffTextIsFaithful(old_, new_);
    if i < |lines| {
      ItemsKeepDistance(Script(SplitLines(old_), SplitLines(new_)), i);
      forall j | 0 <= j < |lines|
        ensures lines[j] == ItemText(items[j]) && (IsSigned(lines[j]) <==> IsChange(items[j]))
      {
        TextAt(items, j);
      }
      if items[i].Line? && lines[i] == "  ..." && !IsChange(items[i]) { DotsAreOld(old_, new_, i); }
    }
  }

  lemma {:induction false} TextAt(items: seq<Item>, j: nat)
    requires j < |items|
    ensures ItemTexts(items)[j] == ItemText(items[j]) && (IsSigned(ItemText(items[j])) <==> IsChange(items[j]))
  {
    hide Sanitized;
    if j > 0 { TextAt(items[1..], j - 1); }
  }

  /** Only a line of three dots is printed like the marker. */
  lemma DotsAreOld(old_: string, new_: string, i: nat)
    requires i < |DiffItems(old_, new_)|
    requires var item := DiffItems(old_, new_)[i]; item.Line? && item.op.tag.Keep? && ItemText(item) == "  ..."
    ensures "..." in SplitLines(old_)
  {
    hide Items, SplitLines, Script;
    var ops := Script(SplitLines(old_), SplitLines(new_));
    var op := DiffItems(old_, new_)[i].op;
    ItemsComeFromOps(ops, 0);
    ScriptIsExact(SplitLines(old_), SplitLines(new_));
    KeptIsOld(ops, op);
    assert Sanitized(op.line) == ItemText(DiffItems(old_, new_)[i])[2..] == "...";
    OnlyDots(op.line);
  }

  lemma {:induction false} KeptIsOld(ops: seq<Op>, op: Op)
    requires op in ops && op.tag.Keep?
    ensures op.line in OldText(ops)
  {
    if op != ops[0] { KeptIsOld(ops[1..], op); }
  }

  lemma {:induction false} OnlyDots(line: string)
    requires forall c | c in Sanitized(line) :: c == '.'
    ensures Sanitized(line) == line
  {
    if line != "" {
      var first := EscapeChar(line[0]);
      assert first[0] in Sanitized(line);
      assert first == [line[0]];
      assert forall c | c in Sanitized(line[1..]) :: c in Sanitized(line);
      OnlyDots(line[1..]);
      assert line == [line[0]] + line[1..];
    }
  }
}

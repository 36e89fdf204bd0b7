/** The fork tree of `sessions --tree` (crates/tole-cli/src/session_index.rs). */
module ForkTree {
  import opened Common
  import opened Text

  const MAX_DEPTH: nat := 64

  datatype Node = Node(id: string, parent: Option<string>, at: Option<string>, pc: string, turns: nat)

  // ------------------------------------------------------------ sorting by id

  predicate AtMost(a: string, b: string) { !TextLess(b, a) }

  lemma AtMostOrders(a: string, b: string, c: string)
    ensures AtMost(a, b) || AtMost(b, a)
    ensures AtMost(a, b) && AtMost(b, c) ==> AtMost(a, c)
  {
    TextLessTotal(a, b);
    TextLessTotal(b, c);
    if TextLess(c, a) && TextLess(a, b) { TextLessTransitive(c, a, b); }
  }

  predicate SortedById(nodes: seq<Node>)
  {
    forall i, j :: 0 <= i < j < |nodes| ==> AtMost(nodes[i].id, nodes[j].id)
  }

  function Insert(n: Node, nodes: seq<Node>): seq<Node>
  {
    if nodes == [] || AtMost(n.id, nodes[0].id) then [n] + nodes else [nodes[0]] + Insert(n, nodes[1..])
  }

  /** `sort_by`, which is stable. */
  function Sort(nodes: seq<Node>): seq<Node>
  {
    if nodes == [] then [] else Insert(nodes[0], Sort(nodes[1..]))
  }

  lemma {:induction false} InsertKeepsAll(n: Node, nodes: seq<Node>)
    ensures multiset(Insert(n, nodes)) == multiset(nodes) + multiset{n}
  {
    if !(nodes == [] || AtMost(n.id, nodes[0].id)) {
      InsertKeepsAll(n, nodes[1..]);
      assert nodes == [nodes[0]] + nodes[1..];
    }
  }

  lemma InFrontOf(n: Node, nodes: seq<Node>)
    requires SortedById(nodes) && forall m | m in nodes :: AtMost(n.id, m.id)
    ensures SortedById([n] + nodes)
  {
    hide AtMost;
  }

  lemma {:induction false} InsertSorts(n: Node, nodes: seq<Node>)
    requires SortedById(nodes)
    ensures SortedById(Insert(n, nodes))
  {
    hide AtMost;
    if nodes == [] {
    } else if AtMost(n.id, nodes[0].id) {
      forall m | m in nodes
        ensures AtMost(n.id, m.id)
      {
        var j :| 0 <= j < |nodes| && nodes[j] == m;
        if j > 0 { AtMostOrders(n.id, nodes[0].id, m.id); }
      }
      InFrontOf(n, nodes);
    } else {
      AtMostOrders(n.id, nodes[0].id, n.id);
      InsertSorts(n, nodes[1..]);
      InsertKeepsAll(n, nodes[1..]);
      forall m | m in Insert(n, nodes[1..])
        ensures AtMost(nodes[0].id, m.id)
      {
        assert m in multiset(nodes[1..]) + multiset{n};
      }
      InFrontOf(nodes[0], Insert(n, nodes[1..]));
    }
  }

  /** The nodes come out in the order of their ids, and none is lost. */
  lemma SortIsByText(nodes: seq<Node>, i: nat, j: nat)
    requires i < j < |Sort(nodes)|
    ensures TextLess(Sort(nodes)[i].id, Sort(nodes)[j].id) || Sort(nodes)[i].id == Sort(nodes)[j].id
    ensures multiset(Sort(nodes)) == multiset(nodes)
  {
    SortSorts(nodes);
    assert AtMost(Sort(nodes)[i].id, Sort(nodes)[j].id);
    TextLessTotal(Sort(nodes)[i].id, Sort(nodes)[j].id);
  }

  lemma {:induction false} SortSorts(nodes: seq<Node>)
    ensures SortedById(Sort(nodes)) && multiset(Sort(nodes)) == multiset(nodes)
  {
    if nodes != [] {
      hide AtMost, Insert, SortedById;
      SortSorts(nodes[1..]);
      InsertSorts(nodes[0], Sort(nodes[1..]));
      InsertKeepsAll(nodes[0], Sort(nodes[1..]));
      assert nodes == [nodes[0]] + nodes[1..];
    } else {
      assert SortedById([]);
    }
  }

  // ------------------------------------------------------------------- the walk

  /** One printed line: which session, how deeply nested. */
  datatype Row = Row(k: nat, depth: nat)

  predicate IsRoot(all: seq<Node>, k: nat)
    requires k < |all|
  {
    all[k].parent.None? || forall n | n in all :: n.id != all[k].parent.value
  }

  /** The lines for session `k` and the forks below it. */
  function Rows(all: seq<Node>, k: nat, depth: nat): (rows: seq<Row>)
    requires k < |all| && depth <= MAX_DEPTH
    ensures forall row | row in rows :: row.k < |all|
    decreases MAX_DEPTH - depth, |all| + 1
  {
    [Row(k, depth)] + if depth < MAX_DEPTH then Kids(all, k, depth + 1, 0) else []
  }

  /** The lines for the forks of session `k` from position `from` on. */
  function Kids(all: seq<Node>, k: nat, depth: nat, from: nat): (rows: seq<Row>)
    requires k < |all| && 0 < depth <= MAX_DEPTH && from <= |all|
    ensures forall row | row in rows :: row.k < |all|
    decreases MAX_DEPTH - depth + 1, |all| - from
  {
    if from == |all| then []
    else
      (if all[from].parent == Some(all[k].id) then Rows(all, from, depth) else []) + Kids(all, k, depth, from + 1)
  }

  /** The lines for the roots from position `from` on. */
  function Forest(all: seq<Node>, from: nat): (rows: seq<Row>)
    requires from <= |all|
    ensures forall row | row in rows :: row.k < |all|
    decreases |all| - from
  {
    if from == |all| then []
    else (if IsRoot(all, from) then Rows(all, from, 0) else []) + Forest(all, from + 1)
  }

  function Spaces(n: nat): string { if n == 0 then "" else "   " + Spaces(n - 1) }

  function Line(n: Node, depth: nat): string
  {
    (if depth == 0 then "" else Spaces(depth - 1) + "└─ ") + Shown(n)
  }

  /** What a line says about its session. */
  function Shown(n: Node): string
  {
    (if n.at.Some? then n.id + " (@" + n.at.value + ")" else n.id) +
    "  " + n.pc + "  " + Numeral(n.turns, Dec) + " turns"
  }

  lemma ShownStartsWithId(n: Node)
    requires n.id != ""
    ensures n.id <= Shown(n) && Shown(n)[0] == n.id[0]
  {
  }

  /** How deep a printed line stands: the blanks in front of the branch, three by three, and the branch. */
  function DepthShown(line: string): nat
  {
    if "└─ " <= line then 1 else if "   " <= line then 1 + DepthShown(line[3..]) else 0
  }

  /** The depth of a row can be read off its line, and its id stands behind it, when the id starts with
      neither a blank nor a branch. */
  lemma {:induction false} LineShowsDepth(n: Node, depth: nat)
    requires n.id != "" && n.id[0] != ' ' && n.id[0] != '└'
    ensures DepthShown(Line(n, depth)) == depth
    ensures |Line(n, depth)| >= 3 * depth && n.id <= Line(n, depth)[3 * depth..]
  {
    hide Shown;
    ShownStartsWithId(n);
    if depth == 0 {
      assert Line(n, 0) == Shown(n);
    } else {
      BranchShows(depth - 1, Shown(n));
    }
  }

  lemma {:induction false} BranchShows(blanks: nat, text: string)
    ensures var line := Spaces(blanks) + "└─ " + text;
            DepthShown(line) == blanks + 1 && |line| >= 3 * blanks + 3 && line[3 * blanks + 3..] == text
  {
    var line := Spaces(blanks) + "└─ " + text;
    if blanks == 0 {
      assert line == "└─ " + text && line[..3] == "└─ ";
    } else {
      BranchShows(blanks - 1, text);
      var rest := Spaces(blanks - 1) + "└─ " + text;
      assert line == "   " + rest && line[3..] == rest && line[..3] == "   ";
      assert line[0] != '└';
      assert line[3 * blanks + 3..] == rest[3 * (blanks - 1) + 3..];
    }
  }

  function Lines(all: seq<Node>, rows: seq<Row>): (lines: seq<string>)
    requires forall row | row in rows :: row.k < |all|
    ensures |lines| == |rows|
    ensures forall i :: 0 <= i < |rows| ==> lines[i] == Line(all[rows[i].k], rows[i].depth)
  {
    if rows == [] then [] else [Line(all[rows[0].k], rows[0].depth)] + Lines(all, rows[1..])
  }

  lemma LinesConcat(all: seq<Node>, a: seq<Row>, b: seq<Row>)
    requires forall row | row in a + b :: row.k < |all|
    ensures (forall row | row in a :: row.k < |all|) && forall row | row in b :: row.k < |all|
    ensures Lines(all, a + b) == Lines(all, a) + Lines(all, b)
  {
    assert forall row | row in a :: row in a + b;
    assert forall row | row in b :: row in a + b;
  }

  lemma KidsStep(all: seq<Node>, k: nat, depth: nat, from: nat)
    requires k < |all| && 0 < depth <= MAX_DEPTH && from < |all|
    ensures Kids(all, k, depth, from) ==
            (if all[from].parent == Some(all[k].id) then Rows(all, from, depth) else []) + Kids(all, k, depth, from + 1)
  {
  }

  lemma Append(all: seq<Node>, before: seq<string>, done: seq<Row>, next: seq<Row>, rest: seq<Row>)
    requires forall row | row in done :: row.k < |all|
    requires forall row | row in next :: row.k < |all|
    ensures forall row | row in done + next :: row.k < |all|
    ensures before + Lines(all, done) + Lines(all, next) == before + Lines(all, done + next)
    ensures done + (next + rest) == (done + next) + rest
  {
    hide Lines;
    LinesConcat(all, done, next);
    ConcatAssociates(before, Lines(all, done), Lines(all, next));
    ConcatAssociates(done, next, rest);
  }

  /** The recursive walk, appending to the lines so far. */
  method Walk(all: seq<Node>, k: nat, depth: nat, before: seq<string>) returns (out: seq<string>)
    requires k < |all| && depth <= MAX_DEPTH
    ensures out == before + Lines(all, Rows(all, k, depth))
    decreases MAX_DEPTH - depth
  {
    hide Line, Lines, Kids;
    out := before + [Line(all[k], depth)];
    ghost var done := [Row(k, depth)];
    assert Lines(all, done) == [Line(all[k], depth)] by { OneLine(all, done[0]); }
    if depth < MAX_DEPTH {
      WalkRows(all, k, depth);
      for c := 0 to |all|
        invariant Rows(all, k, depth) == done + Kids(all, k, depth + 1, c)
        invariant forall row | row in done :: row.k < |all|
        invariant out == before + Lines(all, done)
      {
        hide Rows;
        KidsStep(all, k, depth + 1, c);
        ghost var next := [];
        if all[c].parent == Some(all[k].id) {
          out := Walk(all, c, depth + 1, out);
          next := Rows(all, c, depth + 1);
        } else {
          assert Lines(all, next) == [];
        }
        Append(all, before, done, next, Kids(all, k, depth + 1, c + 1));
        done := done + next;
      }
      assert Kids(all, k, depth + 1, |all|) == [] by { NoMoreKids(all, k, depth + 1); }
    }
  }

  lemma OneLine(all: seq<Node>, row: Row)
    requires row.k < |all|
    ensures Lines(all, [row]) == [Line(all[row.k], row.depth)]
  {
  }

  lemma WalkRows(all: seq<Node>, k: nat, depth: nat)
    requires k < |all| && depth < MAX_DEPTH
    ensures Rows(all, k, depth) == [Row(k, depth)] + Kids(all, k, depth + 1, 0)
  {
  }

  lemma NoMoreKids(all: seq<Node>, k: nat, depth: nat)
    requires k < |all| && 0 < depth <= MAX_DEPTH
    ensures Kids(all, k, depth, |all|) == []
  {
  }

  method TreeLines(nodes: seq<Node>) returns (out: seq<string>)
    ensures out == Lines(Sort(nodes), Forest(Sort(nodes), 0))
  {
    hide Line, Lines, Rows, Sort;
    var all := Sort(nodes);
    var known := set n | n in all :: n.id;
    out := [];
    ghost var done: seq<Row> := [];
    assert Lines(all, done) == [];
    for k := 0 to |all|
      invariant Forest(all, 0) == done + Forest(all, k)
      invariant forall row | row in done :: row.k < |all|
      invariant out == [] + Lines(all, done)
    {
      ghost var next := [];
      if all[k].parent.None? || all[k].parent.value !in known {
        out := Walk(all, k, 0, out);
        next := Rows(all, k, 0);
      } else {
        assert Lines(all, next) == [];
      }
      Append(all, [], done, next, Forest(all, k + 1));
      done := done + next;
    }
    assert Forest(all, |all|) == [];
  }

  // ------------------------------------------------- what the tree shows, and how often

  predicate UniqueIds(all: seq<Node>)
  {
    forall i, j :: 0 <= i < j < |all| ==> all[i].id != all[j].id
  }

  lemma {:induction false} InsertUnique(n: Node, nodes: seq<Node>)
    requires UniqueIds(nodes) && forall m | m in nodes :: m.id != n.id
    ensures UniqueIds(Insert(n, nodes))
  {
    hide AtMost;
    if !(nodes == [] || AtMost(n.id, nodes[0].id)) {
      InsertUnique(n, nodes[1..]);
      InsertKeepsAll(n, nodes[1..]);
      forall m | m in Insert(n, nodes[1..])
        ensures m.id != nodes[0].id
      {
        assert m in multiset(nodes[1..]) + multiset{n};
      }
    }
  }

  lemma {:induction false} SortUnique(nodes: seq<Node>)
    requires UniqueIds(nodes)
    ensures UniqueIds(Sort(nodes))
  {
    hide Insert;
    if nodes != [] {
      SortUnique(nodes[1..]);
      SortSorts(nodes[1..]);
      forall m | m in Sort(nodes[1..])
        ensures m.id != nodes[0].id
      {
        assert m in multiset(nodes[1..]);
      }
      InsertUnique(nodes[0], Sort(nodes[1..]));
    }
  }

  /** The first session from position `from` on that has this id. */
  function Find(all: seq<Node>, id: string, from: nat): (p: Option<nat>)
    requires from <= |all|
    ensures p.Some? ==> from <= p.value < |all| && all[p.value].id == id
    ensures p.None? ==> forall n | n in all[from..] :: n.id != id
    decreases |all| - from
  {
    if from == |all| then None else if all[from].id == id then Some(from) else Find(all, id, from + 1)
  }

  /** The session `k` was forked from, when it is listed. */
  function Parent(all: seq<Node>, k: nat): (p: Option<nat>)
    requires k < |all|
    ensures p.Some? ==> p.value < |all| && all[k].parent == Some(all[p.value].id)
    ensures p.None? <==> IsRoot(all, k)
  {
    assert all[0..] == all;
    if all[k].parent.None? then None else Find(all, all[k].parent.value, 0)
  }

  /** The ancestor `n` generations up. */
  function Ancestor(all: seq<Node>, k: nat, n: nat): (a: Option<nat>)
    requires k < |all|
    ensures a.Some? ==> a.value < |all|
  {
    if n == 0 then Some(k)
    else
      var child := Ancestor(all, k, n - 1);
      if child.None? then None else Parent(all, child.value)
  }

  /** The parent chain of `k` reaches a root in exactly `n` steps. */
  predicate AtLevel(all: seq<Node>, k: nat, n: nat)
    requires k < |all|
  {
    Ancestor(all, k, n).Some? && IsRoot(all, Ancestor(all, k, n).value)
  }

  function Count(rows: seq<Row>, row: Row): nat { multiset(rows)[row] }

  lemma CountConcat(a: seq<Row>, b: seq<Row>, row: Row)
    ensures Count(a + b, row) == Count(a, row) + Count(b, row)
    ensures Count([], row) == 0
  {
  }

  lemma FindFinds(all: seq<Node>, id: string, from: nat, k: nat)
    requires UniqueIds(all) && from <= k < |all| && all[k].id == id
    ensures Find(all, id, from) == Some(k)
  {
    assert forall q :: 0 <= q < |all| && all[q].id == id ==> !(q < k) && !(k < q);
    assert all[k] in all[from..];
  }

  lemma ParentIs(all: seq<Node>, c: nat, k: nat)
    requires UniqueIds(all) && c < |all| && k < |all|
    ensures Parent(all, c) == Some(k) <==> all[c].parent == Some(all[k].id)
  {
    if all[c].parent == Some(all[k].id) { FindFinds(all, all[k].id, 0, k); }
  }

  /** How often a line for `k` at nesting `e` appears among the lines below session `r` shown at
      `depth`: once when `r` is the ancestor that many generations up. */
  lemma {:induction false} RowsCount(all: seq<Node>, r: nat, depth: nat, k: nat, e: nat)
    requires UniqueIds(all) && r < |all| && depth <= MAX_DEPTH && k < |all|
    ensures Count(Rows(all, r, depth), Row(k, e)) ==
            if depth <= e <= MAX_DEPTH && Ancestor(all, k, e - depth) == Some(r) then 1 else 0
    decreases MAX_DEPTH - depth, |all| + 1
  {
    hide Kids, UniqueIds;
    if depth < MAX_DEPTH {
      KidsCount(all, r, depth + 1, 0, k, e);
      if e > depth {
        var child := Ancestor(all, k, e - depth - 1);
        if child.Some? { ParentIs(all, child.value, r); }
      }
    }
  }

  lemma {:induction false} KidsCount(all: seq<Node>, r: nat, depth: nat, from: nat, k: nat, e: nat)
    requires UniqueIds(all) && r < |all| && 0 < depth <= MAX_DEPTH && from <= |all| && k < |all|
    ensures Count(Kids(all, r, depth, from), Row(k, e)) ==
            if depth <= e <= MAX_DEPTH && Ancestor(all, k, e - depth).Some? &&
               from <= Ancestor(all, k, e - depth).value &&
               all[Ancestor(all, k, e - depth).value].parent == Some(all[r].id) then 1 else 0
    decreases MAX_DEPTH - depth + 1, |all| - from
  {
    hide Rows, UniqueIds, Ancestor, Count;
    CountConcat([], [], Row(k, e));
    if from < |all| {
      CountConcat(if all[from].parent == Some(all[r].id) then Rows(all, from, depth) else [], Kids(all, r, depth, from + 1), Row(k, e));
      if all[from].parent == Some(all[r].id) { RowsCount(all, from, depth, k, e); }
      KidsCount(all, r, depth, from + 1, k, e);
    }
  }

  lemma {:induction false} ForestCount(all: seq<Node>, from: nat, k: nat, e: nat)
    requires UniqueIds(all) && from <= |all| && k < |all|
    ensures Count(Forest(all, from), Row(k, e)) ==
            if e <= MAX_DEPTH && AtLevel(all, k, e) && from <= Ancestor(all, k, e).value then 1 else 0
    decreases |all| - from
  {
    hide Rows, UniqueIds, Ancestor, IsRoot, Count;
    CountConcat([], [], Row(k, e));
    if from < |all| {
      CountConcat(if IsRoot(all, from) then Rows(all, from, 0) else [], Forest(all, from + 1), Row(k, e));
      if IsRoot(all, from) { RowsCount(all, from, 0, k, e); }
      ForestCount(all, from + 1, k, e);
    }
  }

  /** The tree shows a session exactly once, at the depth of its parent chain, when that chain reaches
      a root within the bound; a line at any other depth, or for any other session, is not there. */
  lemma ShownExactlyOnce(nodes: seq<Node>, k: nat, e: nat)
    requires UniqueIds(nodes) && k < |nodes|
    ensures |Sort(nodes)| == |nodes|
    ensures Count(Forest(Sort(nodes), 0), Row(k, e)) == if e <= 64 && AtLevel(Sort(nodes), k, e) then 1 else 0
  {
    hide Forest, IsRoot, Sort;
    SortSorts(nodes);
    SortUnique(nodes);
    assert |multiset(Sort(nodes))| == |multiset(nodes)|;
    ForestCount(Sort(nodes), 0, k, e);
  }

  /** At the left margin stand exactly the sessions that are no forks, and the forks whose source is gone. */
  lemma OrphansStandAtTheMargin(nodes: seq<Node>, k: nat)
    requires UniqueIds(nodes) && k < |nodes|
    ensures |Sort(nodes)| == |nodes|
    ensures var all := Sort(nodes);
            Count(Forest(all, 0), Row(k, 0)) ==
              if all[k].parent.None? || forall n | n in all :: all[k].parent != Some(n.id) then 1 else 0
  {
    hide Forest, Sort, Count, UniqueIds;
    ShownExactlyOnce(nodes, k, 0);
  }

  lemma {:induction false} AncestorsCompose(all: seq<Node>, k: nat, m: nat, n: nat)
    requires k < |all|
    ensures Ancestor(all, k, m + n) ==
            if Ancestor(all, k, m).None? then None else Ancestor(all, Ancestor(all, k, m).value, n)
  {
    if n > 0 { AncestorsCompose(all, k, m, n - 1); }
  }

  /** A session has one depth at most. */
  lemma OneLevel(all: seq<Node>, k: nat, e: nat, f: nat)
    requires k < |all| && AtLevel(all, k, e) && AtLevel(all, k, f)
    ensures e == f
  {
    if e != f {
      var low, high := if e < f then e else f, if e < f then f else e;
      AncestorsCompose(all, k, low, 1);
      assert Ancestor(all, Ancestor(all, k, low).value, 0).Some?;
      AncestorsCompose(all, k, low + 1, high - low - 1);
    }
  }

  /** Generations passed when a cycle of `m` is gone round so many times. */
  function Laps(m: nat, times: nat): (n: nat)
    ensures m > 0 ==> n >= times
  {
    if times == 0 then 0 else Laps(m, times - 1) + m
  }

  lemma {:induction false} Around(all: seq<Node>, k: nat, n: nat, m: nat, times: nat)
    requires k < |all| && Ancestor(all, k, n).Some? && Ancestor(all, k, n) == Ancestor(all, k, n + m)
    ensures Ancestor(all, k, n + Laps(m, times)) == Ancestor(all, k, n)
  {
    if times > 0 {
      hide Ancestor;
      Around(all, k, n, m, times - 1);
      AncestorsCompose(all, k, n + Laps(m, times - 1), m);
      AncestorsCompose(all, k, n, m);
    }
  }

  /** A session on a parent cycle, or below one, is not shown at all. */
  lemma CyclesAreNotShown(nodes: seq<Node>, k: nat, n: nat, m: nat, e: nat)
    requires UniqueIds(nodes) && k < |nodes| == |Sort(nodes)| && m > 0
    requires Ancestor(Sort(nodes), k, n).Some? && Ancestor(Sort(nodes), k, n) == Ancestor(Sort(nodes), k, n + m)
    ensures Count(Forest(Sort(nodes), 0), Row(k, e)) == 0
  {
    hide Forest, Sort, Ancestor;
    var all := Sort(nodes);
    ShownExactlyOnce(nodes, k, e);
    Around(all, k, n, m, e + 1);
    if AtLevel(all, k, e) { BeyondRoot(all, k, e, n + Laps(m, e + 1)); }
  }

  lemma BeyondRoot(all: seq<Node>, k: nat, e: nat, f: nat)
    requires k < |all| && AtLevel(all, k, e)
    ensures f > e ==> Ancestor(all, k, f).None?
  {
    if f > e {
      AncestorsCompose(all, k, e, 1);
      assert Ancestor(all, Ancestor(all, k, e).value, 0).Some?;
      AncestorsCompose(all, k, e + 1, f - e - 1);
    }
  }

  // --------------------------------------------------------------- how lines nest

  /** Line `j` is the one that line `i` hangs from: its parent, one level up, with nothing shallower
      than line `i` in between. */
  predicate Hangs(all: seq<Node>, rows: seq<Row>, i: nat, j: nat)
    requires forall row | row in rows :: row.k < |all|
    requires j < i < |rows|
  {
    rows[j].depth + 1 == rows[i].depth && Parent(all, rows[i].k) == Some(rows[j].k) &&
    forall m :: j < m < i ==> rows[m].depth >= rows[i].depth
  }

  /** Two lines at one depth with nothing shallower in between: siblings, or two roots. */
  predicate Siblings(rows: seq<Row>, i: nat, j: nat)
    requires i < j < |rows|
  {
    rows[i].depth == rows[j].depth && forall m :: i < m < j ==> rows[m].depth >= rows[i].depth
  }

  /** Siblings come in the order of their positions. */
  predicate InOrder(rows: seq<Row>)
  {
    forall i, j :: 0 <= i < j < |rows| && Siblings(rows, i, j) ==> rows[i].k < rows[j].k
  }

  /** Every line below the top level hangs from an earlier one. */
  predicate AllHang(all: seq<Node>, rows: seq<Row>, top: nat)
    requires forall row | row in rows :: row.k < |all|
  {
    forall i :: 0 <= i < |rows| && rows[i].depth > top ==> exists j :: 0 <= j < i && Hangs(all, rows, i, j)
  }

  /** Pre-order: every line below the top level hangs from an earlier one, siblings come in order. */
  predicate PreOrder(all: seq<Node>, rows: seq<Row>, top: nat)
    requires forall row | row in rows :: row.k < |all|
  {
    (forall i :: 0 <= i < |rows| ==> rows[i].depth >= top) &&
    AllHang(all, rows, top) && InOrder(rows)
  }

  /** What a list of siblings' lines has besides its order: it starts at the top level, and its top
      lines are forks of `r` (roots when there is none) from position `from` on. */
  predicate TopLines(all: seq<Node>, rows: seq<Row>, top: nat, r: Option<nat>, from: nat)
    requires forall row | row in rows :: row.k < |all|
  {
    (rows != [] ==> rows[0].depth == top) &&
    forall i :: 0 <= i < |rows| && rows[i].depth == top ==> rows[i].k >= from && Parent(all, rows[i].k) == r
  }

  lemma HangsShifted(all: seq<Node>, a: seq<Row>, b: seq<Row>, i: nat, j: nat)
    requires forall row | row in a + b :: row.k < |all|
    requires (forall row | row in b :: row.k < |all|) && j < i < |b| && Hangs(all, b, i, j)
    ensures Hangs(all, a + b, |a| + i, |a| + j)
  {
    hide Parent;
    var rows := a + b;
    forall m | |a| + j < m < |a| + i
      ensures rows[m].depth >= rows[|a| + i].depth
    {
      assert rows[m] == b[m - |a|];
    }
  }

  lemma HangsKept(all: seq<Node>, a: seq<Row>, b: seq<Row>, i: nat, j: nat)
    requires forall row | row in a + b :: row.k < |all|
    requires (forall row | row in a :: row.k < |all|) && j < i < |a| && Hangs(all, a, i, j)
    ensures Hangs(all, a + b, i, j)
  {
    hide Parent;
  }

  lemma ConcatHangs(all: seq<Node>, a: seq<Row>, b: seq<Row>, top: nat, i: nat)
    requires forall row | row in a :: row.k < |all|
    requires forall row | row in b :: row.k < |all|
    requires AllHang(all, a, top) && AllHang(all, b, top)
    requires i < |a| + |b| && (a + b)[i].depth > top
    ensures exists j :: 0 <= j < i && Hangs(all, a + b, i, j)
  {
    hide Hangs, Siblings;
    if i < |a| {
      var j :| 0 <= j < i && Hangs(all, a, i, j);
      HangsKept(all, a, b, i, j);
    } else {
      assert (a + b)[i] == b[i - |a|];
      var j :| 0 <= j < i - |a| && Hangs(all, b, i - |a|, j);
      HangsShifted(all, a, b, i - |a|, j);
    }
  }

  lemma ConcatSiblings(a: seq<Row>, b: seq<Row>, top: nat, from: nat, i: nat, j: nat)
    requires InOrder(a) && InOrder(b)
    requires forall n :: 0 <= n < |a| ==> a[n].depth >= top && (a[n].depth == top ==> a[n].k < from)
    requires b != [] ==> b[0].depth == top
    requires forall n :: 0 <= n < |b| && b[n].depth == top ==> b[n].k >= from
    requires i < j < |a| + |b| && Siblings(a + b, i, j)
    ensures (a + b)[i].k < (a + b)[j].k
  {
    var rows := a + b;
    if j < |a| {
      assert Siblings(a, i, j) by { assert forall m :: i < m < j ==> rows[m] == a[m]; }
    } else if i >= |a| {
      assert Siblings(b, i - |a|, j - |a|) by {
        assert forall m :: i - |a| < m < j - |a| ==> rows[|a| + m] == b[m];
      }
    } else {
      assert rows[|a|] == b[0];
    }
  }

  lemma PreOrderConcat(all: seq<Node>, a: seq<Row>, b: seq<Row>, top: nat, r: Option<nat>, from: nat)
    requires forall row | row in a :: row.k < |all|
    requires forall row | row in b :: row.k < |all|
    requires PreOrder(all, a, top) && PreOrder(all, b, top)
    requires forall n :: 0 <= n < |a| && a[n].depth == top ==> a[n].k < from
    requires TopLines(all, b, top, r, from)
    ensures PreOrder(all, a + b, top)
  {
    hide Hangs, Siblings, Parent;
    forall i | 0 <= i < |a + b| && (a + b)[i].depth > top
      ensures exists j :: 0 <= j < i && Hangs(all, a + b, i, j)
    {
      ConcatHangs(all, a, b, top, i);
    }
    forall i, j | 0 <= i < j < |a + b| && Siblings(a + b, i, j)
      ensures (a + b)[i].k < (a + b)[j].k
    {
      ConcatSiblings(a, b, top, from, i, j);
    }
  }

  lemma HangsFromTop(all: seq<Node>, r: nat, kids: seq<Row>, top: nat, i: nat)
    requires r < |all| && forall row | row in kids :: row.k < |all|
    requires (forall m :: 0 <= m < |kids| ==> kids[m].depth >= top + 1) && 0 < i <= |kids|
    requires kids[i - 1].depth == top + 1 && Parent(all, kids[i - 1].k) == Some(r)
    ensures Hangs(all, [Row(r, top)] + kids, i, 0)
  {
    hide Parent;
    assert forall m :: 0 < m < i ==> ([Row(r, top)] + kids)[m] == kids[m - 1];
  }

  lemma UnderHangs(all: seq<Node>, r: nat, kids: seq<Row>, top: nat, i: nat)
    requires r < |all| && forall row | row in kids :: row.k < |all|
    requires PreOrder(all, kids, top + 1) && TopLines(all, kids, top + 1, Some(r), 0)
    requires 0 < i <= |kids|
    ensures exists j :: 0 <= j < i && Hangs(all, [Row(r, top)] + kids, i, j)
  {
    hide Parent, Siblings, Hangs;
    var rows := [Row(r, top)] + kids;
    assert rows[i] == kids[i - 1];
    if rows[i].depth > top + 1 {
      var j :| 0 <= j < i - 1 && Hangs(all, kids, i - 1, j);
      HangsShifted(all, [Row(r, top)], kids, i - 1, j);
    } else {
      HangsFromTop(all, r, kids, top, i);
    }
  }

  lemma PreOrderUnder(all: seq<Node>, r: nat, kids: seq<Row>, top: nat)
    requires r < |all| && forall row | row in kids :: row.k < |all|
    requires PreOrder(all, kids, top + 1) && TopLines(all, kids, top + 1, Some(r), 0)
    ensures PreOrder(all, [Row(r, top)] + kids, top)
    ensures forall i :: 0 < i <= |kids| ==> ([Row(r, top)] + kids)[i].depth > top
  {
    hide Hangs, TopLines;
    var rows := [Row(r, top)] + kids;
    assert forall m :: 0 < m < |rows| ==> rows[m] == kids[m - 1];
    forall i | 0 <= i < |rows| && rows[i].depth > top
      ensures exists j :: 0 <= j < i && Hangs(all, rows, i, j)
    {
      UnderHangs(all, r, kids, top, i);
    }
    forall i, j | 0 <= i < j < |rows| && Siblings(rows, i, j)
      ensures rows[i].k < rows[j].k
    {
      assert Siblings(kids, i - 1, j - 1) by {
        assert forall m :: i - 1 < m < j - 1 ==> kids[m] == rows[m + 1];
      }
    }
  }

  lemma {:induction false} RowsNest(all: seq<Node>, r: nat, depth: nat)
    requires UniqueIds(all) && r < |all| && depth <= MAX_DEPTH
    ensures PreOrder(all, Rows(all, r, depth), depth)
    ensures forall i :: 0 < i < |Rows(all, r, depth)| ==> Rows(all, r, depth)[i].depth > depth
    ensures Rows(all, r, depth) != [] && Rows(all, r, depth)[0] == Row(r, depth)
    decreases MAX_DEPTH - depth, |all| + 1
  {
    hide Kids, UniqueIds, PreOrder, TopLines;
    if depth < MAX_DEPTH {
      KidsNest(all, r, depth + 1, 0);
      PreOrderUnder(all, r, Kids(all, r, depth + 1, 0), depth);
    } else {
      assert [Row(r, depth)] + [] == [Row(r, depth)];
      assert PreOrder(all, [Row(r, depth)], depth) by { Single(all, r, depth); }
    }
  }

  lemma Single(all: seq<Node>, r: nat, depth: nat)
    requires r < |all|
    ensures PreOrder(all, [Row(r, depth)], depth)
  {
  }

  lemma {:induction false} KidsNest(all: seq<Node>, r: nat, depth: nat, from: nat)
    requires UniqueIds(all) && r < |all| && 0 < depth <= MAX_DEPTH && from <= |all|
    ensures PreOrder(all, Kids(all, r, depth, from), depth)
    ensures TopLines(all, Kids(all, r, depth, from), depth, Some(r), from)
    decreases MAX_DEPTH - depth + 1, |all| - from
  {
    hide Rows, UniqueIds, PreOrder, Parent, TopLines;
    if from < |all| {
      var rest := Kids(all, r, depth, from + 1);
      KidsNest(all, r, depth, from + 1);
      if all[from].parent == Some(all[r].id) {
        RowsNest(all, from, depth);
        TopsAreFirst(all, Rows(all, from, depth), from, depth);
        PreOrderConcat(all, Rows(all, from, depth), rest, depth, Some(r), from + 1);
        ParentIs(all, from, r);
        FirstOfAll(all, Rows(all, from, depth), rest, depth, Some(r), from);
      } else {
        assert [] + rest == rest;
        FromEarlier(all, rest, depth, Some(r), from);
      }
    } else {
      Empty(all, depth, Some(r), from);
    }
  }

  lemma Empty(all: seq<Node>, depth: nat, r: Option<nat>, from: nat)
    ensures PreOrder(all, [], depth) && TopLines(all, [], depth, r, from)
  {
  }

  lemma FromEarlier(all: seq<Node>, rows: seq<Row>, top: nat, r: Option<nat>, from: nat)
    requires forall row | row in rows :: row.k < |all|
    requires TopLines(all, rows, top, r, from + 1)
    ensures TopLines(all, rows, top, r, from)
  {
  }

  /** Only the first line is at the top. */
  lemma TopsAreFirst(all: seq<Node>, rows: seq<Row>, from: nat, top: nat)
    requires rows != [] && rows[0] == Row(from, top) && forall i :: 0 < i < |rows| ==> rows[i].depth > top
    ensures forall n :: 0 <= n < |rows| && rows[n].depth == top ==> rows[n].k < from + 1
  {
  }

  lemma FirstOfAll(all: seq<Node>, a: seq<Row>, b: seq<Row>, top: nat, r: Option<nat>, from: nat)
    requires a != [] && from < |all| && a[0] == Row(from, top) && Parent(all, from) == r
    requires forall i :: 0 < i < |a| ==> a[i].depth > top
    requires forall row | row in a :: row.k < |all|
    requires forall row | row in b :: row.k < |all|
    requires TopLines(all, b, top, r, from + 1)
    ensures TopLines(all, a + b, top, r, from)
  {
    hide Parent;
    assert forall i :: |a| <= i < |a + b| ==> (a + b)[i] == b[i - |a|];
  }

  lemma {:induction false} ForestNests(all: seq<Node>, from: nat)
    requires UniqueIds(all) && from <= |all|
    ensures PreOrder(all, Forest(all, from), 0)
    ensures TopLines(all, Forest(all, from), 0, None, from)
    decreases |all| - from
  {
    hide Rows, UniqueIds, PreOrder, Parent, TopLines, IsRoot;
    if from < |all| {
      var rest := Forest(all, from + 1);
      ForestNests(all, from + 1);
      if IsRoot(all, from) {
        RowsNest(all, from, 0);
        TopsAreFirst(all, Rows(all, from, 0), from, 0);
        PreOrderConcat(all, Rows(all, from, 0), rest, 0, None, from + 1);
        FirstOfAll(all, Rows(all, from, 0), rest, 0, None, from);
      } else {
        assert [] + rest == rest;
        FromEarlier(all, rest, 0, None, from);
      }
    } else {
      Empty(all, 0, None, from);
    }
  }

  /** The printed tree is a pre-order: each indented line stands below the session it was forked from,
      which is the nearest earlier line one level shallower, and siblings come in order of their ids. */
  lemma TreeIsPreOrder(nodes: seq<Node>)
    requires UniqueIds(nodes)
    ensures SortedById(Sort(nodes))
    ensures PreOrder(Sort(nodes), Forest(Sort(nodes), 0), 0)
    ensures forall row | row in Forest(Sort(nodes), 0) && row.depth == 0 :: IsRoot(Sort(nodes), row.k)
  {
    hide Sort, Forest, PreOrder, Parent;
    SortSorts(nodes);
    SortUnique(nodes);
    ForestNests(Sort(nodes), 0);
  }
}

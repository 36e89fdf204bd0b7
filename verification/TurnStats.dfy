/** Per-turn token totals folded from the usage ledger (crates/tole-cli/src/usage_report.rs). */
module TurnStats {
  import opened Common

  const U64_MAX: nat := 0xFFFF_FFFF_FFFF_FFFF

  // ------------------------------------------------------------- usage objects

  /** A JSON value, as far as the token extractors look into it. */
  datatype Json = Number(n: nat) | Object(fields: map<string, Json>) | Other

  function U64At(v: Json, path: seq<string>): (r: Option<nat>)
    ensures r.Some? ==> r.value <= U64_MAX
    decreases |path|
  {
    if path == [] then (if v.Number? && v.n <= U64_MAX then Some(v.n) else None)
    else if v.Object? && path[0] in v.fields then U64At(v.fields[path[0]], path[1..])
    else None
  }

  datatype Field = Input | Output | CacheRead | CacheWrite | Reasoning

  /** Where the gateways report a field, the preferred place first. */
  function Places(f: Field): seq<seq<string>>
  {
    match f
    case Input => [["prompt_tokens"]]
    case Output => [["completion_tokens"]]
    case CacheRead =>
      [["prompt_tokens_details", "cached_tokens"], ["prompt_tokens_details", "cached_read_tokens"],
       ["cached_tokens"], ["cache_read_input_tokens"], ["prompt_cache_hit_tokens"]]
    case CacheWrite => [["cache_creation_input_tokens"], ["prompt_tokens_details", "cache_write_tokens"]]
    case Reasoning => [["completion_tokens_details", "reasoning_tokens"]]
  }

  function FirstKnown(u: Json, places: seq<seq<string>>): (r: Option<nat>)
    ensures r.Some? ==> r.value <= U64_MAX
    ensures r.None? <==> forall i :: 0 <= i < |places| ==> U64At(u, places[i]).None?
    ensures r.Some? ==> exists i :: 0 <= i < |places| && U64At(u, places[i]) == r &&
                                    forall j :: 0 <= j < i ==> U64At(u, places[j]).None?
  {
    if places == [] then None
    else if U64At(u, places[0]).Some? then
      U64At(u, places[0])
    else
      assert forall i :: 0 < i < |places| ==> places[i] == places[1..][i - 1];
      FirstKnown(u, places[1..])
  }

  function Read(u: Json, f: Field): Option<nat> { FirstKnown(u, Places(f)) }

  /** A usage object as OpenAI and its gateways report it. */
  function OpenAiUsage(prompt: nat, completion: nat, cached: nat, reasoning: nat): Json
  {
    Object(map["prompt_tokens" := Number(prompt), "completion_tokens" := Number(completion),
               "prompt_tokens_details" := Object(map["cached_tokens" := Number(cached)]),
               "completion_tokens_details" := Object(map["reasoning_tokens" := Number(reasoning)])])
  }

  lemma AtTop(fields: map<string, Json>, key: string)
    ensures U64At(Object(fields), [key]) ==
            if key in fields && fields[key].Number? && fields[key].n <= U64_MAX then Some(fields[key].n) else None
  {
    if key in fields { assert U64At(fields[key], []) == U64At(fields[key], [key][1..]); }
  }

  lemma Below(fields: map<string, Json>, outer: string, inner: string)
    ensures U64At(Object(fields), [outer, inner]) == if outer in fields then U64At(fields[outer], [inner]) else None
  {
    assert [outer, inner][1..] == [inner];
  }

  /** Every number of such an object is read as the field it stands for. */
  lemma OpenAiIsRead(prompt: nat, completion: nat, cached: nat, reasoning: nat)
    requires prompt <= U64_MAX && completion <= U64_MAX && cached <= U64_MAX && reasoning <= U64_MAX
    ensures var u := OpenAiUsage(prompt, completion, cached, reasoning);
            Read(u, Input) == Some(prompt) && Read(u, Output) == Some(completion) && Read(u, CacheRead) == Some(cached) &&
            Read(u, Reasoning) == Some(reasoning) && Read(u, CacheWrite) == None
  {
    hide U64At;
    var fields := OpenAiUsage(prompt, completion, cached, reasoning).fields;
    AtTop(fields, "prompt_tokens");
    AtTop(fields, "completion_tokens");
    Below(fields, "prompt_tokens_details", "cached_tokens");
    AtTop(fields["prompt_tokens_details"].fields, "cached_tokens");
    Below(fields, "completion_tokens_details", "reasoning_tokens");
    AtTop(fields["completion_tokens_details"].fields, "reasoning_tokens");
    AtTop(fields, "cache_creation_input_tokens");
    Below(fields, "prompt_tokens_details", "cache_write_tokens");
    AtTop(fields["prompt_tokens_details"].fields, "cache_write_tokens");
  }

  const TOLE_KEY_PREFIX := "tole_"

  /** One ledger row. */
  datatype UsageRow = UsageRow(entry: string, cost: Option<real>, usage: Json) {
    /** A row is a provider step unless it holds nothing but the program's own keys. */
    predicate IsStep()
    {
      usage.Object? ==> usage.fields == map[] || exists k :: k in usage.fields && !(TOLE_KEY_PREFIX <= k)
    }
  }

  /** A row is a provider step when it is no object, when it is empty, or when it holds any key that is not the
      program's own; keys of its own make no difference beside others. */
  lemma StepsAre(row: UsageRow, own: map<string, Json>, other: map<string, Json>)
    requires forall k :: k in own ==> |k| >= 5 && k[..5] == "tole_"
    requires forall k :: k in other ==> |k| < 5 || k[..5] != "tole_"
    ensures row.usage == Object(own + other) ==> (row.IsStep() <==> other != map[] || own == map[])
    ensures !row.usage.Object? ==> row.IsStep()
  {
    var fields := own + other;
    if row.usage == Object(fields) {
      if other != map[] {
        var k :| k in other;
        assert k in fields && !("tole_" <= k);
      } else {
        assert fields == own;
        assert forall k :: k in fields ==> "tole_" <= k;
      }
    }
  }

  /** Where cached tokens are looked for, one place after the other. */
  lemma CacheIsRead(u: Json)
    ensures Read(u, CacheRead) ==
            if U64At(u, ["prompt_tokens_details", "cached_tokens"]).Some? then U64At(u, ["prompt_tokens_details", "cached_tokens"])
            else if U64At(u, ["prompt_tokens_details", "cached_read_tokens"]).Some? then
              U64At(u, ["prompt_tokens_details", "cached_read_tokens"])
            else if U64At(u, ["cached_tokens"]).Some? then U64At(u, ["cached_tokens"])
            else if U64At(u, ["cache_read_input_tokens"]).Some? then U64At(u, ["cache_read_input_tokens"])
            else U64At(u, ["prompt_cache_hit_tokens"])
    ensures Read(u, CacheWrite) ==
            if U64At(u, ["cache_creation_input_tokens"]).Some? then U64At(u, ["cache_creation_input_tokens"])
            else U64At(u, ["prompt_tokens_details", "cache_write_tokens"])
  {
    hide U64At;
    var from, to := Places(CacheRead), Places(CacheWrite);
    FirstKnownStep(u, from);
    FirstKnownStep(u, from[1..]);
    FirstKnownStep(u, from[1..][1..]);
    FirstKnownStep(u, from[1..][1..][1..]);
    FirstKnownStep(u, from[1..][1..][1..][1..]);
    assert from[1..][1..][1..][1..][1..] == [];
    FirstKnownStep(u, to);
    FirstKnownStep(u, to[1..]);
    assert to[1..][1..] == [];
  }

  lemma FirstKnownStep(u: Json, places: seq<seq<string>>)
    requires places != []
    ensures FirstKnown(u, places) == if U64At(u, places[0]).Some? then U64At(u, places[0]) else FirstKnown(u, places[1..])
    ensures FirstKnown(u, []) == None
  {
    hide U64At;
  }

  /** A session entry: its id, and whether it is a user message that opens a turn. */
  datatype Entry = Entry(id: string, opens: bool)

  // ------------------------------------------------------------------ the totals

  datatype Stats = Stats(
    turn: nat,
    entry: string,
    steps: nat,
    input: Option<nat>,
    output: Option<nat>,
    cacheRead: Option<nat>,
    cacheWrite: Option<nat>,
    reasoning: Option<nat>,
    cost: Option<real>
  ) {
    function Get(f: Field): Option<nat>
    {
      match f
      case Input => input
      case Output => output
      case CacheRead => cacheRead
      case CacheWrite => cacheWrite
      case Reasoning => reasoning
    }
  }

  function Saturating(n: nat): nat { if n <= U64_MAX then n else U64_MAX }

  function Add(acc: Option<nat>, x: Option<nat>): Option<nat>
  {
    if x.None? then acc else Some(Saturating((if acc.None? then 0 else acc.value) + x.value))
  }

  function AddCost(acc: Option<real>, x: Option<real>): Option<real>
  {
    if x.None? then acc else Some((if acc.None? then 0.0 else acc.value) + x.value)
  }

  /** The stats of a turn after one more of its rows. */
  function Credit(t: Stats, row: UsageRow): Stats
  {
    var paid := t.(cost := AddCost(t.cost, row.cost));
    if !row.IsStep() then paid
    else
      paid.(
        steps := t.steps + 1,
        input := Add(t.input, Read(row.usage, Input)),
        output := Add(t.output, Read(row.usage, Output)),
        cacheRead := Add(t.cacheRead, Read(row.usage, CacheRead)),
        cacheWrite := Add(t.cacheWrite, Read(row.usage, CacheWrite)),
        reasoning := Add(t.reasoning, Read(row.usage, Reasoning)))
  }

  function Blank(turn: nat, entry: string): Stats { Stats(turn, entry, 0, None, None, None, None, None, None) }

  function Gather(blank: Stats, rows: seq<UsageRow>): Stats
  {
    if rows == [] then blank else Credit(Gather(blank, rows[..|rows| - 1]), rows[|rows| - 1])
  }

  // -------------------------------------------------------- which turn a row is of

  function Ids(entries: seq<Entry>): (ids: seq<string>)
    ensures |ids| == |entries|
    ensures forall i :: 0 <= i < |entries| ==> ids[i] == entries[i].id
  {
    if entries == [] then [] else Ids(entries[..|entries| - 1]) + [entries[|entries| - 1].id]
  }

  /** Positions of the entries that open a turn. */
  function TurnStarts(entries: seq<Entry>): (starts: seq<nat>)
    ensures IsStarts(starts, Ids(entries))
  {
    if entries == [] then []
    else
      TurnStarts(entries[..|entries| - 1]) + if entries[|entries| - 1].opens then [|entries| - 1] else []
  }

  /** They are the positions of the turn openers, all of them and no others, in order. */
  lemma {:induction false} TurnStartsExact(entries: seq<Entry>)
    ensures IsStarts(TurnStarts(entries), Ids(entries))
    ensures forall i :: 0 <= i < |entries| ==> (i in TurnStarts(entries) <==> entries[i].opens)
  {
    if entries != [] {
      var n := |entries| - 1;
      TurnStartsExact(entries[..n]);
      assert n !in TurnStarts(entries[..n]);
    }
  }

  predicate IsStarts(starts: seq<nat>, ids: seq<string>)
  {
    (forall i, j :: 0 <= i < j < |starts| ==> starts[i] < starts[j]) &&
    forall i :: 0 <= i < |starts| ==> starts[i] < |ids|
  }

  /** The last entry with this id. */
  function LastIndex(ids: seq<string>, id: string): (r: Option<nat>)
    ensures r.Some? ==> r.value < |ids| && ids[r.value] == id && forall i :: r.value < i < |ids| ==> ids[i] != id
    ensures r.None? ==> id !in ids
  {
    if ids == [] then None
    else if ids[|ids| - 1] == id then Some(|ids| - 1)
    else
      assert ids == ids[..|ids| - 1] + [ids[|ids| - 1]];
      LastIndex(ids[..|ids| - 1], id)
  }

  /** The turn that is open at entry `at`: the last one that starts at or before it. */
  function OpenTurn(starts: seq<nat>, at: nat): (k: Option<nat>)
    ensures k.Some? ==> k.value < |starts| && starts[k.value] <= at
    ensures k.Some? ==> forall j :: k.value < j < |starts| ==> starts[j] > at
    ensures k.None? ==> forall s | s in starts :: s > at
  {
    if starts == [] then None
    else if starts[|starts| - 1] <= at then Some(|starts| - 1)
    else
      assert starts == starts[..|starts| - 1] + [starts[|starts| - 1]];
      OpenTurn(starts[..|starts| - 1], at)
  }

  /** The turn a row is credited to, when there is one. */
  function Owner(starts: seq<nat>, ids: seq<string>, entry: string): (k: Option<nat>)
    ensures k.Some? ==> k.value < |starts|
  {
    var at := LastIndex(ids, entry);
    if at.None? then None else OpenTurn(starts, at.value)
  }

  /** A row is credited to the turn within which the last entry of its id lies, and to none when there is no such
      entry or it lies before the first turn. */
  lemma OwnerIs(starts: seq<nat>, ids: seq<string>, entry: string, k: nat)
    requires IsStarts(starts, ids) && k < |starts|
    ensures Owner(starts, ids, entry) == Some(k) <==>
            exists at | 0 <= at < |ids| ::
              ids[at] == entry && entry !in ids[at + 1..] && starts[k] <= at && (k + 1 < |starts| ==> at < starts[k + 1])
  {
    var last := LastIndex(ids, entry);
    if last.Some? {
      var at := last.value;
      assert entry !in ids[at + 1..];
      forall i | 0 <= i < |ids| && ids[i] == entry && entry !in ids[i + 1..]
        ensures i == at
      {
        LastIs(ids, entry, i);
      }
      assert OpenTurn(starts, at) == Some(k) <==> starts[k] <= at && (k + 1 < |starts| ==> at < starts[k + 1]) by {
        OpenTurnIs(starts, at, k);
      }
    }
  }

  lemma {:induction false} LastIs(ids: seq<string>, id: string, i: nat)
    requires i < |ids| && ids[i] == id && id !in ids[i + 1..]
    ensures LastIndex(ids, id) == Some(i)
  {
    var n := |ids| - 1;
    if i < n {
      assert ids[n] in ids[i + 1..];
      assert ids[i + 1..] == ids[..n][i + 1..] + [ids[n]];
      LastIs(ids[..n], id, i);
    }
  }

  lemma OpenTurnIs(starts: seq<nat>, at: nat, k: nat)
    requires k < |starts| && forall i, j :: 0 <= i < j < |starts| ==> starts[i] < starts[j]
    ensures OpenTurn(starts, at) == Some(k) <==> starts[k] <= at && (k + 1 < |starts| ==> at < starts[k + 1])
  {
    var open := OpenTurn(starts, at);
    if open.None? { assert starts[k] in starts; }
  }

  /** The rows of turn `k`, in ledger order. */
  function RowsOf(starts: seq<nat>, ids: seq<string>, rows: seq<UsageRow>, k: nat): seq<UsageRow>
  {
    if rows == [] then []
    else
      var last := rows[|rows| - 1];
      RowsOf(starts, ids, rows[..|rows| - 1], k) + if Owner(starts, ids, last.entry) == Some(k) then [last] else []
  }

  function StatsOf(starts: seq<nat>, ids: seq<string>, rows: seq<UsageRow>, k: nat): Stats
    requires k < |starts| && starts[k] < |ids|
  {
    Gather(Blank(k + 1, ids[starts[k]]), RowsOf(starts, ids, rows, k))
  }

  // -------------------------------------------------------------------- the fold

  /** `partition_point` for "starts at or before `at`": how many turns have begun. The binary search
      agrees with the linear one. */
  method PartitionPoint(starts: seq<nat>, at: nat) returns (n: nat)
    requires forall i, j :: 0 <= i < j < |starts| ==> starts[i] < starts[j]
    ensures n <= |starts|
    ensures OpenTurn(starts, at) == if n == 0 then None else Some(n - 1)
  {
    n := 0;
    var high := |starts|;
    while n < high
      invariant 0 <= n <= high <= |starts|
      invariant forall i :: 0 <= i < n ==> starts[i] <= at
      invariant forall i :: high <= i < |starts| ==> starts[i] > at
    {
      var mid := (n + high) / 2;
      if starts[mid] <= at { n := mid + 1; } else { high := mid; }
    }
    if n > 0 { assert starts[n - 1] in starts; }
  }

  /** The id index: a later entry with the same id replaces an earlier one. */
  method IndexIds(ids: seq<string>) returns (index: map<string, nat>)
    ensures forall id :: id in index <==> LastIndex(ids, id).Some?
    ensures forall id :: id in index ==> Some(index[id]) == LastIndex(ids, id)
  {
    index := map[];
    for i := 0 to |ids|
      invariant forall id :: id in index <==> LastIndex(ids[..i], id).Some?
      invariant forall id :: id in index ==> Some(index[id]) == LastIndex(ids[..i], id)
    {
      assert ids[..i + 1][..i] == ids[..i];
      index := index[ids[i] := i];
    }
    assert ids[..|ids|] == ids;
  }

  /** `turn_stats` over the positions at which the turns start. */
  method Fold(starts: seq<nat>, ids: seq<string>, rows: seq<UsageRow>) returns (out: seq<Stats>)
    requires IsStarts(starts, ids)
    ensures |out| == |starts|
    ensures forall k :: 0 <= k < |starts| ==> out[k] == StatsOf(starts, ids, rows, k)
  {
    hide Credit, LastIndex, OpenTurn, StatsOf, Blank;
    out := seq(|starts|, k requires 0 <= k < |starts| => Blank(k + 1, ids[starts[k]]));
    forall k | 0 <= k < |starts|
      ensures StatsOf(starts, ids, rows[..0], k) == Blank(k + 1, ids[starts[k]])
    {
      NoStats(starts, ids, k);
    }
    var index := IndexIds(ids);
    for i := 0 to |rows|
      invariant |out| == |starts|
      invariant forall k :: 0 <= k < |starts| ==> out[k] == StatsOf(starts, ids, rows[..i], k)
    {
      var row := rows[i];
      forall k | 0 <= k < |starts|
        ensures StatsOf(starts, ids, rows[..i + 1], k) ==
                if Owner(starts, ids, row.entry) == Some(k) then Credit(StatsOf(starts, ids, rows[..i], k), row)
                else StatsOf(starts, ids, rows[..i], k)
      {
        StatsStep(starts, ids, rows, i, k);
      }
      if row.entry in index {
        var open := PartitionPoint(starts, index[row.entry]);
        if open > 0 {
          out := out[open - 1 := Credit(out[open - 1], row)];
        }
      }
    }
    assert rows[..|rows|] == rows;
  }

  method Compute(entries: seq<Entry>, rows: seq<UsageRow>) returns (out: seq<Stats>)
    ensures |out| == |TurnStarts(entries)|
    ensures forall k :: 0 <= k < |out| ==> out[k] == StatsOf(TurnStarts(entries), Ids(entries), rows, k)
  {
    var starts: seq<nat> := [];
    for i := 0 to |entries|
      invariant starts == TurnStarts(entries[..i])
    {
      assert entries[..i + 1][..i] == entries[..i];
      if entries[i].opens { starts := starts + [i]; }
    }
    assert entries[..|entries|] == entries;
    out := Fold(starts, Ids(entries), rows);
  }

  lemma NoStats(starts: seq<nat>, ids: seq<string>, k: nat)
    requires k < |starts| && starts[k] < |ids|
    ensures StatsOf(starts, ids, [], k) == Blank(k + 1, ids[starts[k]])
  {
  }

  lemma StatsStep(starts: seq<nat>, ids: seq<string>, rows: seq<UsageRow>, i: nat, k: nat)
    requires k < |starts| && starts[k] < |ids| && i < |rows|
    ensures StatsOf(starts, ids, rows[..i + 1], k) ==
            if Owner(starts, ids, rows[i].entry) == Some(k) then Credit(StatsOf(starts, ids, rows[..i], k), rows[i])
            else StatsOf(starts, ids, rows[..i], k)
  {
    hide Credit, Owner;
    assert rows[..i + 1][..i] == rows[..i];
    var mine := RowsOf(starts, ids, rows[..i], k);
    assert (mine + [rows[i]])[..|mine|] == mine && mine + [] == mine;
  }

  // ------------------------------------------------------------ what a turn shows

  /** The exact total of a field over the provider steps among the rows. */
  function Total(rows: seq<UsageRow>, f: Field): nat
  {
    if rows == [] then 0
    else
      var last := rows[|rows| - 1];
      Total(rows[..|rows| - 1], f) +
      if last.IsStep() && Read(last.usage, f).Some? then Read(last.usage, f).value else 0
  }

  function Steps(rows: seq<UsageRow>): nat
  {
    if rows == [] then 0 else Steps(rows[..|rows| - 1]) + if rows[|rows| - 1].IsStep() then 1 else 0
  }

  function Cost(rows: seq<UsageRow>): real
  {
    if rows == [] then 0.0
    else Cost(rows[..|rows| - 1]) + if rows[|rows| - 1].cost.Some? then rows[|rows| - 1].cost.value else 0.0
  }

  predicate Reported(rows: seq<UsageRow>, f: Field)
  {
    exists row :: row in rows && row.IsStep() && Read(row.usage, f).Some?
  }

  predicate Priced(rows: seq<UsageRow>) { exists row :: row in rows && row.cost.Some? }

  lemma FrontAndLast(rows: seq<UsageRow>)
    requires rows != []
    ensures forall row :: row in rows <==> row in rows[..|rows| - 1] || row == rows[|rows| - 1]
  {
    assert rows == rows[..|rows| - 1] + [rows[|rows| - 1]];
  }

  lemma CreditField(t: Stats, row: UsageRow, f: Field)
    ensures Credit(t, row).Get(f) == if row.IsStep() then Add(t.Get(f), Read(row.usage, f)) else t.Get(f)
  {
    hide Read;
  }

  /** A field is unknown exactly when no provider step of the turn reported it, and otherwise the exact
      total cut off at the largest number the ledger can hold. */
  lemma {:induction false} GatherTotals(blank: Stats, rows: seq<UsageRow>, f: Field)
    requires blank.Get(f) == None
    ensures Gather(blank, rows).Get(f) == if Reported(rows, f) then Some(Saturating(Total(rows, f))) else None
    ensures !Reported(rows, f) ==> Total(rows, f) == 0
  {
    hide Read, Credit;
    if rows != [] {
      var front := rows[..|rows| - 1];
      GatherTotals(blank, front, f);
      FrontAndLast(rows);
      CreditField(Gather(blank, front), rows[|rows| - 1], f);
    }
  }

  lemma {:induction false} GatherCounts(blank: Stats, rows: seq<UsageRow>)
    requires blank.steps == 0 && blank.cost == None
    ensures Gather(blank, rows).steps == Steps(rows)
    ensures Gather(blank, rows).cost == if Priced(rows) then Some(Cost(rows)) else None
    ensures !Priced(rows) ==> Cost(rows) == 0.0
  {
    hide Read;
    if rows != [] {
      GatherCounts(blank, rows[..|rows| - 1]);
      FrontAndLast(rows);
    }
  }

  lemma TurnShows(starts: seq<nat>, ids: seq<string>, rows: seq<UsageRow>, k: nat, f: Field)
    requires IsStarts(starts, ids) && k < |starts|
    ensures var (t, mine) := (StatsOf(starts, ids, rows, k), RowsOf(starts, ids, rows, k));
            && t.turn == k + 1 && t.entry == ids[starts[k]] && t.steps == Steps(mine)
            && t.Get(f) == (if Reported(mine, f) then Some(Saturating(Total(mine, f))) else None)
            && t.input == t.Get(Input) && t.output == t.Get(Output) && t.cacheRead == t.Get(CacheRead)
            && t.cacheWrite == t.Get(CacheWrite) && t.reasoning == t.Get(Reasoning)
            && t.cost == (if Priced(mine) then Some(Cost(mine)) else None)
  {
    hide RowsOf, Gather, Reported, Total, Steps, Priced, Cost;
    var blank := Blank(k + 1, ids[starts[k]]);
    var mine := RowsOf(starts, ids, rows, k);
    GatherTotals(blank, mine, f);
    GatherCounts(blank, mine);
    GatherNames(blank, mine);
  }

  lemma {:induction false} GatherNames(blank: Stats, rows: seq<UsageRow>)
    ensures Gather(blank, rows).turn == blank.turn && Gather(blank, rows).entry == blank.entry
  {
    if rows != [] { GatherNames(blank, rows[..|rows| - 1]); }
  }

  // ---------------------------------------------------------------- conservation

  /** The rows that some turn is credited with. */
  function Attributable(starts: seq<nat>, ids: seq<string>, rows: seq<UsageRow>): seq<UsageRow>
  {
    if rows == [] then []
    else
      var last := rows[|rows| - 1];
      Attributable(starts, ids, rows[..|rows| - 1]) + if Owner(starts, ids, last.entry).Some? then [last] else []
  }

  /** The sum of the first `n` turns' totals. */
  function TotalOfTurns(starts: seq<nat>, ids: seq<string>, rows: seq<UsageRow>, f: Field, n: nat): nat
  {
    if n == 0 then 0
    else TotalOfTurns(starts, ids, rows, f, n - 1) + Total(RowsOf(starts, ids, rows, n - 1), f)
  }

  function StepsOfTurns(starts: seq<nat>, ids: seq<string>, rows: seq<UsageRow>, n: nat): nat
  {
    if n == 0 then 0 else StepsOfTurns(starts, ids, rows, n - 1) + Steps(RowsOf(starts, ids, rows, n - 1))
  }

  function CostOfTurns(starts: seq<nat>, ids: seq<string>, rows: seq<UsageRow>, n: nat): real
  {
    if n == 0 then 0.0 else CostOfTurns(starts, ids, rows, n - 1) + Cost(RowsOf(starts, ids, rows, n - 1))
  }

  lemma TotalsSnoc(rows: seq<UsageRow>, row: UsageRow, f: Field)
    ensures Total(rows + [row], f) == Total(rows, f) + Total([row], f)
    ensures Steps(rows + [row]) == Steps(rows) + Steps([row])
    ensures Cost(rows + [row]) == Cost(rows) + Cost([row])
  {
    hide Read;
    assert (rows + [row])[..|rows|] == rows && [row][..0] == [];
  }

  /** One more row adds to the totals of its owner's turn and to no other. */
  lemma {:induction false} OneMoreRow(starts: seq<nat>, ids: seq<string>, rows: seq<UsageRow>, f: Field, n: nat)
    requires rows != []
    ensures var (front, last) := (rows[..|rows| - 1], rows[|rows| - 1]);
            var k := Owner(starts, ids, last.entry);
            var credited := k.Some? && k.value < n;
            && TotalOfTurns(starts, ids, rows, f, n) ==
               TotalOfTurns(starts, ids, front, f, n) + (if credited then Total([last], f) else 0)
            && StepsOfTurns(starts, ids, rows, n) ==
               StepsOfTurns(starts, ids, front, n) + (if credited then Steps([last]) else 0)
            && CostOfTurns(starts, ids, rows, n) ==
               CostOfTurns(starts, ids, front, n) + (if credited then Cost([last]) else 0.0)
  {
    hide Owner, Total, Steps, Cost;
    if n > 0 {
      var (front, last) := (rows[..|rows| - 1], rows[|rows| - 1]);
      OneMoreRow(starts, ids, rows, f, n - 1);
      TotalsSnoc(RowsOf(starts, ids, front, n - 1), last, f);
      assert RowsOf(starts, ids, front, n - 1) + [] == RowsOf(starts, ids, front, n - 1);
    }
  }

  lemma NothingYet(starts: seq<nat>, ids: seq<string>, f: Field, n: nat)
    ensures TotalOfTurns(starts, ids, [], f, n) == 0 && StepsOfTurns(starts, ids, [], n) == 0
    ensures CostOfTurns(starts, ids, [], n) == 0.0
  {
    if n > 0 { NothingYet(starts, ids, f, n - 1); }
  }

  /** Every attributable row is counted in one turn and in one only: the turns' totals add up to the
      totals of the attributable rows. */
  lemma {:induction false} TurnsAddUp(starts: seq<nat>, ids: seq<string>, rows: seq<UsageRow>, f: Field)
    ensures TotalOfTurns(starts, ids, rows, f, |starts|) == Total(Attributable(starts, ids, rows), f)
    ensures StepsOfTurns(starts, ids, rows, |starts|) == Steps(Attributable(starts, ids, rows))
    ensures CostOfTurns(starts, ids, rows, |starts|) == Cost(Attributable(starts, ids, rows))
  {
    hide Owner, Total, Steps, Cost;
    if rows == [] {
      NothingYet(starts, ids, f, |starts|);
      assert Total([], f) == 0 && Steps([]) == 0 && Cost([]) == 0.0 by { NoRows(f); }
    } else {
      var (front, last) := (rows[..|rows| - 1], rows[|rows| - 1]);
      TurnsAddUp(starts, ids, front, f);
      OneMoreRow(starts, ids, rows, f, |starts|);
      TotalsSnoc(Attributable(starts, ids, front), last, f);
      assert Attributable(starts, ids, front) + [] == Attributable(starts, ids, front);
    }
  }

  lemma NoRows(f: Field)
    ensures Total([], f) == 0 && Steps([]) == 0 && Cost([]) == 0.0
  {
  }

  // -------------------------------------------------------------------- later turns

  lemma {:induction false} LastIndexOfOlder(ids: seq<string>, more: seq<string>, id: string)
    requires id !in more
    ensures LastIndex(ids + more, id) == LastIndex(ids, id)
  {
    if more == [] {
      assert ids + more == ids;
    } else {
      var all := ids + more;
      assert all[|all| - 1] == more[|more| - 1] && all[..|all| - 1] == ids + more[..|more| - 1];
      LastIndexOfOlder(ids, more[..|more| - 1], id);
    }
  }

  lemma OpenTurnOfOlder(starts: seq<nat>, more: seq<nat>, at: nat)
    requires forall i, j :: 0 <= i < j < |starts| ==> starts[i] < starts[j]
    requires forall i :: 0 <= i < |more| ==> more[i] > at
    ensures OpenTurn(starts + more, at) == OpenTurn(starts, at)
    decreases |more|
  {
    if more == [] {
      assert starts + more == starts;
    } else {
      var all := starts + more;
      assert all[|all| - 1] == more[|more| - 1] && all[..|all| - 1] == starts + more[..|more| - 1];
      OpenTurnOfOlder(starts, more[..|more| - 1], at);
    }
  }

  /** Rows of earlier turns keep their owner; rows of new entries go to new turns. */
  lemma OwnerKept(starts: seq<nat>, ids: seq<string>, newStarts: seq<nat>, newIds: seq<string>, entry: string, k: nat)
    requires IsStarts(starts, ids) && IsStarts(starts + newStarts, ids + newIds)
    requires newStarts != [] && newStarts[0] == |ids| && (forall id | id in newIds :: id !in ids)
    requires k < |starts|
    ensures Owner(starts + newStarts, ids + newIds, entry) == Some(k) <==>
            Owner(starts, ids, entry) == Some(k)
  {
    hide LastIndex, OpenTurn;
    var all, allIds := starts + newStarts, ids + newIds;
    var at := LastIndex(allIds, entry);
    forall i | 0 <= i < |newStarts|
      ensures newStarts[i] >= |ids|
    {
      assert all[|starts|] == newStarts[0] && all[|starts| + i] == newStarts[i];
    }
    if entry in newIds {
      assert at.Some? && at.value >= |ids| by {
        var i :| 0 <= i < |newIds| && newIds[i] == entry;
        assert allIds[|ids| + i] == entry;
      }
      assert all[|starts|] <= at.value && all[|starts|] in all;
    } else {
      LastIndexOfOlder(ids, newIds, entry);
      if at.Some? { OpenTurnOfOlder(starts, newStarts, at.value); }
    }
  }

  lemma {:induction false} StatsKept(starts: seq<nat>, ids: seq<string>, rows: seq<UsageRow>,
                                     newStarts: seq<nat>, newIds: seq<string>, newRows: seq<UsageRow>, k: nat)
    requires IsStarts(starts, ids) && IsStarts(starts + newStarts, ids + newIds)
    requires newStarts != [] && newStarts[0] == |ids| && (forall id | id in newIds :: id !in ids)
    requires forall row | row in newRows :: row.entry !in ids
    requires k < |starts|
    ensures (starts + newStarts)[k] == starts[k] && (ids + newIds)[starts[k]] == ids[starts[k]]
    ensures StatsOf(starts + newStarts, ids + newIds, rows + newRows, k) == StatsOf(starts, ids, rows, k)
  {
    hide Owner, Gather, IsStarts;
    assert (starts + newStarts)[k] == starts[k] && starts[k] < |ids| by { InRange(starts, ids, k); }
    RowsKept(starts, ids, rows, newStarts, newIds, newRows, k);
  }

  lemma InRange(starts: seq<nat>, ids: seq<string>, k: nat)
    requires IsStarts(starts, ids) && k < |starts|
    ensures starts[k] < |ids|
  {
  }

  lemma {:induction false} RowsKept(starts: seq<nat>, ids: seq<string>, rows: seq<UsageRow>,
                                    newStarts: seq<nat>, newIds: seq<string>, newRows: seq<UsageRow>, k: nat)
    requires IsStarts(starts, ids) && IsStarts(starts + newStarts, ids + newIds)
    requires newStarts != [] && newStarts[0] == |ids| && (forall id | id in newIds :: id !in ids)
    requires forall row | row in newRows :: row.entry !in ids
    requires k < |starts|
    ensures RowsOf(starts + newStarts, ids + newIds, rows + newRows, k) == RowsOf(starts, ids, rows, k)
    decreases |rows| + |newRows|
  {
    hide IsStarts, Owner;
    var all := rows + newRows;
    if newRows != [] {
      var last := newRows[|newRows| - 1];
      assert all[|all| - 1] == last && all[..|all| - 1] == rows + newRows[..|newRows| - 1];
      RowsKept(starts, ids, rows, newStarts, newIds, newRows[..|newRows| - 1], k);
      OwnerKept(starts, ids, newStarts, newIds, last.entry, k);
      assert Owner(starts, ids, last.entry) != Some(k) by { StrangerHasNoOwner(starts, ids, last.entry); }
    } else if rows != [] {
      var last := rows[|rows| - 1];
      assert all == rows && rows[..|rows| - 1] + newRows == rows[..|rows| - 1];
      RowsKept(starts, ids, rows[..|rows| - 1], newStarts, newIds, newRows, k);
      OwnerKept(starts, ids, newStarts, newIds, last.entry, k);
    } else {
      assert all == [];
    }
  }

  lemma StrangerHasNoOwner(starts: seq<nat>, ids: seq<string>, entry: string)
    requires entry !in ids
    ensures Owner(starts, ids, entry).None?
  {
  }

  lemma {:induction false} Extends(entries: seq<Entry>, more: seq<Entry>) returns (newStarts: seq<nat>)
    ensures TurnStarts(entries + more) == TurnStarts(entries) + newStarts
    ensures more != [] && more[0].opens ==> newStarts != [] && newStarts[0] == |entries|
    decreases |more|
  {
    hide IsStarts, Ids;
    if more == [] {
      assert entries + more == entries;
      newStarts := [];
    } else {
      var all, front := entries + more, more[..|more| - 1];
      assert all[|all| - 1] == more[|more| - 1] && all[..|all| - 1] == entries + front;
      newStarts := Extends(entries, front);
      var last: seq<nat> := if more[|more| - 1].opens then [|all| - 1] else [];
      ConcatAssociates(TurnStarts(entries), newStarts, last);
      newStarts := newStarts + last;
    }
  }

  lemma IdsExtend(entries: seq<Entry>, more: seq<Entry>)
    ensures Ids(entries + more) == Ids(entries) + Ids(more)
  {
  }

  /** A session that goes on with a new turn, and with rows for its new entries, shows its earlier turns
      unchanged. */
  lemma EarlierTurnsStay(entries: seq<Entry>, rows: seq<UsageRow>, more: seq<Entry>, newRows: seq<UsageRow>, k: nat)
    requires more != [] && more[0].opens && (forall id | id in Ids(more) :: id !in Ids(entries))
    requires forall row | row in newRows :: row.entry !in Ids(entries)
    requires k < |TurnStarts(entries)|
    ensures k < |TurnStarts(entries + more)|
    ensures StatsOf(TurnStarts(entries + more), Ids(entries + more), rows + newRows, k) ==
            StatsOf(TurnStarts(entries), Ids(entries), rows, k)
  {
    hide TurnStarts, Ids, StatsOf, IsStarts;
    var newStarts := Extends(entries, more);
    IdsExtend(entries, more);
    assert k < |TurnStarts(entries + more)|;
    StatsKept(TurnStarts(entries), Ids(entries), rows, newStarts, Ids(more), newRows, k);
  }
}

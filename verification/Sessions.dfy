/** The live session registry: admission, eviction, turn claims and cancellation
    (crates/tole-cli/src/session_host.rs), and the approval map the ACP loop keeps beside it. */
module Sessions {
  import opened Common

  const MAX_SESSIONS: nat := 256

  // ------------------------------------------- the registry as a value

  /** A running turn's claim on a session state. */
  datatype Guard<H> = Guard(id: string, state: H)

  /** What the shared handles amount to: the map, which states are busy or cancelled, the guards
      alive, and every state ever admitted. */
  datatype Registry<H> = Registry(live: map<string, H>, busy: set<H>, cancelled: set<H>,
                                  guards: map<nat, Guard<H>>, known: set<H>)

  /** One critical section on the session map (or the drop of a guard). */
  datatype Event<H> =
    | Claim(id: string, turn: nat)
    | Release(turn: nat)
    | Cancel(id: string)
    | EnsureRoom(evicted: set<string>)
    | Admit(id: string, state: H, evicted: set<string>)

  /** The ids that may be evicted: idle, and their busy flag not `locked` by another thread just now. */
  ghost function IdleIds<H>(live: map<string, H>, busy: set<H>, locked: set<H>): set<string>
  {
    set i | i in live && live[i] !in busy && live[i] !in locked
  }

  /** Idle sessions, just as many as make room for one more. */
  ghost predicate MakesRoom<H>(live: map<string, H>, evicted: set<string>, busy: set<H>, max: nat)
  {
    Fits(live, evicted, max) && forall i | i in evicted :: live[i] !in busy
  }

  /** Not even evicting every session that may be evicted makes room. */
  ghost predicate NoRoom<H>(r: Registry<H>, locked: set<H>, max: nat)
  {
    |r.live| - |IdleIds(r.live, r.busy, locked)| >= max
  }

  ghost predicate Fits<H>(live: map<string, H>, evicted: set<string>, max: nat)
  {
    evicted <= live.Keys && |live| - |evicted| < max && (evicted != {} ==> |live| - |evicted| == max - 1)
  }

  ghost predicate Enabled<H>(r: Registry<H>, ev: Event<H>, max: nat)
  {
    match ev
    case Claim(id, turn) => id in r.live && r.live[id] !in r.busy && turn !in r.guards
    case Release(turn) => turn in r.guards
    case Cancel(id) => id in r.live
    case EnsureRoom(evicted) => MakesRoom(r.live, evicted, r.busy, max)
    case Admit(id, state, evicted) =>
      state !in r.known &&
      if id in r.live then r.live[id] !in r.busy && evicted == {} else MakesRoom(r.live, evicted, r.busy, max)
  }

  ghost function After<H>(r: Registry<H>, ev: Event<H>, max: nat): Registry<H>
    requires Enabled(r, ev, max)
  {
    match ev
    case Claim(id, turn) =>
      var s := r.live[id];
      r.(busy := r.busy + {s}, cancelled := r.cancelled - {s}, guards := r.guards[turn := Guard(id, s)])
    case Release(turn) => r.(busy := r.busy - {r.guards[turn].state}, guards := r.guards - {turn})
    case Cancel(id) => r.(cancelled := r.cancelled + {r.live[id]})
    case EnsureRoom(evicted) => r.(live := r.live - evicted)
    case Admit(id, state, evicted) => r.(live := (r.live - evicted)[id := state], known := r.known + {state})
  }

  /** Every guard is on the state now in the map under its id, and that state is busy; no two guards
      share a state; a busy state has a guard. */
  ghost predicate GuardsHold<H>(r: Registry<H>)
  {
    (forall t | t in r.guards ::
       r.guards[t].id in r.live && r.live[r.guards[t].id] == r.guards[t].state && r.guards[t].state in r.busy) &&
    (forall t, u | t in r.guards && u in r.guards && t != u :: r.guards[t].state != r.guards[u].state) &&
    (forall s | s in r.busy :: HasGuard(r, s))
  }

  ghost predicate HasGuard<H>(r: Registry<H>, s: H) { exists t :: t in r.guards && r.guards[t].state == s }

  /** Ids do not share states, nothing is busy or cancelled that was never admitted, the cap holds. */
  ghost predicate MapHolds<H>(r: Registry<H>, max: nat)
  {
    (forall i, j | i in r.live && j in r.live && i != j :: r.live[i] != r.live[j]) &&
    (forall i | i in r.live :: r.live[i] in r.known) &&
    r.busy <= r.known && r.cancelled <= r.known &&
    |r.live| <= max
  }

  ghost predicate Inv<H>(r: Registry<H>, max: nat) { GuardsHold(r) && MapHolds(r, max) }

  lemma EvictionSize<H>(live: map<string, H>, evicted: set<string>)
    requires evicted <= live.Keys
    ensures |live - evicted| == |live| - |evicted|
  {
    assert (live - evicted).Keys == live.Keys - evicted;
    assert |live.Keys| == |live.Keys - evicted| + |evicted|;
  }

  lemma ClaimKeepsGuards<H>(r: Registry<H>, id: string, turn: nat, max: nat)
    requires Inv(r, max) && Enabled(r, Claim(id, turn), max)
    ensures GuardsHold(After(r, Claim(id, turn), max))
  {
    var r' := After(r, Claim(id, turn), max);
    forall s | s in r'.busy ensures HasGuard(r', s) {
      if s == r.live[id] {
        assert r'.guards[turn].state == s;
      } else {
        assert HasGuard(r, s);
        var t :| t in r.guards && r.guards[t].state == s;
        assert r'.guards[t].state == s;
      }
    }
  }

  lemma ReleaseKeepsGuards<H>(r: Registry<H>, turn: nat, max: nat)
    requires Inv(r, max) && turn in r.guards
    ensures GuardsHold(After(r, Release(turn), max))
  {
    var r' := After(r, Release(turn), max);
    forall s | s in r'.busy ensures HasGuard(r', s) {
      assert HasGuard(r, s);
      var t :| t in r.guards && r.guards[t].state == s;
      assert t in r'.guards;
    }
  }

  lemma MapChangeKeepsGuards<H>(r: Registry<H>, r': Registry<H>)
    requires GuardsHold(r) && r'.guards == r.guards && r'.busy == r.busy
    requires forall i | i in r.live && r.live[i] in r.busy :: i in r'.live && r'.live[i] == r.live[i]
    ensures GuardsHold(r')
  {
    forall s | s in r'.busy ensures HasGuard(r', s) {
      assert HasGuard(r, s);
    }
  }

  /** Removing sessions keeps the map part. */
  lemma RemovalKeepsMap<H>(r: Registry<H>, ids: set<string>, max: nat)
    requires MapHolds(r, max) && |r.live - ids| <= max
    ensures MapHolds(r.(live := r.live - ids), max)
  {
  }

  /** Putting a new state under an id keeps the map part. */
  lemma InsertKeepsMap<H>(r: Registry<H>, id: string, state: H, max: nat)
    requires MapHolds(r, max) && state !in r.known
    requires id in r.live || |r.live| < max
    ensures MapHolds(r.(live := r.live[id := state], known := r.known + {state}), max)
  {
    assert r.live[id := state].Keys == r.live.Keys + {id};
    assert id in r.live ==> r.live.Keys + {id} == r.live.Keys;
  }

  lemma AdmitKeepsMap<H>(r: Registry<H>, id: string, state: H, evicted: set<string>, max: nat)
    requires MapHolds(r, max) && state !in r.known && evicted <= r.live.Keys
    requires if id in r.live then evicted == {} else |r.live| - |evicted| < max
    ensures MapHolds(r.(live := (r.live - evicted)[id := state], known := r.known + {state}), max)
  {
    EvictionSize(r.live, evicted);
    RemovalKeepsMap(r, evicted, max);
    assert evicted == {} ==> r.live - evicted == r.live;
    InsertKeepsMap(r.(live := r.live - evicted), id, state, max);
  }

  lemma EnsureRoomKeepsInv<H>(r: Registry<H>, evicted: set<string>, max: nat)
    requires Inv(r, max) && MakesRoom(r.live, evicted, r.busy, max)
    ensures Inv(After(r, EnsureRoom(evicted), max), max)
  {
    hide GuardsHold, MapHolds;
    EvictionSize(r.live, evicted);
    assert |r.live| - |evicted| <= max;
    RemovalKeepsMap(r, evicted, max);
    MapChangeKeepsGuards(r, After(r, EnsureRoom(evicted), max));
  }

  lemma AdmitKeepsInv<H>(r: Registry<H>, id: string, state: H, evicted: set<string>, max: nat)
    requires Inv(r, max) && Enabled(r, Admit(id, state, evicted), max)
    ensures Inv(After(r, Admit(id, state, evicted), max), max)
  {
    hide GuardsHold, MapHolds;
    AdmitKeepsMap(r, id, state, evicted, max);
    MapChangeKeepsGuards(r, After(r, Admit(id, state, evicted), max));
  }

  /** Every critical section keeps the invariant: in every interleaving at most one turn runs per
      id, and no running turn's state is evicted or replaced. */
  lemma EventKeepsInv<H>(r: Registry<H>, ev: Event<H>, max: nat)
    requires Inv(r, max) && Enabled(r, ev, max)
    ensures Inv(After(r, ev, max), max)
  {
    hide GuardsHold, MakesRoom;
    match ev
    case Claim(id, turn) => ClaimKeepsGuards(r, id, turn, max);
    case Release(turn) => ReleaseKeepsGuards(r, turn, max);
    case Cancel(id) => MapChangeKeepsGuards(r, After(r, ev, max));
    case EnsureRoom(evicted) => EnsureRoomKeepsInv(r, evicted, max);
    case Admit(id, state, evicted) => AdmitKeepsInv(r, id, state, evicted, max);
  }

  // ------------------------------------------------------------------ runs

  ghost predicate IsRun<H>(evs: seq<Event<H>>, max: nat)
    decreases |evs|, 0
  {
    evs == [] ||
    var front := evs[..|evs| - 1];
    IsRun(front, max) && Enabled(State(front, max), evs[|evs| - 1], max)
  }

  /** The registry after a run of critical sections, from the empty map. */
  ghost function State<H>(evs: seq<Event<H>>, max: nat): Registry<H>
    requires IsRun(evs, max)
    decreases |evs|, 1
  {
    if evs == [] then Registry(map[], {}, {}, map[], {})
    else After(State(evs[..|evs| - 1], max), evs[|evs| - 1], max)
  }

  /** Safety over whole runs. */
  lemma {:induction false} RunsAreSafe<H>(evs: seq<Event<H>>, max: nat)
    requires IsRun(evs, max)
    ensures Inv(State(evs, max), max)
  {
    if evs != [] {
      RunsAreSafe(evs[..|evs| - 1], max);
      EventKeepsInv(State(evs[..|evs| - 1], max), evs[|evs| - 1], max);
    }
  }

  /** The turn claimed by event `k` has not been released since. */
  ghost predicate StillRunning<H>(evs: seq<Event<H>>, k: nat, turn: nat)
  {
    k < |evs| && evs[k].Claim? && evs[k].turn == turn &&
    forall j :: k < j < |evs| ==> evs[j] != Release(turn)
  }

  /** While a turn runs, its token reads cancelled exactly when a cancel for its id came after its
      claim: earlier ones never reach it, later ones are never lost to another state. */
  lemma {:induction false} CancelHitsItsTurn<H>(evs: seq<Event<H>>, k: nat, turn: nat, max: nat)
    requires IsRun(evs, max) && StillRunning(evs, k, turn)
    ensures var r := State(evs, max);
            turn in r.guards && r.guards[turn].id == evs[k].id &&
            (r.guards[turn].state in r.cancelled <==> exists j :: k < j < |evs| && evs[j] == Cancel(evs[k].id))
    decreases |evs|
  {
    var front, ev := evs[..|evs| - 1], evs[|evs| - 1];
    if k < |front| {
      CancelHitsItsTurn(front, k, turn, max);
      RunsAreSafe(front, max);
      assert ev != Release(turn);
      CancelStep(State(front, max), ev, turn, max);
      CancelsExtend(evs, k);
    }
  }

  lemma CancelsExtend<H>(evs: seq<Event<H>>, k: nat)
    requires k < |evs| - 1 && evs[k].Claim?
    ensures var front := evs[..|evs| - 1];
            (exists j :: k < j < |evs| && evs[j] == Cancel(evs[k].id)) <==>
            (exists j :: k < j < |front| && front[j] == Cancel(front[k].id)) || evs[|evs| - 1] == Cancel(evs[k].id)
  {
    var front := evs[..|evs| - 1];
    if exists j :: k < j < |front| && front[j] == Cancel(front[k].id) {
      var j :| k < j < |front| && front[j] == Cancel(front[k].id);
      assert evs[j] == Cancel(evs[k].id);
    }
    if exists j :: k < j < |evs| && evs[j] == Cancel(evs[k].id) {
      var j :| k < j < |evs| && evs[j] == Cancel(evs[k].id);
      assert j < |front| ==> front[j] == Cancel(front[k].id);
    }
  }

  lemma CancelStep<H>(r: Registry<H>, ev: Event<H>, turn: nat, max: nat)
    requires Inv(r, max) && Enabled(r, ev, max)
    requires turn in r.guards && ev != Release(turn)
    ensures var g := r.guards[turn];
            turn in After(r, ev, max).guards && After(r, ev, max).guards[turn] == g &&
            (g.state in After(r, ev, max).cancelled <==> g.state in r.cancelled || ev == Cancel(g.id))
  {
  }

  // ------------------------------------------------------ the registry itself

  /** The shared handles of one opened session that the registry touches. */
  class SessionState {
    var busy: bool
    var cancelled: bool

    constructor ()
      ensures !busy && !cancelled
    {
      busy, cancelled := false, false;
    }
  }

  /** Un-marks its session when dropped. */
  class BusyGuard {
    const state: SessionState
    ghost const turn: nat

    constructor (state: SessionState, ghost turn: nat)
      ensures this.state == state && this.turn == turn
    {
      this.state, this.turn := state, turn;
    }
  }

  datatype AdmitError = AtCapacity | Busy

  class Sessions {
    var live: map<string, SessionState>
    ghost var guards: map<nat, Guard<SessionState>>
    ghost var known: set<SessionState>

    ghost function View(): Registry<SessionState>
      reads this, known
    {
      Registry(live, BusyStates(), CancelledStates(), guards, known)
    }

    ghost function BusyStates(): set<SessionState>
      reads this`known, known
    {
      set s | s in known && s.busy
    }

    ghost function CancelledStates(): set<SessionState>
      reads this`known, known
    {
      set s | s in known && s.cancelled
    }

    ghost predicate Valid(max: nat)
      reads this, known
    {
      Inv(View(), max)
    }

    constructor ()
      ensures View() == Registry(map[], {}, {}, map[], {})
      ensures Valid(MAX_SESSIONS)
    {
      live, guards, known := map[], map[], {};
      new;
      assert View() == Registry(map[], {}, {}, map[], {});
    }

    /** A session is busy exactly while a guard on it is alive. */
    method IsBusy(id: string) returns (busy: bool)
      requires Valid(MAX_SESSIONS)
      ensures busy <==> exists t :: t in guards && guards[t].id == id
    {
      busy := id in live && live[id].busy;
      BusyMeansGuarded(View(), id, MAX_SESSIONS);
    }

    /** The explicit id, or the only live one. */
    method ResolveId(explicit: Option<string>) returns (r: Option<string>)
      ensures explicit.Some? ==> r == explicit
      ensures explicit.None? ==> (r.Some? <==> |live| == 1)
      ensures explicit.None? && r.Some? ==> live.Keys == {r.value}
    {
      if explicit.Some? {
        return explicit;
      }
      if |live| == 1 {
        var id :| id in live;
        assert live.Keys == {id} by {
          assert |live.Keys - {id}| == 0;
        }
        return Some(id);
      }
      return None;
    }

    /** Requests cancellation of the turn of `id`. */
    method Cancel(id: string) returns (found: bool)
      requires Valid(MAX_SESSIONS)
      modifies known`cancelled
      ensures found <==> id in live
      ensures found ==> View() == After(old(View()), Event.Cancel(id), MAX_SESSIONS)
      ensures !found ==> View() == old(View())
      ensures Valid(MAX_SESSIONS)
    {
      if id !in live {
        return false;
      }
      live[id].cancelled := true;
      assert View() == After(old(View()), Event.Cancel(id), MAX_SESSIONS);
      EventKeepsInv(old(View()), Event.Cancel(id), MAX_SESSIONS);
      return true;
    }

    /** Claims `id` for one turn and clears a cancel that had no turn to hit. */
    method ClaimTurn(id: string, ghost turn: nat) returns (r: Result<(SessionState, BusyGuard), string>)
      requires Valid(MAX_SESSIONS) && turn !in guards
      modifies this`guards, known
      ensures r.Ok? <==> id in old(live) && !old(live[id].busy)
      ensures r.Ok? ==> View() == After(old(View()), Claim(id, turn), MAX_SESSIONS) &&
                        r.value.0 == live[id] && r.value.1.state == live[id] && r.value.1.turn == turn
      ensures r.Err? ==> View() == old(View())
      ensures r.Err? ==> r.error == if id in live then "session is busy running a turn" else "unknown session: " + id
      ensures Valid(MAX_SESSIONS)
    {
      if id !in live {
        return Err("unknown session: " + id);
      }
      var state := live[id];
      if state.busy {
        return Err("session is busy running a turn");
      }
      state.busy := true;
      state.cancelled := false;
      guards := guards[turn := Guard(id, state)];
      var guard := new BusyGuard(state, turn);
      assert View() == After(old(View()), Claim(id, turn), MAX_SESSIONS);
      EventKeepsInv(old(View()), Claim(id, turn), MAX_SESSIONS);
      return Ok((state, guard));
    }

    /** The drop of a guard. */
    method Drop(guard: BusyGuard)
      requires Valid(MAX_SESSIONS)
      requires guard.turn in guards && guards[guard.turn].state == guard.state
      modifies this`guards, known
      ensures View() == After(old(View()), Release(guard.turn), MAX_SESSIONS)
      ensures Valid(MAX_SESSIONS)
    {
      guard.state.busy := false;
      guards := guards - {guard.turn};
      assert View() == After(old(View()), Release(guard.turn), MAX_SESSIONS);
      EventKeepsInv(old(View()), Release(guard.turn), MAX_SESSIONS);
    }

    ghost predicate AllKnown()
      reads this
    {
      forall i | i in live :: live[i] in known
    }

    /** Evicts idle sessions until there is room for one more; reports each evicted id once. */
    method EvictForInsert(max: nat, locked: set<SessionState>) returns (r: Result<seq<string>, ()>)
      requires AllKnown()
      modifies this`live
      ensures r.Ok? ==> |Ids(r.value)| == |r.value| && Ids(r.value) <= IdleIds(old(live), old(BusyStates()), locked)
      ensures r.Err? <==> NoRoom(old(View()), locked, max)
      ensures r.Ok? ==> Enabled(old(View()), Event.EnsureRoom(Ids(r.value)), max) &&
                        View() == After(old(View()), Event.EnsureRoom(Ids(r.value)), max)
      ensures r.Err? ==> |live| >= max && IdleIds(live, BusyStates(), locked) == {}
      ensures r.Err? && |old(live)| <= max ==> View() == old(View())
    {
      hide Enabled, After, Fits, Ids;
      ghost var before := View();
      var idle := set i | i in live && !live[i].busy && live[i] !in locked;
      assert idle == IdleIds(before.live, before.busy, locked);
      assert NoRoom(before, locked, max) <==> |live| - |idle| >= max;
      hide IdleIds, NoRoom;
      var ok, left, evicted := EvictIdle(live, idle, max);
      live := left;
      assert View() == before.(live := left);
      if !ok {
        StillIdle(before.live, left, idle, Ids(evicted), before.busy, locked);
        return Err(());
      }
      EvictionMakesRoom(before, Ids(evicted), locked, max);
      return Ok(evicted);
    }

    /** Makes room before a session is opened. */
    method EnsureRoom(locked: set<SessionState>) returns (r: Result<seq<string>, ()>)
      requires Valid(MAX_SESSIONS)
      modifies this`live
      ensures r.Ok? ==> |Ids(r.value)| == |r.value| && Enabled(old(View()), Event.EnsureRoom(Ids(r.value)), MAX_SESSIONS) &&
                        View() == After(old(View()), Event.EnsureRoom(Ids(r.value)), MAX_SESSIONS)
      ensures r.Ok? ==> Ids(r.value) <= IdleIds(old(live), old(BusyStates()), locked)
      ensures r.Err? ==> View() == old(View()) && IdleIds(live, BusyStates(), locked) == {}
      ensures r.Err? <==> NoRoom(old(View()), locked, MAX_SESSIONS)
      ensures Valid(MAX_SESSIONS)
    {
      r := EvictForInsert(MAX_SESSIONS, locked);
      if r.Ok? {
        EventKeepsInv(old(View()), Event.EnsureRoom(Ids(r.value)), MAX_SESSIONS);
      }
    }

    /** Puts a new state under an id. */
    method Insert(id: string, state: SessionState)
      requires state !in known && !state.busy && !state.cancelled
      modifies this`live, this`known
      ensures View() == old(View()).(live := old(live)[id := state], known := old(known) + {state})
    {
      live := live[id := state];
      known := known + {state};
      assert BusyStates() == old(BusyStates()) && CancelledStates() == old(CancelledStates());
    }

    method AdmitCapped(id: string, state: SessionState, max: nat, locked: set<SessionState>) returns (r: Result<seq<string>, AdmitError>)
      requires AllKnown()
      requires state !in known && !state.busy && !state.cancelled
      modifies this`live, this`known
      ensures r.Ok? ==> |Ids(r.value)| == |r.value| && Enabled(old(View()), Event.Admit(id, state, Ids(r.value)), max) &&
                        View() == After(old(View()), Event.Admit(id, state, Ids(r.value)), max)
      ensures r == Err(Busy) <==> id in old(live) && old(live[id].busy)
      ensures r.Ok? ==> Ids(r.value) <= IdleIds(old(live), old(BusyStates()), locked)
      ensures r == Err(AtCapacity) <==> id !in old(live) && NoRoom(old(View()), locked, max)
      ensures r == Err(AtCapacity) ==> |live| >= max && IdleIds(live, BusyStates(), locked) == {}
      ensures r.Err? && (r.error.Busy? || |old(live)| <= max) ==> View() == old(View())
    {
      if id in live {
        if live[id].busy {
          return Err(Busy);
        }
        Insert(id, state);
        assert Ids([]) == {} && old(live) - {} == old(live);
        return Ok([]);
      }
      var room := EvictForInsert(max, locked);
      if room.Err? {
        return Err(AtCapacity);
      }
      Insert(id, state);
      return Ok(room.value);
    }

    /** Admits a freshly opened session: replaces an idle one of the same id, refuses a busy one, and
        for a new id evicts at capacity. Reports the evicted ids; a refusal changes nothing. */
    method Admit(id: string, state: SessionState, locked: set<SessionState>) returns (r: Result<seq<string>, AdmitError>)
      requires Valid(MAX_SESSIONS)
      requires state !in known && !state.busy && !state.cancelled
      modifies this`live, this`known
      ensures r.Ok? ==> |Ids(r.value)| == |r.value| && Enabled(old(View()), Event.Admit(id, state, Ids(r.value)), MAX_SESSIONS) &&
                        View() == After(old(View()), Event.Admit(id, state, Ids(r.value)), MAX_SESSIONS)
      ensures r.Err? ==> View() == old(View())
      ensures r == Err(Busy) <==> id in old(live) && old(live[id].busy)
      ensures r.Ok? ==> Ids(r.value) <= IdleIds(old(live), old(BusyStates()), locked)
      ensures r == Err(AtCapacity) <==> id !in old(live) && NoRoom(old(View()), locked, MAX_SESSIONS)
      ensures r == Err(AtCapacity) ==> |live| == MAX_SESSIONS && IdleIds(live, BusyStates(), locked) == {}
      ensures Valid(MAX_SESSIONS)
    {
      r := AdmitCapped(id, state, MAX_SESSIONS, locked);
      if r.Ok? {
        EventKeepsInv(old(View()), Event.Admit(id, state, Ids(r.value)), MAX_SESSIONS);
      }
    }
  }

  // ------------------------------------------- the ACP loop's parallel map

  datatype ApprovalState = ApprovalState(autoWrite: bool, currentModel: string)

  /** The part of `session/new` that admits an opened session and brings the loop's approval states
      back in step with the registry. */
  method AdmitOpened(sessions: Sessions, approvals: map<string, ApprovalState>, id: string, state: SessionState,
                     approval: ApprovalState, locked: set<SessionState>)
    returns (r: Result<seq<string>, AdmitError>, approvals': map<string, ApprovalState>)
    requires sessions.Valid(MAX_SESSIONS) && approvals.Keys == sessions.live.Keys
    requires state !in sessions.known && !state.busy && !state.cancelled
    modifies sessions`live, sessions`known
    ensures sessions.Valid(MAX_SESSIONS) && approvals'.Keys == sessions.live.Keys
    ensures r.Ok? ==> sessions.live == (old(sessions.live) - Ids(r.value))[id := state]
    ensures r.Ok? ==> approvals' == (approvals - Ids(r.value))[id := approval]
    ensures r.Err? ==> sessions.live == old(sessions.live) && approvals' == approvals
  {
    hide GuardsHold, HasGuard;
    r := sessions.Admit(id, state, locked);
    assert sessions.View().live == sessions.live;
    if r.Err? {
      return r, approvals;
    }
    approvals' := RemoveAll(approvals, r.value);
    approvals' := approvals'[id := approval];
  }

  lemma BusyMeansGuarded<H>(r: Registry<H>, id: string, max: nat)
    requires Inv(r, max)
    ensures id in r.live && r.live[id] in r.busy <==> exists t :: t in r.guards && r.guards[t].id == id
  {
    if id in r.live && r.live[id] in r.busy {
      assert HasGuard(r, r.live[id]);
    }
  }

  /** When every idle session is gone, none of those left is idle. */
  lemma StillIdle<H>(all: map<string, H>, left: map<string, H>, idle: set<string>, gone: set<string>, busy: set<H>, locked: set<H>)
    requires idle == IdleIds(all, busy, locked) && idle <= gone && left == all - gone
    ensures IdleIds(left, busy, locked) == {}
  {
    assert forall i | i in left :: i in all && i !in gone && left[i] == all[i];
  }

  lemma EvictionMakesRoom<H>(r: Registry<H>, evicted: set<string>, locked: set<H>, max: nat)
    requires evicted <= IdleIds(r.live, r.busy, locked) && Fits(r.live, evicted, max)
    ensures Enabled(r, EnsureRoom(evicted), max)
    ensures After(r, EnsureRoom(evicted), max) == r.(live := r.live - evicted)
  {
  }

  /** The loop that drops a key at a time. */
  method RemoveAll<V>(m: map<string, V>, ids: seq<string>) returns (left: map<string, V>)
    ensures left == m - Ids(ids)
  {
    left := m;
    for k := 0 to |ids|
      invariant left == m - Ids(ids[..k])
    {
      left := left - {ids[k]};
      assert Ids(ids[..k + 1]) == Ids(ids[..k]) + {ids[k]};
    }
    assert ids[..|ids|] == ids;
  }

  /** The eviction loop, on the map and its idle ids: which of them goes first is left open. */
  method EvictIdle<H>(all: map<string, H>, idle: set<string>, max: nat) returns (ok: bool, left: map<string, H>, evicted: seq<string>)
    requires idle <= all.Keys
    ensures left == all - Ids(evicted) && |Ids(evicted)| == |evicted| && Ids(evicted) <= idle
    ensures ok ==> Fits(all, Ids(evicted), max)
    ensures !ok ==> |left| >= max && idle <= Ids(evicted)
    ensures !ok && |all| <= max ==> left == all
    ensures ok <==> |all| - |idle| < max
  {
    hide Evicting, Fits, Ids;
    left, evicted := all, [];
    assert Evicting(all, left, evicted, idle, max) by { NothingEvicted(all, idle, max); }
    while |left| >= max
      invariant Evicting(all, left, evicted, idle, max)
      decreases |left|
    {
      var candidates := set i | i in idle && i in left;
      if candidates == {} {
        assert forall i | i in idle :: i !in left by { assert forall i | i in idle && i in left :: i in candidates; }
        EvictionFails(all, left, evicted, idle, max);
        return false, left, evicted;
      }
      var oldest :| oldest in candidates;
      EvictionStep(all, left, evicted, oldest, idle, max);
      assert (left - {oldest}).Keys == left.Keys - {oldest};
      left := left - {oldest};
      evicted := evicted + [oldest];
    }
    EvictionEnds(all, left, evicted, idle, max);
    return true, left, evicted;
  }

  lemma NothingEvicted<H>(all: map<string, H>, idle: set<string>, max: nat)
    requires idle <= all.Keys
    ensures Evicting(all, all, [], idle, max)
  {
    assert all - Ids([]) == all;
  }

  lemma EvictionFails<H>(all: map<string, H>, left: map<string, H>, evicted: seq<string>, idle: set<string>, max: nat)
    requires Evicting(all, left, evicted, idle, max) && |left| >= max && forall i | i in idle :: i !in left
    ensures left == all - Ids(evicted) && |Ids(evicted)| == |evicted| && Ids(evicted) == idle
    ensures |all| - |idle| >= max && (|all| <= max ==> left == all)
  {
    assert Ids(evicted) == idle;
    assert evicted == [] ==> left == all;
  }

  lemma EvictionEnds<H>(all: map<string, H>, left: map<string, H>, evicted: seq<string>, idle: set<string>, max: nat)
    requires Evicting(all, left, evicted, idle, max) && |left| < max
    ensures left == all - Ids(evicted) && |Ids(evicted)| == |evicted| && Ids(evicted) <= idle
    ensures Fits(all, Ids(evicted), max) && |all| - |idle| < max
  {
    SubsetSize(Ids(evicted), idle);
  }

  ghost function Ids(ids: seq<string>): set<string> { set i | i in ids }

  /** Where the eviction loop stands: `evicted`, all of them `idle`, are gone from `all`. */
  ghost predicate Evicting<H>(all: map<string, H>, live: map<string, H>, evicted: seq<string>, idle: set<string>, max: nat)
  {
    live == all - Ids(evicted) && |Ids(evicted)| == |evicted| && Ids(evicted) <= idle <= all.Keys &&
    |live| == |all| - |evicted| && (evicted != [] ==> |live| >= max - 1)
  }

  lemma EvictionStep<H>(all: map<string, H>, live: map<string, H>, evicted: seq<string>, id: string, idle: set<string>, max: nat)
    requires Evicting(all, live, evicted, idle, max) && |live| >= max
    requires id in live && id in idle
    ensures Evicting(all, live - {id}, evicted + [id], idle, max)
  {
    assert Ids(evicted + [id]) == Ids(evicted) + {id};
    assert (live - {id}).Keys == live.Keys - {id};
  }
}

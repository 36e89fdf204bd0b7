/** Which locks the ACP reader thread and the turn threads hold and want, one lock operation a step
    (crates/tole-cli/src/acp.rs, crates/tole-cli/src/session_host.rs, crates/tole-cli/src/approver.rs).
    The reader routes the permission replies that waiting turns depend on, so it must never be stuck
    behind one of them. */
module AcpLocks {
  import opened Common

  /** One `SessionState` and the approval handles created with it. */
  type Object = nat

  datatype Lock =
    | MapLock
    | ApprovalsLock
    | PendingLock
    | NextIdLock
    | BusyLock(o: Object)
    | StorageLock(o: Object)
    | PatternsLock(o: Object)
    | AutoWriteLock(o: Object)

  // --------------------------------------------------------- the turn threads

  /** The short critical sections of a turn that runs. */
  datatype Use = ReadAutoWrite | ReadPatterns | TakeId | Register | Abandon | Grant

  function UseLock(o: Object, use: Use): Lock
  {
    match use
    case ReadAutoWrite => AutoWriteLock(o)
    case ReadPatterns => PatternsLock(o)
    case TakeId => NextIdLock
    case Register => PendingLock
    case Abandon => PendingLock
    case Grant => PatternsLock(o)
  }

  /** Where a turn thread stands in `run_session_turn`. */
  datatype Turn =
    | AtMap(id: string)
    | InMap(id: string)
    | AtBusy(o: Object)
    | InBusy(o: Object)
    | Refused
    | Claimed(o: Object)
    | AtStorage(o: Object)
    | Running(o: Object)
    | Using(o: Object, use: Use, inside: bool)
    | Awaiting(o: Object)
    | Dropping(o: Object, inside: bool)
    | Done

  function TurnHolds(p: Turn): set<Lock>
  {
    match p
    case InMap(_) => {MapLock}
    case AtBusy(_) => {MapLock}
    case InBusy(o) => {MapLock, BusyLock(o)}
    case Refused => {MapLock}
    case Claimed(_) => {MapLock}
    case Running(o) => {StorageLock(o)}
    case Using(o, use, inside) => if inside then {StorageLock(o), UseLock(o, use)} else {StorageLock(o)}
    case Awaiting(o) => {StorageLock(o)}
    case Dropping(o, inside) => if inside then {BusyLock(o)} else {}
    case _ => {}
  }

  function TurnWants(p: Turn): Option<Lock>
  {
    match p
    case AtMap(_) => Some(MapLock)
    case AtBusy(o) => Some(BusyLock(o))
    case AtStorage(o) => Some(StorageLock(o))
    case Using(o, use, false) => Some(UseLock(o, use))
    case Dropping(o, false) => Some(BusyLock(o))
    case _ => None
  }

  /** The session object whose busy flag the turn has set and not yet cleared. */
  function Claim(p: Turn): Option<Object>
  {
    if p.Claimed? || p.AtStorage? || p.Running? || p.Using? || p.Awaiting? || p.Dropping? then Some(p.o) else None
  }

  // --------------------------------------------------------------- the reader

  /** What the reader takes the session map for. */
  datatype Task = Cancel | Prompt | Check | Admit(object_: Object) | Model

  datatype Reader =
    | Reading
    | ToMap(task: Task, id: string)
    | OnMap(task: Task, id: string)
    | ToBusy(task: Task, id: string, o: Object)
    | OnBusy(task: Task, id: string, o: Object)
    | ToStorage(o: Object)
    | OnStorage(o: Object)
    | SideMap(o: Object, inside: bool)
    | Leaving(next: Reader)
    | Opening(id: string, o: Object, inside: bool)
    | Sections(locks: seq<Lock>, inside: bool)

  function ReaderHolds(r: Reader): set<Lock>
  {
    match r
    case OnMap(_, _) => {MapLock}
    case ToBusy(_, _, _) => {MapLock}
    case OnBusy(_, _, o) => {MapLock, BusyLock(o)}
    case ToStorage(_) => {MapLock}
    case OnStorage(o) => {MapLock, StorageLock(o)}
    case SideMap(_, inside) => if inside then {MapLock, ApprovalsLock} else {MapLock}
    case Leaving(_) => {MapLock}
    case Opening(_, o, inside) => if inside then {StorageLock(o)} else {}
    case Sections(locks, inside) => if inside && locks != [] then {locks[0]} else {}
    case _ => {}
  }

  function ReaderWants(r: Reader): Option<Lock>
  {
    match r
    case ToMap(_, _) => Some(MapLock)
    case ToBusy(_, _, o) => Some(BusyLock(o))
    case ToStorage(o) => Some(StorageLock(o))
    case SideMap(_, false) => Some(ApprovalsLock)
    case Opening(_, o, false) => Some(StorageLock(o))
    case Sections(locks, false) => if locks == [] then None else Some(locks[0])
    case _ => None
  }

  // ----------------------------------------------------------------- the steps

  datatype World = World(
    live: map<string, Object>,
    busy: set<Object>,
    created: nat,
    reader: Reader,
    turns: seq<Turn>
  )

  datatype Thread = TheReader | TurnThread(t: nat)

  function Holds(w: World, who: Thread): set<Lock>
  {
    if who.TheReader? then ReaderHolds(w.reader)
    else if who.t < |w.turns| then TurnHolds(w.turns[who.t])
    else {}
  }

  function Wants(w: World, who: Thread): Option<Lock>
  {
    if who.TheReader? then ReaderWants(w.reader)
    else if who.t < |w.turns| then TurnWants(w.turns[who.t])
    else None
  }

  predicate Free(w: World, l: Lock)
  {
    l !in ReaderHolds(w.reader) && forall t :: 0 <= t < |w.turns| ==> l !in TurnHolds(w.turns[t])
  }

  /** Where turn thread `p` may go next when it wants no lock. */
  predicate TurnGoes(w: World, p: Turn, q: Turn)
  {
    match p
    case InMap(id) => q == if id in w.live then AtBusy(w.live[id]) else Refused
    case InBusy(o) => q == if o in w.busy then Refused else Claimed(o)
    case Refused => q == Done
    case Claimed(o) => q == AtStorage(o)
    case Running(o) => q == Using(o, ReadAutoWrite, false) || q == Using(o, TakeId, false) || q == Dropping(o, false)
    case Using(o, ReadAutoWrite, true) => q == Using(o, ReadPatterns, false)
    case Using(o, ReadPatterns, true) => q == Running(o) || q == Using(o, TakeId, false)
    case Using(o, TakeId, true) => q == Using(o, Register, false)
    case Using(o, Register, true) => q == Awaiting(o)
    case Using(o, _, true) => q == Running(o)
    case Awaiting(o) => q == Running(o) || q == Using(o, Grant, false) || q == Using(o, Abandon, false)
    case Dropping(_, true) => q == Done
    case _ => false
  }

  /** Where the turn stands once it has the lock it wants. */
  function TurnEnters(p: Turn): Turn
    requires TurnWants(p).Some?
  {
    match p
    case AtMap(id) => InMap(id)
    case AtBusy(o) => InBusy(o)
    case AtStorage(o) => Running(o)
    case Using(o, use, _) => Using(o, use, true)
    case Dropping(o, _) => Dropping(o, true)
  }

  /** The busy flags after a turn thread went from `p` to `q`. */
  function BusyAfter(busy: set<Object>, p: Turn, q: Turn): set<Object>
  {
    if p.InBusy? && q.Claimed? then busy + {p.o}
    else if p.Dropping? && p.inside then busy - {p.o}
    else busy
  }

  predicate TurnStep(w: World, t: nat, v: World)
  {
    t < |w.turns| && t < |v.turns| &&
    var p, q := w.turns[t], v.turns[t];
    v == w.(turns := w.turns[t := q], busy := BusyAfter(w.busy, p, q)) &&
    if TurnWants(p).Some? then Free(w, TurnWants(p).value) && q == TurnEnters(p) else TurnGoes(w, p, q)
  }

  function ReaderEnters(r: Reader): Reader
    requires ReaderWants(r).Some?
  {
    match r
    case ToMap(task, id) => OnMap(task, id)
    case ToBusy(task, id, o) => OnBusy(task, id, o)
    case ToStorage(o) => OnStorage(o)
    case SideMap(o, _) => SideMap(o, true)
    case Opening(id, o, _) => Opening(id, o, true)
    case Sections(locks, _) => Sections(locks, true)
  }

  /** The requests and replies that make the reader take locks. */
  predicate Starts(r: Reader)
  {
    match r
    case ToMap(task, _) => task == Cancel || task == Prompt || task == Check || task == Model
    case Sections(locks, false) => locks == [PendingLock] || (|locks| == 2 && locks[0] == ApprovalsLock && locks[1].AutoWriteLock?)
    case _ => false
  }

  /** Where the reader may go next when it wants no lock, without changing the map. */
  predicate ReaderGoes(w: World, r: Reader, s: Reader)
  {
    match r
    case Reading => Starts(s)
    case OnMap(Cancel, _) => s == Leaving(Reading)
    case OnMap(Check, id) =>
      if id in w.live then s == ToBusy(Check, id, w.live[id])
      else s == Leaving(Opening(id, w.created, false)) || s == Leaving(Reading)
    case OnBusy(Check, id, o) =>
      s == Leaving(Reading) || (o !in w.busy && s == Leaving(Opening(id, w.created, false)))
    case OnMap(Model, id) => if id in w.live then s == ToBusy(Model, id, w.live[id]) else s == Leaving(Reading)
    case OnBusy(Model, _, o) => if o in w.busy then s == Leaving(Reading) else s == ToStorage(o)
    case OnStorage(o) => s == Leaving(Reading) || s == Leaving(Sections([ApprovalsLock, AutoWriteLock(o)], false))
    case OnMap(Admit(mine), id) => if id in w.live then s == ToBusy(r.task, id, w.live[id]) else s == Leaving(Reading)
    case OnBusy(Admit(mine), _, o) => o in w.busy && s == Leaving(Reading)
    case SideMap(o, true) => s == Leaving(Sections([AutoWriteLock(o), ApprovalsLock], false))
    case Leaving(next) => s == next
    case Opening(id, o, true) => s == Reading || s == ToMap(Admit(o), id)
    case Sections(locks, inside) => s == if |locks| < 2 then Reading else Sections(locks[1..], false)
    case _ => false
  }

  /** Every entry that admission dropped was idle, its busy flag not locked by anyone. */
  predicate OnlyIdleLeft(w: World, live: map<string, Object>)
  {
    live.Keys <= w.live.Keys &&
    (forall id :: id in live ==> live[id] == w.live[id]) &&
    forall id :: id in w.live && id !in live ==> w.live[id] !in w.busy && Free(w, BusyLock(w.live[id]))
  }

  /** A reader step: it enters a critical section, leaves one, spawns the thread of a prompt, or
      admits the session object it opened. */
  predicate ReaderStep(w: World, v: World)
  {
    var r, s := w.reader, v.reader;
    if ReaderWants(r).Some? then
      Free(w, ReaderWants(r).value) && v == w.(reader := ReaderEnters(r))
    else
      match r
      case OnMap(Prompt, id) => v == w.(reader := Leaving(Reading), turns := w.turns + [AtMap(id)])
      case Leaving(Opening(_, _, _)) => v == w.(reader := s, created := w.created + 1) && ReaderGoes(w, r, s)
      case OnMap(Admit(mine), id) =>
        if s == SideMap(mine, false) then
          id !in w.live && v == w.(reader := s, live := v.live) && id in v.live && v.live[id] == mine &&
          OnlyIdleLeft(w, v.live - {id})
        else v == w.(reader := s) && ReaderGoes(w, r, s)
      case OnBusy(Admit(mine), id, o) =>
        if o in w.busy then v == w.(reader := s) && ReaderGoes(w, r, s)
        else v == w.(reader := SideMap(mine, false), live := w.live[id := mine])
      case _ => v == w.(reader := s) && ReaderGoes(w, r, s)
  }

  predicate Step(w: World, who: Thread, v: World)
  {
    if who.TheReader? then ReaderStep(w, v) else TurnStep(w, who.t, v)
  }

  // ------------------------------------------------------------- the invariant

  /** No lock has two holders. */
  predicate Exclusive(w: World)
  {
    (forall t :: 0 <= t < |w.turns| ==> TurnHolds(w.turns[t]) !! ReaderHolds(w.reader)) &&
    forall t, u :: 0 <= t < u < |w.turns| ==> TurnHolds(w.turns[t]) !! TurnHolds(w.turns[u])
  }

  /** A claimed object is busy, and claimed by one turn only. */
  predicate ClaimsHold(w: World)
  {
    (forall t :: 0 <= t < |w.turns| && Claim(w.turns[t]).Some? ==> Claim(w.turns[t]).value in w.busy) &&
    forall t, u :: 0 <= t < u < |w.turns| && Claim(w.turns[t]).Some? ==> Claim(w.turns[t]) != Claim(w.turns[u])
  }

  /** The object the reader opened and has not published yet. */
  function Private(r: Reader): Option<Object>
  {
    match r
    case ToMap(Admit(o), _) => Some(o)
    case OnMap(Admit(o), _) => Some(o)
    case ToBusy(Admit(o), _, _) => Some(o)
    case OnBusy(Admit(o), _, _) => Some(o)
    case Opening(_, o, _) => Some(o)
    case _ => None
  }

  /** The locks the reader takes while it holds nothing else. */
  predicate SmallLocks(locks: seq<Lock>)
  {
    forall l | l in locks :: l == PendingLock || l == ApprovalsLock || l.AutoWriteLock?
  }

  /** What the reader has seen still holds, and nobody else knows the object it opens. */
  predicate ReaderHonest(w: World)
  {
    var r := w.reader;
    (r.ToStorage? || r.OnStorage? ==> r.o !in w.busy) &&
    (r.ToBusy? || r.OnBusy? ==> r.task != Cancel && r.task != Prompt) &&
    (r.Leaving? && r.next.Opening? ==> r.next.o == w.created && !r.next.inside) &&
    (r.Leaving? ==> r.next == Reading || r.next.Opening? || (r.next.Sections? && !r.next.inside)) &&
    (r.Sections? ==> SmallLocks(r.locks)) &&
    (r.Leaving? && r.next.Sections? ==> SmallLocks(r.next.locks)) &&
    (Private(r).Some? ==> Private(r).value < w.created && Private(r).value !in w.busy && Private(r).value !in w.live.Values)
  }

  /** Objects are numbered in the order of their creation. */
  predicate Numbered(w: World)
  {
    (forall id :: id in w.live ==> w.live[id] < w.created) &&
    (forall o :: o in w.busy ==> o < w.created) &&
    forall t :: 0 <= t < |w.turns| && (w.turns[t].AtBusy? || w.turns[t].InBusy?) ==>
                  w.turns[t].o < w.created && Private(w.reader) != Some(w.turns[t].o)
  }

  predicate Inv(w: World) { Exclusive(w) && ClaimsHold(w) && ReaderHonest(w) && Numbered(w) }

  /** The server has just started. */
  predicate IsStart(w: World) { w.live == map[] && w.busy == {} && w.reader == Reading && w.turns == [] }

  lemma StartsInv(w: World)
    requires IsStart(w)
    ensures Inv(w)
  {
  }

  lemma TurnKeepsExclusive(w: World, t: nat, v: World)
    requires Inv(w) && TurnStep(w, t, v)
    ensures Exclusive(v)
  {
    var p, q := w.turns[t], v.turns[t];
    var gained := if TurnWants(p).Some? then {TurnWants(p).value} else {};
    assert TurnHolds(q) <= TurnHolds(p) + gained;
    forall u | 0 <= u < |v.turns| && u != t
      ensures TurnHolds(q) !! TurnHolds(v.turns[u])
    {
      assert TurnHolds(p) !! TurnHolds(w.turns[u]);
    }
  }

  lemma TurnKeepsClaims(w: World, t: nat, v: World)
    requires Inv(w) && TurnStep(w, t, v)
    ensures ClaimsHold(v)
  {
    hide Exclusive, ReaderHonest, Numbered, Free;
    var p, q := w.turns[t], v.turns[t];
    assert Claim(q).Some? ==> Claim(q) == Claim(p) || (p.InBusy? && q == Claimed(p.o) && p.o !in w.busy);
  }

  lemma TurnKeepsReader(w: World, t: nat, v: World)
    requires Inv(w) && TurnStep(w, t, v)
    ensures ReaderHonest(v) && Numbered(v)
  {
    hide ClaimsHold, Free;
    var p, q := w.turns[t], v.turns[t];
    assert TurnHolds(p) !! ReaderHolds(w.reader);
    assert w.reader.ToStorage? || w.reader.OnStorage? ==> MapLock in ReaderHolds(w.reader) && !p.InBusy?;
  }

  lemma ReaderKeepsExclusive(w: World, v: World)
    requires Inv(w) && ReaderStep(w, v)
    ensures Exclusive(v)
  {
    hide ClaimsHold, Numbered, OnlyIdleLeft;
    var r, s := w.reader, v.reader;
    var gained := if ReaderWants(r).Some? then {ReaderWants(r).value} else {};
    assert ReaderHolds(s) <= ReaderHolds(r) + gained;
    assert forall t :: 0 <= t < |v.turns| ==> (t < |w.turns| && v.turns[t] == w.turns[t]) || TurnHolds(v.turns[t]) == {};
  }

  lemma ReaderKeepsClaims(w: World, v: World)
    requires Inv(w) && ReaderStep(w, v)
    ensures ClaimsHold(v)
  {
    hide Exclusive, ReaderHonest, Numbered, Free, OnlyIdleLeft, ReaderGoes;
    assert v.busy == w.busy;
    assert forall t :: 0 <= t < |v.turns| ==> (t < |w.turns| && v.turns[t] == w.turns[t]) || Claim(v.turns[t]).None?;
  }

  lemma ReaderKeepsReader(w: World, v: World)
    requires Inv(w) && ReaderStep(w, v)
    ensures ReaderHonest(v)
  {
    hide ClaimsHold, Free, Exclusive;
  }

  lemma ReaderKeepsNumbered(w: World, v: World)
    requires Inv(w) && ReaderStep(w, v)
    ensures Numbered(v)
  {
    hide ClaimsHold, Free, Exclusive;
    forall id | id in v.live
      ensures v.live[id] < w.created
    {
      if w.reader.OnMap? && v.live != w.live && id != w.reader.id {
        assert id in v.live - {w.reader.id};
      }
    }
  }

  lemma StepKeepsInv(w: World, who: Thread, v: World)
    requires Inv(w) && Step(w, who, v)
    ensures Inv(v)
  {
    hide Inv, Exclusive, ClaimsHold, ReaderHonest, Numbered, ReaderStep, TurnStep;
    if who.TheReader? {
      ReaderKeepsExclusive(w, v);
      ReaderKeepsClaims(w, v);
      ReaderKeepsReader(w, v);
      ReaderKeepsNumbered(w, v);
    } else {
      TurnKeepsExclusive(w, who.t, v);
      TurnKeepsClaims(w, who.t, v);
      TurnKeepsReader(w, who.t, v);
    }
    assert Inv(v) by { Unfold(v); }
  }

  lemma Unfold(w: World)
    ensures Inv(w) <==> Exclusive(w) && ClaimsHold(w) && ReaderHonest(w) && Numbered(w)
  {
  }

  // ---------------------------------------------------------------------- runs

  /** A run of any length, each step by the thread named beside it. */
  predicate IsRun(ws: seq<World>, who: seq<Thread>)
  {
    |ws| == |who| + 1 && forall k :: 0 <= k < |who| ==> Step(ws[k], who[k], ws[k + 1])
  }

  lemma {:induction false} RunsKeepInv(ws: seq<World>, who: seq<Thread>)
    requires IsRun(ws, who) && Inv(ws[0])
    ensures Inv(ws[|who|])
    decreases |who|
  {
    hide Inv, Step;
    if who != [] {
      var n := |who| - 1;
      RunsKeepInv(ws[..|ws| - 1], who[..n]);
      StepKeepsInv(ws[n], who[n], ws[n + 1]);
    }
  }
}

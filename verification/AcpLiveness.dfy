/** What the lock discipline of `AcpLocks` guarantees: storage locks are never waited for, no thread is
    deadlocked, and the ACP reader always gets through (crates/tole-cli/src/acp.rs,
    crates/tole-cli/src/session_host.rs, crates/tole-cli/src/approver.rs). */
module AcpLiveness {
  import opened AcpLocks
  import opened Common

  /** The reader knows its storage lock to be nobody's: no turn has claimed the object. */
  lemma ReaderStorageIsIdle(w: World, o: Object)
    requires Inv(w)
    requires ReaderWants(w.reader) == Some(StorageLock(o)) || StorageLock(o) in ReaderHolds(w.reader)
    ensures o !in w.busy
  {
    hide Numbered, Exclusive, ClaimsHold;
    var r := w.reader;
    if r.Sections? { FirstIsSmall(r.locks); }
  }

  lemma FirstIsSmall(locks: seq<Lock>)
    requires SmallLocks(locks)
    ensures locks != [] ==> locks[0] == PendingLock || locks[0] == ApprovalsLock || locks[0].AutoWriteLock?
  {
    if locks != [] { assert locks[0] in locks; }
  }

  lemma TurnStorageIsClaimed(p: Turn, o: Object)
    requires TurnWants(p) == Some(StorageLock(o)) || StorageLock(o) in TurnHolds(p)
    ensures Claim(p) == Some(o)
    ensures TurnWants(p) == Some(StorageLock(o)) ==> TurnHolds(p) == {}
  {
  }

  /** A storage lock is never waited for, by the reader or by a turn: a turn that holds one has its
      object marked busy, and the reader asks for one only after seeing the object idle. */
  lemma StorageIsNeverContended(w: World, who: Thread, o: Object)
    requires Inv(w) && Wants(w, who) == Some(StorageLock(o))
    ensures Free(w, StorageLock(o))
  {
    hide Numbered, Exclusive, ReaderHonest, TurnHolds, TurnWants, ReaderWants, ReaderHolds, Claim;
    if who.TurnThread? {
      TurnStorageIsClaimed(w.turns[who.t], o);
      if StorageLock(o) in ReaderHolds(w.reader) { ReaderStorageIsIdle(w, o); }
    } else {
      ReaderStorageIsIdle(w, o);
      ReaderStorageIsWanted(w.reader, o);
    }
    forall t | 0 <= t < |w.turns|
      ensures StorageLock(o) !in TurnHolds(w.turns[t])
    {
      if StorageLock(o) in TurnHolds(w.turns[t]) {
        TurnStorageIsClaimed(w.turns[t], o);
      }
    }
  }

  lemma ReaderStorageIsWanted(r: Reader, o: Object)
    requires ReaderWants(r) == Some(StorageLock(o))
    ensures StorageLock(o) !in ReaderHolds(r)
  {
  }

  /** The thread can move on its own: it waits neither for a lock nor for the client. */
  predicate CanStep(w: World, who: Thread)
  {
    (if who.TheReader? then w.reader != Reading
     else who.t < |w.turns| && w.turns[who.t] != Done && !w.turns[who.t].Awaiting?) &&
    (Wants(w, who).Some? ==> Free(w, Wants(w, who).value))
  }

  lemma TurnCanStep(w: World, t: nat) returns (v: World)
    requires CanStep(w, TurnThread(t))
    ensures TurnStep(w, t, v)
    ensures TurnWants(w.turns[t]).Some? ==> v.turns[t] == TurnEnters(w.turns[t])
  {
    var p := w.turns[t];
    var q :=
      if TurnWants(p).Some? then TurnEnters(p)
      else
        match p
        case InMap(id) => if id in w.live then AtBusy(w.live[id]) else Refused
        case InBusy(o) => if o in w.busy then Refused else Claimed(o)
        case Claimed(o) => AtStorage(o)
        case Running(o) => Dropping(o, false)
        case Using(o, use, _) =>
          if use.ReadAutoWrite? then Using(o, ReadPatterns, false)
          else if use.TakeId? then Using(o, Register, false)
          else if use.Register? then Awaiting(o)
          else Running(o)
        case _ => Done;
    v := w.(turns := w.turns[t := q], busy := BusyAfter(w.busy, p, q));
  }

  lemma ReaderCanStep(w: World) returns (v: World)
    requires Inv(w) && CanStep(w, TheReader)
    ensures ReaderStep(w, v)
  {
    hide Exclusive, ClaimsHold, Numbered, Free;
    var r := w.reader;
    if ReaderWants(r).Some? {
      v := w.(reader := ReaderEnters(r));
    } else {
      match r
      case OnMap(Cancel, _) => v := w.(reader := Leaving(Reading));
      case OnMap(Prompt, id) => v := w.(reader := Leaving(Reading), turns := w.turns + [AtMap(id)]);
      case OnMap(Check, id) =>
        v := w.(reader := if id in w.live then ToBusy(Check, id, w.live[id]) else Leaving(Opening(id, w.created, false)));
      case OnMap(Model, id) =>
        v := w.(reader := if id in w.live then ToBusy(Model, id, w.live[id]) else Leaving(Reading));
      case OnMap(Admit(_), id) =>
        v := w.(reader := if id in w.live then ToBusy(r.task, id, w.live[id]) else Leaving(Reading));
      case OnBusy(Check, id, o) =>
        v := w.(reader := if o in w.busy then Leaving(Reading) else Leaving(Opening(id, w.created, false)));
      case OnBusy(Model, _, o) => v := w.(reader := if o in w.busy then Leaving(Reading) else ToStorage(o));
      case OnBusy(Admit(mine), id, o) =>
        v := if o in w.busy then w.(reader := Leaving(Reading))
             else w.(reader := SideMap(mine, false), live := w.live[id := mine]);
      case OnStorage(_) => v := w.(reader := Leaving(Reading));
      case SideMap(o, _) => v := w.(reader := Leaving(Sections([AutoWriteLock(o), ApprovalsLock], false)));
      case Leaving(next) =>
        v := w.(reader := next, created := if next.Opening? then w.created + 1 else w.created);
      case Opening(_, _, _) => v := w.(reader := Reading);
      case Sections(locks, _) => v := w.(reader := if |locks| < 2 then Reading else Sections(locks[1..], false));
    }
  }

  predicate Blocks(w: World, holder: Thread, who: Thread)
  {
    Wants(w, who).Some? && Wants(w, who).value in Holds(w, holder)
  }

  /** Someone holds a lock that is not free. */
  lemma HolderOf(w: World, l: Lock) returns (holder: Thread)
    requires !Free(w, l)
    ensures l in Holds(w, holder)
  {
    if l in ReaderHolds(w.reader) {
      holder := TheReader;
    } else {
      var t :| 0 <= t < |w.turns| && l in TurnHolds(w.turns[t]);
      holder := TurnThread(t);
    }
  }

  /** Whoever holds a lock that another thread waits for can step, or waits for a busy lock only,
      whose holder can. */
  lemma HolderSteps(w: World, who: Thread, holder: Thread)
    requires Inv(w) && Blocks(w, holder, who)
    ensures CanStep(w, holder) || (Wants(w, holder).Some? && Wants(w, holder).value.BusyLock?)
  {
    hide Free;
    if Wants(w, who).value.StorageLock? {
      StorageIsNeverContended(w, who, Wants(w, who).value.o);
      NotFree(w, holder, Wants(w, who).value);
    } else if Wants(w, holder).Some? && Wants(w, holder).value.StorageLock? {
      StorageIsNeverContended(w, holder, Wants(w, holder).value.o);
    } else if holder.TheReader? && w.reader.SideMap? && !w.reader.inside {
      OnlyReaderHoldsApprovals(w);
    }
  }

  lemma NotFree(w: World, holder: Thread, l: Lock)
    requires l in Holds(w, holder)
    ensures !Free(w, l)
  {
  }

  lemma OnlyReaderHoldsApprovals(w: World)
    requires ApprovalsLock !in ReaderHolds(w.reader)
    ensures Free(w, ApprovalsLock)
  {
  }

  lemma BusyHolderSteps(w: World, holder: Thread, o: Object)
    requires BusyLock(o) in Holds(w, holder)
    ensures CanStep(w, holder)
  {
  }

  /** No deadlock: behind every thread that waits for a lock stands, at most two threads away, one
      that can step without the client. */
  lemma NobodyIsStuck(w: World, who: Thread) returns (holder: Thread, second: Thread)
    requires Inv(w) && Wants(w, who).Some? && !Free(w, Wants(w, who).value)
    ensures Blocks(w, holder, who)
    ensures CanStep(w, holder) || (Blocks(w, second, holder) && CanStep(w, second))
  {
    hide Free, Inv, CanStep;
    holder := HolderOf(w, Wants(w, who).value);
    second := holder;
    HolderSteps(w, who, holder);
    if !CanStep(w, holder) {
      assert !Free(w, Wants(w, holder).value) by { StuckMeansBlocked(w, who, holder); }
      second := HolderOf(w, Wants(w, holder).value);
      BusyHolderSteps(w, second, Wants(w, holder).value.o);
    }
  }

  lemma StuckMeansBlocked(w: World, who: Thread, holder: Thread)
    requires Blocks(w, holder, who) && !CanStep(w, holder)
    requires Wants(w, holder).Some?
    ensures !Free(w, Wants(w, holder).value)
  {
    hide Free;
  }

  /** The lock becomes free within `n` steps of turn threads that wait neither for the reader nor for the
      client: it is enough to choose whose turn it is, whatever the chosen thread does. */
  ghost predicate ClearsWithin(w: World, l: Lock, n: nat)
    decreases n
  {
    Free(w, l) ||
    (n > 0 && exists t :: CanStep(w, TurnThread(t)) && forall v :: TurnStep(w, t, v) ==> ClearsWithin(v, l, n - 1))
  }

  lemma {:induction false} ClearsWithinMore(w: World, l: Lock, n: nat, m: nat)
    requires ClearsWithin(w, l, n) && n <= m
    ensures ClearsWithin(w, l, m)
    decreases n
  {
    hide CanStep, TurnStep;
    if !Free(w, l) {
      var t :| CanStep(w, TurnThread(t)) && forall v :: TurnStep(w, t, v) ==> ClearsWithin(v, l, n - 1);
      forall v | TurnStep(w, t, v)
        ensures ClearsWithin(v, l, m - 1)
      {
        ClearsWithinMore(v, l, n - 1, m - 1);
      }
    }
  }

  /** A lock its only holder let go of is free. */
  lemma LetGo(w: World, t: nat, v: World, l: Lock)
    requires Inv(w) && TurnStep(w, t, v) && l in TurnHolds(w.turns[t]) && l !in TurnHolds(v.turns[t])
    ensures Free(v, l)
  {
    forall u | 0 <= u < |v.turns|
      ensures l !in TurnHolds(v.turns[u])
    {
      if u != t { assert v.turns[u] == w.turns[u]; }
    }
  }

  /** How many steps, its own and those of the one turn it may wait for, are left until a turn has
      left its critical section. */
  function Left(w: World, t: nat): nat
    requires t < |w.turns|
  {
    match w.turns[t]
    case InMap(_) => 5
    case AtBusy(_) => if CanStep(w, TurnThread(t)) then 3 else 4
    case InBusy(_) => 2
    case _ => 1
  }

  lemma OwnStep(w: World, t: nat, v: World, l: Lock)
    requires TurnStep(w, t, v) && l in TurnHolds(w.turns[t]) && !l.StorageLock?
    ensures l !in TurnHolds(v.turns[t]) || Left(v, t) < Left(w, t)
  {
    hide Free;
  }

  /** A turn that holds a lock and waits for another waits for the busy lock of an ending turn. */
  lemma EndingTurn(w: World, t: nat, l: Lock) returns (u: nat)
    requires Inv(w) && t < |w.turns| && l in TurnHolds(w.turns[t]) && !l.StorageLock?
    requires !CanStep(w, TurnThread(t)) && !w.reader.OnBusy?
    ensures w.turns[t].AtBusy? && u < |w.turns| && w.turns[u] == Dropping(w.turns[t].o, true) && CanStep(w, TurnThread(u))
  {
    var p := w.turns[t];
    var h := HolderOf(w, BusyLock(p.o));
    assert w.reader.Sections? && w.reader.locks != [] ==> w.reader.locks[0] in w.reader.locks;
    u := h.t;
    assert w.turns[u] == Dropping(p.o, true) by {
      assert u != t && (u < t || t < u);
      assert MapLock in TurnHolds(p);
    }
  }

  /** Once the ending turn has stepped, the turn that waited for it can. */
  lemma EndingTurnGoes(w: World, t: nat, u: nat, v: World)
    requires Inv(w) && t < |w.turns| && u < |w.turns| && w.turns[t].AtBusy?
    requires w.turns[u] == Dropping(w.turns[t].o, true) && TurnStep(w, u, v)
    ensures v.reader == w.reader && t < |v.turns| && v.turns[t] == w.turns[t] && CanStep(v, TurnThread(t))
  {
    LetGo(w, u, v, BusyLock(w.turns[t].o));
  }

  /** A turn thread leaves every lock but its storage lock without anyone's help but that of a turn
      that is about to end. */
  lemma {:induction false} TurnLetsGo(w: World, t: nat, l: Lock)
    requires Inv(w) && t < |w.turns| && l in TurnHolds(w.turns[t]) && !l.StorageLock?
    requires !w.reader.OnBusy?
    ensures ClearsWithin(w, l, Left(w, t))
    decreases Left(w, t)
  {
    hide Inv, Free, CanStep, Exclusive, TurnHolds;
    if CanStep(w, TurnThread(t)) {
      forall v | TurnStep(w, t, v)
        ensures ClearsWithin(v, l, Left(w, t) - 1)
      {
        StepKeepsInv(w, TurnThread(t), v);
        OwnStep(w, t, v, l);
        if l in TurnHolds(v.turns[t]) {
          TurnLetsGo(v, t, l);
          ClearsWithinMore(v, l, Left(v, t), Left(w, t) - 1);
        } else {
          LetGo(w, t, v, l);
        }
      }
    } else {
      var u := EndingTurn(w, t, l);
      forall v | TurnStep(w, u, v)
        ensures ClearsWithin(v, l, Left(w, t) - 1)
      {
        StepKeepsInv(w, TurnThread(u), v);
        EndingTurnGoes(w, t, u, v);
        TurnLetsGo(v, t, l);
      }
    }
  }

  /** Whatever lock the reader waits for, turn threads that wait for neither the reader nor the client
      free it within five steps, whatever each of them does: no turn that awaits a permission reply stands
      in the way. */
  lemma ReaderGetsThrough(w: World)
    requires Inv(w) && ReaderWants(w.reader).Some?
    ensures ClearsWithin(w, ReaderWants(w.reader).value, 5)
  {
    hide Inv, TurnHolds, CanStep, TurnStep;
    var l := ReaderWants(w.reader).value;
    if !Free(w, l) {
      if l.StorageLock? { StorageIsNeverContended(w, TheReader, l.o); }
      assert l !in ReaderHolds(w.reader) by { WantsNoneOfItsOwn(w); }
      var t :| 0 <= t < |w.turns| && l in TurnHolds(w.turns[t]);
      TurnLetsGo(w, t, l);
      ClearsWithinMore(w, l, Left(w, t), 5);
    }
  }

  lemma WantsNoneOfItsOwn(w: World)
    requires ReaderWants(w.reader).Some?
    ensures ReaderWants(w.reader).value !in ReaderHolds(w.reader)
  {
  }

  /** Another thread that holds the wanted lock can step, or waits for a busy lock whose holder can. */
  ghost predicate SomeoneCanHelp(w: World, who: Thread)
  {
    exists holder, second :: Blocks(w, holder, who) &&
                             (CanStep(w, holder) || (Blocks(w, second, holder) && CanStep(w, second)))
  }

  /** No storage lock is waited for, no thread is deadlocked, and the reader gets through. */
  ghost predicate IsLive(w: World)
  {
    (forall t, o :: Wants(w, t) == Some(StorageLock(o)) ==> Free(w, StorageLock(o))) &&
    (forall t :: Wants(w, t).Some? && !Free(w, Wants(w, t).value) ==> SomeoneCanHelp(w, t)) &&
    (ReaderWants(w.reader).Some? ==> ClearsWithin(w, ReaderWants(w.reader).value, 5))
  }

  lemma InvIsLive(w: World)
    requires Inv(w)
    ensures IsLive(w)
  {
    hide Inv, CanStep, Free, Blocks, ClearsWithin;
    forall t, o | Wants(w, t) == Some(StorageLock(o))
      ensures Free(w, StorageLock(o))
    {
      StorageIsNeverContended(w, t, o);
    }
    forall t | Wants(w, t).Some? && !Free(w, Wants(w, t).value)
      ensures SomeoneCanHelp(w, t)
    {
      var holder, second := NobodyIsStuck(w, t);
    }
    if ReaderWants(w.reader).Some? { ReaderGetsThrough(w); }
  }

  /** The guarantees, in every state that the reader and any number of turns reach from the start of the
      server. */
  lemma EveryRunIsLive(ws: seq<World>, who: seq<Thread>)
    requires IsRun(ws, who) && IsStart(ws[0])
    ensures IsLive(ws[|who|])
  {
    hide Inv, Step, IsLive;
    StartsInv(ws[0]);
    RunsKeepInv(ws, who);
    InvIsLive(ws[|who|]);
  }
}

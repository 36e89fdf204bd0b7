/** The remote approval queue and the approver it backs (crates/tole-cli/src/approvals.rs). */
module Approvals {
  import opened Approval
  import opened Common

  /** Milliseconds after which a pending decision, a decided entry or an unused grant is dropped. */
  const EXPIRY_MS: nat := 900 * 1000

  datatype Status = Pending | Approved | Denied | Expired

  datatype Entry = Entry(id: string, session: string, tool: string, description: string,
                         fingerprint: nat, createdAt: nat, status: Status, path: string)

  /** Grants are keyed by session and call fingerprint. */
  type Key = (string, nat)

  datatype Grant = Grant(tool: string, grantedAt: nat)

  datatype Queue = Queue(entries: seq<Entry>, oneShot: map<Key, Grant>)

  datatype Outcome = Decided(status: Status, session: string, tool: string) | Unknown

  function KeyOf(e: Entry): Key { (e.session, e.fingerprint) }

  /** `now.saturating_sub(since) > EXPIRY_SECS * 1000`. */
  predicate Stale(since: nat, now: nat) { now > since && now - since > EXPIRY_MS }

  // -------------------------------------------- the queue as a value

  function MarkedEntry(e: Entry, now: nat): Entry
  {
    if e.status.Pending? && Stale(e.createdAt, now) then e.(status := Expired) else e
  }

  function Marked(entries: seq<Entry>, now: nat): (r: seq<Entry>)
    ensures |r| == |entries|
    ensures forall k :: 0 <= k < |r| ==> r[k] == MarkedEntry(entries[k], now)
  {
    if entries == [] then [] else [MarkedEntry(entries[0], now)] + Marked(entries[1..], now)
  }

  predicate Visible(e: Entry, now: nat) { e.status.Pending? || !Stale(e.createdAt, now) }

  function Retained(entries: seq<Entry>, now: nat): seq<Entry>
  {
    if entries == [] then []
    else (if Visible(entries[0], now) then [entries[0]] else []) + Retained(entries[1..], now)
  }

  /** One pass over the entries: overdue pending ones expire, overdue decided ones leave. */
  function SweptEntries(entries: seq<Entry>, now: nat): seq<Entry>
  {
    Retained(Marked(entries, now), now)
  }

  function SweptGrants(oneShot: map<Key, Grant>, now: nat): map<Key, Grant>
  {
    map k | k in oneShot && !Stale(oneShot[k].grantedAt, now) :: oneShot[k]
  }

  /** Ids of the entries that expire in a pass. */
  function ExpiredIds(entries: seq<Entry>, now: nat): seq<string>
  {
    if entries == [] then []
    else
      (if entries[0].status.Pending? && Stale(entries[0].createdAt, now) then [entries[0].id] else [])
      + ExpiredIds(entries[1..], now)
  }

  lemma ExpiredStep(entries: seq<Entry>, k: nat, now: nat)
    requires k < |entries|
    ensures ExpiredIds(entries[k..], now) ==
            (if entries[k].status.Pending? && Stale(entries[k].createdAt, now) then [entries[k].id] else [])
            + ExpiredIds(entries[k + 1..], now)
  {
    assert entries[k..][1..] == entries[k + 1..];
  }

  lemma NothingExpires(entries: seq<Entry>, now: nat)
    ensures ExpiredIds(entries[|entries|..], now) == []
  {
  }

  function Find(entries: seq<Entry>, id: string): (k: Option<nat>)
    ensures k.None? ==> forall e | e in entries :: e.id != id
    ensures k.Some? ==> k.value < |entries| && entries[k.value].id == id
    ensures k.Some? ==> forall p :: 0 <= p < k.value ==> entries[p].id != id
  {
    if entries == [] then None
    else if entries[0].id == id then Some(0)
    else
      var k := Find(entries[1..], id);
      if k.None? then None else Some(k.value + 1)
  }

  /** An operator decision, without the pruning that precedes it. */
  function Decision(q: Queue, id: string, allow: bool, now: nat): Queue
  {
    var k := Find(q.entries, id);
    if k.None? || !q.entries[k.value].status.Pending? then q
    else
      var e := q.entries[k.value];
      if allow then
        Queue(q.entries[k.value := e.(status := Approved)], q.oneShot[KeyOf(e) := Grant(e.tool, now)])
      else
        Queue(q.entries[k.value := e.(status := Denied)], q.oneShot)
  }

  function OutcomeOf(q: Queue, id: string): Outcome
  {
    var k := Find(q.entries, id);
    if k.None? then Unknown
    else var e := q.entries[k.value]; Decided(e.status, e.session, e.tool)
  }

  /** One critical section of any operation on the queue. */
  datatype Event =
    | SweepEntries(now: nat)
    | SweepGrants(now: nat)
    | Push(entry: Entry)
    | Decide(id: string, allow: bool, now: nat)
    | Take(key: Key)

  function Step(q: Queue, ev: Event): Queue
  {
    match ev
    case SweepEntries(now) => Queue(SweptEntries(q.entries, now), q.oneShot)
    case SweepGrants(now) => Queue(q.entries, SweptGrants(q.oneShot, now))
    case Push(e) => Queue(q.entries + [e], q.oneShot)
    case Decide(id, allow, now) => Decision(q, id, allow, now)
    case Take(key) => Queue(q.entries, q.oneShot - {key})
  }

  /** What every operation but consuming a grant does first: two critical sections. */
  function Pruned(q: Queue, now: nat): Queue
  {
    Step(Step(q, SweepEntries(now)), SweepGrants(now))
  }

  // ------------------------------------------------------ the queue itself

  class ApprovalQueue {
    var entries: seq<Entry>
    var oneShot: map<Key, Grant>

    constructor ()
      ensures View() == Queue([], map[])
    {
      entries, oneShot := [], map[];
    }

    ghost function View(): Queue reads this { Queue(entries, oneShot) }

    /** Prunes entries, then (in a critical section of its own) the grants. */
    method PruneExpired(now: nat) returns (expired: seq<string>)
      modifies this
      ensures View() == Pruned(old(View()), now)
      ensures expired == ExpiredIds(old(entries), now)
    {
      hide ExpiredIds, Retained, SweptGrants, Marked;
      expired := [];
      ghost var before := entries;
      var k := 0;
      assert before[0..] == before;
      while k < |entries|
        invariant 0 <= k <= |entries| == |before|
        invariant oneShot == old(oneShot)
        invariant forall p :: 0 <= p < k ==> entries[p] == MarkedEntry(before[p], now)
        invariant forall p :: k <= p < |before| ==> entries[p] == before[p]
        invariant expired + ExpiredIds(before[k..], now) == ExpiredIds(before, now)
      {
        ghost var sofar := expired;
        ExpiredStep(before, k, now);
        if entries[k].status.Pending? && Stale(entries[k].createdAt, now) {
          entries := entries[k := entries[k].(status := Expired)];
          expired := expired + [entries[k].id];
        }
        ConcatAssociates(sofar, if before[k].status.Pending? && Stale(before[k].createdAt, now) then [before[k].id] else [],
                         ExpiredIds(before[k + 1..], now));
        k := k + 1;
      }
      assert expired == ExpiredIds(before, now) by { NothingExpires(before, now); }
      assert entries == Marked(before, now);
      entries := Retained(entries, now);
      oneShot := SweptGrants(oneShot, now);
    }

    /** Queues a pending decision under a fresh `id`. */
    method QueueEntry(id: string, session: string, tool: string, description: string,
                      fingerprint: nat, path: string, now: nat, created: nat)
      modifies this
      ensures View() == Step(Pruned(old(View()), now),
                             Push(Entry(id, session, tool, description, fingerprint, created, Pending, path)))
    {
      var _ := PruneExpired(now);
      entries := entries + [Entry(id, session, tool, description, fingerprint, created, Pending, path)];
    }

    /** The newest entry of a session names its file. */
    method StoragePath(session: string, now: nat) returns (path: Option<string>)
      modifies this
      ensures View() == Pruned(old(View()), now)
      ensures path.None? <==> forall e | e in entries :: e.session != session
      ensures path.Some? ==> exists k :: 0 <= k < |entries| && entries[k].session == session &&
                                         entries[k].path == path.value &&
                                         forall p :: k < p < |entries| ==> entries[p].session != session
    {
      var _ := PruneExpired(now);
      for k := |entries| downto 0
        invariant forall p :: k <= p < |entries| ==> entries[p].session != session
      {
        if entries[k].session == session {
          return Some(entries[k].path);
        }
      }
      return None;
    }

    /** Session and tool of a pending entry; changes nothing but what pruning does. */
    method PeekPending(id: string, now: nat) returns (r: Option<(string, string)>)
      modifies this
      ensures View() == Pruned(old(View()), now)
      ensures r.None? <==> forall e | e in entries :: !(e.id == id && e.status.Pending?)
      ensures r.Some? ==> exists e | e in entries :: e.id == id && e.status.Pending? && r.value == (e.session, e.tool)
    {
      var _ := PruneExpired(now);
      for k := 0 to |entries|
        invariant forall p :: 0 <= p < k ==> !(entries[p].id == id && entries[p].status.Pending?)
      {
        if entries[k].id == id && entries[k].status.Pending? {
          assert entries[k] in entries;
          return Some((entries[k].session, entries[k].tool));
        }
      }
      return None;
    }

    method Decide(id: string, allow: bool, now: nat, decided: nat) returns (outcome: Outcome)
      modifies this
      ensures View() == Step(Pruned(old(View()), now), Event.Decide(id, allow, decided))
      ensures outcome == OutcomeOf(View(), id)
      ensures UniqueIds(old(entries)) ==> forall e | e in old(entries) :: e.id == id ==> outcome == Heard(e, allow, now)
    {
      ghost var before := View();
      forall e | UniqueIds(entries) && e in entries && e.id == id
        ensures OutcomeOf(Step(Pruned(before, now), Event.Decide(id, allow, decided)), id) == Heard(e, allow, now)
      {
        OverdueIsUnknown(before, e, allow, now, decided);
      }
      var _ := PruneExpired(now);
      var k := Find(entries, id);
      if k.None? {
        return Unknown;
      }
      var e := entries[k.value];
      if !e.status.Pending? {
        return Decided(e.status, e.session, e.tool);
      }
      if allow {
        e := e.(status := Approved);
        oneShot := oneShot[KeyOf(e) := Grant(e.tool, decided)];
      } else {
        e := e.(status := Denied);
      }
      entries := entries[k.value := e];
      FindAfterUpdate(old(SweptEntries(entries, now)), id, e);
      return Decided(e.status, e.session, e.tool);
    }

    /** Consumes a grant, if there is one. */
    method TakeOneShot(session: string, fingerprint: nat) returns (taken: bool)
      modifies this
      ensures taken == ((session, fingerprint) in old(oneShot))
      ensures View() == Step(old(View()), Take((session, fingerprint)))
    {
      taken := (session, fingerprint) in oneShot;
      oneShot := oneShot - {(session, fingerprint)};
    }
  }

  lemma {:induction false} FindAfterUpdate(entries: seq<Entry>, id: string, e: Entry)
    requires Find(entries, id).Some? && e.id == id
    ensures Find(entries[Find(entries, id).value := e], id) == Find(entries, id)
  {
    var k := Find(entries, id).value;
    if k > 0 {
      FindAfterUpdate(entries[1..], id, e);
      assert entries[k := e][1..] == entries[1..][k - 1 := e];
    }
  }

  // ------------------------------------------------------ the approver

  /** The approver of one server session. `patternAllows` is the allowlist's own verdict. */
  class QueueApprover {
    const queue: ApprovalQueue
    const session: string
    const path: string

    constructor (queue: ApprovalQueue, session: string, path: string)
      ensures this.queue == queue && this.session == session && this.path == path
    {
      this.queue, this.session, this.path := queue, session, path;
    }

    /** A call that no pattern and no grant covers is queued and denied; a grant is used up. */
    method Decide(patternAllows: bool, risk: Risk, tool: string, description: string, fingerprint: nat,
                  freshId: string, now: nat, created: nat) returns (v: Verdict)
      modifies queue
      ensures v.Allow? <==> patternAllows || risk.ReadOnly? || (session, fingerprint) in old(queue.oneShot)
      ensures patternAllows || risk.ReadOnly? ==> queue.View() == old(queue.View())
      ensures v.Allow? && !patternAllows && !risk.ReadOnly? ==>
                queue.View() == Step(old(queue.View()), Take((session, fingerprint)))
      ensures v.Deny? ==>
                queue.View() ==
                  Step(Pruned(old(queue.View()), now),
                       Push(Entry(freshId, session, tool, description, fingerprint, created, Pending, path)))
    {
      if patternAllows || risk.ReadOnly? {
        return Allow;
      }
      var taken := queue.TakeOneShot(session, fingerprint);
      if taken {
        return Allow;
      }
      assert old(queue.oneShot) - {(session, fingerprint)} == old(queue.oneShot);
      queue.QueueEntry(freshId, session, tool, description, fingerprint, path, now, created);
      return Deny;
    }
  }

  // ------------------------------------------------- runs over any interleaving

  function Run(evs: seq<Event>): Queue
  {
    if evs == [] then Queue([], map[]) else Step(Run(evs[..|evs| - 1]), evs[|evs| - 1])
  }

  /** The event moves a pending entry of `key` to approved. */
  predicate Approves(q: Queue, ev: Event, key: Key)
  {
    ev.Decide? && ev.allow &&
    var k := Find(q.entries, ev.id);
    k.Some? && q.entries[k.value].status.Pending? &&
    (q.entries[k.value].session, q.entries[k.value].fingerprint) == key
  }

  /** The event hands out a grant of `key`: an `Allow` verdict. */
  predicate Allows(q: Queue, ev: Event, key: Key)
  {
    ev.Take? && ev.key == key && key in q.oneShot
  }

  /** The event destroys an unused grant of `key`: by age, or under a second approval. */
  predicate Discards(q: Queue, ev: Event, key: Key)
  {
    key in q.oneShot && ((ev.SweepGrants? && Stale(q.oneShot[key].grantedAt, ev.now)) || Approves(q, ev, key))
  }

  function Count(evs: seq<Event>, key: Key, p: (Queue, Event, Key) -> bool): nat
  {
    if evs == [] then 0
    else
      var front := evs[..|evs| - 1];
      Count(front, key, p) + if p(Run(front), evs[|evs| - 1], key) then 1 else 0
  }

  /** Conservation of grants over every run: each approval of a (session, fingerprint) is consumed
      by one `Allow`, discarded, or still waiting. */
  lemma {:induction false} GrantsAreConserved(evs: seq<Event>, key: Key)
    ensures Count(evs, key, Approves) ==
            Count(evs, key, Allows) + Count(evs, key, Discards) + if key in Run(evs).oneShot then 1 else 0
  {
    if evs != [] {
      var front, ev := evs[..|evs| - 1], evs[|evs| - 1];
      GrantsAreConserved(front, key);
      var q := Run(front);
      assert Run(evs) == Step(q, ev);
      GrantStep(q, ev, key);
    }
  }

  lemma GrantStep(q: Queue, ev: Event, key: Key)
    ensures (if Approves(q, ev, key) then 1 else 0) + (if key in q.oneShot then 1 else 0) ==
            (if Allows(q, ev, key) then 1 else 0) + (if Discards(q, ev, key) then 1 else 0) +
            (if key in Step(q, ev).oneShot then 1 else 0)
  {
  }

  /** No run allows a call more often than an operator approved it for that very session. */
  lemma AllowsNeverExceedApprovals(evs: seq<Event>, key: Key)
    ensures Count(evs, key, Allows) <= Count(evs, key, Approves)
  {
    GrantsAreConserved(evs, key);
  }

  // ------------------------------------------------- life of an entry

  /** Entries are queued as pending, under ids never used before in the run. */
  ghost predicate FreshPushes(evs: seq<Event>)
  {
    (forall k :: 0 <= k < |evs| && evs[k].Push? ==> evs[k].entry.status.Pending?) &&
    (forall k, l :: 0 <= k < l < |evs| && evs[k].Push? && evs[l].Push? ==> evs[k].entry.id != evs[l].entry.id)
  }

  ghost predicate UniqueIds(entries: seq<Entry>)
  {
    forall k, l :: 0 <= k < l < |entries| ==> entries[k].id != entries[l].id
  }

  lemma {:induction false} RetainedKeeps(entries: seq<Entry>, now: nat)
    ensures forall e :: e in Retained(entries, now) <==> e in entries && Visible(e, now)
    ensures UniqueIds(entries) ==> UniqueIds(Retained(entries, now))
  {
    if entries != [] {
      RetainedKeeps(entries[1..], now);
      assert forall e :: e in entries <==> e == entries[0] || e in entries[1..];
      if UniqueIds(entries) {
        assert UniqueIds(entries[1..]);
        forall e | e in Retained(entries[1..], now) ensures e.id != entries[0].id {
          assert e in entries[1..];
        }
      }
    }
  }

  lemma SweptKeeps(entries: seq<Entry>, now: nat)
    ensures forall e | e in SweptEntries(entries, now) :: !e.status.Expired? ==> e in entries
    ensures forall e | e in SweptEntries(entries, now) :: exists o | o in entries :: o.id == e.id
    ensures (forall e | e in entries :: !e.status.Expired?) ==> forall e | e in SweptEntries(entries, now) :: !e.status.Expired?
    ensures forall e | e in SweptEntries(entries, now) :: e.status.Pending? ==> !Stale(e.createdAt, now)
    ensures UniqueIds(entries) ==> UniqueIds(SweptEntries(entries, now))
  {
    var m := Marked(entries, now);
    RetainedKeeps(m, now);
    forall e | e in SweptEntries(entries, now)
      ensures exists o | o in entries :: o.id == e.id && MarkedEntry(o, now) == e
    {
      var k :| 0 <= k < |m| && m[k] == e;
      assert entries[k] in entries;
    }
    assert UniqueIds(entries) ==> UniqueIds(m);
  }

  ghost predicate HasId(entries: seq<Entry>, id: string) { exists e :: e in entries && e.id == id }

  /** One step brings no id back, and shows nothing as expired. */
  lemma StepKeeps(q: Queue, ev: Event)
    requires UniqueIds(q.entries) && forall e | e in q.entries :: !e.status.Expired?
    requires ev.Push? ==> ev.entry.status.Pending? && !HasId(q.entries, ev.entry.id)
    ensures UniqueIds(Step(q, ev).entries)
    ensures forall e | e in Step(q, ev).entries :: !e.status.Expired?
    ensures forall e | e in Step(q, ev).entries :: (ev.Push? && e == ev.entry) || HasId(q.entries, e.id)
  {
    hide SweptEntries, SweptGrants, Find;
    if ev.SweepEntries? { SweptKeeps(q.entries, ev.now); }
  }

  ghost predicate WasPushed(evs: seq<Event>, id: string)
  {
    exists k :: 0 <= k < |evs| && evs[k].Push? && evs[k].entry.id == id
  }

  lemma PushedEarlier(evs: seq<Event>, id: string)
    requires evs != []
    ensures WasPushed(evs, id) <==>
            WasPushed(evs[..|evs| - 1], id) || (evs[|evs| - 1].Push? && evs[|evs| - 1].entry.id == id)
  {
    var front := evs[..|evs| - 1];
    if WasPushed(front, id) {
      var k :| 0 <= k < |front| && front[k].Push? && front[k].entry.id == id;
      assert evs[k] == front[k];
    }
    if WasPushed(evs, id) {
      var k :| 0 <= k < |evs| && evs[k].Push? && evs[k].entry.id == id;
      assert k < |front| ==> front[k] == evs[k];
    }
  }

  /** In every reachable queue ids are unique, every id was pushed, and no entry reads `Expired`:
      the pass that expires an entry removes it before anyone can list it. */
  lemma {:induction false} QueueInvariant(evs: seq<Event>)
    requires FreshPushes(evs)
    ensures UniqueIds(Run(evs).entries)
    ensures forall e | e in Run(evs).entries :: !e.status.Expired?
    ensures forall e | e in Run(evs).entries :: WasPushed(evs, e.id)
  {
    if evs != [] {
      hide Step, UniqueIds, WasPushed;
      var front, ev := evs[..|evs| - 1], evs[|evs| - 1];
      QueueInvariant(front);
      if ev.Push? { NotPushedBefore(evs); }
      StepKeeps(Run(front), ev);
      forall e | e in Run(evs).entries
        ensures WasPushed(evs, e.id)
      {
        PushedEarlier(evs, e.id);
      }
    }
  }

  lemma NotPushedBefore(evs: seq<Event>)
    requires evs != [] && FreshPushes(evs) && evs[|evs| - 1].Push?
    ensures !WasPushed(evs[..|evs| - 1], evs[|evs| - 1].entry.id)
  {
  }

  lemma EarlierPush(evs: seq<Event>, n: nat, id: string)
    requires n <= |evs| && WasPushed(evs[..n], id)
    ensures WasPushed(evs, id)
  {
    var k :| 0 <= k < n && evs[..n][k].Push? && evs[..n][k].entry.id == id;
    assert evs[k] == evs[..n][k];
  }

  /** Where an entry comes from in one step, and what the step made of it. */
  lemma EntryStep(q: Queue, ev: Event, e: Entry) returns (o: Entry)
    requires UniqueIds(q.entries) && e in Step(q, ev).entries && !e.status.Expired? && !(ev.Push? && e == ev.entry)
    ensures o in q.entries && o.id == e.id
    ensures if ev.Decide? && ev.id == e.id && o.status.Pending? then e.status == if ev.allow then Approved else Denied
            else e == o
  {
    if ev.SweepEntries? {
      SweptKeeps(q.entries, ev.now);
      o := e;
    } else if ev.Decide? {
      var k :| 0 <= k < |q.entries| && Step(q, ev).entries[k] == e;
      o := q.entries[k];
    } else {
      o := e;
    }
  }

  /** Once an entry has left `Pending`, every later state of the run shows it with that same status
      or not at all, whatever is decided in between. */
  lemma {:induction false} DecidedIsFinal(evs: seq<Event>, n: nat, e: Entry, later: Entry)
    requires FreshPushes(evs) && n <= |evs|
    requires e in Run(evs[..n]).entries && !e.status.Pending?
    requires later in Run(evs).entries && later.id == e.id
    ensures later == e
    decreases |evs| - n
  {
    QueueInvariant(evs[..n]);
    if n == |evs| {
      assert evs[..n] == evs;
    } else {
      var front, ev := evs[..|evs| - 1], evs[|evs| - 1];
      assert front[..n] == evs[..n];
      QueueInvariant(front);
      QueueInvariant(evs);
      var q := Run(front);
      if ev.Push? && later == ev.entry {
        NotPushedBefore(evs);
        EarlierPush(front, n, e.id);
      } else {
        var o := EntryStep(q, ev, later);
        DecidedIsFinal(front, n, e, o);
      }
    }
  }

  // ------------------------------------------------- what was decided

  /** An entry of this id waits for a decision. */
  ghost predicate IsPending(q: Queue, id: string) { exists e :: e in q.entries && e.id == id && e.status.Pending? }

  /** The `k`-th event is a decision on `id` that finds it pending. */
  ghost predicate Decides(evs: seq<Event>, k: nat, id: string)
  {
    k < |evs| && evs[k].Decide? && evs[k].id == id && IsPending(Run(evs[..k]), id)
  }

  lemma DecidesExtends(evs: seq<Event>, k: nat, id: string)
    requires evs != []
    ensures k < |evs| - 1 ==> (Decides(evs, k, id) <==> Decides(evs[..|evs| - 1], k, id))
  {
    if k < |evs| - 1 { assert evs[..|evs| - 1][..k] == evs[..k]; }
  }

  lemma PendingIs(q: Queue, o: Entry)
    requires UniqueIds(q.entries) && o in q.entries
    ensures IsPending(q, o.id) <==> o.status.Pending?
  {
  }

  /** The `k`-th event is the decision on `id`, and the only one to find it pending. */
  ghost predicate IsDecision(evs: seq<Event>, k: nat, id: string)
  {
    Decides(evs, k, id) && forall j :: Decides(evs, j, id) ==> j == k
  }

  lemma DecidesLast(evs: seq<Event>, e: Entry)
    requires evs != [] && UniqueIds(Run(evs[..|evs| - 1]).entries) && e in Run(evs[..|evs| - 1]).entries
    ensures var n := |evs| - 1;
            Decides(evs, n, e.id) <==> evs[n].Decide? && evs[n].id == e.id && e.status.Pending?
    ensures forall k: nat :: k < |evs| - 1 ==> (Decides(evs, k, e.id) <==> Decides(evs[..|evs| - 1], k, e.id))
    ensures forall k: nat :: k >= |evs| ==> !Decides(evs, k, e.id)
  {
    PendingIs(Run(evs[..|evs| - 1]), e);
    forall k: nat | k < |evs| - 1
      ensures Decides(evs, k, e.id) <==> Decides(evs[..|evs| - 1], k, e.id)
    {
      DecidesExtends(evs, k, e.id);
    }
  }

  lemma FreshIsUndecided(evs: seq<Event>, j: nat)
    requires evs != [] && FreshPushes(evs) && evs[|evs| - 1].Push?
    ensures !Decides(evs, j, evs[|evs| - 1].entry.id)
  {
    hide WasPushed, IsPending, Run;
    var id := evs[|evs| - 1].entry.id;
    if j < |evs| - 1 {
      assert evs[..j] == evs[..|evs| - 1][..j];
      PendingWasPushed(evs[..j], id);
      if WasPushed(evs[..j], id) { EarlierPush(evs[..|evs| - 1], j, id); }
      NotPushedBefore(evs);
    }
  }

  lemma PendingWasPushed(evs: seq<Event>, id: string)
    requires FreshPushes(evs)
    ensures IsPending(Run(evs), id) ==> WasPushed(evs, id)
  {
    QueueInvariant(evs);
  }

  /** Over every run, an entry is pending exactly as long as no decision found it pending; there is one such
      decision at most, and the entry is shown approved or denied as that decision said. */
  lemma {:induction false} ShownAsDecided(evs: seq<Event>, e: Entry)
    requires FreshPushes(evs) && e in Run(evs).entries
    ensures e.status.Pending? <==> forall k: nat :: !Decides(evs, k, e.id)
    ensures e.status.Approved? <==> exists k: nat :: IsDecision(evs, k, e.id) && evs[k].allow
    ensures e.status.Denied? <==> exists k: nat :: IsDecision(evs, k, e.id) && !evs[k].allow
  {
    var k := DecisionOn(evs, e);
    QueueInvariant(evs);
  }

  lemma {:induction false} DecisionOn(evs: seq<Event>, e: Entry) returns (k: nat)
    requires FreshPushes(evs) && e in Run(evs).entries
    ensures e.status.Pending? ==> forall j :: !Decides(evs, j, e.id)
    ensures !e.status.Pending? ==> IsDecision(evs, k, e.id) && e.status == if evs[k].allow then Approved else Denied
  {
    hide Step, UniqueIds, Decides;
    k := 0;
    if evs == [] { return; }
    var n := |evs| - 1;
    var front, ev := evs[..n], evs[n];
    QueueInvariant(front);
    QueueInvariant(evs);
    if ev.Push? && e == ev.entry {
      forall j ensures !Decides(evs, j, e.id) { FreshIsUndecided(evs, j); }
    } else {
      var o := EntryStep(Run(front), ev, e);
      k := DecisionOn(front, o);
      DecidesLast(evs, o);
      if ev.Decide? && ev.id == e.id && o.status.Pending? {
        k := n;
      } else if !e.status.Pending? {
        assert Decides(front, k, e.id);
        DecidesInside(front, k, e.id);
      }
    }
  }

  lemma DecidesInside(evs: seq<Event>, k: nat, id: string)
    requires Decides(evs, k, id)
    ensures k < |evs|
  {
  }

  /** What an operator hears about an entry: nothing exactly when it is overdue, since pruning has removed it,
      not merely expired it; the earlier decision when there was one; else what was decided now. */
  function Heard(e: Entry, allow: bool, now: nat): Outcome
  {
    if Stale(e.createdAt, now) then Unknown
    else if !e.status.Pending? then Decided(e.status, e.session, e.tool)
    else Decided(if allow then Approved else Denied, e.session, e.tool)
  }

  /** The outcome of a decision on a queued entry. It changes nothing exactly when the entry is overdue or was
      decided before. */
  lemma OverdueIsUnknown(q: Queue, e: Entry, allow: bool, now: nat, decided: nat)
    requires UniqueIds(q.entries) && e in q.entries
    ensures var after := Step(Pruned(q, now), Event.Decide(e.id, allow, decided));
            && OutcomeOf(after, e.id) == Heard(e, allow, now)
            && (after == Pruned(q, now) <==> Stale(e.createdAt, now) || !e.status.Pending?)
  {
    hide SweptEntries, SweptGrants, UniqueIds, Stale;
    SweptKeepsFresh(q.entries, e, now);
    var swept := SweptEntries(q.entries, now);
    var k := Find(swept, e.id);
    if !Stale(e.createdAt, now) {
      assert swept[k.value] == e;
      FindAfterUpdate(swept, e.id, e.(status := if allow then Approved else Denied));
    }
  }

  /** After a pass nothing has the id of an overdue entry, and only the entry itself that of another. */
  lemma SweptKeepsFresh(entries: seq<Entry>, e: Entry, now: nat)
    requires UniqueIds(entries) && e in entries
    ensures !Stale(e.createdAt, now) ==> e in SweptEntries(entries, now)
    ensures forall o | o in SweptEntries(entries, now) :: o.id == e.id ==> o == e && !Stale(e.createdAt, now)
  {
    hide Retained, Marked;
    var m := Marked(entries, now);
    RetainedKeeps(m, now);
    var l :| 0 <= l < |m| && entries[l] == e;
    assert m[l] == MarkedEntry(e, now);
    forall o | o in SweptEntries(entries, now) && o.id == e.id
      ensures o == e && !Stale(e.createdAt, now)
    {
      var k :| 0 <= k < |m| && m[k] == o;
      assert k == l;
    }
  }

  /** What is left after pruning: the grants that are not older than the window, as they were, and of the
      entries, none of which reads `Expired`, those that are not. Reported are the ids of the pending ones that
      are gone. */
  lemma PruneKeepsExactly(q: Queue, now: nat)
    requires forall e | e in q.entries :: !e.status.Expired?
    ensures var p := Pruned(q, now);
            && (forall key :: key in p.oneShot <==> key in q.oneShot && now - q.oneShot[key].grantedAt <= EXPIRY_MS)
            && (forall key | key in p.oneShot :: p.oneShot[key] == q.oneShot[key])
            && (forall e :: e in p.entries <==> e in q.entries && now - e.createdAt <= EXPIRY_MS)
            && (forall id :: id in ExpiredIds(q.entries, now) <==>
                  exists e :: e in q.entries && e.id == id && e.status.Pending? && now - e.createdAt > EXPIRY_MS)
  {
    hide Retained, Marked;
    var m := Marked(q.entries, now);
    RetainedKeeps(m, now);
    forall e
      ensures e in Pruned(q, now).entries <==> e in q.entries && now - e.createdAt <= EXPIRY_MS
    {
      MarkedKeeps(q.entries, e, now);
    }
    forall id { ExpiredAre(q.entries, id, now); }
  }

  lemma MarkedKeeps(entries: seq<Entry>, e: Entry, now: nat)
    requires forall o | o in entries :: !o.status.Expired?
    ensures e in Marked(entries, now) && Visible(e, now) <==> e in entries && !Stale(e.createdAt, now)
  {
    var m := Marked(entries, now);
    if e in m && Visible(e, now) {
      var k :| 0 <= k < |m| && m[k] == e;
      assert entries[k] in entries;
    }
    if e in entries && !Stale(e.createdAt, now) {
      var k :| 0 <= k < |entries| && entries[k] == e;
      assert m[k] == e;
    }
  }

  lemma {:induction false} ExpiredAre(entries: seq<Entry>, id: string, now: nat)
    ensures id in ExpiredIds(entries, now) <==>
            exists e :: e in entries && e.id == id && e.status.Pending? && now - e.createdAt > EXPIRY_MS
  {
    if entries != [] {
      ExpiredAre(entries[1..], id, now);
      assert forall e :: e in entries <==> e == entries[0] || e in entries[1..];
    }
  }

  /** An operator can only approve what is not overdue when the decision prunes. */
  lemma ApprovedIsFresh(q: Queue, id: string, now: nat, decided: nat)
    requires OutcomeOf(Pruned(q, now), id).Decided? && OutcomeOf(Pruned(q, now), id).status.Pending?
    ensures exists e | e in q.entries ::
              e.id == id && !Stale(e.createdAt, now) &&
              Step(Pruned(q, now), Event.Decide(id, true, decided)).oneShot ==
                SweptGrants(q.oneShot, now)[(e.session, e.fingerprint) := Grant(e.tool, decided)]
  {
    hide SweptEntries, SweptGrants;
    SweptKeeps(q.entries, now);
  }
}

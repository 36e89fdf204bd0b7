/** Permission requests of the ACP face: fresh request ids, the pending map, reply routing, and the
    approver whose verdicts they carry (crates/tole-cli/src/acp.rs, crates/tole-cli/src/approver.rs). */
module AcpPermission {
  import opened Approval
  import opened Common

  // -------------------------------------------------- requests and replies

  datatype Request = Request(tool: string, risk: Risk, input: string)

  /** A client message carrying the id of a request: a result (with the option it names, if any), an
      error, or neither. */
  datatype Reply = Result(optionId: Option<string>) | Error | Malformed

  /** What a waiter receives: the option named by the reply. */
  type Answer = Option<string>

  const ALLOW_ONCE := "allow-once"
  const ALLOW_ALWAYS := "allow-always"
  const REJECT_ONCE := "reject-once"

  /** `route_reply`: errors and malformed replies arrive as answers that name no option. */
  function AnswerOf(reply: Reply): Answer
  {
    match reply case Result(o) => o case Error => None case Malformed => None
  }

  function Chosen(answer: Answer): string { if answer.Some? then answer.value else REJECT_ONCE }

  predicate IsAllow(answer: Answer) { Chosen(answer) == ALLOW_ONCE || Chosen(answer) == ALLOW_ALWAYS }

  // ------------------------------------------------------- the connection

  /** The connection as a value: next id, ids with a registered sender, and for every id issued so
      far (1, 2, ...) the values sent and not yet received. */
  datatype Conn = Conn(nextId: nat, pending: set<nat>, mail: seq<seq<Answer>>) {
    predicate Issued(id: nat) { 1 <= id <= |mail| }
    function Mail(id: nat): seq<Answer> requires Issued(id) { mail[id - 1] }
    function Deliver(id: nat, queue: seq<Answer>): Conn requires Issued(id) { this.(mail := mail[id - 1 := queue]) }
  }

  /** The next id is taken; nobody is registered for it yet. */
  function Taken(c: Conn): Conn { Conn(c.nextId + 1, c.pending, c.mail + [[]]) }

  function Registered(c: Conn, id: nat): Conn { c.(pending := c.pending + {id}) }

  function Routed(c: Conn, id: nat, answer: Answer): Conn
  {
    if id in c.pending && c.Issued(id) then c.(pending := c.pending - {id}).Deliver(id, c.Mail(id) + [answer]) else c
  }

  function Abandoned(c: Conn, id: nat): Conn { c.(pending := c.pending - {id}) }

  /** Ids are issued in order, and a registered sender has sent nothing yet. */
  ghost predicate ConnHolds(c: Conn)
  {
    c.nextId == |c.mail| + 1 &&
    (forall id | id in c.pending :: c.Issued(id) && c.Mail(id) == []) &&
    (forall k :: 0 <= k < |c.mail| ==> |c.mail[k]| <= 1)
  }

  lemma ConnSteps(c: Conn, id: nat, answer: Answer)
    requires ConnHolds(c)
    ensures ConnHolds(Taken(c)) && ConnHolds(Routed(c, id, answer)) && ConnHolds(Abandoned(c, id))
    ensures c.Issued(id) && c.Mail(id) == [] ==> ConnHolds(Registered(c, id))
  {
  }

  class Channel {
    var queue: seq<Answer>

    constructor ()
      ensures queue == []
    {
      queue := [];
    }
  }

  ghost function Queues(channels: seq<Channel>): (queues: seq<seq<Answer>>)
    reads channels
    ensures |queues| == |channels| && forall k :: 0 <= k < |channels| ==> queues[k] == channels[k].queue
  {
    if channels == [] then [] else Queues(channels[..|channels| - 1]) + [channels[|channels| - 1].queue]
  }

  class Connection {
    var nextId: nat
    var pending: map<nat, Channel>
    /** Channels in the order their ids were issued, from 1. */
    ghost var channels: seq<Channel>

    ghost function View(): Conn
      reads this, channels
    {
      Conn(nextId, pending.Keys, Queues(channels))
    }

    /** A registered sender leads to the channel of its own id, and no two ids share a channel. */
    ghost predicate Valid()
      reads this, channels
    {
      ConnHolds(View()) && nextId == |channels| + 1 &&
      (forall id | id in pending :: 1 <= id <= |channels| && pending[id] == channels[id - 1]) &&
      (forall i, j :: 0 <= i < j < |channels| ==> channels[i] != channels[j])
    }

    constructor ()
      ensures Valid() && View() == Conn(1, {}, [])
    {
      nextId, pending, channels := 1, map[], [];
    }

    /** Takes the next id, with a channel for its answer: the critical section on the counter. */
    method TakeId() returns (id: nat, receiver: Channel)
      requires Valid()
      modifies this`nextId, this`channels
      ensures Valid() && View() == Taken(old(View()))
      ensures id == old(nextId) && fresh(receiver) && channels == old(channels) + [receiver]
      ensures 1 <= id <= |channels| && channels[id - 1] == receiver && receiver.queue == []
      ensures nextId == id + 1 && id !in pending
    {
      id := nextId;
      nextId := nextId + 1;
      receiver := new Channel();
      channels := channels + [receiver];
      ConnSteps(old(View()), id, None);
      assert View() == Taken(old(View()));
    }

    /** Registers the sender of an id: the critical section on the pending map. */
    method Register(id: nat, receiver: Channel)
      requires Valid() && 1 <= id <= |channels| && channels[id - 1] == receiver && receiver.queue == []
      modifies this`pending
      ensures Valid() && View() == Registered(old(View()), id)
      ensures pending == old(pending)[id := receiver]
    {
      assert View().Mail(id) == [];
      ConnSteps(View(), id, None);
      pending := pending[id := receiver];
      assert View() == Registered(old(View()), id);
    }

    /** Opens a request: takes an id and then registers it, in two critical sections. */
    method OpenRequest() returns (id: nat, receiver: Channel)
      requires Valid()
      modifies this
      ensures Valid() && View() == Registered(Taken(old(View())), id)
      ensures id == old(nextId) && fresh(receiver) && channels == old(channels) + [receiver]
      ensures 1 <= id <= |channels| && channels[id - 1] == receiver
      ensures nextId == id + 1 && id !in old(pending) && pending.Keys == old(pending.Keys) + {id}
    {
      id, receiver := TakeId();
      Register(id, receiver);
    }

    method Abandon(id: nat)
      requires Valid()
      modifies this`pending
      ensures Valid() && View() == Abandoned(old(View()), id)
    {
      pending := pending - {id};
      ConnSteps(old(View()), id, None);
      assert View() == Abandoned(old(View()), id);
    }

    /** Completes the request `id`, if it is registered. */
    method Route(id: nat, answer: Answer)
      requires Valid()
      modifies this`pending, channels
      ensures Valid() && View() == Routed(old(View()), id, answer)
      ensures id in old(pending) ==> id !in pending && channels[id - 1].queue == [answer]
      ensures forall p :: 1 <= p <= |channels| && p != id ==>
                (p in pending <==> p in old(pending)) && channels[p - 1].queue == old(channels[p - 1].queue)
    {
      if id in pending {
        assert View().Mail(id) == [];
        var sender := pending[id];
        assert sender.queue == [];
        pending := pending - {id};
        sender.queue := sender.queue + [answer];
        assert View() == Routed(old(View()), id, answer);
        ConnSteps(old(View()), id, answer);
      }
    }

    /** The reader routes one reply: errors and malformed replies complete the request too. */
    method RouteReply(id: nat, reply: Reply)
      requires Valid()
      modifies this`pending, channels
      ensures Valid() && View() == Routed(old(View()), id, AnswerOf(reply))
      ensures id in old(pending) ==> id !in pending && channels[id - 1].queue == [AnswerOf(reply)]
      ensures forall p :: 1 <= p <= |channels| && p != id ==>
                (p in pending <==> p in old(pending)) && channels[p - 1].queue == old(channels[p - 1].queue)
    {
      match reply
      case Result(option) => Route(id, option);
      case Error => Route(id, None);
      case Malformed => Route(id, None);
    }

    /** The reader at work for a while; `id` is a request that is waited for. */
    method RouteAll(arrivals: seq<(nat, Reply)>, ghost id: nat)
      requires Valid() && id in pending
      modifies this`pending, channels
      ensures Valid() && pending.Keys <= old(pending.Keys)
      ensures match FirstAnswer(id, arrivals)
              case None => id in pending && channels[id - 1].queue == []
              case Some(a) => id !in pending && channels[id - 1].queue == [a]
    {
      for k := 0 to |arrivals|
        invariant Valid() && pending.Keys <= old(pending.Keys) && 1 <= id <= |channels|
        invariant id in pending ==> FirstAnswer(id, arrivals) == FirstAnswer(id, arrivals[k..])
        invariant id !in pending ==> FirstAnswer(id, arrivals).Some? && channels[id - 1].queue == [FirstAnswer(id, arrivals).value]
      {
        assert arrivals[k..][1..] == arrivals[k + 1..];
        RouteReply(arrivals[k].0, arrivals[k].1);
      }
      assert id in pending ==> View().Mail(id) == [];
    }

    /** Waits for the answer to `id` in slices: a cancelled turn gives up before it looks, an answer
        that has arrived is taken, and the end of the window gives up. On every return `id` is
        unregistered. `slices` is what the loop meets; the window ends in the last one. */
    method WaitPermission(id: nat, receiver: Channel, slices: seq<Slice>) returns (outcome: Option<Answer>)
      requires Valid() && IsWindow(slices)
      requires id in pending && channels[id - 1] == receiver
      modifies this`pending, channels
      ensures Valid() && id !in pending && pending.Keys <= old(pending.Keys)
      ensures outcome == WaitResult(id, slices)
    {
      var k := 0;
      while true
        invariant 0 <= k < |slices| && Valid() && pending.Keys <= old(pending.Keys)
        invariant id in pending
        invariant WaitResult(id, slices[k..]) == WaitResult(id, slices)
        decreases |slices| - k
      {
        WaitResultStep(id, slices, k);
        var over, answer := WaitSlice(id, receiver, slices[k]);
        if over {
          return answer;
        }
        k := k + 1;
      }
    }

    /** One turn of the loop: whether the wait is over, and with which answer. */
    method WaitSlice(id: nat, receiver: Channel, slice: Slice) returns (over: bool, answer: Option<Answer>)
      requires Valid() && id in pending && channels[id - 1] == receiver
      modifies this`pending, channels
      ensures Valid() && pending.Keys <= old(pending.Keys) && (over <==> id !in pending)
      ensures (over, answer) == SliceResult(id, slice)
    {
      if slice.cancelled {
        Abandon(id);
        return true, None;
      }
      RouteAll(slice.arrivals, id);
      if receiver.queue != [] {
        answer := Some(receiver.queue[0]);
        TakeFirst(receiver, id);
        return true, answer;
      }
      if slice.deadlinePassed {
        Abandon(id);
        return true, None;
      }
      return false, None;
    }

    /** `recv`: the oldest value leaves the channel. */
    method TakeFirst(receiver: Channel, ghost id: nat)
      requires Valid() && 1 <= id <= |channels| && channels[id - 1] == receiver && receiver.queue != [] && id !in pending
      modifies receiver
      ensures Valid() && receiver.queue == old(receiver.queue)[1..]
    {
      receiver.queue := receiver.queue[1..];
      assert View() == old(View()).Deliver(id, old(receiver.queue)[1..]);
    }
  }

  /** One turn of the wait: whether the cancel token is seen set, what the reader routes before the
      receive returns, and whether the window is over by then. */
  datatype Slice = Slice(cancelled: bool, arrivals: seq<(nat, Reply)>, deadlinePassed: bool)

  function FirstAnswer(id: nat, arrivals: seq<(nat, Reply)>): Option<Answer>
  {
    if arrivals == [] then None
    else if arrivals[0].0 == id then Some(AnswerOf(arrivals[0].1))
    else FirstAnswer(id, arrivals[1..])
  }

  /** Whether one turn of the wait ends it, and with which answer: a cancel wins over an answer, an
      answer over the end of the window. */
  function SliceResult(id: nat, slice: Slice): (bool, Option<Answer>)
  {
    if slice.cancelled then (true, None)
    else if FirstAnswer(id, slice.arrivals).Some? then (true, FirstAnswer(id, slice.arrivals))
    else (slice.deadlinePassed, None)
  }

  function WaitResult(id: nat, slices: seq<Slice>): Option<Answer>
  {
    if slices == [] then None
    else
      var (over, answer) := SliceResult(id, slices[0]);
      if over then answer else WaitResult(id, slices[1..])
  }

  lemma WaitResultStep(id: nat, slices: seq<Slice>, k: nat)
    requires k < |slices|
    ensures WaitResult(id, slices[k..]) ==
            if SliceResult(id, slices[k]).0 then SliceResult(id, slices[k]).1 else WaitResult(id, slices[k + 1..])
    ensures slices[k].deadlinePassed ==> SliceResult(id, slices[k]).0
  {
    assert slices[k..][1..] == slices[k + 1..];
  }

  // ------------------------------------------------- the approver as a value

  datatype PatternVerdict = NoMatch | Ask | AllowIt | DenyIt

  /** The pattern matcher is opaque: any function of the stored patterns and the call. */
  type Matcher = (seq<string>, Request) -> PatternVerdict

  class PatternStore {
    var items: seq<string>

    constructor (items: seq<string>)
      ensures this.items == items
    {
      this.items := items;
    }
  }

  class AutoWrite {
    var on: bool

    constructor (on: bool)
      ensures this.on == on
    {
      this.on := on;
    }
  }

  /** What the loop meets while it waits; the window ends in the last slice. */
  predicate IsWindow(slices: seq<Slice>) { slices != [] && slices[|slices| - 1].deadlinePassed }

  /** A session's approver, with the handles it shares with the rest of the session. */
  class Approver {
    const conn: Connection
    var patterns: PatternStore
    var autoWrite: AutoWrite

    constructor (conn: Connection, patterns: PatternStore, autoWrite: AutoWrite)
      ensures this.conn == conn && this.patterns == patterns && this.autoWrite == autoWrite
    {
      this.conn, this.patterns, this.autoWrite := conn, patterns, autoWrite;
    }

    /** The patterns move to the shared handle, whatever it held; the same handle stays as it is. */
    method WithSharedPatterns(handle: PatternStore)
      modifies this`patterns, patterns, handle
      ensures patterns == handle && handle.items == old(patterns.items)
      ensures old(patterns) != handle ==> old(patterns).items == []
    {
      if patterns != handle {
        var current := patterns.items;
        patterns.items := [];
        handle.items := current;
        patterns := handle;
      }
    }

    /** The flag's value is copied to the shared handle, which is read from then on. */
    method WithSharedAutoWrite(handle: AutoWrite)
      modifies this`autoWrite, handle
      ensures autoWrite == handle && handle.on == old(autoWrite.on)
    {
      if autoWrite != handle {
        handle.on := autoWrite.on;
        autoWrite := handle;
      }
    }

    /** Asks the client: one request, one wait, and a verdict that is `Allow` only for an answer that
        chose to allow. An `allow-always` is remembered for a Write tool only. */
    method Prompt(req: Request, slices: seq<Slice>) returns (v: Verdict)
      requires conn.Valid() && IsWindow(slices)
      modifies conn, conn.channels, patterns
      ensures conn.Valid() && conn.pending.Keys <= old(conn.pending.Keys) && conn.nextId == old(conn.nextId) + 1
      ensures var answer := WaitResult(old(conn.nextId), slices);
              (v.Allow? <==> answer.Some? && IsAllow(answer.value)) &&
              patterns.items == if answer.None? then old(patterns.items)
                                else AfterAnswer(old(patterns.items), req, answer.value)
    {
      hide WaitResult, AfterAnswer, IsAllow, ConnHolds, Queues;
      var id, receiver := conn.OpenRequest();
      var outcome := conn.WaitPermission(id, receiver, slices);
      if outcome.None? {
        return Deny;
      }
      v := MapOptionChoice(req, outcome.value);
    }

    method MapOptionChoice(req: Request, answer: Answer) returns (v: Verdict)
      modifies patterns
      ensures v.Allow? <==> IsAllow(answer)
      ensures patterns.items == AfterAnswer(old(patterns.items), req, answer)
    {
      var chosen := if answer.Some? then answer.value else REJECT_ONCE;
      if chosen == ALLOW_ONCE {
        return Allow;
      } else if chosen == ALLOW_ALWAYS {
        if req.risk.Write? {
          patterns.items := patterns.items + [req.tool];
        }
        return Allow;
      } else {
        return Deny;
      }
    }

    /** A destructive call always asks. Otherwise a deny pattern wins over every allow and over the
        auto-write flag, and what no pattern decides is asked unless the flag is on. */
    method Decide(m: Matcher, req: Request, slices: seq<Slice>) returns (v: Verdict)
      requires conn.Valid() && IsWindow(slices)
      modifies conn, conn.channels, patterns
      ensures conn.Valid() && conn.pending.Keys <= old(conn.pending.Keys)
      ensures var verdict := m(old(patterns.items), req);
              var asks := req.risk.Destructive? || verdict.Ask? || (verdict.NoMatch? && !autoWrite.on);
              var answer := WaitResult(old(conn.nextId), slices);
              if !asks then
                (v.Allow? <==> !verdict.DenyIt?) &&
                conn.View() == old(conn.View()) && patterns.items == old(patterns.items)
              else
                (v.Allow? <==> answer.Some? && IsAllow(answer.value)) &&
                patterns.items == if answer.None? then old(patterns.items)
                                  else AfterAnswer(old(patterns.items), req, answer.value)
    {
      if req.risk.Destructive? {
        v := Prompt(req, slices);
        return;
      }
      var auto := autoWrite.on;
      match m(patterns.items, req)
      case DenyIt => return Deny;
      case AllowIt => return Allow;
      case Ask => v := Prompt(req, slices);
      case NoMatch =>
        if auto {
          return Allow;
        }
        v := Prompt(req, slices);
    }
  }

  /** Where a call to the approver stands. */
  datatype Phase =
    | ReadFlag
    | ReadPatterns(auto: bool)
    | OpenRequest
    | Registering(id: nat)
    | Waiting(id: nat)
    | Done(verdict: Verdict)

  /** A call: the session it belongs to, and the id of the permission request it opened, if any. */
  datatype Call = Call(session: nat, req: Request, phase: Phase, asked: Option<nat>)

  /** One opened session's stores, shared with its approver: startup patterns, patterns, auto-write
      flag. */
  datatype Store = Store(startup: seq<string>, patterns: seq<string>, auto: bool)

  /** `answers` remembers, for each request, the first answer routed to it. */
  datatype World = World(conn: Conn, calls: map<nat, Call>, stores: map<nat, Store>, answers: map<nat, Answer>)

  /** One critical section each. A waiting call may give up at any time: its turn is cancelled, or the
      window is over. */
  datatype Event =
    | OpenSession(s: nat, startup: seq<string>, auto: bool)
    | Start(c: nat, s: nat, req: Request)
    | SeeFlag(c: nat)
    | SeePatterns(c: nat)
    | TakeId(c: nat)
    | Register(c: nat)
    | ClientReply(id: nat, reply: Reply)
    | Receive(c: nat)
    | GiveUp(c: nat)
    | Flip(s: nat, auto: bool)

  ghost predicate Enabled(w: World, ev: Event)
  {
    match ev
    case OpenSession(s, _, _) => s !in w.stores
    case Start(c, s, _) => c !in w.calls && s in w.stores
    case SeeFlag(c) => c in w.calls && w.calls[c].phase.ReadFlag? && w.calls[c].session in w.stores
    case SeePatterns(c) => c in w.calls && w.calls[c].phase.ReadPatterns? && w.calls[c].session in w.stores
    case TakeId(c) => c in w.calls && w.calls[c].phase.OpenRequest?
    case Register(c) => c in w.calls && w.calls[c].phase.Registering?
    case ClientReply(id, _) => true
    case Receive(c) =>
      c in w.calls && w.calls[c].phase.Waiting? && w.calls[c].session in w.stores &&
      w.conn.Issued(w.calls[c].phase.id) && w.conn.Mail(w.calls[c].phase.id) != []
    case GiveUp(c) => c in w.calls && w.calls[c].phase.Waiting?
    case Flip(s, _) => s in w.stores
  }

  /** `InteractiveApprover::decide` once it has read the patterns. */
  function AfterPatterns(v: PatternVerdict, auto: bool): Phase
  {
    match v
    case DenyIt => Done(Deny)
    case Ask => OpenRequest
    case AllowIt => Done(Allow)
    case NoMatch => if auto then Done(Allow) else OpenRequest
  }

  /** The patterns once an answer is mapped to a verdict. */
  function AfterAnswer(patterns: seq<string>, req: Request, answer: Answer): seq<string>
  {
    if Chosen(answer) == ALLOW_ALWAYS && req.risk.Write? then patterns + [req.tool] else patterns
  }

  ghost function After(w: World, ev: Event, m: Matcher): World
    requires Enabled(w, ev)
  {
    match ev
    case OpenSession(s, startup, auto) => w.(stores := w.stores[s := Store(startup, startup, auto)])
    case Start(c, s, req) =>
      w.(calls := w.calls[c := Call(s, req, if req.risk.Destructive? then OpenRequest else ReadFlag, None)])
    case SeeFlag(c) =>
      w.(calls := w.calls[c := w.calls[c].(phase := ReadPatterns(w.stores[w.calls[c].session].auto))])
    case SeePatterns(c) =>
      var call := w.calls[c];
      w.(calls := w.calls[c := call.(phase := AfterPatterns(m(w.stores[call.session].patterns, call.req), call.phase.auto))])
    case TakeId(c) =>
      w.(conn := Taken(w.conn),
         calls := w.calls[c := w.calls[c].(phase := Registering(w.conn.nextId), asked := Some(w.conn.nextId))])
    case Register(c) =>
      var id := w.calls[c].phase.id;
      w.(conn := Registered(w.conn, id), calls := w.calls[c := w.calls[c].(phase := Waiting(id))])
    case ClientReply(id, reply) =>
      w.(conn := Routed(w.conn, id, AnswerOf(reply)),
         answers := if id in w.conn.pending then w.answers[id := AnswerOf(reply)] else w.answers)
    case Receive(c) =>
      var call := w.calls[c];
      var answer := w.conn.Mail(call.phase.id)[0];
      var store := w.stores[call.session];
      w.(conn := w.conn.Deliver(call.phase.id, w.conn.Mail(call.phase.id)[1..]),
         calls := w.calls[c := call.(phase := Done(if IsAllow(answer) then Allow else Deny))],
         stores := w.stores[call.session := store.(patterns := AfterAnswer(store.patterns, call.req, answer))])
    case GiveUp(c) =>
      w.(conn := Abandoned(w.conn, w.calls[c].phase.id), calls := w.calls[c := w.calls[c].(phase := Done(Deny))])
    case Flip(s, b) => w.(stores := w.stores[s := w.stores[s].(auto := b)])
  }

  // ------------------------------------------------------------ invariants

  /** Every request id belongs to one call, and a registered id to a call still waiting for it. */
  ghost predicate RequestsHold(w: World)
  {
    ConnHolds(w.conn) &&
    (forall c | c in w.calls :: CallHolds(w.conn, w.calls[c])) &&
    (forall c, d | c in w.calls && d in w.calls && c != d && w.calls[c].asked.Some? :: w.calls[c].asked != w.calls[d].asked) &&
    (forall id | id in w.conn.pending :: SomeoneWaits(w, id))
  }

  ghost predicate CallHolds(conn: Conn, call: Call)
  {
    (call.asked.Some? ==> conn.Issued(call.asked.value)) &&
    match call.phase
    case Registering(id) =>
      call.asked == Some(id) && id !in conn.pending && conn.Issued(id) && conn.Mail(id) == []
    case Waiting(id) => call.asked == Some(id)
    case Done(_) => true
    case _ => call.asked.None?
  }

  ghost predicate SomeoneWaits(w: World, id: nat) { exists c :: c in w.calls && w.calls[c].phase == Waiting(id) }

  /** An answered request is unregistered, one being registered is unanswered; a waiting call's request is registered and unanswered, or
      its one answer is in its channel. */
  ghost predicate AnswersHold(w: World)
  {
    (forall id | id in w.answers :: w.conn.Issued(id) && id !in w.conn.pending) &&
    (forall c | c in w.calls && w.calls[c].phase.Registering? :: w.calls[c].phase.id !in w.answers) &&
    (forall id | w.conn.Issued(id) && w.conn.Mail(id) != [] :: id in w.answers && w.conn.Mail(id) == [w.answers[id]]) &&
    (forall c | c in w.calls && w.calls[c].phase.Waiting? ::
       var id := w.calls[c].phase.id;
       w.conn.Issued(id) && (id in w.conn.pending <==> w.conn.Mail(id) == []))
  }

  /** A call that asked is allowed only by the answer, and a call to a destructive tool never skips the
      question. */
  ghost predicate VerdictsHold(w: World)
  {
    (forall c | c in w.calls && w.calls[c].phase == Done(Allow) && w.calls[c].asked.Some? ::
       w.calls[c].asked.value in w.answers && IsAllow(w.answers[w.calls[c].asked.value])) &&
    forall c | c in w.calls && w.calls[c].req.risk.Destructive? ::
      !w.calls[c].phase.ReadFlag? && !w.calls[c].phase.ReadPatterns? &&
      (w.calls[c].phase == Done(Allow) ==> w.calls[c].asked.Some?)
  }

  /** `tool` was granted for the rest of session `s` by an answer to one of its Write calls. */
  ghost predicate Granted(w: World, s: nat, tool: string)
  {
    exists c :: c in w.calls && w.calls[c].session == s && w.calls[c].req.tool == tool && w.calls[c].req.risk.Write? &&
                w.calls[c].asked.Some? && w.calls[c].asked.value in w.answers &&
                Chosen(w.answers[w.calls[c].asked.value]) == ALLOW_ALWAYS
  }

  /** Pattern stores hold the startup patterns, then granted tool names. */
  ghost predicate PatternsHold(w: World)
  {
    forall s | s in w.stores :: w.stores[s].startup <= w.stores[s].patterns &&
      forall k :: |w.stores[s].startup| <= k < |w.stores[s].patterns| ==> Granted(w, s, w.stores[s].patterns[k])
  }

  ghost predicate Inv(w: World)
  {
    RequestsHold(w) && AnswersHold(w) && VerdictsHold(w) && PatternsHold(w)
  }

  lemma WaitersKept(w: World, ev: Event, m: Matcher, id: nat)
    requires RequestsHold(w) && Enabled(w, ev) && id in After(w, ev, m).conn.pending
    ensures SomeoneWaits(After(w, ev, m), id)
  {
    var w' := After(w, ev, m);
    if ev.Register? && id == w.calls[ev.c].phase.id {
      assert w'.calls[ev.c].phase == Waiting(id);
    } else {
      assert SomeoneWaits(w, id);
      var c :| c in w.calls && w.calls[c].phase == Waiting(id);
      assert w'.calls[c].phase == Waiting(id);
    }
  }

  lemma ConnKept(w: World, ev: Event, m: Matcher)
    requires RequestsHold(w) && Enabled(w, ev)
    ensures ConnHolds(After(w, ev, m).conn) && forall id :: w.conn.Issued(id) ==> After(w, ev, m).conn.Issued(id)
  {
    match ev
    case TakeId(c) => ConnSteps(w.conn, 0, None);
    case Register(c) =>
      assert CallHolds(w.conn, w.calls[c]);
      ConnSteps(w.conn, w.calls[c].phase.id, None);
    case ClientReply(id, reply) => ConnSteps(w.conn, id, AnswerOf(reply));
    case GiveUp(c) => ConnSteps(w.conn, w.calls[c].phase.id, None);
    case _ =>
  }

  lemma CallsKept(w: World, ev: Event, m: Matcher, c: nat)
    requires RequestsHold(w) && Enabled(w, ev) && c in After(w, ev, m).calls
    ensures CallHolds(After(w, ev, m).conn, After(w, ev, m).calls[c])
  {
    ConnKept(w, ev, m);
    assert c in w.calls ==> CallHolds(w.conn, w.calls[c]);
    if c in w.calls && (ev.Register? || ev.Receive?) && ev.c != c {
      assert CallHolds(w.conn, w.calls[ev.c]);
      assert w.calls[ev.c].asked != w.calls[c].asked;
    }
  }

  /** Only opening a request assigns an id, and a new one. */
  lemma AskedKept(w: World, ev: Event, m: Matcher, c: nat, d: nat)
    requires RequestsHold(w) && Enabled(w, ev)
    requires c in After(w, ev, m).calls && d in After(w, ev, m).calls && c != d
    requires After(w, ev, m).calls[c].asked.Some?
    ensures After(w, ev, m).calls[c].asked != After(w, ev, m).calls[d].asked
  {
    assert c in w.calls ==> CallHolds(w.conn, w.calls[c]);
    assert d in w.calls ==> CallHolds(w.conn, w.calls[d]);
  }

  lemma RequestsKept(w: World, ev: Event, m: Matcher)
    requires RequestsHold(w) && Enabled(w, ev)
    ensures RequestsHold(After(w, ev, m))
  {
    var w' := After(w, ev, m);
    ConnKept(w, ev, m);
    forall id | id in w'.conn.pending ensures SomeoneWaits(w', id) { WaitersKept(w, ev, m, id); }
    forall c | c in w'.calls ensures CallHolds(w'.conn, w'.calls[c]) { CallsKept(w, ev, m, c); }
    forall c, d | c in w'.calls && d in w'.calls && c != d && w'.calls[c].asked.Some?
      ensures w'.calls[c].asked != w'.calls[d].asked
    {
      AskedKept(w, ev, m, c, d);
    }
  }

  lemma MailKept(w: World, ev: Event, m: Matcher, id: nat)
    requires Inv(w) && Enabled(w, ev)
    ensures var w' := After(w, ev, m);
            (id in w'.answers ==> w'.conn.Issued(id) && id !in w'.conn.pending) &&
            (w'.conn.Issued(id) && w'.conn.Mail(id) != [] ==> id in w'.answers && w'.conn.Mail(id) == [w'.answers[id]])
  {
  }

  lemma WaitKept(w: World, ev: Event, m: Matcher, c: nat)
    requires Inv(w) && Enabled(w, ev)
    requires c in After(w, ev, m).calls && After(w, ev, m).calls[c].phase.Waiting?
    ensures var w' := After(w, ev, m); var id := w'.calls[c].phase.id;
            w'.conn.Issued(id) && (id in w'.conn.pending <==> w'.conn.Mail(id) == [])
  {
    assert c in w.calls && CallHolds(w.conn, w.calls[c]);
    if ev.Receive? || ev.GiveUp? || ev.Register? {
      assert CallHolds(w.conn, w.calls[ev.c]);
      assert c != ev.c ==> w.calls[c].asked != w.calls[ev.c].asked;
    }
  }

  lemma RegisteringKept(w: World, ev: Event, m: Matcher, c: nat)
    requires Inv(w) && Enabled(w, ev)
    requires c in After(w, ev, m).calls && After(w, ev, m).calls[c].phase.Registering?
    ensures After(w, ev, m).calls[c].phase.id !in After(w, ev, m).answers
  {
    assert CallHolds(w.conn, w.calls[c]);
  }

  lemma AnswersKept(w: World, ev: Event, m: Matcher)
    requires Inv(w) && Enabled(w, ev)
    ensures AnswersHold(After(w, ev, m))
  {
    var w' := After(w, ev, m);
    forall id ensures (id in w'.answers ==> w'.conn.Issued(id) && id !in w'.conn.pending) &&
                      (w'.conn.Issued(id) && w'.conn.Mail(id) != [] ==> id in w'.answers && w'.conn.Mail(id) == [w'.answers[id]])
    {
      MailKept(w, ev, m, id);
    }
    forall c | c in w'.calls && w'.calls[c].phase.Registering?
      ensures w'.calls[c].phase.id !in w'.answers
    {
      RegisteringKept(w, ev, m, c);
    }
    forall c | c in w'.calls && w'.calls[c].phase.Waiting?
      ensures var id := w'.calls[c].phase.id; w'.conn.Issued(id) && (id in w'.conn.pending <==> w'.conn.Mail(id) == [])
    {
      WaitKept(w, ev, m, c);
    }
  }

  lemma VerdictsKept(w: World, ev: Event, m: Matcher)
    requires Inv(w) && Enabled(w, ev)
    ensures VerdictsHold(After(w, ev, m))
  {
  }

  /** Calls keep who they are and what they asked; answers are never overwritten. */
  lemma HistoryGrows(w: World, ev: Event, m: Matcher)
    requires Inv(w) && Enabled(w, ev)
    ensures var w' := After(w, ev, m);
            (forall c | c in w.calls :: c in w'.calls && w'.calls[c].session == w.calls[c].session &&
               w'.calls[c].req == w.calls[c].req && (w.calls[c].asked.Some? ==> w'.calls[c].asked == w.calls[c].asked)) &&
            (forall id | id in w.answers :: id in w'.answers && w'.answers[id] == w.answers[id])
  {
  }

  lemma PatternKept(w: World, ev: Event, m: Matcher, s: nat, k: nat)
    requires Inv(w) && Enabled(w, ev)
    requires s in After(w, ev, m).stores
    requires |After(w, ev, m).stores[s].startup| <= k < |After(w, ev, m).stores[s].patterns|
    ensures Granted(After(w, ev, m), s, After(w, ev, m).stores[s].patterns[k])
  {
    var w' := After(w, ev, m);
    HistoryGrows(w, ev, m);
    if s in w.stores && k < |w.stores[s].patterns| {
      assert Granted(w, s, w.stores[s].patterns[k]);
      GrantStays(w, w', s, w.stores[s].patterns[k]);
    } else {
      assert ev.Receive? && CallHolds(w.conn, w.calls[ev.c]);
      assert w'.calls[ev.c].session == s;
    }
  }

  lemma PatternsKept(w: World, ev: Event, m: Matcher)
    requires Inv(w) && Enabled(w, ev)
    ensures PatternsHold(After(w, ev, m))
  {
    var w' := After(w, ev, m);
    forall s, k | s in w'.stores && |w'.stores[s].startup| <= k < |w'.stores[s].patterns|
      ensures Granted(w', s, w'.stores[s].patterns[k])
    {
      PatternKept(w, ev, m, s, k);
    }
  }

  lemma GrantStays(w: World, w': World, s: nat, tool: string)
    requires Granted(w, s, tool)
    requires forall c | c in w.calls :: c in w'.calls && w'.calls[c].session == w.calls[c].session &&
               w'.calls[c].req == w.calls[c].req && (w.calls[c].asked.Some? ==> w'.calls[c].asked == w.calls[c].asked)
    requires forall id | id in w.answers :: id in w'.answers && w'.answers[id] == w.answers[id]
    ensures Granted(w', s, tool)
  {
    var c :| c in w.calls && w.calls[c].session == s && w.calls[c].req.tool == tool && w.calls[c].req.risk.Write? &&
             w.calls[c].asked.Some? && w.calls[c].asked.value in w.answers &&
             Chosen(w.answers[w.calls[c].asked.value]) == ALLOW_ALWAYS;
    assert w'.calls[c].req.tool == tool;
  }

  // ------------------------------------------------------------------ runs

  ghost predicate IsRun(evs: seq<Event>, m: Matcher)
    decreases |evs|, 0
  {
    evs == [] ||
    var front := evs[..|evs| - 1];
    IsRun(front, m) && Enabled(State(front, m), evs[|evs| - 1])
  }

  /** The world after a run, in any interleaving, from a fresh connection. */
  ghost function State(evs: seq<Event>, m: Matcher): World
    requires IsRun(evs, m)
    decreases |evs|, 1
  {
    if evs == [] then World(Conn(1, {}, []), map[], map[], map[])
    else After(State(evs[..|evs| - 1], m), evs[|evs| - 1], m)
  }

  lemma {:induction false} RunsKeepInv(evs: seq<Event>, m: Matcher)
    requires IsRun(evs, m)
    ensures Inv(State(evs, m))
  {
    if evs != [] {
      var w, ev := State(evs[..|evs| - 1], m), evs[|evs| - 1];
      RunsKeepInv(evs[..|evs| - 1], m);
      RequestsKept(w, ev, m);
      AnswersKept(w, ev, m);
      VerdictsKept(w, ev, m);
      PatternsKept(w, ev, m);
    }
  }

  lemma {:induction false} PrefixIsRun(evs: seq<Event>, n: nat, m: Matcher)
    requires IsRun(evs, m) && n <= |evs|
    ensures IsRun(evs[..n], m)
  {
    if n < |evs| {
      PrefixIsRun(evs[..|evs| - 1], n, m);
      assert evs[..|evs| - 1][..n] == evs[..n];
    } else {
      assert evs[..n] == evs;
    }
  }

  /** The `k`-th event is a client reply that found `id` registered. */
  ghost predicate Delivers(evs: seq<Event>, k: nat, id: nat, answer: Answer, m: Matcher)
    requires IsRun(evs, m)
  {
    k < |evs| && evs[k].ClientReply? && evs[k].id == id && AnswerOf(evs[k].reply) == answer &&
    (PrefixIsRun(evs, k, m); id in State(evs[..k], m).conn.pending)
  }

  lemma AnswerStep(w: World, ev: Event, m: Matcher, id: nat)
    requires Inv(w) && Enabled(w, ev) && id in After(w, ev, m).answers
    ensures (id in w.answers && w.answers[id] == After(w, ev, m).answers[id]) ||
            (ev.ClientReply? && ev.id == id && id in w.conn.pending && AnswerOf(ev.reply) == After(w, ev, m).answers[id])
  {
  }

  lemma DeliversExtends(evs: seq<Event>, k: nat, id: nat, answer: Answer, m: Matcher)
    requires IsRun(evs, m) && evs != [] && Delivers(evs[..|evs| - 1], k, id, answer, m)
    ensures Delivers(evs, k, id, answer, m)
  {
    assert evs[..|evs| - 1][..k] == evs[..k];
  }

  /** Every remembered answer came from a client reply to that very request. */
  lemma {:induction false} AnswersComeFromClients(evs: seq<Event>, id: nat, m: Matcher) returns (k: nat)
    requires IsRun(evs, m) && id in State(evs, m).answers
    ensures Delivers(evs, k, id, State(evs, m).answers[id], m)
  {
    var front := evs[..|evs| - 1];
    RunsKeepInv(front, m);
    AnswerStep(State(front, m), evs[|evs| - 1], m, id);
    if id in State(front, m).answers && State(front, m).answers[id] == State(evs, m).answers[id] {
      k := AnswersComeFromClients(front, id, m);
      DeliversExtends(evs, k, id, State(evs, m).answers[id], m);
    } else {
      k := |evs| - 1;
    }
  }

  /** Over every run, a destructive call is allowed only if the client's reply to that call's own
      request chose an allow option: no pattern, flag, timeout or other request can do it. */
  lemma DestructiveNeedsConsent(evs: seq<Event>, c: nat, m: Matcher)
    requires IsRun(evs, m)
    requires c in State(evs, m).calls
    requires State(evs, m).calls[c].req.risk.Destructive? && State(evs, m).calls[c].phase == Done(Allow)
    ensures exists k, id, answer ::
              State(evs, m).calls[c].asked == Some(id) && IsAllow(answer) && Delivers(evs, k, id, answer, m)
  {
    var w := State(evs, m);
    RunsKeepInv(evs, m);
    var id := w.calls[c].asked.value;
    var k := AnswersComeFromClients(evs, id, m);
  }

  /** Over every run, a session's pattern store is its startup patterns followed by names of its
      Write tools, each granted by a reply to that tool's own request that chose allow-always. */
  lemma PatternsNeedConsent(evs: seq<Event>, s: nat, k: nat, m: Matcher)
    requires IsRun(evs, m) && s in State(evs, m).stores
    requires |State(evs, m).stores[s].startup| <= k < |State(evs, m).stores[s].patterns|
    ensures State(evs, m).stores[s].startup <= State(evs, m).stores[s].patterns
    ensures exists c, j, id ::
              c in State(evs, m).calls && State(evs, m).calls[c].session == s &&
              State(evs, m).calls[c].req.tool == State(evs, m).stores[s].patterns[k] &&
              State(evs, m).calls[c].req.risk.Write? && State(evs, m).calls[c].asked == Some(id) &&
              Delivers(evs, j, id, Some(ALLOW_ALWAYS), m)
  {
    var w := State(evs, m);
    RunsKeepInv(evs, m);
    var tool := w.stores[s].patterns[k];
    assert Granted(w, s, tool);
    var c :| c in w.calls && w.calls[c].session == s && w.calls[c].req.tool == tool && w.calls[c].req.risk.Write? &&
             w.calls[c].asked.Some? && w.calls[c].asked.value in w.answers &&
             Chosen(w.answers[w.calls[c].asked.value]) == ALLOW_ALWAYS;
    var id := w.calls[c].asked.value;
    var j := AnswersComeFromClients(evs, id, m);
    assert w.answers[id] == Some(ALLOW_ALWAYS);
    assert w.calls[c].asked == Some(id);
  }

  /** An answered id never becomes registered again. */
  lemma {:induction false} AnsweredStays(evs: seq<Event>, n: nat, id: nat, m: Matcher)
    requires IsRun(evs, m) && n <= |evs| && IsRun(evs[..n], m)
    requires id in State(evs[..n], m).answers
    ensures id in State(evs, m).answers && id !in State(evs, m).conn.pending
    decreases |evs| - n
  {
    RunsKeepInv(evs, m);
    if n < |evs| {
      var front := evs[..|evs| - 1];
      assert front[..n] == evs[..n];
      AnsweredStays(front, n, id, m);
      RunsKeepInv(front, m);
      HistoryGrows(State(front, m), evs[|evs| - 1], m);
    } else {
      assert evs[..n] == evs;
    }
  }

  /** Each request delivers at most one value to its waiter, however many replies name its id. */
  lemma OneAnswerPerRequest(evs: seq<Event>, j: nat, k: nat, id: nat, a: Answer, b: Answer, m: Matcher)
    requires IsRun(evs, m) && j < k
    requires Delivers(evs, j, id, a, m)
    ensures !Delivers(evs, k, id, b, m)
  {
    if k < |evs| {
      PrefixIsRun(evs, k, m);
      PrefixIsRun(evs, j + 1, m);
      assert evs[..j + 1][..j] == evs[..j];
      assert evs[..k][..j + 1] == evs[..j + 1];
      AnsweredStays(evs[..k], j + 1, id, m);
    }
  }

  /** Request ids are never reused. */
  lemma {:induction false} IdsAreFresh(evs: seq<Event>, n: nat, m: Matcher)
    requires IsRun(evs, m) && n <= |evs| && IsRun(evs[..n], m)
    ensures State(evs[..n], m).conn.nextId <= State(evs, m).conn.nextId
    ensures n < |evs| && evs[n].TakeId? ==> State(evs[..n], m).conn.nextId < State(evs, m).conn.nextId
    decreases |evs| - n
  {
    if n < |evs| {
      var front := evs[..|evs| - 1];
      assert front[..n] == evs[..n];
      IdsAreFresh(front, n, m);
    } else {
      assert evs[..n] == evs;
    }
  }

  /** In every reachable world: the pending ids are waits in progress; a reply to any other id
      changes nothing; and a waiting call finds its sender registered or its answer delivered, so the
      disconnected arm of the wait is never taken. */
  lemma LateRepliesAreIgnored(evs: seq<Event>, id: nat, reply: Reply, m: Matcher)
    requires IsRun(evs, m)
    ensures id in State(evs, m).conn.pending ==> SomeoneWaits(State(evs, m), id)
    ensures id !in State(evs, m).conn.pending ==> After(State(evs, m), ClientReply(id, reply), m) == State(evs, m)
    ensures forall c | c in State(evs, m).calls && State(evs, m).calls[c].phase == Waiting(id) ::
              State(evs, m).conn.Issued(id) && (id in State(evs, m).conn.pending || State(evs, m).conn.Mail(id) != [])
  {
    RunsKeepInv(evs, m);
  }
}

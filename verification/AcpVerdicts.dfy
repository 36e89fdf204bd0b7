/** How the calls of ACP sessions come to their verdicts, over every run: what was replied to the call's own
    request, or what the call itself read of the patterns and the flag (crates/tole-cli/src/approver.rs,
    crates/tole-cli/src/acp.rs). */
module AcpVerdicts {
  import opened Approval
  import opened Common
  import opened AcpPermission

  /** The world before the `k`-th event. */
  ghost function At(evs: seq<Event>, k: nat, m: Matcher): World
    requires IsRun(evs, m) && k <= |evs|
  {
    PrefixIsRun(evs, k, m);
    State(evs[..k], m)
  }

  /** The call's session has stores. */
  predicate HasStore(w: World, c: nat) { c in w.calls && w.calls[c].session in w.stores }

  /** With the `j`-th event the call reads its session's flag, which is `on`. */
  ghost predicate ReadsFlag(evs: seq<Event>, j: nat, c: nat, on: bool, m: Matcher)
    requires IsRun(evs, m)
  {
    j < |evs| && evs[j] == SeeFlag(c) && HasStore(At(evs, j, m), c) &&
    At(evs, j, m).stores[At(evs, j, m).calls[c].session].auto == on
  }

  /** With the `k`-th event the call reads its session's patterns, of which the matcher says `verdict`. */
  ghost predicate ReadsPatterns(evs: seq<Event>, k: nat, c: nat, verdict: PatternVerdict, m: Matcher)
    requires IsRun(evs, m)
  {
    k < |evs| && evs[k] == SeePatterns(c) && HasStore(At(evs, k, m), c) &&
    var w := At(evs, k, m); m(w.stores[w.calls[c].session].patterns, w.calls[c].req) == verdict
  }

  /** A reply to the call's own request, while that was registered, named an option that allows. */
  ghost predicate AllowedByReply(evs: seq<Event>, c: nat, m: Matcher)
    requires IsRun(evs, m) && c in State(evs, m).calls
  {
    exists k: nat, id, option ::
      k < |evs| && evs[k] == ClientReply(id, Result(Some(option))) && id in At(evs, k, m).conn.pending &&
      State(evs, m).calls[c].asked == Some(id) && (option == "allow-once" || option == "allow-always")
  }

  /** The call did not ask: a pattern allowed it, or none said anything and the flag was on. */
  ghost predicate AllowedUnasked(evs: seq<Event>, c: nat, m: Matcher)
    requires IsRun(evs, m) && c in State(evs, m).calls
  {
    State(evs, m).calls[c].asked.None? && !State(evs, m).calls[c].req.risk.Destructive? &&
    exists k: nat ::
      ReadsPatterns(evs, k, c, AllowIt, m) ||
      (ReadsPatterns(evs, k, c, NoMatch, m) && exists j: nat :: j < k && ReadsFlag(evs, j, c, true, m))
  }

  /** What the call has read so far accounts for where it stands. */
  ghost predicate Story(evs: seq<Event>, c: nat, m: Matcher)
    requires IsRun(evs, m) && c in State(evs, m).calls
  {
    var call := State(evs, m).calls[c];
    (call.phase.ReadPatterns? ==> exists j: nat :: ReadsFlag(evs, j, c, call.phase.auto, m)) &&
    (call.phase == Done(Allow) && call.asked.None? ==> AllowedUnasked(evs, c, m))
  }

  lemma FlagExtends(evs: seq<Event>, j: nat, c: nat, on: bool, m: Matcher)
    requires IsRun(evs, m) && evs != [] && ReadsFlag(evs[..|evs| - 1], j, c, on, m)
    ensures ReadsFlag(evs, j, c, on, m)
  {
    assert evs[..|evs| - 1][..j] == evs[..j];
  }

  lemma PatternsExtend(evs: seq<Event>, k: nat, c: nat, verdict: PatternVerdict, m: Matcher)
    requires IsRun(evs, m) && evs != [] && ReadsPatterns(evs[..|evs| - 1], k, c, verdict, m)
    ensures ReadsPatterns(evs, k, c, verdict, m)
  {
    assert evs[..|evs| - 1][..k] == evs[..k];
  }

  /** A call keeps what it is, a verdict stays, and a call that is to ask does. */
  lemma CallStep(w: World, ev: Event, m: Matcher, c: nat)
    requires Enabled(w, ev) && c in w.calls
    ensures c in After(w, ev, m).calls
    ensures var call, next := w.calls[c], After(w, ev, m).calls[c];
            next.session == call.session && next.req == call.req &&
            (call.phase.Done? ==> next == call) && (call.asked.Some? ==> next.asked.Some?) &&
            (call.phase.OpenRequest? ==> next.phase.OpenRequest? || next.asked.Some?)
  {
  }

  /** Where a call can come from in one step. */
  lemma Origin(w: World, ev: Event, m: Matcher, c: nat)
    requires Inv(w) && Enabled(w, ev) && c in After(w, ev, m).calls
    ensures var next := After(w, ev, m).calls[c];
            && (next.phase.ReadPatterns? ==>
                  c in w.calls && (w.calls[c] == next || (ev == SeeFlag(c) && w.stores[next.session].auto == next.phase.auto &&
                  w.calls[c].session == next.session)))
            && (next.phase == Done(Allow) && next.asked.None? ==>
                  c in w.calls && w.calls[c].session == next.session && w.calls[c].req == next.req &&
                  (w.calls[c] == next || (ev == SeePatterns(c) && w.calls[c].phase.ReadPatterns? &&
                    var verdict := m(w.stores[next.session].patterns, next.req);
                    verdict.AllowIt? || (verdict.NoMatch? && w.calls[c].phase.auto))))
  {
    if c in w.calls { assert CallHolds(w.conn, w.calls[c]); }
  }

  lemma UnaskedExtends(evs: seq<Event>, c: nat, m: Matcher)
    requires IsRun(evs, m) && evs != [] && c in State(evs[..|evs| - 1], m).calls
    requires AllowedUnasked(evs[..|evs| - 1], c, m)
    requires c in State(evs, m).calls && State(evs, m).calls[c] == State(evs[..|evs| - 1], m).calls[c]
    ensures AllowedUnasked(evs, c, m)
  {
    hide State, ReadsFlag, ReadsPatterns, IsRun;
    var front := evs[..|evs| - 1];
    assert IsRun(front, m) by { PrefixIsRun(evs, |evs| - 1, m); }
    var k: nat :| ReadsPatterns(front, k, c, AllowIt, m) ||
             (ReadsPatterns(front, k, c, NoMatch, m) && exists j: nat :: j < k && ReadsFlag(front, j, c, true, m));
    if ReadsPatterns(front, k, c, AllowIt, m) {
      PatternsExtend(evs, k, c, AllowIt, m);
    } else {
      var j: nat :| j < k && ReadsFlag(front, j, c, true, m);
      PatternsExtend(evs, k, c, NoMatch, m);
      FlagExtends(evs, j, c, true, m);
    }
  }

  lemma {:induction false} StoryHolds(evs: seq<Event>, c: nat, m: Matcher)
    requires IsRun(evs, m) && c in State(evs, m).calls
    ensures Story(evs, c, m)
  {
    hide After, AllowedUnasked, ReadsFlag, ReadsPatterns;
    if evs == [] { return; }
    var front, ev, n := evs[..|evs| - 1], evs[|evs| - 1], |evs| - 1;
    var w, next := State(front, m), State(evs, m).calls[c];
    RunsKeepInv(front, m);
    Origin(w, ev, m, c);
    if c in w.calls { StoryHolds(front, c, m); }
    if next.phase.ReadPatterns? { FlagStory(evs, c, m); }
    if next.phase == Done(Allow) && next.asked.None? { AllowStory(evs, c, m); }
  }

  lemma FlagStory(evs: seq<Event>, c: nat, m: Matcher)
    requires IsRun(evs, m) && evs != [] && c in State(evs, m).calls && State(evs, m).calls[c].phase.ReadPatterns?
    requires c in State(evs[..|evs| - 1], m).calls ==> Story(evs[..|evs| - 1], c, m)
    ensures exists j: nat :: ReadsFlag(evs, j, c, State(evs, m).calls[c].phase.auto, m)
  {
    hide After, AllowedUnasked, ReadsPatterns;
    var front, n := evs[..|evs| - 1], |evs| - 1;
    var w, auto := State(front, m), State(evs, m).calls[c].phase.auto;
    RunsKeepInv(front, m);
    Origin(w, evs[n], m, c);
    if w.calls[c] == State(evs, m).calls[c] {
      var j: nat :| ReadsFlag(front, j, c, auto, m);
      FlagExtends(evs, j, c, auto, m);
    } else {
      assert ReadsFlag(evs, n, c, auto, m);
    }
  }

  lemma AllowStory(evs: seq<Event>, c: nat, m: Matcher)
    requires IsRun(evs, m) && evs != [] && c in State(evs, m).calls
    requires State(evs, m).calls[c].phase == Done(Allow) && State(evs, m).calls[c].asked.None?
    requires c in State(evs[..|evs| - 1], m).calls ==> Story(evs[..|evs| - 1], c, m)
    ensures AllowedUnasked(evs, c, m)
  {
    hide After;
    var front, n := evs[..|evs| - 1], |evs| - 1;
    var w, next := State(front, m), State(evs, m).calls[c];
    RunsKeepInv(front, m);
    RunsKeepInv(evs, m);
    Origin(w, evs[n], m, c);
    if w.calls[c] == next {
      UnaskedExtends(evs, c, m);
    } else {
      var verdict := m(w.stores[next.session].patterns, next.req);
      assert ReadsPatterns(evs, n, c, verdict, m);
      if verdict.NoMatch? {
        var j: nat :| ReadsFlag(front, j, c, true, m);
        FlagExtends(evs, j, c, true, m);
      }
    }
  }

  /** Over every run, an allowed call either asked, and a reply to its own request named an option that allows;
      or it is not destructive, and what it read of its session's patterns allowed it, or said nothing while
      the flag it had read was on. */
  lemma AllowedHow(evs: seq<Event>, c: nat, m: Matcher)
    requires IsRun(evs, m) && c in State(evs, m).calls && State(evs, m).calls[c].phase == Done(Allow)
    ensures AllowedByReply(evs, c, m) || AllowedUnasked(evs, c, m)
  {
    hide State, AllowedUnasked, AllowedByReply;
    StoryHolds(evs, c, m);
    if State(evs, m).calls[c].asked.Some? { ReplyAllowed(evs, c, m); }
  }

  lemma ReplyAllowed(evs: seq<Event>, c: nat, m: Matcher)
    requires IsRun(evs, m) && c in State(evs, m).calls
    requires State(evs, m).calls[c].phase == Done(Allow) && State(evs, m).calls[c].asked.Some?
    ensures AllowedByReply(evs, c, m)
  {
    hide State, RequestsHold, AnswersHold, PatternsHold, IsRun;
    RunsKeepInv(evs, m);
    var id := State(evs, m).calls[c].asked.value;
    var answer := State(evs, m).answers[id];
    var k := AnswersComeFromClients(evs, id, m);
    PrefixIsRun(evs, k, m);
    assert evs[k] == ClientReply(id, Result(Some(answer.value)));
  }

  /** What the patterns settle stays settled, in every run: after a deny the call is denied and never asks,
      after an allow it is allowed without asking; else the flag that it has read allows it or it is asked. */
  lemma PatternsSettle(evs: seq<Event>, k: nat, c: nat, verdict: PatternVerdict, m: Matcher)
    requires IsRun(evs, m) && ReadsPatterns(evs, k, c, verdict, m)
    ensures c in State(evs, m).calls
    ensures var call := State(evs, m).calls[c];
            match verdict
            case DenyIt => call.phase == Done(Deny) && call.asked.None?
            case AllowIt => call.phase == Done(Allow) && call.asked.None?
            case Ask => call.phase.OpenRequest? || call.asked.Some?
            case NoMatch =>
              exists j: nat, on: bool :: j < k && ReadsFlag(evs, j, c, on, m) &&
                              if on then call.phase == Done(Allow) && call.asked.None?
                              else call.phase.OpenRequest? || call.asked.Some?
  {
    hide State, ReadsFlag, IsRun;
    PrefixIsRun(evs, k, m);
    PrefixIsRun(evs, k + 1, m);
    var w := State(evs[..k], m);
    JustRead(evs, k, c, m);
    StaysSettled(evs, k + 1, c, m);
    if verdict.NoMatch? {
      StoryHolds(evs[..k], c, m);
      var j: nat :| ReadsFlag(evs[..k], j, c, w.calls[c].phase.auto, m);
      assert j < k by { FlagInside(evs[..k], j, c, w.calls[c].phase.auto, m); }
      FlagAnywhere(evs, k, j, c, w.calls[c].phase.auto, m);
    }
  }

  lemma FlagInside(evs: seq<Event>, j: nat, c: nat, on: bool, m: Matcher)
    requires IsRun(evs, m) && ReadsFlag(evs, j, c, on, m)
    ensures j < |evs|
  {
  }

  lemma FlagAnywhere(evs: seq<Event>, k: nat, j: nat, c: nat, on: bool, m: Matcher)
    requires IsRun(evs, m) && k <= |evs| && IsRun(evs[..k], m) && ReadsFlag(evs[..k], j, c, on, m)
    ensures ReadsFlag(evs, j, c, on, m)
  {
    assert evs[..k][..j] == evs[..j];
  }

  /** The step in which a call reads its patterns. */
  lemma JustRead(evs: seq<Event>, k: nat, c: nat, m: Matcher)
    requires IsRun(evs, m) && k < |evs| && evs[k] == SeePatterns(c)
    requires IsRun(evs[..k], m) && IsRun(evs[..k + 1], m) && HasStore(State(evs[..k], m), c)
    ensures var w := State(evs[..k], m);
            c in State(evs[..k + 1], m).calls && w.calls[c].phase.ReadPatterns? &&
            var call, verdict := State(evs[..k + 1], m).calls[c], m(w.stores[w.calls[c].session].patterns, w.calls[c].req);
            call.asked.None? &&
            match verdict
            case DenyIt => call.phase == Done(Deny)
            case AllowIt => call.phase == Done(Allow)
            case Ask => call.phase.OpenRequest?
            case NoMatch => if w.calls[c].phase.auto then call.phase == Done(Allow) else call.phase.OpenRequest?
  {
    var longer := evs[..k + 1];
    assert longer[..k] == evs[..k] && longer[k] == evs[k];
    RunsKeepInv(evs[..k], m);
    assert CallHolds(State(evs[..k], m).conn, State(evs[..k], m).calls[c]);
  }

  lemma {:induction false} StaysSettled(evs: seq<Event>, n: nat, c: nat, m: Matcher)
    requires IsRun(evs, m) && n <= |evs| && IsRun(evs[..n], m) && c in State(evs[..n], m).calls
    ensures c in State(evs, m).calls
    ensures var call, now := State(evs[..n], m).calls[c], State(evs, m).calls[c];
            (call.phase.Done? ==> now == call) &&
            (call.phase.OpenRequest? || call.asked.Some? ==> now.phase.OpenRequest? || now.asked.Some?)
    decreases |evs| - n
  {
    if n < |evs| {
      hide After;
      var front := evs[..|evs| - 1];
      assert front[..n] == evs[..n];
      StaysSettled(front, n, c, m);
      CallStep(State(front, m), evs[|evs| - 1], m, c);
    } else {
      assert evs[..n] == evs;
    }
  }

  // ------------------------------------------------- what the stores remember

  predicate SetsFlag(ev: Event, s: nat, on: bool)
  {
    match ev
    case OpenSession(t, _, auto) => t == s && auto == on
    case Flip(t, auto) => t == s && auto == on
    case _ => false
  }

  /** A session's flag is what it was set to last. */
  lemma {:induction false} FlagIsLast(evs: seq<Event>, s: nat, m: Matcher) returns (k: nat)
    requires IsRun(evs, m) && s in State(evs, m).stores
    ensures k < |evs| && SetsFlag(evs[k], s, State(evs, m).stores[s].auto)
    ensures forall j :: k < j < |evs| ==> forall on :: !SetsFlag(evs[j], s, on)
  {
    var front, n := evs[..|evs| - 1], |evs| - 1;
    if SetsFlag(evs[n], s, true) || SetsFlag(evs[n], s, false) {
      k := n;
    } else {
      k := FlagIsLast(front, s, m);
    }
  }

  /** The startup patterns of a session are those it was opened with. */
  lemma {:induction false} StartupIsGiven(evs: seq<Event>, s: nat, m: Matcher) returns (k: nat)
    requires IsRun(evs, m) && s in State(evs, m).stores
    ensures k < |evs| && evs[k].OpenSession? && evs[k].s == s && evs[k].startup == State(evs, m).stores[s].startup
  {
    var front, n := evs[..|evs| - 1], |evs| - 1;
    if evs[n].OpenSession? && evs[n].s == s {
      k := n;
    } else {
      k := StartupIsGiven(front, s, m);
    }
  }

  /** A request's answer is the one that was delivered. */
  lemma {:induction false} DeliveredIs(evs: seq<Event>, k: nat, id: nat, answer: Answer, m: Matcher)
    requires IsRun(evs, m) && Delivers(evs, k, id, answer, m)
    ensures id in State(evs, m).answers && State(evs, m).answers[id] == answer
  {
    var front, n := evs[..|evs| - 1], |evs| - 1;
    RunsKeepInv(front, m);
    if k < n {
      assert front[..k] == evs[..k];
      DeliveredIs(front, k, id, answer, m);
      HistoryGrows(State(front, m), evs[n], m);
    }
  }

  /** The tool of a Write call that was answered allow-always is among its session's patterns. */
  ghost predicate Remembered(w: World, c: nat)
    requires c in w.calls
  {
    var call := w.calls[c];
    call.phase == Done(Allow) && call.asked.Some? && call.req.risk.Write? &&
    call.asked.value in w.answers && w.answers[call.asked.value] == Some(ALLOW_ALWAYS) ==>
      call.session in w.stores && call.req.tool in w.stores[call.session].patterns
  }

  lemma RememberedStep(w: World, ev: Event, m: Matcher, c: nat)
    requires Inv(w) && Enabled(w, ev) && c in After(w, ev, m).calls && (c in w.calls ==> Remembered(w, c))
    ensures Remembered(After(w, ev, m), c)
  {
    if c in w.calls { assert CallHolds(w.conn, w.calls[c]); }
    if ev.Receive? { assert CallHolds(w.conn, w.calls[ev.c]); }
  }

  lemma {:induction false} RememberedHolds(evs: seq<Event>, c: nat, m: Matcher)
    requires IsRun(evs, m) && c in State(evs, m).calls
    ensures Remembered(State(evs, m), c)
  {
    hide After, Remembered;
    if evs != [] {
      var front := evs[..|evs| - 1];
      RunsKeepInv(front, m);
      if c in State(front, m).calls { RememberedHolds(front, c, m); }
      RememberedStep(State(front, m), evs[|evs| - 1], m, c);
    }
  }

  /** Over every run, once the reply to a Write call's request chose allow-always and the call got it, its tool is
      among the patterns of its session for good. */
  lemma AlwaysIsRemembered(evs: seq<Event>, c: nat, k: nat, id: nat, m: Matcher)
    requires IsRun(evs, m) && c in State(evs, m).calls && State(evs, m).calls[c].phase == Done(Allow)
    requires State(evs, m).calls[c].req.risk.Write? && State(evs, m).calls[c].asked == Some(id)
    requires Delivers(evs, k, id, Some("allow-always"), m)
    ensures var call := State(evs, m).calls[c];
            call.session in State(evs, m).stores && call.req.tool in State(evs, m).stores[call.session].patterns
  {
    hide State, Delivers;
    DeliveredIs(evs, k, id, Some("allow-always"), m);
    RememberedHolds(evs, c, m);
  }

  // ------------------------------------------------------------- the wait itself

  /** The slices before the `k`-th bring nothing: no cancel, no reply to `id`, no end of the window. */
  predicate QuietUntil(id: nat, slices: seq<Slice>, k: nat)
    requires k <= |slices|
  {
    forall j :: 0 <= j < k ==>
      !slices[j].cancelled && !slices[j].deadlinePassed && forall p :: 0 <= p < |slices[j].arrivals| ==> slices[j].arrivals[p].0 != id
  }

  /** The first reply to `id` in a slice. */
  predicate FirstReply(id: nat, arrivals: seq<(nat, Reply)>, p: nat, reply: Reply)
  {
    p < |arrivals| && arrivals[p] == (id, reply) && forall q :: 0 <= q < p ==> arrivals[q].0 != id
  }

  lemma {:induction false} FirstAnswerIs(id: nat, arrivals: seq<(nat, Reply)>)
    ensures FirstAnswer(id, arrivals).None? <==> forall p :: 0 <= p < |arrivals| ==> arrivals[p].0 != id
    ensures forall p: nat, reply :: FirstReply(id, arrivals, p, reply) ==> FirstAnswer(id, arrivals) == Some(AnswerOf(reply))
    ensures FirstAnswer(id, arrivals).Some? ==> exists p: nat, reply :: FirstReply(id, arrivals, p, reply)
  {
    if arrivals != [] {
      var rest := arrivals[1..];
      FirstAnswerIs(id, rest);
      if arrivals[0].0 == id {
        assert FirstReply(id, arrivals, 0, arrivals[0].1);
      } else {
        assert forall p :: 0 <= p < |rest| ==> rest[p] == arrivals[p + 1];
        forall p: nat, reply | FirstReply(id, arrivals, p, reply)
          ensures FirstAnswer(id, arrivals) == Some(AnswerOf(reply))
        {
          assert FirstReply(id, rest, p - 1, reply);
        }
        if FirstAnswer(id, rest).Some? {
          var p: nat, reply :| FirstReply(id, rest, p, reply);
          assert FirstReply(id, arrivals, p + 1, reply);
        }
      }
    }
  }

  /** A wait yields a reply exactly when that is the first one to come, in a slice that finds the turn
      not cancelled, before any other slice was cancelled or ended the window. */
  lemma {:induction false} WaitYields(id: nat, slices: seq<Slice>, k: nat, p: nat, reply: Reply)
    requires k < |slices| && QuietUntil(id, slices, k) && !slices[k].cancelled && FirstReply(id, slices[k].arrivals, p, reply)
    ensures WaitResult(id, slices) == Some(AnswerOf(reply))
  {
    FirstAnswerIs(id, slices[0].arrivals);
    if k > 0 {
      assert forall j :: 0 <= j < k - 1 ==> slices[1..][j] == slices[j + 1];
      WaitYields(id, slices[1..], k - 1, p, reply);
    }
  }

  lemma {:induction false} WaitYieldsNothingElse(id: nat, slices: seq<Slice>) returns (k: nat, p: nat, reply: Reply)
    requires WaitResult(id, slices).Some?
    ensures k < |slices| && QuietUntil(id, slices, k) && !slices[k].cancelled && FirstReply(id, slices[k].arrivals, p, reply)
  {
    FirstAnswerIs(id, slices[0].arrivals);
    if FirstAnswer(id, slices[0].arrivals).Some? {
      k := 0;
      p, reply :| FirstReply(id, slices[0].arrivals, p, reply);
    } else {
      k, p, reply := WaitYieldsNothingElse(id, slices[1..]);
      k := k + 1;
      assert forall j :: 0 < j < k ==> slices[j] == slices[1..][j - 1];
    }
  }
}

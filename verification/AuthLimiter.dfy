/** The per-address limiter of failed authentications (crates/tole-cli/src/auth.rs) and the order of
    checks in which the server uses it (crates/tole-cli/src/serve.rs). */
module AuthLimiter {
  import opened Common

  const AUTH_WINDOW_SECS: nat := 60
  const MAX_AUTH_FAILURES: nat := 10

  /** Source addresses, distinct numbers. */
  type Ip = nat

  datatype Window = Window(start: nat, count: nat)

  type Failures = map<Ip, Window>

  /** How a connection that sent a complete request is answered before it is routed. */
  datatype Answer = TooManyRequests | Unauthorized | Routed

  /** `now.saturating_sub(since)`. */
  function Since(since: nat, now: nat): nat { if now < since then 0 else now - since }

  predicate IsLimited(failures: Failures, ip: Ip, now: nat)
  {
    ip in failures && Since(failures[ip].start, now) <= AUTH_WINDOW_SECS && failures[ip].count >= MAX_AUTH_FAILURES
  }

  /** Drops the windows that ended long ago. */
  function Swept(failures: Failures, now: nat): Failures
  {
    map ip | ip in failures && Since(failures[ip].start, now) <= AUTH_WINDOW_SECS * 4 :: failures[ip]
  }

  /** Counts one failure, opening a new window when the current one is over. */
  function Counted(failures: Failures, ip: Ip, now: nat): Failures
  {
    var w := if ip in failures then failures[ip] else Window(now, 0);
    var current := if Since(w.start, now) > AUTH_WINDOW_SECS then Window(now, 0) else w;
    failures[ip := current.(count := current.count + 1)]
  }

  class Limiter {
    var failures: Failures

    constructor ()
      ensures failures == map[]
    {
      failures := map[];
    }

    method IsLimitedAt(ip: Ip, now: nat) returns (limited: bool)
      ensures limited == IsLimited(failures, ip, now)
    {
      if ip !in failures {
        return false;
      }
      var w := failures[ip];
      return Since(w.start, now) <= AUTH_WINDOW_SECS && w.count >= MAX_AUTH_FAILURES;
    }

    method RecordFailureAt(ip: Ip, now: nat)
      modifies this
      ensures failures == Counted(Swept(old(failures), now), ip, now)
    {
      failures := Swept(failures, now);
      if ip !in failures {
        failures := failures[ip := Window(now, 0)];
      }
      if Since(failures[ip].start, now) > AUTH_WINDOW_SECS {
        failures := failures[ip := Window(now, 0)];
      }
      failures := failures[ip := failures[ip].(count := failures[ip].count + 1)];
    }

    /** One connection that no other one interrupts: the limit first, then the token (`authorized`, which
        the health probe always is), and only a refused token is recorded, at a later clock reading. */
    method Admit(ip: Option<Ip>, authorized: bool, checkedAt: nat, recordedAt: nat) returns (answer: Answer)
      modifies this
      ensures answer == AnswerTo(old(failures), ip, authorized, checkedAt)
      ensures answer.TooManyRequests? <==> ip.Some? && IsLimited(old(failures), ip.value, checkedAt)
      ensures !answer.TooManyRequests? ==> (answer.Routed? <==> authorized)
      ensures !answer.Unauthorized? ==> failures == old(failures)
      ensures failures == Visited(System(old(failures), map[], []), 0, ip, authorized, checkedAt, recordedAt).failures
    {
      if ip.Some? {
        var limited := IsLimitedAt(ip.value, checkedAt);
        if limited {
          return TooManyRequests;
        }
      }
      if authorized {
        return Routed;
      }
      if ip.Some? {
        RecordFailureAt(ip.value, recordedAt);
      }
      return Unauthorized;
    }
  }

  /** The address is known or not; the request is authorized or not. */
  function AnswerTo(failures: Failures, ip: Option<Ip>, authorized: bool, time: nat): Answer
  {
    if ip.Some? && IsLimited(failures, ip.value, time) then TooManyRequests
    else if authorized then Routed
    else Unauthorized
  }

  // ------------------------------------------------------ connections that overlap

  /** A connection that passed the check with a wrong token and has not recorded it yet. */
  datatype Refused = Refused(ip: Ip, checkedAt: nat)

  /** The limiter, the connections between their two critical sections, and what has been recorded. */
  datatype System = System(failures: Failures, between: map<nat, Refused>, history: seq<Failure>)

  /** One critical section of a connection's thread. */
  datatype Event = Check(c: nat, ip: Option<Ip>, authorized: bool, time: nat) | Record(c: nat, time: nat)

  /** At most `cap` connections are open at a time, and a thread's clock does not run backwards. */
  predicate Enabled(s: System, ev: Event, cap: nat)
  {
    match ev
    case Check(c, _, _, _) => c !in s.between && |s.between| < cap
    case Record(c, time) => c in s.between && s.between[c].checkedAt <= time
  }

  function After(s: System, ev: Event): System
  {
    match ev
    case Check(c, ip, authorized, time) =>
      if ip.Some? && AnswerTo(s.failures, ip, authorized, time).Unauthorized? then
        s.(between := s.between[c := Refused(ip.value, time)])
      else s
    case Record(c, time) =>
      if c !in s.between then s
      else
        var ip := s.between[c].ip;
        System(Counted(Swept(s.failures, time), ip, time), s.between - {c}, s.history + [Failure(ip, time)])
  }

  /** Both critical sections of one connection, with nothing in between. */
  function Visited(s: System, c: nat, ip: Option<Ip>, authorized: bool, checkedAt: nat, recordedAt: nat): System
  {
    After(After(s, Check(c, ip, authorized, checkedAt)), Record(c, recordedAt))
  }

  // ------------------------------------------------------------------ runs

  /** A recorded failure. */
  datatype Failure = Failure(ip: Ip, time: nat)

  /** The limiter after a history, with its sweeps. */
  function State(history: seq<Failure>): Failures
  {
    if history == [] then map[]
    else
      var f := history[|history| - 1];
      Counted(Swept(State(history[..|history| - 1]), f.time), f.ip, f.time)
  }

  /** The same limiter if it never swept. */
  function UnsweptState(history: seq<Failure>): Failures
  {
    if history == [] then map[]
    else
      var f := history[|history| - 1];
      Counted(UnsweptState(history[..|history| - 1]), f.ip, f.time)
  }

  /** The clock never runs backwards. */
  ghost predicate Timely(history: seq<Failure>)
  {
    forall k, l :: 0 <= k < l < |history| ==> history[k].time <= history[l].time
  }

  function LastTime(history: seq<Failure>): nat
  {
    if history == [] then 0 else history[|history| - 1].time
  }

  /** Sweeping loses only windows that no query can see any more. */
  lemma {:induction false} SweepLosesOnlyOld(history: seq<Failure>, ip: Ip)
    requires Timely(history)
    ensures ip in State(history) ==> ip in UnsweptState(history) && State(history)[ip] == UnsweptState(history)[ip]
    ensures ip in UnsweptState(history) && ip !in State(history) ==>
              Since(UnsweptState(history)[ip].start, LastTime(history)) > AUTH_WINDOW_SECS * 4
  {
    if history != [] {
      var front := history[..|history| - 1];
      SweepLosesOnlyOld(front, ip);
      assert front != [] ==> LastTime(front) == history[|front| - 1].time;
      assert LastTime(front) <= LastTime(history);
    }
  }

  /** With a clock that never runs backwards, the swept limiter answers every query as an unswept
      one would. */
  lemma SweepIsInvisible(history: seq<Failure>, ip: Ip, now: nat)
    requires Timely(history) && LastTime(history) <= now
    ensures IsLimited(State(history), ip, now) == IsLimited(UnsweptState(history), ip, now)
  {
    SweepLosesOnlyOld(history, ip);
  }

  /** Number of failures of `ip` recorded at times in `[from, to]`. */
  function Recorded(history: seq<Failure>, ip: Ip, from: int, to: int): nat
  {
    if history == [] then 0
    else
      var f := history[|history| - 1];
      Recorded(history[..|history| - 1], ip, from, to) + if f.ip == ip && from <= f.time <= to then 1 else 0
  }

  lemma {:induction false} RecordedNarrows(history: seq<Failure>, ip: Ip, from: int, to: int, from': int, to': int)
    requires from <= from' && to' <= to
    ensures Recorded(history, ip, from', to') <= Recorded(history, ip, from, to)
  {
    if history != [] { RecordedNarrows(history[..|history| - 1], ip, from, to, from', to'); }
  }

  lemma {:induction false} RecordedSplits(history: seq<Failure>, ip: Ip, from: int, at: int, to: int)
    requires from <= at <= to
    ensures Recorded(history, ip, from, to) == Recorded(history, ip, from, at) + Recorded(history, ip, at + 1, to)
  {
    if history != [] { RecordedSplits(history[..|history| - 1], ip, from, at, to); }
  }

  /** The window counts exactly the failures since its start, the one that opened it among them, and
      nothing was recorded after its end. */
  lemma {:induction false} WindowCounts(history: seq<Failure>, ip: Ip)
    requires Timely(history)
    ensures ip !in UnsweptState(history) ==> forall a, b :: Recorded(history, ip, a, b) == 0
    ensures ip in UnsweptState(history) ==>
              var w := UnsweptState(history)[ip];
              w.start <= LastTime(history) && Recorded(history, ip, w.start, w.start) >= 1 &&
              (forall b :: LastTime(history) <= b ==> Recorded(history, ip, w.start, b) == w.count) &&
              (forall a, b :: w.start + AUTH_WINDOW_SECS < a ==> Recorded(history, ip, a, b) == 0)
  {
    if history != [] {
      var front, f := history[..|history| - 1], history[|history| - 1];
      WindowCounts(front, ip);
      assert front != [] ==> LastTime(front) == history[|front| - 1].time;
      assert LastTime(front) <= f.time;
      if f.ip == ip && ip in UnsweptState(front) {
        var w := UnsweptState(front)[ip];
        assert Since(w.start, f.time) > AUTH_WINDOW_SECS ==>
          forall b :: f.time <= b ==> Recorded(front, ip, f.time, b) == 0;
      }
      if ip in UnsweptState(history) {
        forall a, b | UnsweptState(history)[ip].start + AUTH_WINDOW_SECS < a
          ensures Recorded(history, ip, a, b) == 0
        {
          assert Recorded(front, ip, a, b) == 0;
        }
      }
    }
  }

  /** Being limited means at least `MAX_AUTH_FAILURES` failures in the last minute. */
  lemma LimitedMeansRecorded(history: seq<Failure>, ip: Ip, now: nat)
    requires Timely(history) && LastTime(history) <= now
    requires IsLimited(State(history), ip, now)
    ensures Recorded(history, ip, now - AUTH_WINDOW_SECS, now) >= MAX_AUTH_FAILURES
  {
    SweepIsInvisible(history, ip, now);
    WindowCounts(history, ip);
    var w := UnsweptState(history)[ip];
    RecordedNarrows(history, ip, now - AUTH_WINDOW_SECS, now, w.start, now);
  }

  /** Failures are recorded only while the address is not limited. */
  ghost predicate Guarded(history: seq<Failure>)
  {
    forall k :: 0 <= k < |history| ==> !IsLimited(State(history[..k]), history[k].ip, history[k].time)
  }

  lemma GuardedFront(history: seq<Failure>)
    requires history != [] && Guarded(history) && Timely(history)
    ensures Guarded(history[..|history| - 1]) && Timely(history[..|history| - 1])
    ensures LastTime(history[..|history| - 1]) <= LastTime(history)
    ensures var f := history[|history| - 1]; !IsLimited(UnsweptState(history[..|history| - 1]), f.ip, f.time)
  {
    var front, f := history[..|history| - 1], history[|history| - 1];
    forall k | 0 <= k < |front| ensures !IsLimited(State(front[..k]), front[k].ip, front[k].time) {
      assert front[..k] == history[..k];
    }
    assert LastTime(front) <= f.time;
    assert history[..|history| - 1] == front;
    SweepIsInvisible(front, f.ip, f.time);
  }

  /** Guarded windows hold at most the maximum. */
  lemma {:induction false} GuardedWithin(history: seq<Failure>)
    requires Timely(history) && Guarded(history)
    ensures Within(history, MAX_AUTH_FAILURES)
  {
    if history != [] {
      GuardedFront(history);
      GuardedWithin(history[..|history| - 1]);
    }
  }

  /** No window, at any moment of the history, counts more than `most`. */
  ghost predicate Within(history: seq<Failure>, most: nat)
  {
    (forall ip :: ip in UnsweptState(history) ==> UnsweptState(history)[ip].count <= most) &&
    (history != [] ==> Within(history[..|history| - 1], most))
  }

  /** A window, and the minute before it but for the failure that opened the one before: at most
      `most - 1` more. */
  lemma {:induction false} WindowAndBefore(history: seq<Failure>, ip: Ip, most: nat)
    requires Timely(history) && Within(history, most) && most > 0
    ensures ip in UnsweptState(history) ==>
              var w := UnsweptState(history)[ip];
              forall a, b :: w.start - AUTH_WINDOW_SECS <= a && LastTime(history) <= b ==>
                Recorded(history, ip, a, b) <= w.count + most - 1
  {
    if history != [] {
      var front, f := history[..|history| - 1], history[|history| - 1];
      assert Timely(front) && LastTime(front) <= f.time;
      WindowAndBefore(front, ip, most);
      if f.ip == ip {
        WindowCounts(front, ip);
        if ip in UnsweptState(front) && Since(UnsweptState(front)[ip].start, f.time) > AUTH_WINDOW_SECS {
          var w := UnsweptState(front)[ip];
          forall a, b | f.time - AUTH_WINDOW_SECS <= a && f.time <= b
            ensures Recorded(front, ip, a, b) <= most - 1
          {
            RecordedSplits(front, ip, w.start, w.start, b);
            RecordedNarrows(front, ip, w.start + 1, b, a, b);
          }
        }
      }
    }
  }

  /** With windows of at most `most` failures, less than twice as many are recorded within any minute. */
  lemma {:induction false} RateIsBounded(history: seq<Failure>, most: nat, ip: Ip, t: int)
    requires Timely(history) && Within(history, most) && most > 0
    ensures Recorded(history, ip, t, t + AUTH_WINDOW_SECS) <= 2 * most - 1
  {
    if history != [] {
      var front, f := history[..|history| - 1], history[|history| - 1];
      assert Timely(front);
      if f.ip == ip && t <= f.time <= t + AUTH_WINDOW_SECS {
        WindowAndBefore(history, ip, most);
        WindowCounts(history, ip);
        assert UnsweptState(history)[ip].start <= f.time;
      } else {
        RateIsBounded(front, most, ip, t);
      }
    }
  }

  /** When failures are recorded only while the address is not limited, less than twice the maximum is
      recorded within any minute. */
  lemma GuardedRate(history: seq<Failure>, ip: Ip, t: int)
    requires Timely(history) && Guarded(history)
    ensures Recorded(history, ip, t, t + AUTH_WINDOW_SECS) <= 2 * MAX_AUTH_FAILURES - 1
  {
    GuardedWithin(history);
    RateIsBounded(history, MAX_AUTH_FAILURES, ip, t);
  }

  // --------------------------------------------------------- runs with overlap

  ghost predicate IsRun(evs: seq<Event>, cap: nat)
    decreases |evs|, 0
  {
    evs == [] ||
    var front := evs[..|evs| - 1];
    IsRun(front, cap) && Enabled(Sys(front), evs[|evs| - 1], cap)
  }

  /** The system after the events, from an empty limiter. */
  function Sys(evs: seq<Event>): System
  {
    if evs == [] then System(map[], map[], []) else After(Sys(evs[..|evs| - 1]), evs[|evs| - 1])
  }

  /** The refused connections of `ip` that were checked inside the current window. */
  function Inside(s: System, ip: Ip): set<nat>
    requires ip in s.failures
  {
    set c | c in s.between && s.between[c].ip == ip &&
            Since(s.failures[ip].start, s.between[c].checkedAt) <= AUTH_WINDOW_SECS
  }

  function MaxWindow(cap: nat): nat { MAX_AUTH_FAILURES - 1 + cap }

  /** What has been counted in a window and what may still be. */
  ghost predicate WindowsHold(s: System, cap: nat)
  {
    |s.between| <= cap && forall ip :: ip in s.failures ==> s.failures[ip].count + |Inside(s, ip)| <= MaxWindow(cap)
  }

  lemma CheckKeepsWindow(s: System, c: nat, mine: Ip, time: nat, ip: Ip, cap: nat)
    requires WindowsHold(s, cap) && c !in s.between && |s.between| < cap
    requires !IsLimited(s.failures, mine, time) && ip in s.failures
    ensures var s' := s.(between := s.between[c := Refused(mine, time)]);
            |s'.between| <= cap && s.failures[ip].count + |Inside(s', ip)| <= MaxWindow(cap)
  {
    var s' := s.(between := s.between[c := Refused(mine, time)]);
    assert s'.between.Keys == s.between.Keys + {c};
    if ip == mine && Since(s.failures[ip].start, time) <= AUTH_WINDOW_SECS {
      SubsetSize(Inside(s', ip), s'.between.Keys);
    } else {
      assert Inside(s', ip) == Inside(s, ip);
    }
  }

  lemma CheckKeepsWindows(s: System, ev: Event, cap: nat)
    requires WindowsHold(s, cap) && Enabled(s, ev, cap) && ev.Check?
    ensures WindowsHold(After(s, ev), cap)
  {
    hide IsLimited, Inside;
    if After(s, ev) != s {
      assert s.between[ev.c := Refused(ev.ip.value, ev.time)].Keys == s.between.Keys + {ev.c};
      forall ip | ip in s.failures
        ensures s.failures[ip].count + |Inside(After(s, ev), ip)| <= MaxWindow(cap)
      {
        CheckKeepsWindow(s, ev.c, ev.ip.value, ev.time, ip, cap);
      }
    }
  }

  lemma RecordKeepsWindows(s: System, ev: Event, cap: nat)
    requires WindowsHold(s, cap) && Enabled(s, ev, cap) && ev.Record?
    ensures WindowsHold(After(s, ev), cap)
  {
    var s' := After(s, ev);
    var mine := s.between[ev.c].ip;
    assert s'.between.Keys == s.between.Keys - {ev.c};
    forall ip | ip in s'.failures
      ensures s'.failures[ip].count + |Inside(s', ip)| <= MaxWindow(cap)
    {
      if ip != mine {
        assert Inside(s', ip) == Inside(s, ip);
      } else if mine in s.failures && Since(s.failures[mine].start, ev.time) <= AUTH_WINDOW_SECS {
        assert ev.c in Inside(s, ip) && Inside(s', ip) == Inside(s, ip) - {ev.c};
      } else {
        SubsetSize(Inside(s', ip), s'.between.Keys);
      }
    }
  }

  /** However connections overlap, with `cap` of them at a time no window ever counts more than
      `MAX_AUTH_FAILURES - 1 + cap` failures. */
  lemma {:induction false} WindowsAreBounded(evs: seq<Event>, cap: nat)
    requires IsRun(evs, cap)
    ensures WindowsHold(Sys(evs), cap)
    ensures forall ip :: ip in Sys(evs).failures ==> Sys(evs).failures[ip].count <= MaxWindow(cap)
  {
    if evs != [] {
      var front, ev := evs[..|evs| - 1], evs[|evs| - 1];
      WindowsAreBounded(front, cap);
      if ev.Check? { CheckKeepsWindows(Sys(front), ev, cap); } else { RecordKeepsWindows(Sys(front), ev, cap); }
    }
  }

  /** The `k`-th event records a failure of `ip` for a connection that was checked before, with a token that was
      refused. */
  ghost predicate RecordsRefused(evs: seq<Event>, k: nat, f: Failure)
  {
    k < |evs| && evs[k].Record? && evs[k].time == f.time &&
    exists j: nat, at: nat :: j < k && evs[j] == Check(evs[k].c, Some(f.ip), false, at) && at <= f.time
  }

  /** Where the connections between their critical sections come from. */
  lemma {:induction false} RefusedWereChecked(evs: seq<Event>, cap: nat, c: nat)
    requires IsRun(evs, cap) && c in Sys(evs).between
    ensures var r := Sys(evs).between[c];
            exists j: nat :: j < |evs| && evs[j] == Check(c, Some(r.ip), false, r.checkedAt)
  {
    var front, ev := evs[..|evs| - 1], evs[|evs| - 1];
    if c in Sys(front).between && Sys(front).between[c] == Sys(evs).between[c] {
      RefusedWereChecked(front, cap, c);
      var r := Sys(front).between[c];
      var j: nat :| j < |front| && front[j] == Check(c, Some(r.ip), false, r.checkedAt);
      assert evs[j] == front[j];
    } else {
      assert evs[|evs| - 1] == Check(c, Some(ev.ip.value), false, ev.time);
    }
  }

  lemma RecordsExtend(evs: seq<Event>, k: nat, f: Failure)
    requires evs != [] && RecordsRefused(evs[..|evs| - 1], k, f)
    ensures RecordsRefused(evs, k, f)
  {
    var front := evs[..|evs| - 1];
    var j: nat, at: nat :| j < k && front[j] == Check(front[k].c, Some(f.ip), false, at) && at <= f.time;
    assert evs[k] == front[k] && evs[j] == front[j];
  }

  lemma RecordsLast(evs: seq<Event>, cap: nat)
    requires IsRun(evs, cap) && evs != [] && evs[|evs| - 1].Record?
    ensures var n := |evs| - 1;
            evs[n].c in Sys(evs[..n]).between &&
            RecordsRefused(evs, n, Failure(Sys(evs[..n]).between[evs[n].c].ip, evs[n].time))
  {
    hide Sys;
    var n := |evs| - 1;
    var front := evs[..n];
    RefusedWereChecked(front, cap, evs[n].c);
    var r := Sys(front).between[evs[n].c];
    var j: nat :| j < |front| && front[j] == Check(evs[n].c, Some(r.ip), false, r.checkedAt);
    assert evs[j] == front[j];
  }

  /** Over every run, each failure that is counted was recorded for a connection whose token was refused, at its
      address, after that connection was checked. */
  lemma {:induction false} OnlyRefusedIsRecorded(evs: seq<Event>, cap: nat, f: Failure)
    requires IsRun(evs, cap) && f in Sys(evs).history
    ensures exists k: nat :: RecordsRefused(evs, k, f)
  {
    hide RecordsRefused, Counted, Swept;
    var front := evs[..|evs| - 1];
    if f in Sys(front).history {
      OnlyRefusedIsRecorded(front, cap, f);
      var k: nat :| RecordsRefused(front, k, f);
      RecordsExtend(evs, k, f);
    } else {
      RecordsLast(evs, cap);
    }
  }

  lemma StateSnoc(history: seq<Failure>, f: Failure)
    ensures State(history + [f]) == Counted(Swept(State(history), f.time), f.ip, f.time)
  {
    assert (history + [f])[..|history|] == history;
  }

  /** The limiter of a run is the one its history leads to. */
  lemma {:induction false} RunHistory(evs: seq<Event>, cap: nat)
    requires IsRun(evs, cap)
    ensures Sys(evs).failures == State(Sys(evs).history)
  {
    if evs != [] {
      hide Counted, Swept, State;
      var front, ev := evs[..|evs| - 1], evs[|evs| - 1];
      RunHistory(front, cap);
      var s := Sys(front);
      if ev.Record? { StateSnoc(s.history, Failure(s.between[ev.c].ip, ev.time)); }
    }
  }

  lemma {:induction false} RunIsWithin(evs: seq<Event>, cap: nat)
    requires IsRun(evs, cap) && Timely(Sys(evs).history)
    ensures Within(Sys(evs).history, MaxWindow(cap))
  {
    if evs != [] {
      hide Counted, Swept;
      var front, ev := evs[..|evs| - 1], evs[|evs| - 1];
      var before, after := Sys(front).history, Sys(evs).history;
      assert before <= after && Timely(before);
      RunIsWithin(front, cap);
      if |after| > |before| {
        assert after[..|before|] == before;
        WindowsAreBounded(evs, cap);
        RunHistory(evs, cap);
        CountsKept(after, MaxWindow(cap));
      }
    }
  }

  lemma CountsKept(history: seq<Failure>, most: nat)
    requires history != [] && Timely(history) && Within(history[..|history| - 1], most)
    requires forall ip :: ip in State(history) ==> State(history)[ip].count <= most
    ensures Within(history, most)
  {
    forall ip | ip in UnsweptState(history)
      ensures UnsweptState(history)[ip].count <= most
    {
      SweepLosesOnlyOld(history, ip);
    }
  }

  /** What is recorded for `ip` in the minute from `t` on, its last second included. */
  function InMinute(history: seq<Failure>, ip: Ip, t: int): nat { Recorded(history, ip, t, t + AUTH_WINDOW_SECS) }

  /** The most that any `cap` connections at a time can record for one address within a minute. */
  function MaxPerMinute(cap: nat): int { 2 * MaxWindow(cap) - 1 }

  lemma OverlapIsBounded(evs: seq<Event>, cap: nat, ip: Ip, t: int)
    requires IsRun(evs, cap) && Timely(Sys(evs).history)
    ensures InMinute(Sys(evs).history, ip, t) <= MaxPerMinute(cap)
  {
    RunIsWithin(evs, cap);
    RateIsBounded(Sys(evs).history, MaxWindow(cap), ip, t);
  }

  /** In every run a connection is refused as one too many only after the maximum was recorded for its
      address in the minute before. */
  lemma RefusedAfterMaximum(evs: seq<Event>, cap: nat, ip: Ip, authorized: bool, now: nat)
    requires IsRun(evs, cap) && Timely(Sys(evs).history) && LastTime(Sys(evs).history) <= now
    requires AnswerTo(Sys(evs).failures, Some(ip), authorized, now).TooManyRequests?
    ensures Recorded(Sys(evs).history, ip, now - AUTH_WINDOW_SECS, now) >= MAX_AUTH_FAILURES
  {
    hide Sys, State, Timely, IsRun;
    RunHistory(evs, cap);
    LimitedMeansRecorded(Sys(evs).history, ip, now);
  }

  // --------------------------------------------------- runs that reach the bound

  /** Connections `0` to `n - 1`, all from address 0 and checked at one time. */
  function Crowd(n: nat, time: nat): (crowd: map<nat, Refused>)
    ensures forall c: nat :: c in crowd <==> c < n
    ensures forall c :: c in crowd ==> crowd[c] == Refused(0, time)
    ensures |crowd| == n
  {
    if n == 0 then map[] else Crowd(n - 1, time)[n - 1 := Refused(0, time)]
  }

  /** The run leaves one window for address 0 and a crowd between its critical sections; `recorded`
      failures fell into the minute from 1 to 61. */
  ghost predicate Stands(evs: seq<Event>, cap: nat, w: Window, n: nat, time: nat, recorded: nat)
  {
    IsRun(evs, cap) && Sys(evs).failures == map[0 := w] && Sys(evs).between == Crowd(n, time) &&
    Timely(Sys(evs).history) && LastTime(Sys(evs).history) <= time &&
    Recorded(Sys(evs).history, 0, 1, 61) == recorded
  }

  lemma RunSnoc(evs: seq<Event>, ev: Event, cap: nat)
    requires IsRun(evs, cap) && Enabled(Sys(evs), ev, cap)
    ensures IsRun(evs + [ev], cap) && Sys(evs + [ev]) == After(Sys(evs), ev)
  {
    assert (evs + [ev])[..|evs|] == evs;
  }

  lemma CrowdGrows(n: nat, time: nat)
    ensures Crowd(n + 1, time) == Crowd(n, time)[n := Refused(0, time)] && Crowd(n + 1, time) - {n} == Crowd(n, time)
  {
  }

  lemma OneMoreChecks(evs: seq<Event>, cap: nat, w: Window, n: nat, time: nat, recorded: nat) returns (longer: seq<Event>)
    requires Stands(evs, cap, w, n, time, recorded) && n < cap && !IsLimited(map[0 := w], 0, time)
    ensures Stands(longer, cap, w, n + 1, time, recorded)
  {
    hide IsLimited, Timely;
    var ev := Check(n, Some(0), false, time);
    CrowdGrows(n, time);
    RunSnoc(evs, ev, cap);
    longer := evs + [ev];
  }

  function CountedWindow(w: Window, time: nat): Window
  {
    if Since(w.start, time) > AUTH_WINDOW_SECS then Window(time, 1) else w.(count := w.count + 1)
  }

  lemma RecordedSnoc(history: seq<Failure>, time: nat)
    requires Timely(history) && LastTime(history) <= time
    ensures Timely(history + [Failure(0, time)]) && LastTime(history + [Failure(0, time)]) == time
    ensures Recorded(history + [Failure(0, time)], 0, 1, 61) ==
            Recorded(history, 0, 1, 61) + if 1 <= time <= 61 then 1 else 0
  {
    LastIsLatest(history, time);
    assert (history + [Failure(0, time)])[..|history|] == history;
  }

  lemma LastIsLatest(history: seq<Failure>, time: nat)
    requires Timely(history) && LastTime(history) <= time
    ensures forall k :: 0 <= k < |history| ==> history[k].time <= time
  {
  }

  lemma OneMoreRecords(evs: seq<Event>, cap: nat, w: Window, n: nat, time: nat, recorded: nat) returns (longer: seq<Event>)
    requires Stands(evs, cap, w, n + 1, time, recorded)
    ensures Stands(longer, cap, CountedWindow(w, time), n, time, recorded + if 1 <= time <= 61 then 1 else 0)
  {
    hide Timely, Recorded, LastTime;
    var ev := Record(n, time);
    CrowdGrows(n, time);
    RunSnoc(evs, ev, cap);
    RecordedSnoc(Sys(evs).history, time);
    longer := evs + [ev];
  }

  /** `n` connections check one after the other. */
  lemma {:induction false} Gather(evs: seq<Event>, cap: nat, w: Window, n: nat, time: nat, recorded: nat) returns (longer: seq<Event>)
    requires Stands(evs, cap, w, 0, time, recorded) && n <= cap && !IsLimited(map[0 := w], 0, time)
    ensures Stands(longer, cap, w, n, time, recorded)
  {
    hide Stands, IsLimited;
    longer := evs;
    if n > 0 {
      longer := Gather(evs, cap, w, n - 1, time, recorded);
      longer := OneMoreChecks(longer, cap, w, n - 1, time, recorded);
    }
  }

  /** The whole crowd records inside the current window. */
  lemma {:induction false} Disperse(evs: seq<Event>, cap: nat, w: Window, n: nat, time: nat, recorded: nat) returns (longer: seq<Event>)
    requires Stands(evs, cap, w, n, time, recorded) && 1 <= time <= 61 && Since(w.start, time) <= AUTH_WINDOW_SECS
    ensures Stands(longer, cap, w.(count := w.count + n), 0, time, recorded + n)
    decreases n
  {
    hide Stands;
    longer := evs;
    if n > 0 {
      longer := OneMoreRecords(evs, cap, w, n - 1, time, recorded);
      longer := Disperse(longer, cap, CountedWindow(w, time), n - 1, time, recorded + 1);
    }
  }

  /** `n` connections are answered one after the other and stay below the limit. */
  lemma {:induction false} OneByOne(evs: seq<Event>, cap: nat, w: Window, n: nat, time: nat, recorded: nat) returns (longer: seq<Event>)
    requires Stands(evs, cap, w, 0, time, recorded) && 1 <= time <= 61 && Since(w.start, time) <= AUTH_WINDOW_SECS
    requires cap > 0 && w.count + n < MAX_AUTH_FAILURES
    ensures Stands(longer, cap, w.(count := w.count + n), 0, time, recorded + n)
    decreases n
  {
    hide Stands;
    longer := evs;
    if n > 0 {
      longer := Gather(evs, cap, w, 1, time, recorded);
      longer := Disperse(longer, cap, w, 1, time, recorded);
      longer := OneByOne(longer, cap, w.(count := w.count + 1), n - 1, time, recorded + 1);
    }
  }

  /** A window filled from `k` failures to the most it can hold. */
  lemma Fill(evs: seq<Event>, cap: nat, start: nat, k: nat, time: nat, recorded: nat) returns (longer: seq<Event>)
    requires Stands(evs, cap, Window(start, k), 0, time, recorded) && 1 <= time <= 61
    requires start <= time <= start + AUTH_WINDOW_SECS && cap > 0 && k < MAX_AUTH_FAILURES
    ensures Stands(longer, cap, Window(start, MaxWindow(cap)), 0, time, recorded + MaxWindow(cap) - k)
  {
    hide Stands;
    var n := MAX_AUTH_FAILURES - 1 - k;
    longer := OneByOne(evs, cap, Window(start, k), n, time, recorded);
    longer := Gather(longer, cap, Window(start, k + n), cap, time, recorded + n);
    longer := Disperse(longer, cap, Window(start, k + n), cap, time, recorded + n);
  }

  /** Time may pass while nobody is between the critical sections. */
  lemma Later(evs: seq<Event>, cap: nat, w: Window, time: nat, later: nat, recorded: nat)
    requires Stands(evs, cap, w, 0, time, recorded) && time <= later
    ensures Stands(evs, cap, w, 0, later, recorded)
  {
    assert Crowd(0, time) == Crowd(0, later);
  }

  lemma FirstFailure(cap: nat) returns (evs: seq<Event>)
    requires cap > 0
    ensures Stands(evs, cap, Window(0, 1), 0, 0, 0)
  {
    evs := [Check(0, Some(0), false, 0), Record(0, 0)];
    var first := [Check(0, Some(0), false, 0)];
    assert Sys([]) == System(map[], map[], []);
    RunSnoc([], first[0], cap);
    assert [] + first == first;
    assert Sys(first).between == map[0 := Refused(0, 0)];
    RunSnoc(first, Record(0, 0), cap);
    assert first + [Record(0, 0)] == evs;
    assert Sys(evs).between == Crowd(0, 0);
    assert Sys(evs).history == [] + [Failure(0, 0)];
    RecordedSnoc([], 0);
  }

  /** The bound is reached: one failure at second 0, the window filled by a crowd at second 60, the next
      one filled by another crowd at second 61. */
  lemma BoundIsReached(cap: nat) returns (evs: seq<Event>)
    requires cap > 0
    ensures IsRun(evs, cap) && Timely(Sys(evs).history)
    ensures InMinute(Sys(evs).history, 0, 1) == MaxPerMinute(cap)
  {
    evs := FirstFailure(cap);
    Later(evs, cap, Window(0, 1), 0, 60, 0);
    evs := Fill(evs, cap, 0, 1, 60, 0);
    var w := Window(0, MaxWindow(cap));
    Later(evs, cap, w, 60, 61, MaxWindow(cap) - 1);
    evs := Gather(evs, cap, w, 1, 61, MaxWindow(cap) - 1);
    evs := OneMoreRecords(evs, cap, w, 0, 61, MaxWindow(cap) - 1);
    evs := Fill(evs, cap, 61, 1, 61, MaxWindow(cap));
  }

  /** No more than `most` failures for one address within any minute, in every run. */
  ghost predicate NeverMoreThan(most: int, cap: nat)
  {
    forall evs, ip, t :: IsRun(evs, cap) && Timely(Sys(evs).history) ==>
      InMinute(Sys(evs).history, ip, t) <= most
  }

  /** The exact rate: what `cap` connections at a time can record within a minute. */
  lemma RateIsExact(cap: nat, most: int)
    requires cap > 0
    ensures NeverMoreThan(most, cap) <==> most >= MaxPerMinute(cap)
  {
    hide Sys, InMinute, MaxPerMinute, IsRun, Timely;
    forall evs, ip, t | IsRun(evs, cap) && Timely(Sys(evs).history)
      ensures InMinute(Sys(evs).history, ip, t) <= MaxPerMinute(cap)
    {
      OverlapIsBounded(evs, cap, ip, t);
    }
    var evs := BoundIsReached(cap);
    assert InMinute(Sys(evs).history, 0, 1) == MaxPerMinute(cap);
  }

  /** Twice the maximum is a bound exactly when connections never overlap. */
  lemma TwiceTheMaximum(cap: nat)
    requires cap > 0
    ensures NeverMoreThan(2 * MAX_AUTH_FAILURES, cap) <==> cap == 1
  {
    hide NeverMoreThan;
    RateIsExact(cap, 2 * MAX_AUTH_FAILURES);
  }

  /** A window can be filled to the most it can hold. */
  lemma WindowIsFilled(cap: nat) returns (evs: seq<Event>)
    requires cap > 0
    ensures IsRun(evs, cap) && 0 in Sys(evs).failures && Sys(evs).failures[0].count == MaxWindow(cap)
  {
    evs := FirstFailure(cap);
    Later(evs, cap, Window(0, 1), 0, 60, 0);
    evs := Fill(evs, cap, 0, 1, 60, 0);
  }

  /** No window counts more than `most` failures, in every run. */
  ghost predicate WindowsNeverExceed(most: int, cap: nat)
  {
    forall evs, ip :: IsRun(evs, cap) && ip in Sys(evs).failures ==> Sys(evs).failures[ip].count <= most
  }

  /** The exact count: what `cap` connections at a time can bring a window to. */
  lemma WindowIsExact(cap: nat, most: int)
    requires cap > 0
    ensures WindowsNeverExceed(most, cap) <==> most >= MaxWindow(cap)
  {
    hide Sys, IsRun, MaxWindow, WindowsHold;
    forall evs, ip | IsRun(evs, cap) && ip in Sys(evs).failures
      ensures Sys(evs).failures[ip].count <= MaxWindow(cap)
    {
      WindowsAreBounded(evs, cap);
    }
    var evs := WindowIsFilled(cap);
    assert Sys(evs).failures[0].count == MaxWindow(cap);
  }

  /** The documented maximum bounds every window exactly when connections never overlap. */
  lemma MaximumPerWindow(cap: nat)
    requires cap > 0
    ensures WindowsNeverExceed(MAX_AUTH_FAILURES, cap) <==> cap == 1
  {
    hide WindowsNeverExceed;
    WindowIsExact(cap, MAX_AUTH_FAILURES);
  }

  /** What the server's own cap on connections allows. */
  const MAX_CONNECTIONS: nat := 32

  lemma ServerRate(most: int)
    ensures WindowsNeverExceed(most, MAX_CONNECTIONS) <==> most >= 41
    ensures NeverMoreThan(most, MAX_CONNECTIONS) <==> most >= 81
  {
    hide WindowsNeverExceed, NeverMoreThan;
    WindowIsExact(MAX_CONNECTIONS, most);
    RateIsExact(MAX_CONNECTIONS, most);
  }
}

/** The mission loop: turns chained towards a goal under budgets and a verification gate
    (crates/tole-cli/src/mission.rs). */
module Mission {
  import opened Common
  import opened Text

  const MISSION_COMPLETE_MARKER := "MISSION_COMPLETE"
  const VERIFY_FAILURE_CAP: nat := 3

  /** The loop's limits, and whether a verification command is set. */
  datatype Config = Config(maxSteps: nat, maxTokens: nat, verify: bool)

  datatype Outcome = Final(text: string) | Settled | StorageError

  datatype Check = Pass | Fail(output: string)

  /** What one pass of the loop observes: the ledger and the clock at its head, how the turn ends, and
      what the verification command says when it is run. */
  datatype Round = Round(used: nat, tokens: nat, late: bool, outcome: Outcome, check: Check)

  datatype Status =
    | Open | Complete | ExhaustedSteps | ExhaustedTokens | ExhaustedTime | Error | Stopped | VerifyFailed

  /** The next turn's prompt. */
  datatype Prompt = Begin | Resume | DeclareIt | FixIt(declared: bool, output: string) | KeepWorking

  datatype State = State(status: Status, turns: nat, failures: nat, continuation: Option<Prompt>)

  function Start(resumed: bool): State { State(Open, 0, 0, Some(if resumed then Resume else Begin)) }

  /** A line that is the marker and nothing else declares completion; a mention does not. */
  predicate Declares(text: string)
  {
    exists i :: 0 <= i < |SplitLines(text)| && Trim(SplitLines(text)[i]) == MISSION_COMPLETE_MARKER
  }

  predicate WithinBudgets(cfg: Config, r: Round) { r.used < cfg.maxSteps && r.tokens < cfg.maxTokens && !r.late }

  /** The loop body. */
  function Iterate(cfg: Config, s: State, r: Round): State
  {
    if r.used >= cfg.maxSteps then s.(status := ExhaustedSteps)
    else if r.tokens >= cfg.maxTokens then s.(status := ExhaustedTokens)
    else if r.late then s.(status := ExhaustedTime)
    else if s.continuation.None? then s.(status := Error)
    else if r.outcome.StorageError? then s.(status := Error, continuation := None)
    else
      var taken := s.(turns := s.turns + 1, continuation := None);
      if r.outcome.Settled? then taken.(status := Stopped)
      else
        var declares := Declares(r.outcome.text);
        if !cfg.verify then
          if declares then taken.(status := Complete) else taken.(continuation := Some(KeepWorking))
        else if r.check.Pass? then
          if declares then taken.(status := Complete) else taken.(continuation := Some(DeclareIt))
        else if s.failures + 1 >= VERIFY_FAILURE_CAP then taken.(status := VerifyFailed, failures := s.failures + 1)
        else
          taken.(failures := s.failures + 1, continuation := Some(FixIt(declares, r.check.output)))
  }

  /** The mission after these rounds: rounds behind the one that settles it never happen. */
  function After(cfg: Config, s: State, rounds: seq<Round>): State
  {
    if rounds == [] then s
    else
      var before := After(cfg, s, rounds[..|rounds| - 1]);
      if before.status.Open? then Iterate(cfg, before, rounds[|rounds| - 1]) else before
  }

  lemma {:induction false} SettledStays(cfg: Config, s: State, rounds: seq<Round>, n: nat)
    requires n <= |rounds| && !After(cfg, s, rounds[..n]).status.Open?
    ensures After(cfg, s, rounds) == After(cfg, s, rounds[..n])
    decreases |rounds|
  {
    if n == |rounds| {
      assert rounds[..n] == rounds;
    } else {
      assert rounds[..|rounds| - 1][..n] == rounds[..n];
      SettledStays(cfg, s, rounds[..|rounds| - 1], n);
    }
  }

  /** `run_mission` on the rounds it gets to observe; it stays open when they run out first. */
  method RunMission(cfg: Config, resumed: bool, rounds: seq<Round>)
    returns (status: Status, turns: nat, verifyFailures: nat)
    ensures var end := After(cfg, Start(resumed), rounds);
            status == end.status && turns == end.turns && verifyFailures == end.failures
  {
    hide Iterate, Declares;
    status, turns, verifyFailures := Open, 0, 0;
    var continuation := Some(if resumed then Resume else Begin);
    var i := 0;
    assert rounds[..0] == [];
    while i < |rounds| && status.Open?
      invariant 0 <= i <= |rounds|
      invariant State(status, turns, verifyFailures, continuation) == After(cfg, Start(resumed), rounds[..i])
    {
      var r := rounds[i];
      assert rounds[..i + 1][..i] == rounds[..i];
      var next := RunRound(cfg, r, turns, verifyFailures, continuation);
      status, turns, verifyFailures, continuation := next.status, next.turns, next.failures, next.continuation;
      i := i + 1;
    }
    if status.Open? {
      assert rounds[..i] == rounds;
    } else {
      SettledStays(cfg, Start(resumed), rounds, i);
    }
  }

  /** One pass: budget checks, the queued prompt's turn, then the verification gate. */
  method RunRound(cfg: Config, r: Round, turns: nat, verifyFailures: nat, continuation: Option<Prompt>)
    returns (next: State)
    ensures next == Iterate(cfg, State(Open, turns, verifyFailures, continuation), r)
  {
    hide Declares;
    next := State(Open, turns, verifyFailures, continuation);
    if r.used >= cfg.maxSteps {
      next := next.(status := ExhaustedSteps);
    } else if r.tokens >= cfg.maxTokens {
      next := next.(status := ExhaustedTokens);
    } else if r.late {
      next := next.(status := ExhaustedTime);
    } else if continuation.None? {
      next := next.(status := Error);
    } else {
      next := next.(continuation := None);
      match r.outcome
      case StorageError => next := next.(status := Error);
      case Settled => next := next.(status := Stopped, turns := turns + 1);
      case Final(text) =>
        next := next.(turns := turns + 1);
        if cfg.verify && r.check.Fail? {
          next := next.(failures := verifyFailures + 1);
          if next.failures >= VERIFY_FAILURE_CAP {
            next := next.(status := VerifyFailed);
          } else {
            next := next.(continuation := Some(FixIt(Declares(text), r.check.output)));
          }
        } else if Declares(text) {
          next := next.(status := Complete);
        } else {
          next := next.(continuation := Some(if cfg.verify then DeclareIt else KeepWorking));
        }
    }
  }

  // ------------------------------------------------------------------ whole missions

  /** The round ran a turn that ended with this check failing. */
  predicate FailsCheck(cfg: Config, r: Round)
  {
    cfg.verify && WithinBudgets(cfg, r) && r.outcome.Final? && r.check.Fail?
  }

  /** The round's own turn declared completion, and verification, when set, passed after it. */
  predicate Achieves(cfg: Config, r: Round)
  {
    WithinBudgets(cfg, r) && r.outcome.Final? && Declares(r.outcome.text) && (cfg.verify ==> r.check.Pass?)
  }

  function Failures(cfg: Config, rounds: seq<Round>): nat
  {
    if rounds == [] then 0
    else Failures(cfg, rounds[..|rounds| - 1]) + if FailsCheck(cfg, rounds[|rounds| - 1]) then 1 else 0
  }

  /** What a turn that ended without settling the mission is followed by. */
  function NextPrompt(cfg: Config, r: Round): Prompt
    requires r.outcome.Final?
  {
    if FailsCheck(cfg, r) then FixIt(Declares(r.outcome.text), r.check.output)
    else if cfg.verify then DeclareIt
    else KeepWorking
  }

  /** Up to the round that settles it, a mission takes one turn a round, queues a prompt for the next
      turn every time, counts exactly the failed checks and never reaches their cap. */
  lemma {:induction false} WhileOpen(cfg: Config, resumed: bool, rounds: seq<Round>)
    requires After(cfg, Start(resumed), rounds).status.Open?
    ensures var s := After(cfg, Start(resumed), rounds);
            s.turns == |rounds| && s.continuation.Some? &&
            s.failures == Failures(cfg, rounds) && s.failures < VERIFY_FAILURE_CAP
    ensures forall r | r in rounds :: WithinBudgets(cfg, r) && r.outcome.Final? && !Achieves(cfg, r)
    ensures After(cfg, Start(resumed), rounds).continuation ==
            Some(if rounds != [] then NextPrompt(cfg, rounds[|rounds| - 1]) else if resumed then Resume else Begin)
  {
    hide Declares;
    if rounds != [] {
      WhileOpen(cfg, resumed, rounds[..|rounds| - 1]);
      assert forall r :: r in rounds <==> r in rounds[..|rounds| - 1] || r == rounds[|rounds| - 1];
    }
  }

  /** How a mission that is settled by its last round ends: complete exactly when that round's own turn
      declared the goal and passed the gate, failed exactly at the third failed check, exhausted by the
      first budget that is used up, in error exactly on a storage failure, since a prompt is always
      queued. */
  lemma {:induction false} SettlesAs(cfg: Config, resumed: bool, rounds: seq<Round>)
    requires rounds != [] && After(cfg, Start(resumed), rounds[..|rounds| - 1]).status.Open?
    ensures var end := After(cfg, Start(resumed), rounds);
            var last := rounds[|rounds| - 1];
            && (end.status.Complete? <==> Achieves(cfg, last))
            && (end.status.VerifyFailed? <==> Failures(cfg, rounds) == VERIFY_FAILURE_CAP)
            && (end.status.Error? <==> WithinBudgets(cfg, last) && last.outcome.StorageError?)
            && (end.status.ExhaustedSteps? <==> last.used >= cfg.maxSteps)
            && (end.status.ExhaustedTokens? <==> last.used < cfg.maxSteps && last.tokens >= cfg.maxTokens)
            && (end.status.ExhaustedTime? <==>
                  last.used < cfg.maxSteps && last.tokens < cfg.maxTokens && last.late)
            && (end.status.Stopped? <==> WithinBudgets(cfg, last) && last.outcome.Settled?)
            && end.failures == Failures(cfg, rounds) <= VERIFY_FAILURE_CAP
            && end.turns == |rounds| - (if WithinBudgets(cfg, last) && !last.outcome.StorageError? then 0 else 1)
  {
    hide Declares;
    WhileOpen(cfg, resumed, rounds[..|rounds| - 1]);
  }

  /** A mission that its last round settles is complete exactly when that round was within the budgets, passed
      the verification, if there is one, and ended with a text of which some line is the marker and blanks. */
  lemma CompletesExactly(cfg: Config, resumed: bool, rounds: seq<Round>)
    requires rounds != [] && After(cfg, Start(resumed), rounds[..|rounds| - 1]).status.Open?
    ensures var last := rounds[|rounds| - 1];
            After(cfg, Start(resumed), rounds).status.Complete? <==>
              last.used < cfg.maxSteps && last.tokens < cfg.maxTokens && !last.late && last.outcome.Final? &&
              (cfg.verify ==> last.check.Pass?) &&
              exists front, back :: IsBlank(front) && IsBlank(back) &&
                                    HasLine(last.outcome.text, front + "MISSION_COMPLETE" + back)
  {
    hide Declares, IsBlank, HasLine;
    SettlesAs(cfg, resumed, rounds);
    var last := rounds[|rounds| - 1];
    if last.outcome.Final? { DeclaresWithLine(last.outcome.text); }
  }

  lemma DeclaresWithLine(text: string)
    ensures Declares(text) <==>
            exists front, back :: IsBlank(front) && IsBlank(back) && HasLine(text, front + "MISSION_COMPLETE" + back)
  {
    hide HasLine, IsBlank, Trim, SplitLines;
    if Declares(text) {
      var i :| 0 <= i < |SplitLines(text)| && Trim(SplitLines(text)[i]) == MISSION_COMPLETE_MARKER;
      var line := SplitLines(text)[i];
      LinesAreLines(text, line);
      var front, back := TrimParts(line);
      assert line == front + "MISSION_COMPLETE" + back;
    }
    forall front, back | IsBlank(front) && IsBlank(back) && HasLine(text, front + "MISSION_COMPLETE" + back)
      ensures Declares(text)
    {
      var line := front + "MISSION_COMPLETE" + back;
      TrimBetween(front, MISSION_COMPLETE_MARKER, back);
      LinesAreLines(text, line);
      var i :| 0 <= i < |SplitLines(text)| && SplitLines(text)[i] == line;
    }
  }

  /** A passing verification alone ends nothing: the turn has to declare completion too. */
  lemma PassingIsNotEnough(resumed: bool)
    ensures var passed := Round(0, 0, false, Final("done"), Pass);
            After(Config(1, 1, true), Start(resumed), [passed]) == State(Open, 1, 0, Some(DeclareIt))
  {
    var passed := Round(0, 0, false, Final("done"), Pass);
    SplitFirst("done", "");
    TrimIsTrimmed("done");
    assert [passed][..0] == [];
  }

  /** The ledger grows by at least one provider step with every turn. */
  predicate EveryTurnCosts(rounds: seq<Round>)
  {
    forall i :: 0 <= i < |rounds| - 1 ==> rounds[i].used < rounds[i + 1].used
  }

  lemma {:induction false} UsedGrows(rounds: seq<Round>, i: nat)
    requires EveryTurnCosts(rounds) && i < |rounds|
    ensures rounds[i].used >= rounds[0].used + i
  {
    if i > 0 { UsedGrows(rounds, i - 1); }
  }

  lemma TurnsGrow(cfg: Config, s: State, r: Round)
    ensures Iterate(cfg, s, r).turns <= s.turns + if r.used < cfg.maxSteps then 1 else 0
  {
    hide Declares;
  }

  /** When every turn costs a step, a mission takes no more turns than its step budget had left. */
  lemma {:induction false} StepsBoundTurns(cfg: Config, resumed: bool, rounds: seq<Round>)
    requires rounds != [] && EveryTurnCosts(rounds)
    ensures After(cfg, Start(resumed), rounds).turns <=
            if rounds[0].used < cfg.maxSteps then cfg.maxSteps - rounds[0].used else 0
    decreases |rounds|
  {
    hide Iterate;
    var n := |rounds| - 1;
    var before := After(cfg, Start(resumed), rounds[..n]);
    TurnsGrow(cfg, before, rounds[n]);
    if !before.status.Open? {
      if n > 0 { StepsBoundTurns(cfg, resumed, rounds[..n]); }
    } else {
      WhileOpen(cfg, resumed, rounds[..n]);
      UsedGrows(rounds, n);
      if n > 0 {
        UsedGrows(rounds, n - 1);
        assert rounds[..n][0] in rounds[..n] && rounds[..n][n - 1] in rounds[..n];
      }
    }
  }
}

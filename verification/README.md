# Verified model of the host crate's cores

This project models the self-contained cores of the `tole` command line's host crate and proves what
they are for. Each module is one file:

| file | what it models |
|---|---|
| `LineDiff.dfy`, `DiffContext.dfy` | the line diff of a trust decision: the LCS table, the edit script read off it, the rendering with context and gap markers, the escaping, and how the printed text reads |
| `Calendar.dfy` | the constant-division calendar behind the listing's time stamps |
| `Sessions.dfy` | the live session registry: admission, eviction, turn claims, cancellation, and the approval map kept beside it |
| `AcpLocks.dfy`, `AcpLiveness.dfy` | the locks of the ACP reader and of the turn threads, one lock operation a step, and why nobody gets stuck |
| `AcpPermission.dfy`, `AcpVerdicts.dfy` | permission requests: fresh ids, the pending map, the sliced wait, and the approver whose verdicts they carry |
| `Approvals.dfy` | the remote approval queue with its one-shot grants |
| `AuthLimiter.dfy` | the limiter of failed authentications and the order in which the server consults it |
| `Common.dfy`, `Approval.dfy` | types shared by several modules |
| `Http.dfy`, `HttpHeaders.dfy`, `Utf8.dfy`, `Text.dfy` | requests and responses as bytes: printers, parsers, the bearer match; UTF-8; Rust's `str` methods and numerals |
| `Tokens.dfy` | which tokens a server starts with, and which of them a request can carry |
| `Literal.dfy` | the decoder that lifts the deployed prompt out of Rust source |
| `ForkTree.dfy` | the fork tree of the session listing |
| `TurnStats.dfy` | per-turn totals of the usage ledger |
| `Config.dfy` | layering and precedence of the configuration, and the provider triple |
| `Mission.dfy` | the mission loop |

`dafny verify dfyconfig.toml` checks everything.

Where the program changes state, the model does: sessions, guards, the connection, channels, the approver's
shared handles, the approval queue and the limiter are classes whose methods say what they make of the
state; the diff table is a two-dimensional array filled in place; the decoder, the tree walk, the usage fold and the mission
are loops. Each such method is tied to a function of its inputs or of the old state, and the properties
below are proved about those functions, for all inputs or all runs. Protocols with several threads are
transition systems whose steps are the critical sections of the source; a run is any interleaving.

Parameters stand for what the model does not decide: clock readings, fresh approval ids, the bytes on a connection, which
idle session eviction meets first, which busy flags are locked by another thread at that moment, the
pattern matcher's verdict, and what a mission's turns and checks report. A Dafny `char` stands for a Rust
`char`; integers are unbounded except where a width matters (`u32` table cells, `u8`, `u16` and `usize` parsing,
saturating `u64` sums).

## Where the code differs from its documentation

The model follows the code.

- **Approval queue.** The listing is documented to show pending or recently decided entries and to mark
  overdue ones as expired. The pass that marks an overdue entry also removes it, so no reachable queue shows
  `Expired`, and a decision on a queued entry finds nothing exactly when the entry is overdue (`QueueInvariant`,
  `OverdueIsUnknown`).
- **Permission wait.** The arm for a disconnected channel is attributed to a vanished client. The sender
  lives in the pending map until the wait is over, so that arm is never taken
  (`LateRepliesAreIgnored`); a vanished client is noticed by the time-out only.
- **Provider triple.** The configuration is documented to fill the gaps of the first prefix that has an API
  key. It fills the first prefix that has a key *and* can be filled; the two agree exactly when the first
  keyed prefix can be filled (`FirstKeyedPrefix`, with `LaterPrefixUsed` as a case where they differ).
- **Mission.** The file header lists a passing verification as a way to end a mission. The loop ends only
  when the same turn also declares completion (`SettlesAs`, with `PassingIsNotEnough` as a case).
- **Precedence.** The environment is documented to beat the configuration for every key. For the provider's model
  and base URL that holds exactly when no prefix can be filled, no prefix sets the key, or the first prefix that
  sets it is the first complete one, or the first fillable one when none is complete (`ProviderByPrecedence`);
  otherwise a variable is passed over (`EnvironmentPassedOver`).
- **Literal decoder.** Its comment covers the escapes that can legally appear. It refuses two legal ones, `\0` and
  a Unicode escape with `_` between the digits, and it keeps the carriage return of a CRLF line end, which
  Rust drops: a legal literal decodes to its meaning exactly when it has none of the three (`LiteralMeans`; inputs are
  `NulIsRefused`, `UnderscoreIsRefused` and `CrLfIsKept`).
  It accepts six forms that are not Rust's: a sign before the digits, a byte escape above `\x7F`, a backslash before a
  character without a meaning, a continuation without a line end, a lone carriage return, and a literal
  joined with the next quoted text. `AcceptsExactly` and `LegalExactly` say when an accepted text is legal; each form has a
  lemma at an input. Legal literals are those of the section "String literals" of the chapter "Tokens" of the
  Rust Reference, read with line ends written as in the file.
- **Time stamps** sort as text up to the end of the year 9999 and no longer (`StampsSortExactly`).
- **Tokens.** `--token` is documented as the bearer token every request must carry
  (`crates/tole-cli/src/main.rs:461-462`). Start-up trims it and refuses a blank one, but takes one that no
  request can carry. Some request is authorized exactly when the token holds no newline and is short enough for the
  limit on request heads (`ServersThatAuthorize`, with `TwoLinesAuthorizeNobody` as a case; `TokensThatWork` for all
  texts).
- **Limiter.** Ten failures are documented as allowed per address and window. The check and the recording
  are two critical sections, and connections run in threads, so with `c` of them at a time the most a window
  counts is `9 + c` failures (`WindowIsExact`, reached by the run of `WindowIsFilled`). Ten bounds every window
  exactly when connections never overlap (`MaximumPerWindow`). What a minute can see is exactly `2 * (9 + c) - 1`
  (`RateIsExact`), and twice the maximum bounds every minute exactly when connections never overlap
  (`TwiceTheMaximum`).

## Model

| member | source | states |
|---|---|---|
| LineDiff.LcsIsLongest | crates/tole-cli/src/config_trust.rs:264-274 | the table's recurrence is the length of a longest common subsequence: attained by one, exceeded by none |
| LineDiff.FillRow | crates/tole-cli/src/config_trust.rs:267-273 | fills one row in place from the row below and touches no other row |
| LineDiff.FillTable | crates/tole-cli/src/config_trust.rs:265-274 | every cell of the table is the LCS length of its two suffixes, inside `u32` |
| LineDiff.Backtrack | crates/tole-cli/src/config_trust.rs:275-292 | reads exactly the edit script of the two texts off the filled table |
| LineDiff.ScriptIsExact | crates/tole-cli/src/config_trust.rs:275-292 | kept and removed lines spell the old text, kept and added lines the new one, and as many lines are kept as the LCS is long |
| LineDiff.ScriptIsMinimal | crates/tole-cli/src/config_trust.rs:275-292 | no script between the same texts has fewer changes |
| LineDiff.UnchangedIffEqual | crates/tole-cli/src/config_trust.rs:257-292 | no change is reported exactly for equal texts |
| LineDiff.RemovalsComeFirst | crates/tole-cli/src/config_trust.rs:279-292 | in every changed block removals precede additions |
| LineDiff.RenderItems | crates/tole-cli/src/config_trust.rs:294-314 | the loop with its pending-gap flag renders the reference list of shown lines and markers |
| LineDiff.ItemsShowExactly | crates/tole-cli/src/config_trust.rs:294-314 | printed are the changes and what is within two lines of one, in order; no marker follows another |
| LineDiff.ItemsTile | crates/tole-cli/src/config_trust.rs:299-314 | the printed items cut the script into stretches: a line for each shown operation, one marker for each maximal run of omitted ones |
| LineDiff.TilesDetermine | crates/tole-cli/src/config_trust.rs:299-314 | only the rendered list cuts the script that way |
| LineDiff.ChangesSurvive | crates/tole-cli/src/config_trust.rs:294-314 | no change is ever left out |
| LineDiff.Sanitize | crates/tole-cli/src/config_trust.rs:240-251 | the loop escapes character by character |
| LineDiff.SanitizedIsSafe | crates/tole-cli/src/config_trust.rs:218-251 | no control, bidi or invisible character but the newline survives, and newlines are neither made nor lost |
| LineDiff.SanitizedIdentity | crates/tole-cli/src/config_trust.rs:233-251 | text is left alone exactly when it holds nothing to escape |
| LineDiff.LineDiff | crates/tole-cli/src/config_trust.rs:257-316 | above the cap one line with the two counts; below it a text whose lines lead from the old text to the new one, `- `, `+ `, two blanks and `  ...` each as documented, with no more signed lines than must be |
| LineDiff.DiffReads | crates/tole-cli/src/config_trust.rs:257-321 | the printed lines read as a patch from the old to the new text, and apart from an LCS common to both the `- ` lines are what the old text has and the `+ ` lines what the new one has, in order, escaped |
| LineDiff.SignsAreCounted | crates/tole-cli/src/config_trust.rs:257-321 | as many lines are signed as each text has beyond their longest common subsequence |
| LineDiff.PlainSidesSpell | crates/tole-cli/src/config_trust.rs:257-321 | without a marker and without anything to escape the unsigned and `- ` lines spell the old text, the unsigned and `+ ` lines the new one |
| LineDiff.EscapeReads | crates/tole-cli/src/config_trust.rs:240-253 | an escaped character can be read back |
| DiffContext.ContextIsTwoLines | crates/tole-cli/src/config_trust.rs:294-321 | in the text a line of context has a signed line within two lines, and a marker has none that near |
| LineDiff.DiffTextIsFaithful | crates/tole-cli/src/config_trust.rs:252-316 | the output cuts back into exactly its lines, none of which holds an unsafe character |
| Text.LinesAreLines | crates/tole-cli/src/config_trust.rs:260-262 | splitting a text yields exactly what stands between its newlines and ends |
| Calendar.YearOfEraParts | crates/tole-cli/src/main.rs:2325-2327 | the year-of-era division undoes the layout of centuries, four-year cycles and years |
| Calendar.YearOfEraBounds | crates/tole-cli/src/main.rs:2325-2327 | every day of an era falls into the year found for it |
| Calendar.DateSteps | crates/tole-cli/src/main.rs:2328-2331 | month and day of a day of the March year are valid, and the next day is the calendar successor |
| Calendar.CivilCountsDays | crates/tole-cli/src/main.rs:2321-2333 | every integer maps to a valid date, 0 to 1970-01-01, the next day to the calendar successor |
| Calendar.DayNumberOfCivil | crates/tole-cli/src/main.rs:2321-2333 | the closed form agrees with counting years, months and days one at a time |
| Calendar.CivilIsBijection | crates/tole-cli/src/main.rs:2321-2333 | days and valid dates correspond one to one, in order |
| Calendar.StampDays | crates/tole-cli/src/main.rs:2308-2333 | exactly the days before 10000-01-01 have four-digit years |
| Calendar.FmtMtimeOrder | crates/tole-cli/src/main.rs:2308-2333 | up to the year 9999 time stamps order, and agree, as text exactly as the times do to the minute |
| Calendar.FmtMtimeOrderEnds | crates/tole-cli/src/main.rs:2308-2333 | with the year 10000 the order of the texts ends |
| Calendar.StampsSortExactly | crates/tole-cli/src/main.rs:2308-2333 | the stamps of all times below a cap sort as the times do exactly when the cap is not beyond the end of 9999 |
| Calendar.StampReadsBack | crates/tole-cli/src/main.rs:2306-2333 | up to the year 9999 a stamp reads back digit by digit: a valid date on the day of the time, then its hour and minute; earlier times read as the epoch |
| Sessions.EventKeepsInv | crates/tole-cli/src/session_host.rs:81-249 | every critical section keeps every guard on the state in the map under its id, that state busy, and the cap |
| Sessions.RunsAreSafe | crates/tole-cli/src/session_host.rs:81-249 | in every interleaving at most one turn runs per id, no running turn's state is evicted or replaced, and the cap holds |
| Sessions.CancelHitsItsTurn | crates/tole-cli/src/session_host.rs:166-222 | a running turn's token reads cancelled exactly when a cancel for its id came after its claim |
| Sessions.Sessions.IsBusy | crates/tole-cli/src/session_host.rs:137-141 | true exactly while a guard on the id is alive |
| Sessions.Sessions.ResolveId | crates/tole-cli/src/session_host.rs:156-162 | the explicit id, or the only live one, else refused |
| Sessions.Sessions.Cancel | crates/tole-cli/src/session_host.rs:166-168 | cancels the state now in the map; false exactly for unknown ids |
| Sessions.Sessions.ClaimTurn | crates/tole-cli/src/session_host.rs:209-222 | marks an idle live session busy, clears its cancel and hands out its guard; refuses otherwise, with the source's messages |
| Sessions.Sessions.Drop | crates/tole-cli/src/session_host.rs:83-88 | the guard's drop clears the busy flag of its own state |
| Sessions.Sessions.EvictForInsert | crates/tole-cli/src/session_host.rs:231-249 | evicts only sessions that are idle and not locked, as many as make room, and reports each once; fails exactly when evicting all of them would not make room |
| Sessions.EvictIdle | crates/tole-cli/src/session_host.rs:233-248 | the eviction loop, whichever idle session comes first; it ends with room exactly when there are enough |
| Sessions.Sessions.EnsureRoom | crates/tole-cli/src/session_host.rs:174-176 | makes room under the cap or, exactly when there are too few idle sessions, changes nothing |
| Sessions.Sessions.AdmitCapped | crates/tole-cli/src/session_host.rs:187-202 | replaces an idle id, refuses a busy one, evicts idle unlocked sessions for a new one; each refusal exactly when its reason holds |
| Sessions.Sessions.Admit | crates/tole-cli/src/session_host.rs:183-185 | the same under the cap: a refusal changes nothing and the cap is kept |
| Sessions.AdmitOpened | crates/tole-cli/src/acp.rs:883-914 | after an ACP admission the keys of the approval map equal those of the session map; evicted ids are exactly the ones removed |
| AcpLocks.StepKeepsInv | crates/tole-cli/src/acp.rs:785-922 | every step keeps the locks exclusive, claims unique and busy, and what the reader has seen true |
| AcpLocks.RunsKeepInv | crates/tole-cli/src/session_host.rs:549-618 | the same over every run of reader and turn threads |
| AcpLiveness.StorageIsNeverContended | crates/tole-cli/src/acp.rs:1179-1202 | whoever asks for a storage lock, reader or turn, finds it free: it is held only under a busy claim, and the reader asks only after seeing the session idle under the map lock |
| AcpLiveness.NobodyIsStuck | crates/tole-cli/src/session_host.rs:209-222 | no deadlock: behind every thread that waits for a lock stands, at most two threads away, one that can step without the client |
| AcpLiveness.TurnLetsGo | crates/tole-cli/src/approver.rs:164-189 | a turn leaves every lock but its storage lock without help but that of a turn that is ending, whatever either of them does on the way |
| AcpLiveness.ReaderGetsThrough | crates/tole-cli/src/acp.rs:286-386 | whatever lock the reader waits for, a scheduler that only chooses whose turn it is frees it within five steps of turns that wait for neither the reader nor the client, whatever the chosen threads do |
| AcpLiveness.EveryRunIsLive | crates/tole-cli/src/acp.rs:1150-1225 | for every run from the start of the server: no storage lock is waited for, no thread is deadlocked, the reader gets through, with the choice of the thread alone |
| AcpLiveness.TurnCanStep | crates/tole-cli/src/session_host.rs:549-618 | a turn thread said to be able to step has a step |
| AcpLiveness.ReaderCanStep | crates/tole-cli/src/acp.rs:1150-1225 | a reader said to be able to step has a step |
| AcpPermission.Connection.TakeId | crates/tole-cli/src/acp.rs:287-292 | takes the next id; nobody is registered for it yet |
| AcpPermission.Connection.Register | crates/tole-cli/src/acp.rs:293-294 | registers the sender of an id that was taken |
| AcpPermission.Connection.OpenRequest | crates/tole-cli/src/acp.rs:286-299 | the two critical sections one after the other: the next id, registered, with an empty channel |
| AcpPermission.Connection.Abandon | crates/tole-cli/src/acp.rs:303-305 | unregisters an id and nothing else |
| AcpPermission.Connection.Route | crates/tole-cli/src/acp.rs:332-336 | a registered id is unregistered and its waiter gets the value; any other id changes nothing |
| AcpPermission.Connection.RouteReply | crates/tole-cli/src/acp.rs:314-330 | results, errors and malformed replies all complete the request, the last two without choosing an option |
| AcpPermission.Connection.WaitPermission | crates/tole-cli/src/acp.rs:355-386 | the id is unregistered on every return; the outcome is the first answer of the first slice that is not cancelled, if any comes before the window ends |
| AcpPermission.Connection.WaitSlice | crates/tole-cli/src/acp.rs:363-385 | one slice: a cancel wins over an answer, an answer over the end of the window |
| AcpPermission.Approver.WithSharedPatterns | crates/tole-cli/src/approver.rs:121-139 | the patterns move to the shared handle; the same handle is left alone |
| AcpPermission.Approver.WithSharedAutoWrite | crates/tole-cli/src/approver.rs:143-160 | the flag is copied to the shared handle, which is read from then on |
| AcpPermission.Approver.MapOptionChoice | crates/tole-cli/src/acp.rs:552-583 | allow exactly for an allow option; allow-always is remembered for Write tools only |
| AcpPermission.Approver.Prompt | crates/tole-cli/src/acp.rs:587-633 | one request and one wait; allowed exactly when the answer to that request chose to allow, denied on every unresolved exit |
| AcpPermission.Approver.Decide | crates/tole-cli/src/approver.rs:164-189 | a destructive call always asks; otherwise a deny pattern denies, an allow pattern allows, an ask pattern asks, and without a match the flag allows or the client is asked |
| AcpPermission.RunsKeepInv | crates/tole-cli/src/acp.rs:254-386 | requests, answers, verdicts and pattern stores fit together in every interleaving |
| AcpPermission.AnswersComeFromClients | crates/tole-cli/src/acp.rs:307-336 | every answer came from a client reply to that very request |
| AcpPermission.DestructiveNeedsConsent | crates/tole-cli/src/acp.rs:552-633 | over every run a destructive call is allowed only if the reply to its own request chose an allow option |
| AcpPermission.PatternsNeedConsent | crates/tole-cli/src/acp.rs:570-579 | over every run a pattern store holds the startup patterns and names of Write tools answered allow-always |
| AcpPermission.AnsweredStays | crates/tole-cli/src/acp.rs:332-336 | an answered id is never registered again |
| AcpPermission.OneAnswerPerRequest | crates/tole-cli/src/acp.rs:332-336 | each request delivers at most one value |
| AcpPermission.IdsAreFresh | crates/tole-cli/src/acp.rs:286-292 | request ids are never reused |
| AcpPermission.LateRepliesAreIgnored | crates/tole-cli/src/acp.rs:301-386 | pending ids are waits in progress, a reply to any other id changes nothing, and the disconnected arm is unreachable |
| AcpVerdicts.AllowedHow | crates/tole-cli/src/approver.rs:164-189 | over every run an allowed call asked and a reply to its own request named an allow option, or it is not destructive and what it read of its session's patterns allowed it, or said nothing while the flag it had read was on |
| AcpVerdicts.PatternsSettle | crates/tole-cli/src/approver.rs:172-187 | over every run what a call reads of the patterns settles it: denied without asking, allowed without asking, asked, or as the flag it has read says |
| AcpVerdicts.AlwaysIsRemembered | crates/tole-cli/src/acp.rs:286-386 | a Write call that got the answer allow-always leaves its tool among its session's patterns for good |
| AcpVerdicts.FlagIsLast | crates/tole-cli/src/approver.rs:142-159 | a session's flag is what it was opened with or switched to last |
| AcpVerdicts.StartupIsGiven | crates/tole-cli/src/approver.rs:122-140 | the startup patterns of a session are those it was opened with |
| AcpVerdicts.WaitYields | crates/tole-cli/src/acp.rs:354-386 | the first reply to the request is the outcome of the wait when no slice up to it was cancelled and none before it ended the window |
| AcpVerdicts.WaitYieldsNothingElse | crates/tole-cli/src/acp.rs:354-386 | no other answer is |
| Approvals.ApprovalQueue.PruneExpired | crates/tole-cli/src/approvals.rs:97-124 | overdue entries and grants are gone, in two critical sections; reported are the entries that expired |
| Approvals.ApprovalQueue.QueueEntry | crates/tole-cli/src/approvals.rs:128-180 | prunes, then appends one pending entry |
| Approvals.ApprovalQueue.StoragePath | crates/tole-cli/src/approvals.rs:184-193 | the file of the session's newest entry |
| Approvals.ApprovalQueue.PeekPending | crates/tole-cli/src/approvals.rs:198-206 | session and tool of a pending entry, and no change but pruning |
| Approvals.ApprovalQueue.Decide | crates/tole-cli/src/approvals.rs:209-239 | prunes; then the operator hears of an overdue entry nothing, of a decided one its status, and a pending one is approved, with a grant, or denied, as decided |
| Approvals.ApprovalQueue.TakeOneShot | crates/tole-cli/src/approvals.rs:256-262 | true exactly when there was a grant, which is gone afterwards |
| Approvals.QueueApprover.Decide | crates/tole-cli/src/approvals.rs:295-316 | allowed exactly by a pattern, a read-only risk or a grant of this session and call, which is used up; else queued and denied |
| Approvals.GrantsAreConserved | crates/tole-cli/src/approvals.rs:209-262 | over every run each approval is consumed by one allow, discarded, or still waiting |
| Approvals.AllowsNeverExceedApprovals | crates/tole-cli/src/approvals.rs:209-316 | for each session and call, one-shot allows never outnumber approvals |
| Approvals.QueueInvariant | crates/tole-cli/src/approvals.rs:97-124 | ids are unique, every id was queued, and no reachable queue shows an expired entry |
| Approvals.DecidedIsFinal | crates/tole-cli/src/approvals.rs:209-239 | an entry that has left pending keeps its status for as long as it is shown |
| Approvals.ShownAsDecided | crates/tole-cli/src/approvals.rs:209-239 | over every run an entry is pending exactly until a decision finds it so, there is one such decision at most, and the entry is shown approved or denied exactly as that one said |
| Approvals.PruneKeepsExactly | crates/tole-cli/src/approvals.rs:97-124 | pruning keeps exactly the grants and entries that are not overdue, as they were, and reports exactly the pending ones that are |
| Approvals.OverdueIsUnknown | crates/tole-cli/src/approvals.rs:97-124 | what a decision on a queued entry answers: nothing exactly when the entry is overdue, the earlier decision if there was one, else this one; it changes nothing exactly when it is overdue or was decided before |
| Approvals.ApprovedIsFresh | crates/tole-cli/src/approvals.rs:209-239 | only what is not overdue can be approved, and the approval grants exactly that session and call |
| AuthLimiter.Limiter.IsLimitedAt | crates/tole-cli/src/auth.rs:65-72 | limited exactly in a current window with the maximum of failures |
| AuthLimiter.Limiter.RecordFailureAt | crates/tole-cli/src/auth.rs:74-85 | sweeps, then counts in the current or a new window |
| AuthLimiter.Limiter.Admit | crates/tole-cli/src/serve.rs:361-381 | one connection's two critical sections with nothing in between: the limit is checked first, then the token, and only a refused token is recorded, at a later clock reading |
| AuthLimiter.SweepIsInvisible | crates/tole-cli/src/auth.rs:76-78 | the swept limiter answers every query as one that never sweeps |
| AuthLimiter.WindowCounts | crates/tole-cli/src/auth.rs:74-85 | a window counts exactly the failures since its start, the one that opened it among them |
| AuthLimiter.LimitedMeansRecorded | crates/tole-cli/src/auth.rs:65-85 | being limited means the maximum was recorded within the last minute |
| AuthLimiter.WindowAndBefore | crates/tole-cli/src/auth.rs:65-85 | a window and the minute before it hold at most the window's count and one less than the most a window holds |
| AuthLimiter.RateIsBounded | crates/tole-cli/src/auth.rs:65-85 | with windows of at most so many failures, less than twice as many in any minute |
| AuthLimiter.GuardedRate | crates/tole-cli/src/serve.rs:364-381 | with failures recorded only while not limited, less than twice the maximum in any minute |
| AuthLimiter.WindowsAreBounded | crates/tole-cli/src/serve.rs:339-381 | however connections overlap, with so many open at a time no window ever counts more than the maximum less one plus their number |
| AuthLimiter.WindowIsFilled | crates/tole-cli/src/serve.rs:339-381 | a run that brings a window to that many, for every number of connections |
| AuthLimiter.WindowIsExact | crates/tole-cli/src/serve.rs:339-381 | a number bounds every window of every run exactly when it is at least that |
| AuthLimiter.MaximumPerWindow | crates/tole-cli/src/auth.rs:11-14 | the documented ten failures bound every window exactly when connections never overlap |
| AuthLimiter.OverlapIsBounded | crates/tole-cli/src/serve.rs:339-381 | the rate in any minute of any run with overlapping connections |
| AuthLimiter.BoundIsReached | crates/tole-cli/src/serve.rs:339-381 | a run that records exactly that many, for every number of connections |
| AuthLimiter.RateIsExact | crates/tole-cli/src/serve.rs:339-381 | a number bounds the rate of every run exactly when it is at least that |
| AuthLimiter.TwiceTheMaximum | crates/tole-cli/src/serve.rs:364-381 | twice the maximum is a bound exactly when connections never overlap |
| AuthLimiter.ServerRate | crates/tole-cli/src/serve.rs:55-132 | under the server's own cap of 32 connections the exact bounds are 41 failures a window and 81 a minute |
| AuthLimiter.RefusedAfterMaximum | crates/tole-cli/src/serve.rs:363-371 | a connection is refused as one too many only after the maximum was recorded in the minute before |
| AuthLimiter.OnlyRefusedIsRecorded | crates/tole-cli/src/serve.rs:361-381 | over every run each failure that is counted was recorded for a connection whose token was refused, at its address, after its check |
| Http.ReceiveHeaders | crates/tole-cli/src/serve.rs:224-273 | the header loop under its byte budget |
| Http.Receive | crates/tole-cli/src/serve.rs:195-295 | reading a request, with each of its refusals |
| Http.HeadersReadBack | crates/tole-cli/src/serve.rs:224-273 | a printed header block is read back line by line, exactly when it fits the budget |
| Http.FoldRequestHeaders | crates/tole-cli/src/approvals.rs:368-379 | what the server makes of the client's own header lines |
| Http.CtEqIsEquality | crates/tole-cli/src/auth.rs:18-20 | the fold of exclusive-ors is equality |
| Http.BearerMatchesExactly | crates/tole-cli/src/auth.rs:24-30 | a header matches exactly when it is `bearer` in any case, a space, and the token up to surrounding blanks |
| Http.OddTokensAuthorizeNothing | crates/tole-cli/src/auth.rs:24-30 | an empty, untrimmed or multi-line token is matched by no request that can be read |
| Http.RequestRoundTrip | crates/tole-cli/src/approvals.rs:368-382 | for every method and path that are words, every token and authority of one line, body and trailing bytes the server reads back the request and consumes exactly its bytes; beyond the limits it gives exactly the documented refusal |
| Http.RequestReadBack | crates/tole-cli/src/serve.rs:195-216 | the same for any method and path of one line, of which the server takes the first two words |
| Http.WordsRoundTrip | crates/tole-cli/src/approvals.rs:368-382 | within the limits a request keeps its method and path exactly when both are words; the client prints what it is given |
| Http.BlankCutsPath | crates/tole-cli/src/approvals.rs:431-437 | a decision on an id with a blank in it arrives at the path up to the blank |
| Http.RoundTripAuthorizes | crates/tole-cli/src/serve.rs:373-374 | a printed request is authorized by its own token, outer blanks aside, and its body decodes to the text sent |
| Tokens.ServerTokenIsTrimmed | crates/tole-cli/src/main.rs:1158-1165 | a server starts with a trimmed token that is not empty, which the second resolution keeps |
| Tokens.TokensThatWork | crates/tole-cli/src/auth.rs:24-30 | some readable request carries a token exactly when it is trimmed, not empty, of one line, and 27 bytes below the limit on request heads |
| Tokens.ServersThatAuthorize | crates/tole-cli/src/serve.rs:134-145 | some request is authorized exactly when the token a server starts with is of one line and short enough |
| Tokens.TwoLinesAuthorizeNobody | crates/tole-cli/src/main.rs:1158-1165 | a token with which a server starts and authorizes no request |
| Http.ReceivePayload | crates/tole-cli/src/approvals.rs:393-410 | the client's loop over the response's header lines |
| Http.ReceiveResponse | crates/tole-cli/src/approvals.rs:383-410 | status code and payload of a response |
| Http.ResponseRoundTrip | crates/tole-cli/src/serve.rs:315-325 | the client reads back the status and the payload the server prints |
| Http.ResponseDeclaresItsLength | crates/tole-cli/src/serve.rs:315-325 | read with the server's own header reader, a printed response declares exactly the bytes behind its headers, and those are the body |
| HttpHeaders.ClearBlocksAreRead | crates/tole-cli/src/serve.rs:224-273 | within the budget a header block is read exactly when it has no transfer encoding and at most one length, a number; taken are the last authorization, the length and whether the client waits |
| HttpHeaders.ClearRequestIsRead | crates/tole-cli/src/serve.rs:195-295 | a whole request with any such block is read as it stands, with an interim answer exactly when the client waits for one and sends a body |
| HttpHeaders.ClientSays | crates/tole-cli/src/approvals.rs:368-379 | the values that stand under each name in the client's own headers |
| Utf8.DecodeEncoded | evals/replay/replay.rs:270-275 | decoding undoes encoding, for every text |
| Utf8.EncodeDecoded | crates/tole-cli/src/serve.rs:203-207 | only encodings are decoded, for all bytes |
| Utf8.KnownEncodings | crates/tole-cli/src/serve.rs:203-207 | examples of every width, and byte sequences that are refused |
| Literal.SkipBytes | evals/replay/replay.rs:281-286 | a look-ahead loop skips exactly the blanks, from boundary to boundary |
| Literal.DecodeEscape | evals/replay/replay.rs:293-352 | one escape on the bytes means what it means on the characters |
| Literal.DecodeHex | evals/replay/replay.rs:309-318 | a byte escape: two characters, decoded or refused |
| Literal.DecodeUnicode | evals/replay/replay.rs:320-339 | a Unicode escape: one to six bytes up to the brace, a scalar value, or refused |
| Literal.DecodeLiteral | evals/replay/replay.rs:275-364 | the byte-index loop terminates, stays on character boundaries, and computes the character-level decoding |
| Literal.PiecesDecode | evals/replay/replay.rs:275-364 | a sequence of accepted elements decodes to what they spell followed by the rest |
| Literal.AcceptsExactly | evals/replay/replay.rs:275-364 | a text decodes to a value exactly when it is cut into accepted elements that spell it and a closing quote, and there is one way at most |
| Literal.LegalAndAccepted | evals/replay/replay.rs:288-358 | of Rust's elements all but the refused ones are accepted, of what is accepted all but the loose ones are Rust's, and only a line end with a carriage return changes its meaning |
| Literal.LiteralDecodes | evals/replay/replay.rs:275-364 | a legal literal is refused exactly for a `\0` or a digit separator, and else decodes element by element, up to a following text it is joined with |
| Literal.LiteralMeans | evals/replay/replay.rs:275-364 | it decodes to what Rust says it stands for exactly when it has neither of these nor a line end with a carriage return |
| Literal.LegalExactly | evals/replay/replay.rs:275-364 | what the decoder accepts is a legal literal exactly when no loose element occurs in it |
| Literal.LoneCrAccepted | evals/replay/replay.rs:353-359 | an input: a lone carriage return |
| Literal.UnknownAccepted | evals/replay/replay.rs:340-352 | an input: a backslash before a character without a meaning there |
| Literal.SignAccepted | evals/replay/replay.rs:309-339 | inputs: a sign before the digits of an escape |
| Literal.HighByteAccepted | evals/replay/replay.rs:309-319 | an input: a byte escape beyond ASCII |
| Literal.BlankAccepted | evals/replay/replay.rs:340-352 | an input: a continuation without a line end |
| Literal.JoinAccepted | evals/replay/replay.rs:277-292 | an input: a literal joined with the next quoted text |
| Literal.JoinOverLines | evals/replay/replay.rs:277-292 | an input: a literal joined over a line end |
| Literal.NulIsRefused | evals/replay/replay.rs:293-352 | an input: a legal literal with `\0` |
| Literal.UnderscoreIsRefused | evals/replay/replay.rs:320-339 | an input: a legal literal with a separator between digits |
| Literal.CrLfIsKept | evals/replay/replay.rs:353-359 | an input: a legal literal whose line end keeps its carriage return |
| Literal.ShortEscapesMean | evals/replay/replay.rs:293-308 | what the six short escapes stand for |
| Literal.ContinuationMeans | evals/replay/replay.rs:340-352 | an input: a line end behind a backslash, with indentation |
| Literal.StartsOnBoundary | evals/replay/replay.rs:267-274 | decoding starts on a character boundary |
| ForkTree.SortSorts | crates/tole-cli/src/session_index.rs:216 | the order of the nodes: by id, nothing lost |
| ForkTree.SortIsByText | crates/tole-cli/src/session_index.rs:216 | later nodes never have a smaller id as text |
| ForkTree.Walk | crates/tole-cli/src/session_index.rs:219-239 | the recursive walk appends exactly the lines of a session and its forks |
| ForkTree.TreeLines | crates/tole-cli/src/session_index.rs:215-245 | the printed lines are those of the forest of roots |
| ForkTree.ShownExactlyOnce | crates/tole-cli/src/session_index.rs:215-245 | a session is shown exactly once, at the depth of its parent chain, when that reaches a root within 64 steps, and otherwise never |
| ForkTree.OrphansStandAtTheMargin | crates/tole-cli/src/session_index.rs:213-218 | at the left margin stand exactly the sessions that are no forks and the forks whose source is gone |
| ForkTree.OneLevel | crates/tole-cli/src/session_index.rs:215-245 | a session has one depth at most |
| ForkTree.CyclesAreNotShown | crates/tole-cli/src/session_index.rs:230-238 | no session on or below a parent cycle is shown |
| ForkTree.TreeIsPreOrder | crates/tole-cli/src/session_index.rs:215-245 | each line hangs from the nearest earlier line one level shallower, its parent; siblings come in order of their ids; top lines are roots |
| ForkTree.LineShowsDepth | crates/tole-cli/src/session_index.rs:219-230 | the depth of a row can be read off its printed line, with the id behind it, when the id starts with neither a blank nor a branch |
| TurnStats.FirstKnown | crates/tole-cli/src/usage_report.rs:61-80 | the first place that reports a number wins; unknown exactly when none does |
| TurnStats.OpenAiIsRead | crates/tole-cli/src/usage_report.rs:61-100 | every number of a usage object in the OpenAI form is read as the field it stands for |
| TurnStats.CacheIsRead | crates/tole-cli/src/usage_report.rs:68-80 | cached tokens are looked for in five places in order, written ones in two |
| TurnStats.StepsAre | crates/tole-core/src/transcript.rs:75-80 | a row is a provider step when it is no object, empty, or holds a key that is not the program's own |
| TurnStats.OwnerIs | crates/tole-cli/src/usage_report.rs:215-230 | a row belongs to the turn within which the last entry of its id lies |
| TurnStats.PartitionPoint | crates/tole-cli/src/usage_report.rs:224 | the binary search agrees with scanning for the last turn start at or before the entry |
| TurnStats.IndexIds | crates/tole-cli/src/usage_report.rs:215-219 | the id index finds the last entry of an id |
| TurnStats.Fold | crates/tole-cli/src/usage_report.rs:220-245 | every turn ends up with the stats of its own rows |
| TurnStats.Compute | crates/tole-cli/src/usage_report.rs:198-246 | the same from the session's entries |
| TurnStats.TurnStartsExact | crates/tole-core/src/transcript.rs:52-60 | the positions of the turn openers, all and no others, in increasing order |
| TurnStats.TurnShows | crates/tole-cli/src/usage_report.rs:188-246 | a field is unknown exactly when no provider step of the turn reported it, else its exact total cut off at the `u64` maximum; steps and cost likewise |
| TurnStats.TurnsAddUp | crates/tole-cli/src/usage_report.rs:220-245 | the totals of the turns add up to the totals of the attributable rows |
| TurnStats.EarlierTurnsStay | crates/tole-cli/src/usage_report.rs:198-246 | appending a later turn and its rows leaves earlier turns as they were |
| Config.SettlesByPrecedence | crates/tole-cli/src/config_apply.rs:441-601 | merging and resolving in two stages gives the value and the source of flag > env > project > user > default for every key, but for the provider's two exactly when no prefix can be filled or the first to set the key, if any, is the first usable one |
| Config.ProviderSettles | crates/tole-cli/src/config_apply.rs:235-288 | the provider's two keys over both files, with marked sources: within the chosen prefix, then project, then user; by plain precedence when no triple is usable |
| Config.ProviderByPrecedence | crates/tole-cli/src/config_apply.rs:235-288 | they follow the one-shot precedence exactly when no prefix can be filled, no prefix sets the key, or the first that does is the first complete one (the first fillable one when none is complete) |
| Config.EnvironmentPassedOver | crates/tole-cli/src/config_apply.rs:255-270 | a case where the file's model is used although the environment sets one |
| Config.SwitchesOnlyTurnOn | crates/tole-cli/src/config_apply.rs:121-135 | a switch is on exactly when the flag is given, or the first file that mentions it says so |
| Config.BlankFilesCountAsUnset | crates/tole-cli/src/config.rs:282-302 | a file's blank text or empty list counts as if the file did not mention the key, the provider's keys included |
| Config.BlankVariablesCountAsUnset | crates/tole-cli/src/config_apply.rs:441-601 | so does a blank variable |
| Config.ZeroWindowIsUnset | crates/tole-cli/src/config_apply.rs:441-601 | a context window of zero in the environment counts as unset |
| Config.VariablesDecide | crates/tole-cli/src/config_apply.rs:441-601 | without a flag a variable that says something decides exactly the six keys that have one |
| Config.ProjectDecides | crates/tole-cli/src/config_apply.rs:441-601 | without a flag and a variable a project value that says something is used |
| Config.FlagsDecide | crates/tole-cli/src/config_apply.rs:441-601 | a flag that says something decides every key that has one |
| Config.UserDecides | crates/tole-cli/src/config_apply.rs:441-601 | with nothing said before it a user value that says something is used, and reported as such |
| Config.DefaultsDecide | crates/tole-cli/src/config_apply.rs:441-601 | with nothing said anywhere exactly seven keys have a value, their default |
| Config.SettledSpelling | crates/tole-cli/src/config_apply.rs:441-601 | the memory location is settled without outer blanks, a known reasoning effort in its lower-case spelling |
| Config.ProviderIsChosen | crates/tole-cli/src/config_apply.rs:235-275 | a provider is found exactly when some keyed prefix can be filled; prefixes are never mixed; a complete prefix beats the configuration, else the first fillable one is used |
| Config.FirstKeyedPrefix | crates/tole-cli/src/config_apply.rs:228-233 | the first keyed prefix is used exactly when it can be filled |
| Config.LaterPrefixUsed | crates/tole-cli/src/config_apply.rs:255-270 | a case where a later prefix is used |
| Mission.RunMission | crates/tole-cli/src/mission.rs:258-412 | the loop's status, turns and failed checks after any observed rounds |
| Mission.RunRound | crates/tole-cli/src/mission.rs:274-411 | one pass: budgets, the queued prompt's turn, the verification gate |
| Mission.WhileOpen | crates/tole-cli/src/mission.rs:274-411 | while it is open a mission has the prompt its last turn calls for queued at every head, takes a turn a round, and has failed fewer checks than the cap |
| Mission.SettlesAs | crates/tole-cli/src/mission.rs:274-411 | complete exactly when the last turn declared the goal and passed the gate; failed exactly at the third failed check; exhausted by the first budget used up; in error exactly on a storage failure |
| Mission.CompletesExactly | crates/tole-cli/src/mission.rs:334-366 | complete exactly when the last round was within the budgets, passed the verification, if any, and ended with a text one line of which is the marker and blanks |
| Mission.PassingIsNotEnough | crates/tole-cli/src/mission.rs:274-411 | a case where the verification passes and the mission stays open |
| Mission.StepsBoundTurns | crates/tole-cli/src/mission.rs:277-284 | when every turn costs a provider step, no more turns than the step budget had left |

## Left out

- Sockets, threads, read deadlines, stdin and stdout, processes, hooks, MCP transport and upgrades: I/O around the cores.
- The turn loop, the storage engine, compaction, TOML and JSON parsing: other crates; a payload is text, printed and parsed as given.
- The pattern matcher (`crates/tole-core/src/approval.rs`): any function of the stored patterns and the call.
- File-system jails, the TUI, command line parsing, help texts, `config check` display strings, trust preset tables, Python scripts.
- Approvals.ApprovalQueue.QueueEntry: ids come in as a parameter; runs assume that they are fresh, as the nonce and counter are meant to make them.
- Approvals.ApprovalQueue.TakeOneShot: says nothing about the age of the grant, since consuming one does not prune first.
- Calendar.CivilCountsDays: does not model the `i64` overflow of the largest day numbers.
- AcpPermission.Connection.OpenRequest: does not model the wrap-around of the `u64` counter.
- AuthLimiter.Limiter.RecordFailureAt: does not model the wrap-around of the `u32` count.
- AuthLimiter.OverlapIsBounded: assumes that failures are recorded in the order of their clock readings, though a thread reads the clock just before it takes the lock; the bound on windows needs no such order. The limiter's second user, the MCP transport, is not modelled.
- Sessions.Sessions.EvictForInsert: above the cap, which the cap invariant excludes, an error may follow evictions that are not reported, as in the source; which idle session goes first stays open.
- AcpLocks.StepKeepsInv: admission keeps any subset that drops idle entries only (the exact number is in `Sessions.dfy`), and locks that only the reader, or only one turn, ever takes are left out.
- Http.Receive: the body stays bytes, so the replacement of invalid UTF-8 in it is not modelled; the interim `100 Continue` is a flag.
- Http.RequestRoundTrip: the JSON inside the body, and the scheme and trailing slashes stripped off the URL, are not modelled.
- Literal.DecodeLiteral: finding the function and its first quote in the source file is not modelled.
- ForkTree.TreeLines: compares ids by characters, which orders UTF-8 as its bytes do; that equivalence is not proved here.
- TurnStats.TurnShows: cost is summed over real numbers, without rounding; whether an entry opens a turn is given.
- TurnStats: the whole-session report, whose rates are floating point.
- Config.SettlesByPrecedence: lists and numbers from the environment come in parsed; values have their key's type in every layer, as parsed files do.
- Mission.RunMission: prompts are kinds, not texts; the final summary register, images and the budget tier table are not modelled.
- `detach_session` and `interrupt_session`: best effort outside the map lock, by their own documentation.
- Model lists, the probe cache, session names, previews and the listing's other columns: lookups and formatting around the cores.

/** The agent run loop: the counters that decide when a run goes on and when it ends.
    Every turn's answer is an arbitrary input from the environment. */
module RunLoop {
  import opened Cancellation

  datatype Policy = Policy(maxIterations: int, maxParseFailures: int, maxStalled: int, maxCorrections: int)

  /** What the loop reads after a tool has completed without error: the database counts before the
      turn, at the file-change test and after it, and the action with its evidence. */
  datatype ToolTurn = ToolTurn(
    filesBefore: nat, writesBefore: nat, filesAtTest: nat, filesAfter: nat, writesAfter: nat,
    action: string, fingerprint: string, evidence: string)

  datatype Answer =
    | NoTool(feedback: string)
    | ToolFailed(patchMismatch: bool, groundingError: bool)
    | ToolDone(tool: ToolTurn)

  /** One turn: what happens to the token from the runner call up to the check, and the answer. */
  datatype Turn = Turn(acts: seq<Act>, answer: Answer)

  datatype Exit =
    | Completed | GovernancePaused | ActionParseFailed | ToolExecutionFailed
    | StalledReadOnlyLoop | Stalled | MaxIterations
    | CancelledBeforeLlm | Cancelled(error: Error) | RunnerRaised(error: Error) | PipelineUnavailable

  datatype Counters = Counters(
    parseFailures: nat, stalled: nat, streak: nat, corrections: nat,
    repeats: map<string, nat>, evidence: set<string>)

  const INITIAL := Counters(0, 0, 0, 0, map[], {})
  const FRESH := TokenState(false, "", 0)
  const WRITE_ACTIONS := {"APPLY_PATCH", "CREATE_FILE", "DELETE_FILE"}
  const READ_ONLY_ACTIONS := {"READ_FILE", "SEARCH_CODE", "RUN_COMMAND"}

  datatype Judgement = Continue(counters: Counters) | Stop(exit: Exit)

  predicate NewEvidence(c: Counters, t: ToolTurn) {
    t.evidence != "" && t.evidence !in c.evidence
  }

  predicate MaterialProgress(c: Counters, t: ToolTurn) {
    || t.filesAfter > t.filesBefore
    || t.writesAfter > t.writesBefore
    || t.action in WRITE_ACTIONS
    || NewEvidence(c, t)
  }

  function Repeats(c: Counters, t: ToolTurn): nat {
    (if t.fingerprint in c.repeats then c.repeats[t.fingerprint] else 0) + 1
  }

  /** The counters after a completed tool turn, before corrections are considered. */
  function Count(c: Counters, t: ToolTurn): Counters {
    var progress := MaterialProgress(c, t);
    c.(evidence := c.evidence + {t.evidence},
       repeats := c.repeats[t.fingerprint := Repeats(c, t)],
       streak := if t.action in READ_ONLY_ACTIONS && !progress then c.streak + 1 else 0,
       stalled := if progress then 0 else c.stalled + 1)
  }

  predicate Unchanged(t: ToolTurn) {
    t.filesAfter == 0 && t.writesAfter == 0
  }

  function JudgeTool(p: Policy, c: Counters, t: ToolTurn): Judgement {
    if t.filesAtTest > 0 then Stop(Completed)
    else
      var n := Count(c, t);
      if Unchanged(t) && (n.streak >= 2 || Repeats(c, t) >= 2) && n.corrections < p.maxCorrections then
        Continue(n.(corrections := n.corrections + 1))
      else if n.stalled >= p.maxStalled then
        Stop(if Unchanged(t) && n.corrections >= p.maxCorrections then StalledReadOnlyLoop else Stalled)
      else Continue(n)
  }

  const GOVERNANCE_PREFIX := "governance decision"

  function Judge(p: Policy, c: Counters, answer: Answer): Judgement {
    match answer
    case NoTool(feedback) =>
      if GOVERNANCE_PREFIX <= feedback then Stop(GovernancePaused)
      else if c.parseFailures + 1 >= p.maxParseFailures then Stop(ActionParseFailed)
      else Continue(c.(parseFailures := c.parseFailures + 1))
    case ToolFailed(patchMismatch, groundingError) =>
      if patchMismatch || groundingError then Continue(c) else Stop(ToolExecutionFailed)
    case ToolDone(tool) => JudgeTool(p, c, tool)
  }

  /** A run as seen at the head of the loop: still going, or ended after some number of runner calls. */
  datatype Head =
    | Running(counters: Counters, token: TokenState)
    | Ended(exit: Exit, calls: nat, token: TokenState)

  function TakeTurn(p: Policy, c: Counters, token: TokenState, turn: Turn, index: nat): Head {
    var x := Cancellation.Run(turn.acts, token);
    if x.outcome.Raised? then Ended(RunnerRaised(x.outcome.error), index + 1, x.token)
    else
      match Judge(p, c, turn.answer)
      case Stop(exit) => Ended(exit, index + 1, x.token)
      case Continue(n) =>
        var check := RunOne(Check, x.token);
        if check.outcome.Raised? then Ended(Cancelled(check.outcome.error), index + 1, x.token)
        else Running(n, x.token)
  }

  /** The run after n turns of the environment. */
  function After(p: Policy, env: nat -> Turn, token: TokenState, n: nat): Head {
    if n == 0 then Running(INITIAL, token)
    else
      match After(p, env, token, n - 1)
      case Running(c, t) => TakeTurn(p, c, t, env(n - 1), n - 1)
      case ended => ended
  }

  function NonNegative(n: int): nat {
    if n < 0 then 0 else n
  }

  function RunTask(p: Policy, env: nat -> Turn, token: TokenState, hasRunner: bool): Head {
    if token.cancelled then Ended(CancelledBeforeLlm, 0, token)
    else if !hasRunner then Ended(PipelineUnavailable, 0, token)
    else
      match After(p, env, token, NonNegative(p.maxIterations))
      case Running(_, t) => Ended(MaxIterations, NonNegative(p.maxIterations), t)
      case ended => ended
  }

  // ----- linked counters

  /** The environment answers only with the six known action types. */
  ghost predicate KnownActions(env: nat -> Turn) {
    forall i :: env(i).answer.ToolDone? ==> env(i).answer.tool.action in WRITE_ACTIONS + READ_ONLY_ACTIONS
  }

  /** At every loop head the streak equals the stall counter and only corrections stretch it. */
  lemma {:induction false} CountersStayLinked(p: Policy, env: nat -> Turn, token: TokenState, n: nat)
    requires p.maxStalled >= 1 && KnownActions(env) && After(p, env, token, n).Running?
    ensures var c := After(p, env, token, n).counters;
            && c.streak == c.stalled
            && c.stalled <= p.maxStalled - 1 + c.corrections
            && c.corrections <= NonNegative(p.maxCorrections)
    decreases n
  {
    if n > 0 {
      assert After(p, env, token, n - 1).Running?;
      CountersStayLinked(p, env, token, n - 1);
      assert env(n - 1).answer.ToolDone? ==> env(n - 1).answer.tool.action in WRITE_ACTIONS + READ_ONLY_ACTIONS;
    }
  }

  /** Turn i of the run is a completed tool turn that reaches the counters. */
  predicate CountedAt(p: Policy, env: nat -> Turn, token: TokenState, i: nat) {
    var h := After(p, env, token, i);
    && h.Running?
    && Cancellation.Run(env(i).acts, h.token).outcome.Normal?
    && env(i).answer.ToolDone?
    && env(i).answer.tool.filesAtTest == 0
  }

  predicate StallAt(p: Policy, env: nat -> Turn, token: TokenState, i: nat) {
    CountedAt(p, env, token, i) && !MaterialProgress(After(p, env, token, i).counters, env(i).answer.tool)
  }

  predicate ProgressAt(p: Policy, env: nat -> Turn, token: TokenState, i: nat) {
    CountedAt(p, env, token, i) && MaterialProgress(After(p, env, token, i).counters, env(i).answer.tool)
  }

  function Stalls(p: Policy, env: nat -> Turn, token: TokenState, lo: nat, hi: nat): nat
    requires lo <= hi
  {
    if lo == hi then 0
    else Stalls(p, env, token, lo, hi - 1) + if StallAt(p, env, token, hi - 1) then 1 else 0
  }

  lemma StallIsCounted(p: Policy, env: nat -> Turn, token: TokenState, i: nat)
    requires After(p, env, token, i + 1).Running? && !ProgressAt(p, env, token, i)
    ensures After(p, env, token, i).Running?
    ensures var before := After(p, env, token, i).counters;
            After(p, env, token, i + 1).counters.stalled
            == before.stalled + if StallAt(p, env, token, i) then 1 else 0
  {
    hide Cancellation.Run, MaterialProgress;
    assert After(p, env, token, i).Running?;
  }

  /** While the run is at a loop head, the stalls since any point without progress are in the counter. */
  lemma {:induction false} StallsAreCounted(p: Policy, env: nat -> Turn, token: TokenState, lo: nat, hi: nat)
    requires lo <= hi && After(p, env, token, hi).Running?
    requires forall i :: lo <= i < hi ==> !ProgressAt(p, env, token, i)
    ensures Stalls(p, env, token, lo, hi) <= After(p, env, token, hi).counters.stalled
    decreases hi
  {
    hide After, StallAt, ProgressAt;
    if lo < hi {
      StallIsCounted(p, env, token, hi - 1);
      StallsAreCounted(p, env, token, lo, hi - 1);
    }
  }

  /** No stretch of a run without progress holds more than maxStalled + maxCorrections stalled turns. */
  lemma {:induction false} StallsAreBounded(p: Policy, env: nat -> Turn, token: TokenState, lo: nat, hi: nat)
    requires lo <= hi && p.maxStalled >= 1 && KnownActions(env)
    requires forall i :: lo <= i < hi ==> !ProgressAt(p, env, token, i)
    ensures Stalls(p, env, token, lo, hi) <= p.maxStalled + NonNegative(p.maxCorrections)
    decreases hi
  {
    if lo < hi {
      if After(p, env, token, hi - 1).Running? {
        StallsAreCounted(p, env, token, lo, hi - 1);
        CountersStayLinked(p, env, token, hi - 1);
      } else {
        StallsAreBounded(p, env, token, lo, hi - 1);
      }
    }
  }

  // ----- how a stalled run fails

  predicate IsStallExit(e: Exit) {
    e == Stalled || e == StalledReadOnlyLoop
  }

  /** File-change counts do not move between the file-change test and the counting of the same turn. */
  ghost predicate StableFiles(env: nat -> Turn) {
    forall i :: env(i).answer.ToolDone? ==> env(i).answer.tool.filesAfter == env(i).answer.tool.filesAtTest
  }

  /** If the run stalls, it fails as a read-only loop exactly when no write tool was executed, and
      then the corrections are used up. */
  ghost predicate StallCodeHonest(p: Policy, env: nat -> Turn, token: TokenState) {
    var r := RunTask(p, env, token, true);
    IsStallExit(r.exit) ==>
      && r.calls >= 1
      && After(p, env, token, r.calls - 1).Running?
      && var last := env(r.calls - 1).answer;
      && last.ToolDone?
      && (r.exit == StalledReadOnlyLoop <==> last.tool.writesAfter == 0)
      && (r.exit == StalledReadOnlyLoop ==>
            After(p, env, token, r.calls - 1).counters.corrections >= p.maxCorrections)
  }

  /** Evidence is JSON text, which is never empty. */
  ghost predicate HasEvidence(env: nat -> Turn) {
    forall i :: env(i).answer.ToolDone? ==> env(i).answer.tool.evidence != ""
  }

  /** The policy leaves room for a correction before the run stalls, gives none, or ends the run
      before it can stall: the first turn always brings new evidence. */
  predicate StallCodeReliable(p: Policy) {
    p.maxStalled >= 2 || p.maxCorrections <= 0 || p.maxIterations <= NonNegative(p.maxStalled)
  }

  lemma StallCodeIsHonest(p: Policy, env: nat -> Turn, token: TokenState)
    requires StallCodeReliable(p) && (p.maxStalled >= 2 || p.maxCorrections <= 0 || HasEvidence(env))
    requires KnownActions(env) && StableFiles(env)
    ensures StallCodeHonest(p, env, token)
  {
    var r := RunTask(p, env, token, true);
    if IsStallExit(r.exit) {
      var i := EndingTurn(p, env, token, NonNegative(p.maxIterations));
      StallExitComesFromTool(p, env, token, i);
      var tool := env(i).answer.tool;
      assert tool.action in WRITE_ACTIONS + READ_ONLY_ACTIONS;
      assert tool.filesAfter == tool.filesAtTest;
      assert HasEvidence(env) ==> tool.evidence != "";
      if p.maxStalled >= 1 {
        CountersStayLinked(p, env, token, i);
      }
    }
  }

  /** The policies under which the stall code is honest in every environment. */
  lemma StallCodeExact(p: Policy)
    ensures (forall env: nat -> Turn, token: TokenState ::
               KnownActions(env) && StableFiles(env) && HasEvidence(env) ==> StallCodeHonest(p, env, token))
            <==> StallCodeReliable(p)
  {
    if StallCodeReliable(p) {
      forall env: nat -> Turn, token: TokenState | KnownActions(env) && StableFiles(env) && HasEvidence(env)
        ensures StallCodeHonest(p, env, token)
      {
        StallCodeIsHonest(p, env, token);
      }
    } else {
      var env := MisreportedStall(p);
    }
  }

  /** Two reads by different actions that return the same evidence, of which the first is enough when
      no stalled turn is allowed: the run fails as STALLED although no write tool was executed and
      corrections are left. */
  lemma MisreportedStall(p: Policy) returns (env: nat -> Turn)
    requires !StallCodeReliable(p)
    ensures KnownActions(env) && StableFiles(env) && HasEvidence(env)
    ensures !StallCodeHonest(p, env, FRESH)
  {
    var first := ToolTurn(0, 0, 0, 0, 0, "READ_FILE", "a", "same");
    env := (i: nat) => Turn([], ToolDone(if i == 0 then first else first.(fingerprint := "b")));
    var token := FRESH;
    assert After(p, env, token, 0) == Running(INITIAL, token);
    var one := Counters(0, 0, 0, 0, map["a" := 1], {"same"});
    assert Count(INITIAL, first) == one;
    if p.maxStalled <= 0 {
      assert After(p, env, token, 1) == Ended(Stalled, 1, token);
      EndedStays(p, env, token, 1, p.maxIterations);
    } else {
      assert After(p, env, token, 1) == Running(one, token);
      assert After(p, env, token, 2) == Ended(Stalled, 2, token);
      EndedStays(p, env, token, 2, p.maxIterations);
    }
  }

  lemma {:induction false} EndingTurn(p: Policy, env: nat -> Turn, token: TokenState, n: nat) returns (i: nat)
    requires After(p, env, token, n).Ended?
    ensures i < n && After(p, env, token, i).Running? && After(p, env, token, i + 1) == After(p, env, token, n)
    ensures After(p, env, token, n).calls == i + 1
    decreases n
  {
    if After(p, env, token, n - 1).Ended? {
      i := EndingTurn(p, env, token, n - 1);
    } else {
      i := n - 1;
    }
  }

  lemma StallExitComesFromTool(p: Policy, env: nat -> Turn, token: TokenState, i: nat)
    requires After(p, env, token, i).Running? && After(p, env, token, i + 1).Ended?
    requires IsStallExit(After(p, env, token, i + 1).exit)
    ensures env(i).answer.ToolDone?
    ensures JudgeTool(p, After(p, env, token, i).counters, env(i).answer.tool)
            == Stop(After(p, env, token, i + 1).exit)
  {
  }

  lemma {:induction false} EndedStays(p: Policy, env: nat -> Turn, token: TokenState, n: nat, m: nat)
    requires n <= m && After(p, env, token, n).Ended?
    ensures After(p, env, token, m) == After(p, env, token, n)
    decreases m
  {
    if n < m { EndedStays(p, env, token, n, m - 1); }
  }

  // ----- how a run ends, by the environment's answers alone

  /** Turn i completed a tool and no file change was found. */
  ghost predicate IsCounted(env: nat -> Turn, i: nat) {
    env(i).answer.ToolDone? && env(i).answer.tool.filesAtTest == 0
  }

  ghost predicate IsParseFailure(env: nat -> Turn, i: nat) {
    env(i).answer.NoTool? && !("governance decision" <= env(i).answer.feedback)
  }

  ghost function ParseFailures(env: nat -> Turn, n: nat): nat {
    if n == 0 then 0 else ParseFailures(env, n - 1) + if IsParseFailure(env, n - 1) then 1 else 0
  }

  ghost predicate ShowedBefore(env: nat -> Turn, n: nat, evidence: string) {
    exists j :: 0 <= j < n && IsCounted(env, j) && env(j).answer.tool.evidence == evidence
  }

  /** A file change, a write tool execution, a write action or evidence not shown before. */
  ghost predicate MakesProgress(env: nat -> Turn, i: nat)
    requires IsCounted(env, i)
  {
    var t := env(i).answer.tool;
    || t.filesAfter > t.filesBefore
    || t.writesAfter > t.writesBefore
    || t.action in {"APPLY_PATCH", "CREATE_FILE", "DELETE_FILE"}
    || (t.evidence != "" && !ShowedBefore(env, i, t.evidence))
  }

  /** The counted turns since the last progress. */
  ghost function StallsSince(env: nat -> Turn, n: nat): nat {
    if n == 0 then 0
    else if !IsCounted(env, n - 1) then StallsSince(env, n - 1)
    else if MakesProgress(env, n - 1) then 0
    else StallsSince(env, n - 1) + 1
  }

  /** The counted turns since the last that made progress or was not a read. */
  ghost function ReadsSince(env: nat -> Turn, n: nat): nat {
    if n == 0 then 0
    else if !IsCounted(env, n - 1) then ReadsSince(env, n - 1)
    else if MakesProgress(env, n - 1) || !(env(n - 1).answer.tool.action in {"READ_FILE", "SEARCH_CODE", "RUN_COMMAND"})
    then 0
    else ReadsSince(env, n - 1) + 1
  }

  /** How often the action was counted. */
  ghost function TimesDone(env: nat -> Turn, n: nat, fingerprint: string): nat {
    if n == 0 then 0
    else
      TimesDone(env, n - 1, fingerprint)
      + if IsCounted(env, n - 1) && env(n - 1).answer.tool.fingerprint == fingerprint then 1 else 0
  }

  /** The turn is answered with a correction: nothing was ever written, the agent only reads or repeats
      itself, and a correction is left. */
  ghost predicate CorrectedAt(p: Policy, env: nat -> Turn, i: nat)
    decreases i, 1
  {
    && IsCounted(env, i)
    && env(i).answer.tool.filesAfter == 0 && env(i).answer.tool.writesAfter == 0
    && (ReadsSince(env, i + 1) >= 2 || TimesDone(env, i + 1, env(i).answer.tool.fingerprint) >= 2)
    && Corrections(p, env, i) < p.maxCorrections
  }

  ghost function Corrections(p: Policy, env: nat -> Turn, n: nat): nat
    decreases n, 0
  {
    if n == 0 then 0 else Corrections(p, env, n - 1) + if CorrectedAt(p, env, n - 1) then 1 else 0
  }

  ghost function TokenBefore(env: nat -> Turn, token: TokenState, n: nat): TokenState {
    if n == 0 then token else Cancellation.Run(env(n - 1).acts, TokenBefore(env, token, n - 1)).token
  }

  ghost predicate StallsAt(p: Policy, env: nat -> Turn, i: nat) {
    IsCounted(env, i) && !CorrectedAt(p, env, i) && StallsSince(env, i + 1) >= p.maxStalled
  }

  /** No write tool was executed and no correction is left. */
  ghost predicate OnlyRead(p: Policy, env: nat -> Turn, i: nat) {
    && env(i).answer.ToolDone? && env(i).answer.tool.filesAfter == 0 && env(i).answer.tool.writesAfter == 0
    && Corrections(p, env, i) >= p.maxCorrections
  }

  /** The answer of turn i ends the run, if the runner returns. */
  ghost predicate AnswerEnds(p: Policy, env: nat -> Turn, i: nat) {
    || (env(i).answer.ToolDone? && env(i).answer.tool.filesAtTest > 0)
    || (env(i).answer.NoTool? && "governance decision" <= env(i).answer.feedback)
    || (IsParseFailure(env, i) && ParseFailures(env, i + 1) >= p.maxParseFailures)
    || (env(i).answer.ToolFailed? && !env(i).answer.patchMismatch && !env(i).answer.groundingError)
    || StallsAt(p, env, i)
  }

  /** If all turns before turn i leave the run going, it ends with this exit. */
  ghost predicate EndsAs(p: Policy, env: nat -> Turn, token: TokenState, i: nat, exit: Exit) {
    var outcome := Cancellation.Run(env(i).acts, TokenBefore(env, token, i)).outcome;
    var answer := env(i).answer;
    var after := TokenBefore(env, token, i + 1);
    match exit
    case RunnerRaised(error) => outcome == Raised(error)
    case Completed => outcome.Normal? && answer.ToolDone? && answer.tool.filesAtTest > 0
    case GovernancePaused => outcome.Normal? && answer.NoTool? && "governance decision" <= answer.feedback
    case ActionParseFailed =>
      outcome.Normal? && IsParseFailure(env, i) && ParseFailures(env, i + 1) >= p.maxParseFailures
    case ToolExecutionFailed =>
      outcome.Normal? && answer.ToolFailed? && !answer.patchMismatch && !answer.groundingError
    case StalledReadOnlyLoop => outcome.Normal? && StallsAt(p, env, i) && OnlyRead(p, env, i)
    case Stalled => outcome.Normal? && StallsAt(p, env, i) && !OnlyRead(p, env, i)
    case Cancelled(error) =>
      && outcome.Normal? && !AnswerEnds(p, env, i) && after.cancelled && after.depth == 0
      && error == CancellationRequested(if after.reason == "" then "cancelled" else after.reason)
    case _ => false
  }

  ghost predicate EndsAt(p: Policy, env: nat -> Turn, token: TokenState, i: nat) {
    exists exit :: EndsAs(p, env, token, i, exit)
  }

  /** The counters are what the answers so far amount to. */
  ghost predicate CountersMatch(p: Policy, env: nat -> Turn, n: nat, c: Counters) {
    && c.parseFailures == ParseFailures(env, n)
    && c.stalled == StallsSince(env, n)
    && c.streak == ReadsSince(env, n)
    && c.corrections == Corrections(p, env, n)
    && (forall f :: (if f in c.repeats then c.repeats[f] else 0) == TimesDone(env, n, f))
    && (forall e :: e in c.evidence <==> ShowedBefore(env, n, e))
  }

  lemma ShowedOneMore(env: nat -> Turn, n: nat, e: string)
    ensures ShowedBefore(env, n + 1, e)
            <==> ShowedBefore(env, n, e) || (IsCounted(env, n) && env(n).answer.tool.evidence == e)
  {
  }

  lemma ToolCountsMatch(p: Policy, env: nat -> Turn, i: nat, c: Counters)
    requires CountersMatch(p, env, i, c) && IsCounted(env, i)
    ensures var t := env(i).answer.tool;
            var n := Count(c, t);
            && n.stalled == StallsSince(env, i + 1) && n.streak == ReadsSince(env, i + 1)
            && Repeats(c, t) == TimesDone(env, i + 1, t.fingerprint)
            && n.corrections == Corrections(p, env, i) && n.parseFailures == ParseFailures(env, i + 1)
            && (forall f :: (if f in n.repeats then n.repeats[f] else 0) == TimesDone(env, i + 1, f))
            && (forall e :: e in n.evidence <==> ShowedBefore(env, i + 1, e))
  {
    var t := env(i).answer.tool;
    assert MaterialProgress(c, t) <==> MakesProgress(env, i);
    forall e ensures e in Count(c, t).evidence <==> ShowedBefore(env, i + 1, e) {
      ShowedOneMore(env, i, e);
    }
  }

  lemma ToolJudged(p: Policy, env: nat -> Turn, i: nat, c: Counters)
    requires CountersMatch(p, env, i, c) && IsCounted(env, i)
    ensures var judged := Judge(p, c, env(i).answer);
            if StallsAt(p, env, i) then
              judged == Stop(if OnlyRead(p, env, i) then StalledReadOnlyLoop else Stalled)
            else judged.Continue? && CountersMatch(p, env, i + 1, judged.counters)
  {
    hide StallsSince, ReadsSince, TimesDone, ShowedBefore, ParseFailures, MakesProgress, Count, Repeats;
    ToolCountsMatch(p, env, i, c);
    assert Corrections(p, env, i + 1) == Corrections(p, env, i) + if CorrectedAt(p, env, i) then 1 else 0;
  }

  lemma OtherJudged(p: Policy, env: nat -> Turn, i: nat, c: Counters)
    requires CountersMatch(p, env, i, c) && !IsCounted(env, i)
    ensures var judged := Judge(p, c, env(i).answer);
            if AnswerEnds(p, env, i) then judged.Stop? && !IsStallExit(judged.exit)
            else judged.Continue? && CountersMatch(p, env, i + 1, judged.counters)
  {
    hide MakesProgress, Count, Repeats, JudgeTool;
    var a := env(i).answer;
    if a.ToolDone? { assert JudgeTool(p, c, a.tool) == Stop(Completed) by { FileChangeCompletes(p, c, a.tool); } }
    UncountedStays(p, env, i);
  }

  lemma UncountedStays(p: Policy, env: nat -> Turn, i: nat)
    requires !IsCounted(env, i)
    ensures StallsSince(env, i + 1) == StallsSince(env, i) && ReadsSince(env, i + 1) == ReadsSince(env, i)
    ensures Corrections(p, env, i + 1) == Corrections(p, env, i)
    ensures forall f :: TimesDone(env, i + 1, f) == TimesDone(env, i, f)
    ensures forall e :: ShowedBefore(env, i + 1, e) <==> ShowedBefore(env, i, e)
  {
    forall e ensures ShowedBefore(env, i + 1, e) <==> ShowedBefore(env, i, e) {
      ShowedOneMore(env, i, e);
    }
  }

  lemma FileChangeCompletes(p: Policy, c: Counters, t: ToolTurn)
    requires t.filesAtTest > 0
    ensures JudgeTool(p, c, t) == Stop(Completed)
  {
  }

  /** One turn from a loop head: it ends the run exactly as the answers say, or leads to the next head. */
  lemma TurnByAnswers(p: Policy, env: nat -> Turn, token: TokenState, i: nat, c: Counters)
    requires CountersMatch(p, env, i, c)
    ensures match TakeTurn(p, c, TokenBefore(env, token, i), env(i), i)
            case Ended(exit, calls, after) =>
              calls == i + 1 && after == TokenBefore(env, token, i + 1) && EndsOnlyAs(p, env, token, i, exit)
            case Running(n, after) =>
              && after == TokenBefore(env, token, i + 1) && CountersMatch(p, env, i + 1, n)
              && !EndsAt(p, env, token, i)
  {
    hide CountersMatch, CorrectedAt, StallsSince, OnlyRead, ParseFailures, JudgeTool;
    if IsCounted(env, i) { ToolJudged(p, env, i, c); } else { OtherJudged(p, env, i, c); }
    if env(i).answer.ToolDone? && env(i).answer.tool.filesAtTest > 0 {
      FileChangeCompletes(p, c, env(i).answer.tool);
    }
    ParseCountMatches(p, env, i, c);
  }

  /** It ends with this exit and no other. */
  ghost predicate EndsOnlyAs(p: Policy, env: nat -> Turn, token: TokenState, i: nat, exit: Exit) {
    EndsAs(p, env, token, i, exit) && forall other :: EndsAs(p, env, token, i, other) ==> other == exit
  }

  lemma ParseCountMatches(p: Policy, env: nat -> Turn, i: nat, c: Counters)
    requires CountersMatch(p, env, i, c)
    ensures IsParseFailure(env, i) ==> c.parseFailures + 1 == ParseFailures(env, i + 1)
  {
  }

  lemma {:induction false} HeadsByAnswers(p: Policy, env: nat -> Turn, token: TokenState, n: nat)
    ensures match After(p, env, token, n)
            case Running(c, t) =>
              && t == TokenBefore(env, token, n) && CountersMatch(p, env, n, c)
              && forall j :: 0 <= j < n ==> !EndsAt(p, env, token, j)
            case Ended(exit, calls, t) =>
              && 1 <= calls <= n && t == TokenBefore(env, token, calls) && EndsOnlyAs(p, env, token, calls - 1, exit)
              && forall j :: 0 <= j < calls - 1 ==> !EndsAt(p, env, token, j)
    decreases n
  {
    hide TakeTurn, CountersMatch, EndsAt, EndsOnlyAs;
    if n == 0 {
      StartMatches(p, env);
    } else {
      HeadsByAnswers(p, env, token, n - 1);
      match After(p, env, token, n - 1)
      case Running(c, t) => TurnByAnswers(p, env, token, n - 1, c);
      case Ended(exit, calls, t) =>
    }
  }

  lemma StartMatches(p: Policy, env: nat -> Turn)
    ensures CountersMatch(p, env, 0, INITIAL)
  {
  }

  /** Turn i is the first that ends the run, and it does so with this exit. */
  ghost predicate FirstEnd(p: Policy, env: nat -> Turn, token: TokenState, i: nat, exit: Exit) {
    EndsAs(p, env, token, i, exit) && forall j :: 0 <= j < i ==> !EndsAt(p, env, token, j)
  }

  /** How and when every run ends: with exit e after i + 1 calls exactly if turn i is the first whose
      answer, with those before it, calls for an end, and e is what it calls for; with MAX_ITERATIONS
      exactly if no turn of the policy does. The token is left as the turns taken leave it. */
  lemma RunEndsExactly(p: Policy, env: nat -> Turn, token: TokenState)
    requires !token.cancelled
    ensures var r := RunTask(p, env, token, true);
            && (forall i: nat, exit: Exit {:trigger FirstEnd(p, env, token, i, exit)} ::
                  r.calls == i + 1 && r.exit == exit && exit != MaxIterations
                  <==> i < p.maxIterations && FirstEnd(p, env, token, i, exit))
            && (r.exit == MaxIterations <==> forall j :: 0 <= j < p.maxIterations ==> !EndsAt(p, env, token, j))
            && (if r.exit == MaxIterations then r.calls == NonNegative(p.maxIterations) else r.calls >= 1)
            && r.token == TokenBefore(env, token, r.calls)
  {
    hide EndsAs, TakeTurn, CountersMatch;
    HeadsByAnswers(p, env, token, NonNegative(p.maxIterations));
    MaxIterationsIsNoEnd(p, env, token);
    var r := RunTask(p, env, token, true);
    if r.exit != MaxIterations { assert EndsAt(p, env, token, r.calls - 1); }
    forall i: nat, exit: Exit
      ensures r.calls == i + 1 && r.exit == exit && exit != MaxIterations
              <==> i < p.maxIterations && FirstEnd(p, env, token, i, exit)
    {
      if i < p.maxIterations && FirstEnd(p, env, token, i, exit) {
        assert EndsAt(p, env, token, i);
      }
    }
  }

  lemma MaxIterationsIsNoEnd(p: Policy, env: nat -> Turn, token: TokenState)
    ensures forall i :: !EndsAs(p, env, token, i, MaxIterations)
  {
  }

  /** Before the first turn: a cancelled token and a missing runner are reported without any call. */
  lemma NoRunWithoutRunner(p: Policy, env: nat -> Turn, token: TokenState, hasRunner: bool)
    ensures var r := RunTask(p, env, token, hasRunner);
            && (r.exit == CancelledBeforeLlm <==> token.cancelled)
            && (r.exit == PipelineUnavailable <==> !token.cancelled && !hasRunner)
            && (token.cancelled || !hasRunner ==> r.calls == 0 && r.token == token)
  {
    hide EndsAs;
    if !token.cancelled && hasRunner {
      var r := RunTask(p, env, token, true);
      RunEndsExactly(p, env, token);
      NeverInsideTheLoop(p, env, token);
      if r.exit != MaxIterations { assert FirstEnd(p, env, token, r.calls - 1, r.exit); }
    }
  }

  lemma NeverInsideTheLoop(p: Policy, env: nat -> Turn, token: TokenState)
    ensures forall i :: !EndsAs(p, env, token, i, CancelledBeforeLlm) && !EndsAs(p, env, token, i, PipelineUnavailable)
  {
  }

  // ----- cancellation

  lemma {:induction false} DepthAtHead(p: Policy, env: nat -> Turn, token: TokenState, n: nat)
    ensures After(p, env, token, n).token.depth == token.depth
    ensures token.cancelled ==> After(p, env, token, n).token.cancelled
    decreases n
  {
    if n > 0 {
      DepthAtHead(p, env, token, n - 1);
      SectionsBalance(env(n - 1).acts, After(p, env, token, n - 1).token);
    }
  }

  /** If turn i leaves the token cancelled, the runner is not called again: the run has ended with
      turn i, whatever that turn answered. */
  lemma CancelledTurnIsLast(p: Policy, env: nat -> Turn, token: TokenState, i: nat)
    requires token.depth == 0 && !token.cancelled && i < p.maxIterations
    requires After(p, env, token, i).Running?
    requires Cancellation.Run(env(i).acts, After(p, env, token, i).token).token.cancelled
    ensures RunTask(p, env, token, true).calls == i + 1
    ensures RunTask(p, env, token, true).token.cancelled
  {
    DepthAtHead(p, env, token, i);
    SectionsBalance(env(i).acts, After(p, env, token, i).token);
    assert After(p, env, token, i + 1).Ended?;
    EndedStays(p, env, token, i + 1, p.maxIterations);
  }

  /** What happens to a task's token over time: runs of the task, and requests to cancel it. */
  datatype Use = Launch(p: Policy, env: nat -> Turn, hasRunner: bool) | RequestCancel(reason: string)

  function RunOf(use: Use, token: TokenState): Head
    requires use.Launch?
  {
    RunTask(use.p, use.env, token, use.hasRunner)
  }

  /** The token after a history of uses. */
  function TokenAfter(uses: seq<Use>, token: TokenState): TokenState {
    if uses == [] then token
    else
      var n := |uses| - 1;
      var before := TokenAfter(uses[..n], token);
      match uses[n]
      case Launch(_, _, _) => RunOf(uses[n], before).token
      case RequestCancel(reason) => RunOne(Cancel(reason), before).token
  }

  /** The runner calls of a history. */
  function Calls(uses: seq<Use>, token: TokenState): nat {
    if uses == [] then 0
    else
      var n := |uses| - 1;
      Calls(uses[..n], token) + if uses[n].Launch? then RunOf(uses[n], TokenAfter(uses[..n], token)).calls else 0
  }

  lemma {:induction false} DepthOverTime(uses: seq<Use>, token: TokenState)
    ensures TokenAfter(uses, token).depth == token.depth
    decreases |uses|
  {
    if uses != [] {
      var n := |uses| - 1;
      DepthOverTime(uses[..n], token);
      if uses[n].Launch? {
        DepthAtHead(uses[n].p, uses[n].env, TokenAfter(uses[..n], token), NonNegative(uses[n].p.maxIterations));
      }
    }
  }

  /** Cancellation is never taken back, and no run after it calls the runner. */
  lemma {:induction false} CancellationIsFinal(uses: seq<Use>, token: TokenState, i: nat)
    requires i <= |uses| && TokenAfter(uses[..i], token).cancelled
    ensures TokenAfter(uses, token).cancelled && Calls(uses, token) == Calls(uses[..i], token)
    decreases |uses|
  {
    if i < |uses| {
      var n := |uses| - 1;
      assert uses[..n][..i] == uses[..i];
      CancellationIsFinal(uses[..n], token, i);
    } else {
      assert uses[..i] == uses;
    }
  }

  /** In a history that starts with a fresh token, a turn that leaves the token cancelled makes the
      last runner call of all: the run ends with it, and later runs make none. */
  lemma NoCallAfterCancelledTurn(uses: seq<Use>, i: nat, k: nat)
    requires i < |uses| && uses[i].Launch? && uses[i].hasRunner && k < uses[i].p.maxIterations
    requires var token := TokenAfter(uses[..i], FRESH);
             && !token.cancelled
             && After(uses[i].p, uses[i].env, token, k).Running?
             && Cancellation.Run(uses[i].env(k).acts, After(uses[i].p, uses[i].env, token, k).token).token.cancelled
    ensures TokenAfter(uses, FRESH).cancelled
    ensures Calls(uses, FRESH) == Calls(uses[..i], FRESH) + k + 1
  {
    var upTo := uses[..i + 1];
    assert upTo[..i] == uses[..i] && upTo[i] == uses[i];
    DepthOverTime(uses[..i], FRESH);
    CancelledTurnIsLast(uses[i].p, uses[i].env, TokenAfter(uses[..i], FRESH), k);
    CancellationIsFinal(uses, FRESH, i + 1);
  }

  // ----- the loop itself

  lemma RunStarts(p: Policy, env: nat -> Turn, token: TokenState)
    ensures After(p, env, token, 0) == Running(INITIAL, token)
  {
  }

  lemma EndingTurnEndsRun(p: Policy, env: nat -> Turn, token: TokenState, i: nat)
    requires !token.cancelled && i < p.maxIterations && After(p, env, token, i).Running?
    ensures var h := After(p, env, token, i);
            var next := TakeTurn(p, h.counters, h.token, env(i), i);
            After(p, env, token, i + 1) == next && (next.Ended? ==> RunTask(p, env, token, true) == next)
  {
    if After(p, env, token, i + 1).Ended? {
      EndedStays(p, env, token, i + 1, p.maxIterations);
    }
  }

  /** The loop over turns. The environment's turn stands for the runner call and its token use. Each of
      the five ways back to the head of the loop has a check of its own. */
  method Execute(p: Policy, token: CancellationToken, hasRunner: bool, env: nat -> Turn)
    returns (exit: Exit, calls: nat)
    modifies token
    ensures Ended(exit, calls, token.State()) == RunTask(p, env, old(token.State()), hasRunner)
  {
    hide After;
    ghost var t0 := token.State();
    RunStarts(p, env, t0);
    calls := 0;
    if token.cancelled {
      return CancelledBeforeLlm, 0;
    }
    var open := token.RaiseIfCancelled();
    assert open.Normal?;
    if !hasRunner {
      return PipelineUnavailable, 0;
    }
    var parseFailures, stalled, streak, corrections := 0, 0, 0, 0;
    var repeats: map<string, nat> := map[];
    var evidence: set<string> := {};
    while calls < p.maxIterations
      invariant calls <= NonNegative(p.maxIterations)
      invariant parseFailures >= 0 && stalled >= 0 && streak >= 0 && corrections >= 0
      invariant After(p, env, t0, calls)
             == Running(Counters(parseFailures, stalled, streak, corrections, repeats, evidence), token.State())
    {
      var turn := env(calls);
      ghost var c := Counters(parseFailures, stalled, streak, corrections, repeats, evidence);
      ghost var before := token.State();
      var outcome := token.Perform(turn.acts);
      calls := calls + 1;
      EndingTurnEndsRun(p, env, t0, calls - 1);
      if outcome.Raised? {
        return RunnerRaised(outcome.error), calls;
      }
      match turn.answer {
        case NoTool(feedback) =>
          if GOVERNANCE_PREFIX <= feedback {
            return GovernancePaused, calls;
          }
          parseFailures := parseFailures + 1;
          if parseFailures >= p.maxParseFailures {
            return ActionParseFailed, calls;
          }
          var check := token.RaiseIfCancelled();
          if check.Raised? {
            return Cancelled(check.error), calls;
          }
          continue;
        case ToolFailed(patchMismatch, groundingError) =>
          if patchMismatch {
            var check := token.RaiseIfCancelled();
            if check.Raised? {
              return Cancelled(check.error), calls;
            }
            continue;
          }
          if groundingError {
            var check := token.RaiseIfCancelled();
            if check.Raised? {
              return Cancelled(check.error), calls;
            }
            continue;
          }
          return ToolExecutionFailed, calls;
        case ToolDone(t) =>
          if t.filesAtTest > 0 {
            return Completed, calls;
          }
          var newEvidence := t.evidence != "" && t.evidence !in evidence;
          evidence := evidence + {t.evidence};
          var times := (if t.fingerprint in repeats then repeats[t.fingerprint] else 0) + 1;
          repeats := repeats[t.fingerprint := times];
          var progress := t.filesAfter > t.filesBefore || t.writesAfter > t.writesBefore
            || t.action in WRITE_ACTIONS || newEvidence;
          streak := if t.action in READ_ONLY_ACTIONS && !progress then streak + 1 else 0;
          stalled := if progress then 0 else stalled + 1;
          if t.filesAfter == 0 && t.writesAfter == 0 && (streak >= 2 || times >= 2)
             && corrections < p.maxCorrections {
            corrections := corrections + 1;
            var check := token.RaiseIfCancelled();
            if check.Raised? {
              return Cancelled(check.error), calls;
            }
            continue;
          }
          if stalled >= p.maxStalled {
            if t.filesAfter == 0 && t.writesAfter == 0 && corrections >= p.maxCorrections {
              return StalledReadOnlyLoop, calls;
            }
            return Stalled, calls;
          }
          var check := token.RaiseIfCancelled();
          if check.Raised? {
            return Cancelled(check.error), calls;
          }
      }
    }
    return MaxIterations, calls;
  }
}

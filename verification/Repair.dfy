/** The repair loop: recording attempts per task until one passes or progress is exhausted. */
module Repair {
  import opened Basics

  datatype Attempt = Attempt(diff: string, signature: string, passed: bool)

  datatype Status = CREATED | COMPLETED | STAGNATION_WARNING | REPAIRING

  datatype Decision = Decision(continueRepair: bool, completed: bool, distinctDiffs: nat, reason: string)

  datatype Task = Task(repairCount: int, status: Status)

  datatype Result = Recorded(decision: Decision) | TaskNotFound

  datatype State = State(tasks: map<string, Task>, attempts: map<string, seq<Attempt>>)

  function Diffs(attempts: seq<Attempt>): set<string> {
    set a | a in attempts :: a.diff
  }

  /** The failure signatures seen so far, without the empty one. */
  function Signatures(attempts: seq<Attempt>): set<string> {
    set a | a in attempts && a.signature != "" :: a.signature
  }

  /** The decision on one more attempt, given the earlier ones and the task's count before it. */
  function Decide(maxRepairs: int, earlier: seq<Attempt>, count: int, a: Attempt): Decision {
    var distinct := |Diffs(earlier + [a])|;
    if a.passed then Decision(false, true, distinct, "repair passed validation")
    else if a.diff in Diffs(earlier) || a.signature in Signatures(earlier) || count + 1 >= maxRepairs then
      Decision(false, false, distinct, "repair progress exhausted")
    else Decision(true, false, distinct, "repair budget available")
  }

  function StatusAfter(d: Decision): Status {
    if d.completed then COMPLETED else if d.continueRepair then REPAIRING else STAGNATION_WARNING
  }

  function AttemptsOf(s: State, t: string): seq<Attempt> {
    if t in s.attempts then s.attempts[t] else []
  }

  function Record(maxRepairs: int, s: State, t: string, a: Attempt): State {
    if t !in s.tasks then s
    else
      var d := Decide(maxRepairs, AttemptsOf(s, t), s.tasks[t].repairCount, a);
      State(s.tasks[t := Task(s.tasks[t].repairCount + 1, StatusAfter(d))],
            s.attempts[t := AttemptsOf(s, t) + [a]])
  }

  class RepairLoop {
    const maxRepairs: int
    var tasks: map<string, Task>
    var attempts: map<string, seq<Attempt>>

    constructor (tasks: map<string, Task>, maxRepairs: int)
      ensures this.maxRepairs == maxRepairs && Current() == State(tasks, map[])
    {
      this.tasks, this.maxRepairs := tasks, maxRepairs;
      attempts := map[];
    }

    function Current(): State
      reads this
    {
      State(tasks, attempts)
    }

    method RecordAttempt(t: string, a: Attempt) returns (r: Result)
      modifies this
      ensures Current() == Record(maxRepairs, old(Current()), t, a)
      ensures r == if t in old(tasks)
                   then Recorded(Decide(maxRepairs, AttemptsOf(old(Current()), t), old(tasks)[t].repairCount, a))
                   else TaskNotFound
    {
      if t !in tasks {
        return TaskNotFound;
      }
      var earlier := if t in attempts then attempts[t] else [];
      var previousDiffs := Diffs(earlier);
      var previousFailures := Signatures(earlier);
      attempts := attempts[t := earlier + [a]];
      var count := tasks[t].repairCount + 1;
      var distinct := |Diffs(earlier + [a])|;
      if a.passed {
        tasks := tasks[t := Task(count, COMPLETED)];
        return Recorded(Decision(false, true, distinct, "repair passed validation"));
      }
      if a.diff in previousDiffs || (a.signature != "" && a.signature in previousFailures) || count >= maxRepairs {
        tasks := tasks[t := Task(count, STAGNATION_WARNING)];
        return Recorded(Decision(false, false, distinct, "repair progress exhausted"));
      }
      tasks := tasks[t := Task(count, REPAIRING)];
      return Recorded(Decision(true, false, distinct, "repair budget available"));
    }
  }

  // ----- tasks do not influence each other

  datatype Step = Step(task: string, attempt: Attempt)

  function Run(maxRepairs: int, s: State, steps: seq<Step>): State {
    if steps == [] then s
    else
      var n := |steps| - 1;
      Record(maxRepairs, Run(maxRepairs, s, steps[..n]), steps[n].task, steps[n].attempt)
  }

  /** The attempts of a run that concern one task. */
  function Only(steps: seq<Step>, t: string): seq<Attempt> {
    if steps == [] then []
    else
      var n := |steps| - 1;
      Only(steps[..n], t) + if steps[n].task == t then [steps[n].attempt] else []
  }

  /** After any run, a task's attempts are its own in order and its count has grown by their number;
      other tasks' attempts leave no trace. */
  lemma {:induction false} TasksAreIsolated(maxRepairs: int, s: State, steps: seq<Step>, t: string)
    ensures var r := Run(maxRepairs, s, steps);
            && (t in r.tasks <==> t in s.tasks)
            && (t in s.tasks ==>
                  && AttemptsOf(r, t) == AttemptsOf(s, t) + Only(steps, t)
                  && r.tasks[t].repairCount == s.tasks[t].repairCount + |Only(steps, t)|)
    decreases |steps|
  {
    if steps != [] {
      TasksAreIsolated(maxRepairs, s, steps[..|steps| - 1], t);
    }
  }

  /** The decision on the next attempt of a task after a run. */
  function NextDecision(maxRepairs: int, s: State, steps: seq<Step>, t: string, a: Attempt): Decision
    requires t in Run(maxRepairs, s, steps).tasks
  {
    var r := Run(maxRepairs, s, steps);
    Decide(maxRepairs, AttemptsOf(r, t), r.tasks[t].repairCount, a)
  }

  /** Two runs with the same attempts on a task lead to the same decision on its next attempt, whatever
      else they contain. */
  lemma DecisionIgnoresOtherTasks(maxRepairs: int, s: State, run1: seq<Step>, run2: seq<Step>, t: string, a: Attempt)
    requires t in s.tasks && Only(run1, t) == Only(run2, t)
    ensures t in Run(maxRepairs, s, run1).tasks && t in Run(maxRepairs, s, run2).tasks
    ensures NextDecision(maxRepairs, s, run1, t, a) == NextDecision(maxRepairs, s, run2, t, a)
  {
    TasksAreIsolated(maxRepairs, s, run1, t);
    TasksAreIsolated(maxRepairs, s, run2, t);
  }

  // ----- runs that stop at the first decision not to continue

  /** Every one of the attempts, made in this order from the given count, was told to continue. */
  ghost predicate AllContinued(maxRepairs: int, count: int, attempts: seq<Attempt>) {
    forall i :: 0 <= i < |attempts| ==> Decide(maxRepairs, attempts[..i], count + i, attempts[i]).continueRepair
  }

  predicate DifferentAttempts(a: Attempt, b: Attempt) {
    a.diff != b.diff && (b.signature != "" ==> a.signature != b.signature)
  }

  ghost predicate DistinctAttempts(attempts: seq<Attempt>) {
    forall i, j :: 0 <= i < j < |attempts| ==> DifferentAttempts(attempts[i], attempts[j])
  }

  lemma ContinuedAreDistinct(maxRepairs: int, count: int, attempts: seq<Attempt>)
    requires AllContinued(maxRepairs, count, attempts)
    ensures DistinctAttempts(attempts)
    ensures forall i :: 0 <= i < |attempts| ==> !attempts[i].passed
    ensures attempts != [] ==> count + |attempts| < maxRepairs
  {
    forall i, j | 0 <= i < j < |attempts|
      ensures DifferentAttempts(attempts[i], attempts[j])
    {
      assert Decide(maxRepairs, attempts[..j], count + j, attempts[j]).continueRepair;
      assert attempts[..j][i] == attempts[i] && attempts[i] in attempts[..j];
    }
    if attempts != [] {
      var n := |attempts| - 1;
      assert Decide(maxRepairs, attempts[..n], count + n, attempts[n]).continueRepair;
    }
  }

  lemma DiffsAppend(attempts: seq<Attempt>, a: Attempt)
    ensures Diffs(attempts + [a]) == Diffs(attempts) + {a.diff}
  {
    assert forall x :: x in attempts + [a] <==> x in attempts || x == a;
  }

  /** Distinct diffs are as many as the attempts. */
  lemma {:induction false} DiffsAreCounted(attempts: seq<Attempt>)
    requires DistinctAttempts(attempts)
    ensures |Diffs(attempts)| == |attempts|
    decreases |attempts|
  {
    if attempts != [] {
      var n := |attempts| - 1;
      DiffsAreCounted(attempts[..n]);
      assert attempts == attempts[..n] + [attempts[n]];
      DiffsAppend(attempts[..n], attempts[n]);
      forall a | a in attempts[..n] ensures a.diff != attempts[n].diff {
        var i :| 0 <= i < n && attempts[..n][i] == a;
        assert attempts[i] == a;
      }
    }
  }

  lemma StoppedAttempts(maxRepairs: int, count: int, own: seq<Attempt>)
    requires own != [] && AllContinued(maxRepairs, count, own[..|own| - 1])
    ensures |own| <= Max(1, maxRepairs - count)
    ensures DistinctAttempts(own[..|own| - 1])
    ensures forall i :: 0 <= i < |own| - 1 ==> Decide(maxRepairs, own[..i], count + i, own[i]).distinctDiffs == i + 1
  {
    hide Decide, AllContinued;
    ContinuedAreDistinct(maxRepairs, count, own[..|own| - 1]);
    forall i | 0 <= i < |own| - 1 ensures Decide(maxRepairs, own[..i], count + i, own[i]).distinctDiffs == i + 1 {
      DistinctPrefix(own[..|own| - 1], i + 1);
      assert own[..|own| - 1][..i + 1] == own[..i + 1];
      ReportsItsCount(maxRepairs, count + i, own, i);
    }
  }

  lemma DistinctPrefix(attempts: seq<Attempt>, n: nat)
    requires DistinctAttempts(attempts) && n <= |attempts|
    ensures DistinctAttempts(attempts[..n])
  {
  }

  lemma ReportsItsCount(maxRepairs: int, count: int, attempts: seq<Attempt>, i: nat)
    requires i < |attempts| && DistinctAttempts(attempts[..i + 1])
    ensures Decide(maxRepairs, attempts[..i], count, attempts[i]).distinctDiffs == i + 1
  {
    assert attempts[..i] + [attempts[i]] == attempts[..i + 1];
    DiffsAreCounted(attempts[..i + 1]);
  }

  /** The decision at a step of a run is the one on the task's own attempts up to it. */
  lemma DecidedInRun(maxRepairs: int, s: State, steps: seq<Step>, n: nat)
    requires n < |steps| && steps[n].task in s.tasks && steps[n].task !in s.attempts
    ensures var t := steps[n].task;
            var own := Only(steps[..n], t);
            && t in Run(maxRepairs, s, steps[..n]).tasks
            && NextDecision(maxRepairs, s, steps[..n], t, steps[n].attempt)
               == Decide(maxRepairs, own, s.tasks[t].repairCount + |own|, steps[n].attempt)
  {
    TasksAreIsolated(maxRepairs, s, steps[..n], steps[n].task);
    assert [] + Only(steps[..n], steps[n].task) == Only(steps[..n], steps[n].task);
  }

  // ----- from steps of a run to the attempts of one task

  /** Another attempt of the same task follows step n. */
  ghost predicate HasLater(steps: seq<Step>, n: nat)
    requires n < |steps|
  {
    exists m :: n < m < |steps| && steps[m].task == steps[n].task
  }

  lemma {:induction false} OnlyOfPrefix(steps: seq<Step>, t: string, n: nat)
    requires n <= |steps|
    ensures Only(steps[..n], t) <= Only(steps, t)
    decreases |steps|
  {
    if n < |steps| {
      var last := |steps| - 1;
      assert steps[..last][..n] == steps[..n];
      OnlyOfPrefix(steps[..last], t, n);
    } else {
      assert steps[..n] == steps;
    }
  }

  lemma OnlyAtStep(steps: seq<Step>, n: nat)
    requires n < |steps|
    ensures Only(steps[..n + 1], steps[n].task) == Only(steps[..n], steps[n].task) + [steps[n].attempt]
  {
    assert steps[..n + 1][..n] == steps[..n];
  }

  lemma EarlierStep(steps: seq<Step>, m: nat, n: nat)
    requires m < n < |steps|
    ensures |Only(steps[..m], steps[m].task)| < |Only(steps[..n], steps[m].task)|
  {
    hide Only;
    OnlyAtStep(steps, m);
    assert steps[..n][..m + 1] == steps[..m + 1];
    OnlyOfPrefix(steps[..n], steps[m].task, m + 1);
  }

  /** Step n is the attempt that follows those of its task before it. */
  lemma AttemptAtStep(steps: seq<Step>, n: nat)
    requires n < |steps|
    ensures var own := Only(steps, steps[n].task);
            var i := |Only(steps[..n], steps[n].task)|;
            && i < |own| && own[i] == steps[n].attempt && own[..i] == Only(steps[..n], steps[n].task)
            && (HasLater(steps, n) ==> i < |own| - 1)
  {
    hide Only;
    var t := steps[n].task;
    OnlyAtStep(steps, n);
    OnlyOfPrefix(steps, t, n + 1);
    if HasLater(steps, n) {
      var m :| n < m < |steps| && steps[m].task == t;
      EarlierStep(steps, n, m);
      OnlyAtStep(steps, m);
      OnlyOfPrefix(steps, t, m + 1);
    }
  }

  /** Attempt i of a task is made at some step. */
  lemma {:induction false} StepOfAttempt(steps: seq<Step>, t: string, i: nat) returns (n: nat)
    requires i < |Only(steps, t)|
    ensures n < |steps| && steps[n].task == t && |Only(steps[..n], t)| == i
    ensures i < |Only(steps, t)| - 1 ==> HasLater(steps, n)
    decreases |steps|
  {
    var last := |steps| - 1;
    if i < |Only(steps[..last], t)| {
      n := StepOfAttempt(steps[..last], t, i);
      assert steps[..last][..n] == steps[..n];
      if i < |Only(steps[..last], t)| - 1 {
        var m :| n < m < last && steps[..last][m].task == t;
        assert steps[m].task == t;
      }
    } else {
      n := last;
    }
  }

  /** Every attempt of the task before step n differs from this one in its diff, and in its signature
      unless that is empty. */
  ghost predicate IsNew(steps: seq<Step>, n: nat)
    requires n < |steps|
  {
    forall m :: 0 <= m < n && steps[m].task == steps[n].task ==>
      && steps[m].attempt.diff != steps[n].attempt.diff
      && (steps[n].attempt.signature == "" || steps[m].attempt.signature != steps[n].attempt.signature)
  }

  /** The diffs of the task up to step n. */
  ghost function DiffsUpTo(steps: seq<Step>, n: nat): set<string>
    requires n < |steps|
  {
    set m | 0 <= m <= n && steps[m].task == steps[n].task :: steps[m].attempt.diff
  }

  lemma {:induction false} AttemptsOfSteps(steps: seq<Step>, t: string, a: Attempt)
    ensures a in Only(steps, t) <==> exists m :: 0 <= m < |steps| && steps[m].task == t && steps[m].attempt == a
    decreases |steps|
  {
    if steps != [] {
      var n := |steps| - 1;
      AttemptsOfSteps(steps[..n], t, a);
      if m :| 0 <= m < n && steps[..n][m].task == t && steps[..n][m].attempt == a {
        assert steps[m].task == t && steps[m].attempt == a;
      }
      if m :| 0 <= m < |steps| && steps[m].task == t && steps[m].attempt == a {
        if m < n { assert steps[..n][m].task == t && steps[..n][m].attempt == a; }
      }
    }
  }

  lemma EarlierAttempts(steps: seq<Step>, n: nat)
    requires n < |steps|
    ensures var own := Only(steps[..n], steps[n].task);
            var a := steps[n].attempt;
            && (IsNew(steps, n) <==> a.diff !in Diffs(own) && a.signature !in Signatures(own))
            && Diffs(own + [a]) == DiffsUpTo(steps, n)
  {
    var t, a := steps[n].task, steps[n].attempt;
    var own := Only(steps[..n], t);
    forall x ensures x in own <==> exists m :: 0 <= m < n && steps[m].task == t && steps[m].attempt == x {
      AttemptsOfSteps(steps[..n], t, x);
      if m :| 0 <= m < n && steps[m].task == t && steps[m].attempt == x {
        assert steps[..n][m].task == t && steps[..n][m].attempt == x;
      }
    }
    forall m | 0 <= m < n && steps[m].task == t ensures steps[m].attempt in own {
    }
    DiffsAppend(own, a);
    assert steps[n].attempt == a;
    assert Diffs(own) + {a.diff} == DiffsUpTo(steps, n);
  }

  /** The decision at every step of a run over all tasks, by the steps of its task alone. */
  lemma DecisionAtStep(maxRepairs: int, s: State, steps: seq<Step>, n: nat)
    requires n < |steps| && steps[n].task in s.tasks && steps[n].task !in s.attempts
    ensures var t, a := steps[n].task, steps[n].attempt;
            && t in Run(maxRepairs, s, steps[..n]).tasks
            && var d := NextDecision(maxRepairs, s, steps[..n], t, a);
            && (d.completed <==> a.passed)
            && (d.continueRepair <==>
                  && !a.passed && IsNew(steps, n)
                  && s.tasks[t].repairCount + |Only(steps[..n], t)| + 1 < maxRepairs)
            && d.distinctDiffs == |DiffsUpTo(steps, n)|
            && d.reason == (if a.passed then "repair passed validation"
                            else if d.continueRepair then "repair budget available"
                            else "repair progress exhausted")
  {
    hide Only, Run, Diffs, Signatures, IsNew, DiffsUpTo;
    DecidedInRun(maxRepairs, s, steps, n);
    EarlierAttempts(steps, n);
  }

  /** The status of a task and its count after each of its attempts. */
  lemma StatusAfterStep(maxRepairs: int, s: State, steps: seq<Step>, n: nat)
    requires n < |steps| && steps[n].task in s.tasks && steps[n].task !in s.attempts
    ensures var t, a := steps[n].task, steps[n].attempt;
            var after := Run(maxRepairs, s, steps[..n + 1]);
            && t in after.tasks
            && after.tasks[t].repairCount == s.tasks[t].repairCount + |Only(steps[..n], t)| + 1
            && (after.tasks[t].status == COMPLETED <==> a.passed)
            && (after.tasks[t].status == REPAIRING <==> ContinuedAt(maxRepairs, s, steps, n))
            && (after.tasks[t].status != COMPLETED && after.tasks[t].status != REPAIRING
                ==> after.tasks[t].status == STAGNATION_WARNING)
  {
    hide Only, Decide;
    assert steps[..n + 1][..n] == steps[..n];
    DecisionAtStep(maxRepairs, s, steps, n);
    TasksAreIsolated(maxRepairs, s, steps[..n], steps[n].task);
  }

  // ----- runs that heed the decisions

  /** The loop decided to continue at step n of the run. */
  ghost predicate ContinuedAt(maxRepairs: int, s: State, steps: seq<Step>, n: nat)
    requires n < |steps|
  {
    && steps[n].task in Run(maxRepairs, s, steps[..n]).tasks
    && NextDecision(maxRepairs, s, steps[..n], steps[n].task, steps[n].attempt).continueRepair
  }

  /** The task is attempted again only after a decision to continue. */
  ghost predicate Heeds(maxRepairs: int, s: State, steps: seq<Step>, t: string) {
    forall n :: 0 <= n < |steps| && steps[n].task == t && HasLater(steps, n) ==> ContinuedAt(maxRepairs, s, steps, n)
  }

  lemma HeedingIsContinuing(maxRepairs: int, s: State, steps: seq<Step>, t: string)
    requires t in s.tasks && t !in s.attempts && Heeds(maxRepairs, s, steps, t) && Only(steps, t) != []
    ensures var own := Only(steps, t); AllContinued(maxRepairs, s.tasks[t].repairCount, own[..|own| - 1])
  {
    hide Decide, Only, Run;
    var own := Only(steps, t);
    var before := own[..|own| - 1];
    forall i | 0 <= i < |before|
      ensures Decide(maxRepairs, before[..i], s.tasks[t].repairCount + i, before[i]).continueRepair
    {
      var n := StepOfAttempt(steps, t, i);
      assert ContinuedAt(maxRepairs, s, steps, n);
      AttemptAtStep(steps, n);
      DecidedInRun(maxRepairs, s, steps, n);
      assert before[..i] == own[..i];
    }
  }

  /** In a run in which a task is attempted again only after a decision to continue, whatever happens
      to other tasks, it makes at most maxRepairs attempts from a count of zero; the attempts that
      others follow differ in their diffs and nonempty signatures, and the decision on each of them
      reports as many distinct diffs as attempts. */
  lemma StoppingRunIsBounded(maxRepairs: int, s: State, steps: seq<Step>, t: string)
    requires t in s.tasks && t !in s.attempts && Heeds(maxRepairs, s, steps, t)
    ensures |Only(steps, t)| <= Max(1, maxRepairs - s.tasks[t].repairCount)
    ensures forall m, n :: 0 <= m < n < |steps| && steps[m].task == steps[n].task == t && HasLater(steps, n) ==>
              DifferentAttempts(steps[m].attempt, steps[n].attempt)
    ensures forall n :: 0 <= n < |steps| && steps[n].task == t && HasLater(steps, n) ==>
              && ContinuedAt(maxRepairs, s, steps, n)
              && NextDecision(maxRepairs, s, steps[..n], t, steps[n].attempt).distinctDiffs
                 == |Only(steps[..n], t)| + 1
  {
    hide Only, Run, Decide;
    var own := Only(steps, t);
    if own != [] {
      HeedingIsContinuing(maxRepairs, s, steps, t);
      StoppedAttempts(maxRepairs, s.tasks[t].repairCount, own);
    }
    forall m, n | 0 <= m < n < |steps| && steps[m].task == steps[n].task == t && HasLater(steps, n)
      ensures DifferentAttempts(steps[m].attempt, steps[n].attempt)
    {
      AttemptAtStep(steps, m);
      AttemptAtStep(steps, n);
      EarlierStep(steps, m, n);
      var before := own[..|own| - 1];
      assert steps[m].attempt == before[|Only(steps[..m], t)|] && steps[n].attempt == before[|Only(steps[..n], t)|];
    }
    forall n | 0 <= n < |steps| && steps[n].task == t && HasLater(steps, n)
      ensures ContinuedAt(maxRepairs, s, steps, n)
      ensures NextDecision(maxRepairs, s, steps[..n], t, steps[n].attempt).distinctDiffs == |Only(steps[..n], t)| + 1
    {
      AttemptAtStep(steps, n);
      DecidedInRun(maxRepairs, s, steps, n);
    }
  }
}

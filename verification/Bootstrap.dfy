/** The background bootstrap of projects: any number of request threads schedule jobs for one worker,
    sharing a lock-protected table of project states. */
module Bootstrap {
  import opened Basics

  /** A project without an entry in the table is REGISTERED. */
  datatype Status = REGISTERED | BOOTSTRAPPING | READY | BOOTSTRAP_FAILED

  /** Where a request thread is inside _schedule_bootstrap. */
  datatype Thread =
    | Idle
    | Checked(project: string)   // the project was not READY when asked
    | Claimed(project: string)   // the table says BOOTSTRAPPING, the job is not submitted yet

  datatype System = System(
    states: map<string, Status>, threads: seq<Thread>, queue: seq<string>, running: Option<string>)

  /** One atomic step. Whether a persisted READY state is found is up to the environment. */
  datatype Step =
    | Ask(t: nat, project: string, persistedReady: bool)
    | Claim(t: nat)
    | Submit(t: nat)
    | SubmitFails(t: nat)
    | Start
    | Finish(succeeded: bool)

  function StatusOf(states: map<string, Status>, project: string): Status {
    if project in states then states[project] else REGISTERED
  }

  /** What _bootstrap_state reports as READY. */
  predicate ReportedReady(states: map<string, Status>, project: string, persistedReady: bool) {
    StatusOf(states, project) != BOOTSTRAPPING && (persistedReady || StatusOf(states, project) == READY)
  }

  /** A step that is not possible in the current state changes nothing. */
  function Apply(s: System, step: Step): System {
    match step
    case Ask(t, project, persistedReady) =>
      if t < |s.threads| && s.threads[t].Idle? && !ReportedReady(s.states, project, persistedReady) then
        s.(threads := s.threads[t := Checked(project)])
      else s
    case Claim(t) =>
      if t < |s.threads| && s.threads[t].Checked? then
        var p := s.threads[t].project;
        if StatusOf(s.states, p) == BOOTSTRAPPING then s.(threads := s.threads[t := Idle])
        else s.(states := s.states[p := BOOTSTRAPPING], threads := s.threads[t := Claimed(p)])
      else s
    case Submit(t) =>
      if t < |s.threads| && s.threads[t].Claimed? then
        s.(threads := s.threads[t := Idle], queue := s.queue + [s.threads[t].project])
      else s
    case SubmitFails(t) =>
      if t < |s.threads| && s.threads[t].Claimed? then s.(threads := s.threads[t := Idle]) else s
    case Start =>
      if s.running.None? && s.queue != [] then s.(queue := s.queue[1..], running := Some(s.queue[0])) else s
    case Finish(succeeded) =>
      if s.running.Some? then
        s.(states := s.states[s.running.value := if succeeded then READY else BOOTSTRAP_FAILED], running := None)
      else s
  }

  function Run(s: System, steps: seq<Step>): System {
    if steps == [] then s else Apply(Run(s, steps[..|steps| - 1]), steps[|steps| - 1])
  }

  function Initial(threads: nat): System {
    System(map[], seq(threads, i => Idle), [], None)
  }

  // ----- jobs

  ghost function ClaimOf(thread: Thread, p: string): nat {
    if thread == Claimed(p) then 1 else 0
  }

  ghost function Claims(threads: seq<Thread>, p: string): nat {
    if threads == [] then 0 else Claims(threads[..|threads| - 1], p) + ClaimOf(threads[|threads| - 1], p)
  }

  ghost function Running(s: System, p: string): nat {
    if s.running == Some(p) then 1 else 0
  }

  /** The number of jobs of a project that are claimed, queued or running. */
  ghost function Jobs(s: System, p: string): nat {
    Claims(s.threads, p) + multiset(s.queue)[p] + Running(s, p)
  }

  lemma {:induction false} ClaimsUpdate(threads: seq<Thread>, t: nat, thread: Thread, p: string)
    requires t < |threads|
    ensures Claims(threads[t := thread], p) == Claims(threads, p) - ClaimOf(threads[t], p) + ClaimOf(thread, p)
    decreases |threads|
  {
    var n := |threads| - 1;
    if t < n {
      ClaimsUpdate(threads[..n], t, thread, p);
      assert threads[t := thread][..n] == threads[..n][t := thread];
    } else {
      assert threads[t := thread][..n] == threads[..n];
    }
  }

  lemma {:induction false} NoClaims(threads: seq<Thread>, p: string)
    requires forall t :: 0 <= t < |threads| ==> !threads[t].Claimed?
    ensures Claims(threads, p) == 0
    decreases |threads|
  {
    if threads != [] { NoClaims(threads[..|threads| - 1], p); }
  }

  /** The thread holds a claim that step concerns. */
  predicate HoldsClaim(s: System, t: nat) {
    t < |s.threads| && s.threads[t].Claimed?
  }

  /** The claim of thread t will succeed. */
  predicate WillClaim(s: System, t: nat) {
    t < |s.threads| && s.threads[t].Checked? && StatusOf(s.states, s.threads[t].project) != BOOTSTRAPPING
  }

  /** How a step changes the number of jobs of a project. */
  ghost function Change(s: System, step: Step, p: string): int {
    match step
    case Claim(t) => if WillClaim(s, t) && s.threads[t].project == p then 1 else 0
    case SubmitFails(t) => if HoldsClaim(s, t) && s.threads[t].project == p then -1 else 0
    case Finish(_) => 0 - Running(s, p)
    case _ => 0
  }

  lemma ClaimChange(s: System, t: nat, p: string)
    ensures Jobs(Apply(s, Claim(t)), p) == Jobs(s, p) + Change(s, Claim(t), p)
  {
    if WillClaim(s, t) {
      ClaimsUpdate(s.threads, t, Claimed(s.threads[t].project), p);
    } else if t < |s.threads| {
      ClaimsUpdate(s.threads, t, Idle, p);
    }
  }

  lemma AskChange(s: System, t: nat, project: string, persistedReady: bool, p: string)
    ensures Jobs(Apply(s, Ask(t, project, persistedReady)), p) == Jobs(s, p)
  {
    if t < |s.threads| { ClaimsUpdate(s.threads, t, Checked(project), p); }
  }

  lemma SubmitChange(s: System, t: nat, p: string)
    ensures Jobs(Apply(s, Submit(t)), p) == Jobs(s, p)
    ensures Jobs(Apply(s, SubmitFails(t)), p) == Jobs(s, p) + Change(s, SubmitFails(t), p)
  {
    if HoldsClaim(s, t) { ClaimsUpdate(s.threads, t, Idle, p); }
  }

  lemma StartChange(s: System, p: string)
    ensures Jobs(Apply(s, Start), p) == Jobs(s, p)
  {
    if s.queue != [] { assert s.queue == [s.queue[0]] + s.queue[1..]; }
  }

  lemma JobsChange(s: System, step: Step, p: string)
    ensures Jobs(Apply(s, step), p) == Jobs(s, p) + Change(s, step, p)
  {
    match step
    case Ask(t, project, persistedReady) => AskChange(s, t, project, persistedReady, p);
    case Claim(t) => ClaimChange(s, t, p);
    case Submit(t) => SubmitChange(s, t, p);
    case SubmitFails(t) => SubmitChange(s, t, p);
    case Start => StartChange(s, p);
    case Finish(succeeded) =>
  }

  /** The project has exactly one job while it is BOOTSTRAPPING and none otherwise. */
  ghost predicate OneJob(s: System, p: string) {
    Jobs(s, p) == if StatusOf(s.states, p) == BOOTSTRAPPING then 1 else 0
  }

  ghost predicate OneJobEach(s: System) {
    forall p :: OneJob(s, p)
  }

  /** The step drops a claimed job without handing it to the worker. */
  predicate LosesJob(s: System, step: Step) {
    step.SubmitFails? && HoldsClaim(s, step.t)
  }

  lemma StepKeepsOneJob(s: System, step: Step, p: string)
    requires OneJob(s, p) && !LosesJob(s, step)
    ensures OneJob(Apply(s, step), p)
  {
    JobsChange(s, step, p);
  }

  /** The project is BOOTSTRAPPING without a job: nobody will run it, and asking again does not help. */
  ghost predicate Stuck(s: System, p: string) {
    StatusOf(s.states, p) == BOOTSTRAPPING && Jobs(s, p) == 0
  }

  ghost predicate SomeStuck(s: System) {
    exists p :: Stuck(s, p)
  }

  lemma StuckForever(s: System, step: Step, p: string)
    requires Stuck(s, p)
    ensures Stuck(Apply(s, step), p)
  {
    JobsChange(s, step, p);
  }

  lemma {:induction false} ClaimIsCounted(threads: seq<Thread>, t: nat)
    requires t < |threads| && threads[t].Claimed?
    ensures Claims(threads, threads[t].project) >= 1
    decreases |threads|
  {
    var n := |threads| - 1;
    if t < n { ClaimIsCounted(threads[..n], t); }
  }

  /** A failed submission leaves its project stuck, and only that one. */
  lemma LossIsLocal(s: System, t: nat)
    requires HoldsClaim(s, t)
    ensures OneJob(s, s.threads[t].project) ==> Stuck(Apply(s, SubmitFails(t)), s.threads[t].project)
    ensures forall p :: p != s.threads[t].project && OneJob(s, p) ==> OneJob(Apply(s, SubmitFails(t)), p)
  {
    ClaimIsCounted(s.threads, t);
    JobsChange(s, SubmitFails(t), s.threads[t].project);
    forall p | p != s.threads[t].project && OneJob(s, p) ensures OneJob(Apply(s, SubmitFails(t)), p) {
      JobsChange(s, SubmitFails(t), p);
    }
  }

  /** Some submission failed in the course of the run. */
  ghost predicate SomeSubmissionFailed(s: System, steps: seq<Step>) {
    if steps == [] then false
    else
      var n := |steps| - 1;
      SomeSubmissionFailed(s, steps[..n]) || LosesJob(Run(s, steps[..n]), steps[n])
  }

  lemma {:induction false} RunOutcome(threads: nat, steps: seq<Step>)
    ensures var s := Run(Initial(threads), steps);
            if SomeSubmissionFailed(Initial(threads), steps) then SomeStuck(s) else OneJobEach(s)
    decreases |steps|
  {
    var s0 := Initial(threads);
    if steps == [] {
      forall p ensures OneJob(s0, p) { NoClaims(s0.threads, p); }
    } else {
      var n := |steps| - 1;
      RunOutcome(threads, steps[..n]);
      var s := Run(s0, steps[..n]);
      if SomeSubmissionFailed(s0, steps[..n]) {
        var p :| Stuck(s, p);
        StuckForever(s, steps[n], p);
        assert Stuck(Run(s0, steps), p);
      } else if LosesJob(s, steps[n]) {
        LossIsLocal(s, steps[n].t);
        assert OneJob(s, s.threads[steps[n].t].project);
        assert Stuck(Run(s0, steps), s.threads[steps[n].t].project);
      } else {
        StepKeepsAll(s, steps[n]);
        assert forall p :: OneJob(s, p);
      }
    }
  }

  /** After any interleaving of any number of threads with the worker, every project has exactly one
      claimed, queued or running job while it is BOOTSTRAPPING and none otherwise, if and only if no
      submission failed. */
  lemma OneJobEachExactly(threads: nat, steps: seq<Step>)
    ensures OneJobEach(Run(Initial(threads), steps)) <==> !SomeSubmissionFailed(Initial(threads), steps)
  {
    RunOutcome(threads, steps);
    var s := Run(Initial(threads), steps);
    if SomeSubmissionFailed(Initial(threads), steps) {
      var p :| Stuck(s, p);
      assert !OneJob(s, p);
    }
  }

  /** Hence a project is never queued twice or while it runs, and when nothing is claimed, queued or
      running no project is left BOOTSTRAPPING. */
  lemma NoDuplicateRuns(s: System, p: string)
    requires OneJob(s, p)
    ensures s.running == Some(p) ==> p !in s.queue
    ensures forall i, j :: 0 <= i < j < |s.queue| && s.queue[i] == p ==> s.queue[j] != p
    ensures (forall t :: 0 <= t < |s.threads| ==> !s.threads[t].Claimed?) && s.queue == [] && s.running.None?
            ==> StatusOf(s.states, p) != BOOTSTRAPPING
  {
    if p in s.queue { assert p in multiset(s.queue); }
    forall i, j | 0 <= i < j < |s.queue| && s.queue[i] == p ensures s.queue[j] != p {
      assert s.queue == s.queue[..j] + ([s.queue[j]] + s.queue[j + 1..]);
      assert s.queue[..j][i] in multiset(s.queue[..j]);
    }
    if forall t :: 0 <= t < |s.threads| ==> !s.threads[t].Claimed? {
      NoClaims(s.threads, p);
    }
  }

  // ----- the code itself

  /** The shared state updated in place, one method per atomic step of the code. Every step keeps the
      balance of jobs and status of every project, except that a failed submission loses a job. */
  class Scheduler {
    var states: map<string, Status>
    var threads: seq<Thread>
    var queue: seq<string>
    var running: Option<string>

    constructor (n: nat)
      ensures State() == Initial(n) && OneJobEach(State())
    {
      states, threads, queue, running := map[], seq(n, i => Idle), [], None;
      new;
      RunOutcome(n, []);
    }

    function State(): System
      reads this
    {
      System(states, threads, queue, running)
    }

    method AskState(t: nat, project: string, persistedReady: bool)
      modifies this
      ensures State() == Apply(old(State()), Ask(t, project, persistedReady))
      ensures states == old(states) && queue == old(queue) && running == old(running)
      ensures threads == if && t < |old(threads)| && old(threads)[t].Idle?
                            && (|| (project in states && states[project] == BOOTSTRAPPING)
                                || !(persistedReady || (project in states && states[project] == READY)))
                         then old(threads)[t := Checked(project)] else old(threads)
      ensures forall p :: old(OneJob(State(), p)) ==> OneJob(State(), p)
    {
      ghost var before := State();
      if t < |threads| && threads[t].Idle? && !ReportedReady(states, project, persistedReady) {
        threads := threads[t := Checked(project)];
      }
      StepKeepsAll(before, Ask(t, project, persistedReady));
    }

    /** Under the lock: a claim is taken only for a project that has no job, and gives it one. */
    method ClaimProject(t: nat) returns (claimed: bool)
      modifies this
      ensures State() == Apply(old(State()), Claim(t))
      ensures claimed <==> t < |old(threads)| && old(threads)[t].Checked?
                           && !(old(threads)[t].project in old(states)
                                && old(states)[old(threads)[t].project] == BOOTSTRAPPING)
      ensures claimed ==> && states == old(states)[old(threads)[t].project := BOOTSTRAPPING]
                          && threads == old(threads)[t := Claimed(old(threads)[t].project)]
      ensures forall p :: old(OneJob(State(), p)) ==> OneJob(State(), p)
      ensures claimed ==>
                var p := old(threads)[t].project;
                old(OneJob(State(), p)) ==> old(Jobs(State(), p)) == 0 && Jobs(State(), p) == 1
    {
      ghost var before := State();
      StepKeepsAll(before, Claim(t));
      claimed := false;
      if t < |threads| && threads[t].Checked? {
        var project := threads[t].project;
        if project in states && states[project] == BOOTSTRAPPING {
          threads := threads[t := Idle];
          return;
        }
        states := states[project := BOOTSTRAPPING];
        threads := threads[t := Claimed(project)];
        claimed := true;
      }
    }

    /** Outside the lock: an accepted submission hands the claimed job on; a failed one loses it, and
        the project is stuck. */
    method SubmitJob(t: nat, accepted: bool)
      modifies this
      ensures State() == Apply(old(State()), if accepted then Submit(t) else SubmitFails(t))
      ensures accepted && t < |old(threads)| && old(threads)[t].Claimed? ==>
                queue == old(queue) + [old(threads)[t].project] && threads == old(threads)[t := Idle]
      ensures accepted || !HoldsClaim(old(State()), t) ==>
                forall p :: old(OneJob(State(), p)) ==> OneJob(State(), p)
      ensures !accepted && HoldsClaim(old(State()), t) ==>
                var lost := old(threads)[t].project;
                && (old(OneJob(State(), lost)) ==> Stuck(State(), lost))
                && forall p :: p != lost && old(OneJob(State(), p)) ==> OneJob(State(), p)
    {
      ghost var before := State();
      if accepted || !HoldsClaim(before, t) {
        StepKeepsAll(before, if accepted then Submit(t) else SubmitFails(t));
      } else {
        LossIsLocal(before, t);
      }
      if t < |threads| && threads[t].Claimed? {
        if accepted {
          queue := queue + [threads[t].project];
        }
        threads := threads[t := Idle];
      }
    }

    method StartJob()
      modifies this
      ensures State() == Apply(old(State()), Start)
      ensures old(running).None? && old(queue) != [] ==>
                running == Some(old(queue)[0]) && queue == old(queue)[1..]
      ensures forall p :: old(OneJob(State(), p)) ==> OneJob(State(), p)
    {
      StepKeepsAll(State(), Start);
      if running.None? && queue != [] {
        running := Some(queue[0]);
        queue := queue[1..];
      }
    }

    /** Under the lock: whether it succeeded or not, the project has no job left and may be asked for again. */
    method FinishJob(succeeded: bool)
      modifies this
      ensures State() == Apply(old(State()), Finish(succeeded))
      ensures forall p :: old(OneJob(State(), p)) ==> OneJob(State(), p)
      ensures old(running).Some? ==>
                var p := old(running).value;
                && states == old(states)[p := if succeeded then READY else BOOTSTRAP_FAILED] && running.None?
                && (old(OneJob(State(), p)) ==> Jobs(State(), p) == 0)
    {
      ghost var before := State();
      StepKeepsAll(before, Finish(succeeded));
      if running.Some? {
        states := states[running.value := if succeeded then READY else BOOTSTRAP_FAILED];
        running := None;
      }
    }
  }

  lemma StepKeepsAll(s: System, step: Step)
    requires !LosesJob(s, step)
    ensures forall p :: OneJob(s, p) ==> OneJob(Apply(s, step), p)
  {
    forall p | OneJob(s, p) ensures OneJob(Apply(s, step), p) {
      StepKeepsOneJob(s, step, p);
    }
  }
}

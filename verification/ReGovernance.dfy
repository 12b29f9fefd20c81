/** Re-governance: when a task's scope grows, everything that authorised its execution is retired. */
module ReGovernance {
  import opened Schema
  import opened Sorting
  import Text

  datatype ReportStatus = CURRENT | STALE | REPORT_SUPERSEDED
  datatype Report = Report(taskId: string, status: ReportStatus)

  datatype RequestStatus = PENDING | APPROVED | REJECTED | REQUEST_EXPIRED | REQUEST_SUPERSEDED
  datatype Request = Request(taskId: string, status: RequestStatus)

  datatype PlanStatus = PLAN_ACTIVE | PLAN_SUPERSEDED | PLAN_EXPIRED
  datatype Plan = Plan(taskId: string, status: PlanStatus)

  datatype Task = Task(status: string, failureCode: string, failureMessage: string)

  datatype Database = Database(
    tables: Tables,
    tasks: map<string, Task>,
    reports: map<string, Report>,
    requests: map<string, Request>,
    plans: map<string, Plan>)

  datatype Outcome =
    | ReGoverned(taskId: string, reason: string, evidenceRef: string, invalidatedPolicyIds: seq<string>)
    | TaskNotFound

  /** The rows with those selected replaced. */
  function Replaced<T>(rows: map<string, T>, selected: T -> bool, update: T -> T): map<string, T> {
    map id | id in rows :: if selected(rows[id]) then update(rows[id]) else rows[id]
  }

  function SelectedIds<T>(rows: map<string, T>, selected: T -> bool): set<string> {
    set id | id in rows && selected(rows[id])
  }

  /** The loop over a query's rows: every selected row is updated in place, its id collected. */
  method UpdateWhere<T>(rows: map<string, T>, selected: T -> bool, update: T -> T)
    returns (result: map<string, T>, ids: seq<string>)
    ensures result == Replaced(rows, selected, update)
    ensures multiset(ids) == multiset(SelectedIds(rows, selected))
  {
    result, ids := rows, [];
    var todo := SelectedIds(rows, selected);
    ghost var all := todo;
    while todo != {}
      invariant todo <= all
      invariant result == map id | id in rows :: if id in all - todo then update(rows[id]) else rows[id]
      invariant multiset(ids) + multiset(todo) == multiset(all)
      decreases todo
    {
      var id :| id in todo;
      result := result[id := update(result[id])];
      ids := ids + [id];
      todo := todo - {id};
    }
  }

  // ----- which rows are concerned, and what becomes of them

  predicate IsCurrentReport(t: string, r: Report) { r.taskId == t && r.status == CURRENT }
  predicate IsActiveDecision(t: string, d: Decision) { d.taskId == t && d.status == DECISION_ACTIVE }
  predicate IsOpenRequest(t: string, r: Request) { r.taskId == t && (r.status == PENDING || r.status == APPROVED) }
  predicate IsActivePolicy(t: string, p: Policy) { p.taskId == t && p.status == POLICY_ACTIVE }
  predicate IsActivePlan(t: string, p: Plan) { p.taskId == t && p.status == PLAN_ACTIVE }

  function RetirePolicy(p: Policy): Policy { p.(status := POLICY_SUPERSEDED, executable := false) }

  function BlockedTask(newPaths: seq<string>, evidenceRef: string): Task {
    Task("BLOCKED", "ANALYSIS_REQUIRED",
         "New scope requires re-governance: " + Text.Join(SortBy(newPaths, NameKey), ", ") + " (" + evidenceRef + ")")
  }

  /** The database after re-governance of an existing task. */
  function After(db: Database, t: string, newPaths: seq<string>, evidenceRef: string): Database {
    Database(
      db.tables.(
        decisions := Replaced(db.tables.decisions, d => IsActiveDecision(t, d),
                              (d: Decision) => d.(status := DECISION_SUPERSEDED)),
        policies := Replaced(db.tables.policies, p => IsActivePolicy(t, p), RetirePolicy)),
      db.tasks[t := BlockedTask(newPaths, evidenceRef)],
      Replaced(db.reports, r => IsCurrentReport(t, r), (r: Report) => r.(status := STALE)),
      Replaced(db.requests, r => IsOpenRequest(t, r), (r: Request) => r.(status := REQUEST_SUPERSEDED)),
      Replaced(db.plans, p => IsActivePlan(t, p), (p: Plan) => p.(status := PLAN_SUPERSEDED)))
  }

  class Service {
    var db: Database

    constructor (db: Database)
      ensures this.db == db
    {
      this.db := db;
    }

    method TriggerNewScope(t: string, newPaths: seq<string>, evidenceRef: string) returns (r: Outcome)
      modifies this
      ensures t !in old(db).tasks ==> r == TaskNotFound && db == old(db)
      ensures t in old(db).tasks ==>
                && db == After(old(db), t, newPaths, evidenceRef)
                && r.ReGoverned? && r.taskId == t && r.reason == "new_file_scope" && r.evidenceRef == evidenceRef
                && InOrder(r.invalidatedPolicyIds)
                && multiset(r.invalidatedPolicyIds)
                   == multiset(SelectedIds(old(db).tables.policies, p => IsActivePolicy(t, p)))
    {
      if t !in db.tasks {
        return TaskNotFound;
      }
      var reports, _ := UpdateWhere(db.reports, r => IsCurrentReport(t, r), (r: Report) => r.(status := STALE));
      var decisions, _ := UpdateWhere(db.tables.decisions, d => IsActiveDecision(t, d),
                                      (d: Decision) => d.(status := DECISION_SUPERSEDED));
      var requests, _ := UpdateWhere(db.requests, r => IsOpenRequest(t, r),
                                     (r: Request) => r.(status := REQUEST_SUPERSEDED));
      var policies, ids := UpdateWhere(db.tables.policies, p => IsActivePolicy(t, p), RetirePolicy);
      var plans, _ := UpdateWhere(db.plans, p => IsActivePlan(t, p), (p: Plan) => p.(status := PLAN_SUPERSEDED));
      db := Database(db.tables.(decisions := decisions, policies := policies),
                     db.tasks[t := BlockedTask(newPaths, evidenceRef)], reports, requests, plans);
      NamesInOrder(ids);
      return ReGoverned(t, "new_file_scope", evidenceRef, SortBy(ids, NameKey));
    }
  }

  // ----- what re-governance keeps and what it removes

  /** What becomes of every row: the active ones of the task are retired, all others stay as they are,
      and the task is blocked with the new paths in order as its message. */
  lemma RowsAfter(db: Database, t: string, newPaths: seq<string>, evidenceRef: string) returns (names: seq<string>)
    ensures InOrder(names) && multiset(names) == multiset(newPaths)
    ensures var after := After(db, t, newPaths, evidenceRef);
            && after.tasks == db.tasks[t := Task("BLOCKED", "ANALYSIS_REQUIRED",
                 "New scope requires re-governance: " + Text.Join(names, ", ") + " (" + evidenceRef + ")")]
            && after.tables.locks == db.tables.locks && after.tables.transactions == db.tables.transactions
            && after.tables.decisions == (map id | id in db.tables.decisions :: var d := db.tables.decisions[id];
                 if d.taskId == t && d.status == DECISION_ACTIVE then d.(status := DECISION_SUPERSEDED) else d)
            && after.tables.policies == (map id | id in db.tables.policies :: var p := db.tables.policies[id];
                 if p.taskId == t && p.status == POLICY_ACTIVE
                 then p.(status := POLICY_SUPERSEDED, executable := false) else p)
            && after.reports == (map id | id in db.reports :: var r := db.reports[id];
                 if r.taskId == t && r.status == CURRENT then r.(status := STALE) else r)
            && after.requests == (map id | id in db.requests :: var r := db.requests[id];
                 if r.taskId == t && (r.status == PENDING || r.status == APPROVED)
                 then r.(status := REQUEST_SUPERSEDED) else r)
            && after.plans == (map id | id in db.plans :: var p := db.plans[id];
                 if p.taskId == t && p.status == PLAN_ACTIVE then p.(status := PLAN_SUPERSEDED) else p)
  {
    hide SortBy, Text.Join;
    names := SortBy(newPaths, NameKey);
    NamesInOrder(newPaths);
  }

  /** Nothing of the task stays authorised. */
  lemma NothingStaysActive(db: Database, t: string, newPaths: seq<string>, evidenceRef: string)
    ensures var after := After(db, t, newPaths, evidenceRef);
            && (forall id :: id in after.tables.decisions ==> !IsActiveDecision(t, after.tables.decisions[id]))
            && (forall id :: id in after.tables.policies && after.tables.policies[id].taskId == t
                             ==> && after.tables.policies[id].status != POLICY_ACTIVE
                                 && !IsArmed(after.tables.policies[id]))
            && (forall id :: id in after.reports ==> !IsCurrentReport(t, after.reports[id]))
            && (forall id :: id in after.requests ==> !IsOpenRequest(t, after.requests[id]))
            && (forall id :: id in after.plans ==> !IsActivePlan(t, after.plans[id]))
  {
  }

  /** Rows of other tasks, the verdicts of all decisions and the owners of all rows are untouched. */
  lemma OtherTasksUntouched(db: Database, t: string, newPaths: seq<string>, evidenceRef: string)
    ensures var after := After(db, t, newPaths, evidenceRef);
            && after.tables.decisions.Keys == db.tables.decisions.Keys
            && after.tables.policies.Keys == db.tables.policies.Keys
            && after.reports.Keys == db.reports.Keys
            && after.requests.Keys == db.requests.Keys
            && after.plans.Keys == db.plans.Keys
            && (forall id :: id in db.tables.decisions ==>
                  && after.tables.decisions[id].verdict == db.tables.decisions[id].verdict
                  && (db.tables.decisions[id].taskId != t ==> after.tables.decisions[id] == db.tables.decisions[id]))
            && (forall id :: id in db.tables.policies && db.tables.policies[id].taskId != t
                             ==> after.tables.policies[id] == db.tables.policies[id])
            && (forall id :: id in db.reports && db.reports[id].taskId != t ==> after.reports[id] == db.reports[id])
            && (forall id :: id in db.requests && db.requests[id].taskId != t ==> after.requests[id] == db.requests[id])
            && (forall id :: id in db.plans && db.plans[id].taskId != t ==> after.plans[id] == db.plans[id])
            && (forall u :: u in db.tasks && u != t ==> after.tasks[u] == db.tasks[u])
  {
  }

  /** The retired policies are exactly those that were active and no longer are. */
  lemma RetiredExactly(db: Database, t: string, newPaths: seq<string>, evidenceRef: string, id: string)
    ensures id in SelectedIds(db.tables.policies, p => IsActivePolicy(t, p))
            <==> id in db.tables.policies && db.tables.policies[id].status == POLICY_ACTIVE
                 && After(db, t, newPaths, evidenceRef).tables.policies[id].status != POLICY_ACTIVE
  {
  }

  // ----- re-governance is a run of accepted row writes

  /** Every write of the list is accepted when its turn comes, and no verdict changes. */
  ghost predicate AllAccepted(db: Tables, writes: seq<Write>) {
    if writes == [] then true
    else
      var n := |writes| - 1;
      var before := Run(db, writes[..n]);
      && AllAccepted(db, writes[..n])
      && Accepts(before, writes[n])
      && (writes[n].PutDecision? ==> KeepsVerdict(before, writes[n]))
  }

  lemma AcceptOneMore(db: Tables, writes: seq<Write>, w: Write)
    requires AllAccepted(db, writes) && Accepts(Run(db, writes), w)
    requires w.PutDecision? ==> KeepsVerdict(Run(db, writes), w)
    ensures AllAccepted(db, writes + [w]) && Run(db, writes + [w]) == Apply(Run(db, writes), w)
  {
    assert (writes + [w])[..|writes|] == writes;
  }

  ghost function SupersededIn(decisions: map<string, Decision>, done: set<string>): map<string, Decision> {
    map id | id in decisions :: if id in done then decisions[id].(status := DECISION_SUPERSEDED) else decisions[id]
  }

  ghost function RetiredIn(policies: map<string, Policy>, done: set<string>): map<string, Policy> {
    map id | id in policies :: if id in done then RetirePolicy(policies[id]) else policies[id]
  }

  lemma {:induction false} SupersedeByWrites(db: Tables, done: set<string>) returns (writes: seq<Write>)
    requires done <= db.decisions.Keys
    ensures AllAccepted(db, writes)
    ensures Run(db, writes) == db.(decisions := SupersededIn(db.decisions, done))
    decreases done
  {
    writes := [];
    if done != {} {
      var id :| id in done;
      var rest := SupersedeByWrites(db, done - {id});
      var w := PutDecision(id, db.decisions[id].(status := DECISION_SUPERSEDED));
      AcceptOneMore(db, rest, w);
      writes := rest + [w];
      assert SupersededIn(db.decisions, done - {id})[id := w.decision] == SupersededIn(db.decisions, done);
    } else {
      assert SupersededIn(db.decisions, done) == db.decisions;
    }
  }

  lemma {:induction false} RetireByWrites(db: Tables, before: seq<Write>, done: set<string>)
    returns (writes: seq<Write>)
    requires AllAccepted(db, before) && PoliciesHaveDecisions(Run(db, before)) && done <= Run(db, before).policies.Keys
    ensures AllAccepted(db, writes)
    ensures Run(db, writes) == Run(db, before).(policies := RetiredIn(Run(db, before).policies, done))
    decreases done
  {
    var start := Run(db, before);
    writes := before;
    if done != {} {
      var id :| id in done;
      var rest := RetireByWrites(db, before, done - {id});
      var w := PutPolicy(id, RetirePolicy(start.policies[id]));
      AcceptOneMore(db, rest, w);
      writes := rest + [w];
      assert RetiredIn(start.policies, done - {id})[id := w.policy] == RetiredIn(start.policies, done);
    } else {
      assert RetiredIn(start.policies, done) == start.policies;
    }
  }

  /** The triggers never stand in the way: the new tables are reached by row writes that are all
      accepted and leave every verdict as it was. */
  lemma IsAcceptedRun(db: Database, t: string, newPaths: seq<string>, evidenceRef: string) returns (writes: seq<Write>)
    requires PoliciesHaveDecisions(db.tables)
    ensures AllAccepted(db.tables, writes)
    ensures Run(db.tables, writes) == After(db, t, newPaths, evidenceRef).tables
  {
    var decisions := SelectedIds(db.tables.decisions, d => IsActiveDecision(t, d));
    var policies := SelectedIds(db.tables.policies, p => IsActivePolicy(t, p));
    var first := SupersedeByWrites(db.tables, decisions);
    writes := RetireByWrites(db.tables, first, policies);
    var after := After(db, t, newPaths, evidenceRef).tables;
    assert SupersededIn(db.tables.decisions, decisions) == after.decisions;
    assert RetiredIn(db.tables.policies, policies) == after.policies;
  }

  lemma {:induction false} RunConcat(db: Tables, a: seq<Write>, b: seq<Write>)
    ensures Run(db, a + b) == Run(Run(db, a), b)
    decreases |b|
  {
    if b == [] {
      assert a + b == a;
    } else {
      assert (a + b)[..|a + b| - 1] == a + b[..|b| - 1];
      RunConcat(db, a, b[..|b| - 1]);
    }
  }

  /** Tables reached from empty ones by accepted writes are reached so after re-governance, too; what
      holds in every run of writes therefore goes on holding. */
  lemma StaysReachable(history: seq<Write>, db: Database, t: string, newPaths: seq<string>, evidenceRef: string)
    returns (longer: seq<Write>)
    requires db.tables == Run(EMPTY, history) && VerdictsWrittenOnce(history)
    ensures history <= longer && VerdictsWrittenOnce(longer)
    ensures Run(EMPTY, longer) == After(db, t, newPaths, evidenceRef).tables
    ensures OneWriteLock(Run(EMPTY, longer)) && NoArmedBlock(Run(EMPTY, longer))
  {
    LocksGuardCommits(history);
    var writes := IsAcceptedRun(db, t, newPaths, evidenceRef);
    longer := history + writes;
    RunConcat(EMPTY, history, writes);
    VerdictsStayOnce(history, db.tables, writes);
    LocksGuardCommits(longer);
    NoArmedBlockEver(longer);
  }

  lemma {:induction false} VerdictsStayOnce(history: seq<Write>, db: Tables, writes: seq<Write>)
    requires db == Run(EMPTY, history) && VerdictsWrittenOnce(history) && AllAccepted(db, writes)
    ensures VerdictsWrittenOnce(history + writes)
    decreases |writes|
  {
    if writes == [] {
      assert history + writes == history;
    } else {
      var n := |writes| - 1;
      VerdictsStayOnce(history, db, writes[..n]);
      RunConcat(EMPTY, history, writes[..n]);
      var all := history + writes;
      forall i | 0 <= i < |all| && all[i].PutDecision? ensures KeepsVerdict(Run(EMPTY, all[..i]), all[i]) {
        if i < |all| - 1 {
          assert all[..i] == (history + writes[..n])[..i] && all[i] == (history + writes[..n])[i];
        } else {
          assert all[..i] == history + writes[..n];
        }
      }
    }
  }
}

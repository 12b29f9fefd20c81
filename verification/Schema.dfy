/** The rows and the constraints of the governance and execution tables: which single row writes the
    database accepts, and what holds after every run of accepted writes. */
module Schema {
  import opened Basics

  datatype LockMode = READ | WRITE
  datatype LockStatus = LOCK_ACTIVE | RELEASED | LOCK_EXPIRED
  datatype Lock = Lock(projectId: string, taskId: string, mode: LockMode, status: LockStatus)

  datatype TransactionState = PREPARED | APPLYING | COMMITTED | ROLLED_BACK | CONFLICT
  datatype Transaction = Transaction(
    taskId: string, projectId: string, lockId: Option<string>, state: TransactionState)

  datatype Verdict = ALLOW | WARN | BLOCK
  datatype DecisionStatus = DECISION_ACTIVE | DECISION_EXPIRED | DECISION_SUPERSEDED
  datatype Decision = Decision(taskId: string, verdict: Verdict, status: DecisionStatus)

  datatype PolicyStatus = POLICY_ACTIVE | POLICY_EXPIRED | POLICY_SUPERSEDED | REVOKED
  datatype Policy = Policy(taskId: string, decisionId: string, status: PolicyStatus, executable: bool)

  datatype Tables = Tables(
    locks: map<string, Lock>,
    transactions: map<string, Transaction>,
    decisions: map<string, Decision>,
    policies: map<string, Policy>)

  const EMPTY := Tables(map[], map[], map[], map[])

  /** Inserts and updates meet the same triggers, so one write stands for both. */
  datatype Write =
    | PutLock(id: string, lock: Lock)
    | DeleteLock(id: string)
    | PutTransaction(id: string, transaction: Transaction)
    | DeleteTransaction(id: string)
    | PutDecision(id: string, decision: Decision)
    | DeleteDecision(id: string)
    | PutPolicy(id: string, policy: Policy)
    | DeletePolicy(id: string)

  predicate IsActiveWrite(l: Lock) {
    l.mode == WRITE && l.status == LOCK_ACTIVE
  }

  /** The lock a committing transaction must name. */
  predicate HoldsWriteLock(db: Tables, t: Transaction) {
    && t.lockId.Some?
    && t.lockId.value in db.locks
    && db.locks[t.lockId.value].projectId == t.projectId
    && IsActiveWrite(db.locks[t.lockId.value])
  }

  predicate IsArmed(p: Policy) {
    p.status == POLICY_ACTIVE && p.executable
  }

  /** Unique index, check constraints, foreign keys and triggers. */
  predicate Accepts(db: Tables, w: Write) {
    match w
    case PutLock(id, lock) =>
      IsActiveWrite(lock) ==>
        forall other :: other in db.locks && other != id && IsActiveWrite(db.locks[other])
                        ==> db.locks[other].projectId != lock.projectId
    case DeleteLock(id) =>
      forall t :: t in db.transactions ==> db.transactions[t].lockId != Some(id)
    case PutTransaction(id, t) =>
      && (t.lockId.Some? ==> t.lockId.value in db.locks)
      && (t.state == COMMITTED ==> HoldsWriteLock(db, t))
    case DeleteTransaction(id) => true
    case PutDecision(id, d) => true
    case DeleteDecision(id) =>
      forall p :: p in db.policies ==> db.policies[p].decisionId != id
    case PutPolicy(id, p) =>
      && p.decisionId in db.decisions
      && (IsArmed(p) ==> db.decisions[p.decisionId].verdict != BLOCK)
    case DeletePolicy(id) => true
  }

  /** The tables with the write carried out. */
  function Written(db: Tables, w: Write): Tables {
    match w
    case PutLock(id, lock) => db.(locks := db.locks[id := lock])
    case DeleteLock(id) => db.(locks := db.locks - {id})
    case PutTransaction(id, t) => db.(transactions := db.transactions[id := t])
    case DeleteTransaction(id) => db.(transactions := db.transactions - {id})
    case PutDecision(id, d) => db.(decisions := db.decisions[id := d])
    case DeleteDecision(id) => db.(decisions := db.decisions - {id})
    case PutPolicy(id, p) => db.(policies := db.policies[id := p])
    case DeletePolicy(id) => db.(policies := db.policies - {id})
  }

  /** A write that is not accepted is aborted. */
  function Apply(db: Tables, w: Write): Tables {
    if Accepts(db, w) then Written(db, w) else db
  }

  function Run(db: Tables, writes: seq<Write>): Tables {
    if writes == [] then db else Apply(Run(db, writes[..|writes| - 1]), writes[|writes| - 1])
  }

  /** No project has two active write locks. */
  ghost predicate OneWriteLock(db: Tables) {
    forall a, b ::
      a in db.locks && b in db.locks && db.locks[a].projectId == db.locks[b].projectId
      && db.locks[a].mode == WRITE && db.locks[a].status == LOCK_ACTIVE
      && db.locks[b].mode == WRITE && db.locks[b].status == LOCK_ACTIVE
      ==> a == b
  }

  ghost predicate PoliciesHaveDecisions(db: Tables) {
    forall p :: p in db.policies ==> db.policies[p].decisionId in db.decisions
  }

  /** No active executable policy belongs to a decision to block. */
  ghost predicate NoArmedBlock(db: Tables) {
    forall p ::
      p in db.policies && db.policies[p].status == POLICY_ACTIVE && db.policies[p].executable
      && db.policies[p].decisionId in db.decisions
      ==> db.decisions[db.policies[p].decisionId].verdict != BLOCK
  }

  lemma WriteKeepsLocks(db: Tables, w: Write)
    requires OneWriteLock(db)
    ensures OneWriteLock(Apply(db, w))
  {
  }

  lemma WriteKeepsReferences(db: Tables, w: Write)
    requires PoliciesHaveDecisions(db)
    ensures PoliciesHaveDecisions(Apply(db, w))
  {
  }

  /** In every run each project has at most one active write lock, and every accepted write that
      leaves a transaction committed names that lock while it is active. */
  lemma {:induction false} LocksGuardCommits(writes: seq<Write>)
    ensures OneWriteLock(Run(EMPTY, writes)) && PoliciesHaveDecisions(Run(EMPTY, writes))
    ensures forall i :: 0 <= i < |writes| && writes[i].PutTransaction? && writes[i].transaction.state == COMMITTED
                        && Accepts(Run(EMPTY, writes[..i]), writes[i])
                        ==> CommitsUnderLock(Run(EMPTY, writes[..i + 1]), writes[i].transaction)
    decreases |writes|
  {
    if writes != [] {
      var n := |writes| - 1;
      LocksGuardCommits(writes[..n]);
      var db := Run(EMPTY, writes[..n]);
      WriteKeepsLocks(db, writes[n]);
      WriteKeepsReferences(db, writes[n]);
      forall i | 0 <= i < |writes| && writes[i].PutTransaction? && writes[i].transaction.state == COMMITTED
                 && Accepts(Run(EMPTY, writes[..i]), writes[i])
        ensures CommitsUnderLock(Run(EMPTY, writes[..i + 1]), writes[i].transaction)
      {
        if i < n {
          assert writes[..n][..i] == writes[..i] && writes[..n][..i + 1] == writes[..i + 1];
          assert writes[..n][i] == writes[i];
        } else {
          assert writes[..i + 1] == writes;
        }
      }
    }
  }

  /** The transaction names the one active write lock of its project. */
  ghost predicate CommitsUnderLock(db: Tables, t: Transaction) {
    && t.lockId.Some? && t.lockId.value in db.locks
    && (forall l :: l in db.locks ==>
          (db.locks[l].projectId == t.projectId && db.locks[l].mode == WRITE && db.locks[l].status == LOCK_ACTIVE
           <==> l == t.lockId.value))
  }

  // ----- what is accepted

  /** Unique index and foreign keys. */
  ghost predicate Consistent(db: Tables) {
    && OneWriteLock(db)
    && PoliciesHaveDecisions(db)
    && forall t :: t in db.transactions && db.transactions[t].lockId.Some?
                   ==> db.transactions[t].lockId.value in db.locks
  }

  /** The triggers on the row written: a commit names an active write lock of its project, an active
      executable policy has a decision that does not block. */
  ghost predicate PassesTriggers(db: Tables, w: Write) {
    && (w.PutTransaction? && w.transaction.state == COMMITTED ==>
          exists l :: l in db.locks && w.transaction.lockId == Some(l)
                      && db.locks[l].projectId == w.transaction.projectId
                      && db.locks[l].mode == WRITE && db.locks[l].status == LOCK_ACTIVE)
    && (w.PutPolicy? && w.policy.status == POLICY_ACTIVE && w.policy.executable ==>
          !(w.policy.decisionId in db.decisions && db.decisions[w.policy.decisionId].verdict == BLOCK))
  }

  /** A write is accepted exactly if the tables are consistent afterwards and its row passes the triggers. */
  lemma AcceptsExactly(db: Tables, w: Write)
    requires Consistent(db)
    ensures Accepts(db, w) <==> Consistent(Written(db, w)) && PassesTriggers(db, w)
  {
    var after := Written(db, w);
    match w
    case PutLock(id, lock) => LockAccepted(db, id, lock);
    case DeleteLock(id) =>
      forall t | t in db.transactions && db.transactions[t].lockId == Some(id) ensures !Consistent(after) {
        assert t in after.transactions;
      }
    case PutTransaction(id, t) =>
      if Consistent(after) { assert after.transactions[id] == t; }
    case DeleteDecision(id) =>
      forall p | p in db.policies && db.policies[p].decisionId == id ensures !Consistent(after) {
        assert p in after.policies;
      }
    case PutPolicy(id, p) =>
      if Consistent(after) { assert after.policies[id] == p; }
    case _ =>
  }

  lemma LockAccepted(db: Tables, id: string, lock: Lock)
    requires Consistent(db)
    ensures Accepts(db, PutLock(id, lock)) <==> Consistent(Written(db, PutLock(id, lock)))
  {
    var after := Written(db, PutLock(id, lock));
    assert after.locks[id] == lock;
    forall other | other in db.locks && other != id ensures after.locks[other] == db.locks[other] {
    }
  }

  // ----- properties of whole runs

  /** A property of the tables holds from the start to the end of a run. */
  ghost predicate Throughout(good: Tables -> bool, writes: seq<Write>) {
    forall i :: 0 <= i <= |writes| ==> good(Run(EMPTY, writes[..i]))
  }

  /** No write of a run is of some kind in the tables that it meets. */
  ghost predicate NeverMeets(bad: (Tables, Write) -> bool, writes: seq<Write>) {
    forall i :: 0 <= i < |writes| ==> !bad(Run(EMPTY, writes[..i]), writes[i])
  }

  /** The write either is of the kind that ends the property or keeps it. */
  ghost predicate TippedBy(good: Tables -> bool, bad: (Tables, Write) -> bool, db: Tables, w: Write) {
    good(Apply(db, w)) <==> !bad(db, w)
  }

  lemma StepOfRun(writes: seq<Write>, i: nat)
    requires i < |writes|
    ensures Run(EMPTY, writes[..i + 1]) == Apply(Run(EMPTY, writes[..i]), writes[i])
  {
    assert writes[..i + 1][..i] == writes[..i];
  }

  /** A property that exactly the writes of some kind end holds throughout exactly without them. */
  lemma HoldsUntilTipped(good: Tables -> bool, bad: (Tables, Write) -> bool, writes: seq<Write>)
    requires good(EMPTY)
    requires forall i :: 0 <= i < |writes| && good(Run(EMPTY, writes[..i]))
                         ==> TippedBy(good, bad, Run(EMPTY, writes[..i]), writes[i])
    ensures Throughout(good, writes) <==> NeverMeets(bad, writes)
  {
    hide Run, Apply;
    if Throughout(good, writes) {
      forall i | 0 <= i < |writes| ensures !bad(Run(EMPTY, writes[..i]), writes[i]) {
        assert good(Run(EMPTY, writes[..i])) && good(Run(EMPTY, writes[..i + 1]));
        StepOfRun(writes, i);
      }
    }
    if NeverMeets(bad, writes) {
      forall i | 0 <= i <= |writes| ensures good(Run(EMPTY, writes[..i])) {
        GoodSoFar(good, bad, writes, i);
      }
    }
  }

  lemma {:induction false} GoodSoFar(good: Tables -> bool, bad: (Tables, Write) -> bool, writes: seq<Write>, i: nat)
    requires i <= |writes| && good(EMPTY) && NeverMeets(bad, writes)
    requires forall i :: 0 <= i < |writes| && good(Run(EMPTY, writes[..i]))
                         ==> TippedBy(good, bad, Run(EMPTY, writes[..i]), writes[i])
    ensures good(Run(EMPTY, writes[..i]))
    decreases i
  {
    hide Apply;
    if i > 0 {
      GoodSoFar(good, bad, writes, i - 1);
      assert TippedBy(good, bad, Run(EMPTY, writes[..i - 1]), writes[i - 1]);
      StepOfRun(writes, i - 1);
    }
  }

  // ----- locks of committed transactions

  /** Every committed transaction still holds the lock it names. */
  ghost predicate CommitsHoldLocks(db: Tables) {
    forall t :: t in db.transactions && db.transactions[t].state == COMMITTED ==> HoldsWriteLock(db, db.transactions[t])
  }

  /** The write deactivates or moves the lock of a committed transaction; no constraint looks at this. */
  ghost predicate FreesCommit(db: Tables, w: Write) {
    && w.PutLock? && Accepts(db, w)
    && exists t :: t in db.transactions && NamedByCommit(db.transactions[t], w.id)
                   && !(IsActiveWrite(w.lock) && w.lock.projectId == db.transactions[t].projectId)
  }

  predicate NamedByCommit(t: Transaction, lockId: string) {
    t.state == COMMITTED && t.lockId == Some(lockId)
  }

  /** One write keeps the locks of committed transactions exactly when it does not free one. */
  lemma WriteKeepsCommitLocks(db: Tables, w: Write)
    requires CommitsHoldLocks(db)
    ensures CommitsHoldLocks(Apply(db, w)) <==> !FreesCommit(db, w)
  {
    var db' := Apply(db, w);
    if FreesCommit(db, w) {
      var t :| t in db.transactions && NamedByCommit(db.transactions[t], w.id)
               && !(IsActiveWrite(w.lock) && w.lock.projectId == db.transactions[t].projectId);
      assert t in db'.transactions && !HoldsWriteLock(db', db'.transactions[t]);
    } else {
      forall t | t in db'.transactions && db'.transactions[t].state == COMMITTED
        ensures HoldsWriteLock(db', db'.transactions[t])
      {
        if w.PutLock? && Accepts(db, w) { assert !NamedByCommit(db.transactions[t], w.id) || IsActiveWrite(w.lock); }
      }
    }
  }

  /** Throughout a run committed transactions hold their locks exactly when no write frees one. */
  lemma CommitLocksExactly(writes: seq<Write>)
    ensures Throughout(CommitsHoldLocks, writes) <==> NeverMeets(FreesCommit, writes)
  {
    hide CommitsHoldLocks, FreesCommit, Apply;
    EmptyIsSound();
    forall i | 0 <= i < |writes| && CommitsHoldLocks(Run(EMPTY, writes[..i]))
      ensures TippedBy(CommitsHoldLocks, FreesCommit, Run(EMPTY, writes[..i]), writes[i])
    {
      WriteKeepsCommitLocks(Run(EMPTY, writes[..i]), writes[i]);
    }
    HoldsUntilTipped(CommitsHoldLocks, FreesCommit, writes);
  }

  lemma EmptyIsSound()
    ensures CommitsHoldLocks(EMPTY) && NoArmedBlock(EMPTY)
  {
  }

  /** Once committed, the lock may go: commitment under a lock is a fact about the write, not the row. */
  lemma LockMayGoAfterCommit(lock: Lock, t: Transaction)
    requires IsActiveWrite(lock) && t == Transaction(lock.taskId, lock.projectId, Some("l"), COMMITTED)
    ensures var db := Run(EMPTY, [PutLock("l", lock), PutTransaction("t", t), PutLock("l", lock.(status := RELEASED))]);
            "t" in db.transactions && db.transactions["t"].state == COMMITTED && !HoldsWriteLock(db, t)
  {
    var w1, w2, w3 := PutLock("l", lock), PutTransaction("t", t), PutLock("l", lock.(status := RELEASED));
    var db1 := Apply(EMPTY, w1);
    var db2 := Apply(db1, w2);
    assert [w1, w2, w3][..2] == [w1, w2] && [w1, w2][..1] == [w1] && [w1][..0] == [];
    assert Run(EMPTY, [w1]) == db1;
    assert Run(EMPTY, [w1, w2]) == db2;
  }

  // ----- policies and verdicts

  /** The write turns a decision with an armed policy into a block; no constraint looks at this. */
  ghost predicate BlocksArmed(db: Tables, w: Write) {
    && w.PutDecision? && w.decision.verdict == BLOCK
    && exists p :: p in db.policies && IsArmed(db.policies[p]) && db.policies[p].decisionId == w.id
  }

  /** One write keeps policies and blocks apart exactly when it does not change a verdict to BLOCK
      under an armed policy. */
  lemma WriteKeepsNoArmedBlock(db: Tables, w: Write)
    requires NoArmedBlock(db) && PoliciesHaveDecisions(db)
    ensures NoArmedBlock(Apply(db, w)) <==> !BlocksArmed(db, w)
  {
    var db' := Apply(db, w);
    if BlocksArmed(db, w) {
      var p :| p in db.policies && IsArmed(db.policies[p]) && db.policies[p].decisionId == w.id;
      assert p in db'.policies && db'.decisions[db'.policies[p].decisionId].verdict == BLOCK;
    }
  }

  /** Throughout a run policies and blocks are kept apart exactly when no write blocks an armed policy. */
  lemma NoArmedBlockExactly(writes: seq<Write>)
    ensures Throughout(NoArmedBlock, writes) <==> NeverMeets(BlocksArmed, writes)
  {
    hide NoArmedBlock, BlocksArmed, Apply;
    EmptyIsSound();
    forall i | 0 <= i < |writes| && NoArmedBlock(Run(EMPTY, writes[..i]))
      ensures TippedBy(NoArmedBlock, BlocksArmed, Run(EMPTY, writes[..i]), writes[i])
    {
      LocksGuardCommits(writes[..i]);
      WriteKeepsNoArmedBlock(Run(EMPTY, writes[..i]), writes[i]);
    }
    HoldsUntilTipped(NoArmedBlock, BlocksArmed, writes);
  }

  /** Such a write is accepted: a verdict changed to BLOCK after its policy became executable. */
  lemma ArmedBlockIsReached(task: string)
    ensures !NoArmedBlock(Run(EMPTY, [
              PutDecision("d", Decision(task, ALLOW, DECISION_ACTIVE)),
              PutPolicy("p", Policy(task, "d", POLICY_ACTIVE, true)),
              PutDecision("d", Decision(task, BLOCK, DECISION_ACTIVE))]))
  {
    var w1 := PutDecision("d", Decision(task, ALLOW, DECISION_ACTIVE));
    var w2 := PutPolicy("p", Policy(task, "d", POLICY_ACTIVE, true));
    var w3 := PutDecision("d", Decision(task, BLOCK, DECISION_ACTIVE));
    var db1 := Apply(EMPTY, w1);
    var db2 := Apply(db1, w2);
    assert [w1, w2, w3][..2] == [w1, w2] && [w1, w2][..1] == [w1] && [w1][..0] == [];
    assert Run(EMPTY, [w1]) == db1;
    assert Run(EMPTY, [w1, w2]) == db2;
    var db := Apply(db2, w3);
    assert "p" in db.policies && IsArmed(db.policies["p"]) && db.decisions["d"].verdict == BLOCK;
  }

  /** Every accepted decision write keeps the verdict of an existing row. */
  ghost predicate VerdictsWrittenOnce(writes: seq<Write>) {
    forall i :: 0 <= i < |writes| && writes[i].PutDecision? ==> KeepsVerdict(Run(EMPTY, writes[..i]), writes[i])
  }

  predicate KeepsVerdict(db: Tables, w: Write)
    requires w.PutDecision?
  {
    w.id in db.decisions ==> db.decisions[w.id].verdict == w.decision.verdict
  }

  /** In every run that writes verdicts once, no active executable policy belongs to a block. */
  lemma {:induction false} NoArmedBlockEver(writes: seq<Write>)
    requires VerdictsWrittenOnce(writes)
    ensures NoArmedBlock(Run(EMPTY, writes))
    decreases |writes|
  {
    if writes != [] {
      var n := |writes| - 1;
      forall i | 0 <= i < n && writes[..n][i].PutDecision?
        ensures KeepsVerdict(Run(EMPTY, writes[..n][..i]), writes[..n][i])
      {
        assert writes[..n][..i] == writes[..i] && writes[..n][i] == writes[i];
      }
      NoArmedBlockEver(writes[..n]);
      LocksGuardCommits(writes[..n]);
      var db := Run(EMPTY, writes[..n]);
      WriteKeepsNoArmedBlock(db, writes[n]);
      assert writes[n].PutDecision? ==> KeepsVerdict(db, writes[n]);
    }
  }
}

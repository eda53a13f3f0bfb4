/**
 * The operation engine as a transition system: every call that the service, the workers, recovery and the
 * scheduler make on the store is one step, and the steps interleave in any order. The theorems are about
 * every run from the empty database.
 */
module Engine {
  import opened Basics
  import opened Retry
  import opened Operations

  /**
   * Ids and jitter are the fresh values the callers draw. The ids need not really be fresh: a clash makes
   * the insert fail and rolls the transaction back. In Recover they are drawn per stale operation.
   */
  datatype Step =
    | Submit(id: OpId, resource: string, key: string, hash: string, policy: RetryPolicy, now: Time)
    | ManualRetry(original: OpId, id: OpId, now: Time)
    | Claim(chosen: OpId, now: Time)
    | WorkerFinish(op: OpId, status: Status, code: Code, newId: OpId, jitter: real, now: Time)
    | Cancel(op: OpId)
    | Recover(stale: seq<OpId>, newIds: OpId -> OpId, jitters: OpId -> real, now: Time)
    | Dispatch(moment: Moment, id: OpId, resource: string, hash: string, now: Time)
    | RecordMissed(moment: Moment)

  function NewOperation(id: OpId, resource: string, key: string, hash: string, policy: RetryPolicy, now: Time): Operation {
    Operation(id, resource, Pending, key, hash, None, now, 1, None, policy, None)
  }

  function ManualRetryRow(original: Operation, id: OpId, now: Time): Operation {
    Operation(id, original.resource, Pending, "", original.hash, Some(original.id), now,
              original.attempt + 1, None, original.policy, None)
  }

  function ScheduledOperation(m: Moment, id: OpId, resource: string, hash: string, now: Time): Operation {
    Operation(id, resource, Pending, "", hash, None, now, 1, None, NO_RETRY, Some(m))
  }

  function RecoveryPlan(newIds: OpId -> OpId, jitters: OpId -> real, now: Time): Operation -> Option<RetryPlan> {
    (o: Operation) => PlanRetryFor(o, DaemonRestarted, now, newIds(o.id), jitters(o.id))
  }

  /** A step whose guard does not hold changes nothing. */
  ghost function Apply(db: Db, s: Step): Db {
    match s
    case Submit(id, resource, key, hash, policy, now) =>
      CreateDb(db, NewOperation(id, resource, key, hash, policy, now))
    case ManualRetry(original, id, now) =>
      if original in db.ops && CanRetry(db.ops[original].status)
      then CreateDb(db, ManualRetryRow(db.ops[original], id, now))
      else db
    case Claim(chosen, now) =>
      if IsNextClaim(db, chosen, now) then ClaimDb(db, chosen) else db
    case WorkerFinish(op, status, code, newId, jitter, now) =>
      if op in db.ops && Terminal(status)
      then FinishDb(db, op, status, PlanRetry(db.ops[op], status, code, now, newId, jitter), now)
      else db
    case Cancel(op) => CancelDb(db, op)
    case Recover(stale, newIds, jitters, now) =>
      if ListsRunning(db, stale) then
        var r := RecoverDb(db, stale, RecoveryPlan(newIds, jitters, now), now);
        if r.Ok? then r.value else db
      else db
    case Dispatch(moment, id, resource, hash, now) =>
      DispatchDb(db, moment, ScheduledOperation(moment, id, resource, hash, now))
    case RecordMissed(moment) => MissedDb(db, moment)
  }

  ghost function Run(db: Db, steps: seq<Step>): Db
    decreases |steps|
  {
    if steps == [] then db else Run(Apply(db, steps[0]), steps[1..])
  }

  ghost predicate Good(db: Db) {
    Inv(db) && RetryForest(db.ops)
  }

  // ---- One new row ----

  /** o may join the table: nothing incomplete on its resource, and if it is a retry, a proper one. */
  ghost predicate Admissible(ops: Rows, o: Operation) {
    && CanInsert(ops, o) && o.status.Pending? && o.attempt >= 1
    && !HasIncomplete(ops, o.resource)
    && (o.retryOf.Some? ==> o.retryOf.value in ops && RetryLink(ops[o.retryOf.value], o))
    && (Automatic(o) ==>
          && o.retryOf.Some? && ops[o.retryOf.value].status.Failed?
          && o.attempt <= o.policy.maxAttempts
          && forall j | j in ops && Automatic(ops[j]) :: ops[j].retryOf != o.retryOf)
  }

  lemma InsertKeepsOneIncomplete(ops: Rows, o: Operation)
    requires OneIncompletePerResource(ops) && o.id !in ops && !HasIncomplete(ops, o.resource)
    ensures OneIncompletePerResource(ops[o.id := o])
  {
  }

  lemma InsertKeepsKeys(ops: Rows, o: Operation)
    requires KeysUnique(ops) && CanInsert(ops, o)
    ensures KeysUnique(ops[o.id := o])
  {
  }

  lemma InsertKeepsLocks(ops: Rows, locks: map<string, Lock>, o: Operation)
    requires LocksMatchRunning(ops, locks) && o.id !in ops && o.status.Pending?
    ensures LocksMatchRunning(ops[o.id := o], locks)
  {
  }

  lemma InsertKeepsForest(ops: Rows, o: Operation)
    requires RetryForest(ops) && Admissible(ops, o)
    ensures RetryForest(ops[o.id := o])
  {
    var after := ops[o.id := o];
    assert LinksAreRetries(after);
    assert AutomaticWithinPolicy(after);
    forall i, j | i in after && j in after && Automatic(after[i]) && Automatic(after[j])
      && after[i].retryOf == after[j].retryOf
      ensures i == j
    {
      assert i != o.id ==> after[i] == ops[i];
      assert j != o.id ==> after[j] == ops[j];
    }
  }

  lemma InsertKeeps(db: Db, o: Operation)
    requires Good(db) && Admissible(db.ops, o) && o.origin.None?
    ensures Good(db.(ops := Inserted(db.ops, o)))
  {
    assert Inserted(db.ops, o) == db.ops[o.id := o];
    InsertKeepsOneIncomplete(db.ops, o);
    InsertKeepsKeys(db.ops, o);
    InsertKeepsLocks(db.ops, db.locks, o);
    InsertKeepsForest(db.ops, o);
    assert RunsMatchOrigins(db.ops[o.id := o], db.runs);
  }

  // ---- One row changes its status ----

  function WithStatus(ops: Rows, i: OpId, s: Status): Rows
    requires i in ops
  {
    ops[i := ops[i].(status := s)]
  }

  /** A status change that does not make a finished row incomplete again keeps everything but the lock table. */
  lemma StatusKeepsRows(ops: Rows, i: OpId, s: Status)
    requires WellFormed(ops) && OneIncompletePerResource(ops) && KeysUnique(ops)
    requires i in ops && Incomplete(ops[i])
    ensures WellFormed(WithStatus(ops, i, s))
    ensures OneIncompletePerResource(WithStatus(ops, i, s))
    ensures KeysUnique(WithStatus(ops, i, s))
  {
    var after := WithStatus(ops, i, s);
    assert forall j | j in ops :: after[j].key == ops[j].key && after[j].resource == ops[j].resource;
    assert forall j | j in ops && Incomplete(after[j]) :: Incomplete(ops[j]);
  }

  lemma StatusKeepsLinks(ops: Rows, i: OpId, s: Status)
    requires LinksAreRetries(ops) && i in ops && Incomplete(ops[i])
    ensures LinksAreRetries(WithStatus(ops, i, s))
  {
    var after := WithStatus(ops, i, s);
    forall j | j in after && after[j].retryOf.Some?
      ensures after[j].retryOf.value in after && RetryLink(after[after[j].retryOf.value], after[j])
    {
      assert after[j].retryOf == ops[j].retryOf;
      assert RetryLink(ops[ops[j].retryOf.value], ops[j]);
    }
  }

  lemma StatusKeepsAutomatic(ops: Rows, i: OpId, s: Status)
    requires AutomaticWithinPolicy(ops) && OneAutomaticRetryEach(ops) && i in ops && Incomplete(ops[i])
    ensures AutomaticWithinPolicy(WithStatus(ops, i, s)) && OneAutomaticRetryEach(WithStatus(ops, i, s))
  {
    var after := WithStatus(ops, i, s);
    forall j | j in after && Automatic(after[j])
      ensures after[j].retryOf.Some? && after[j].retryOf.value in after
      ensures after[after[j].retryOf.value].status.Failed? && after[j].attempt <= after[j].policy.maxAttempts
    {
      assert Automatic(ops[j]) && after[j].retryOf == ops[j].retryOf;
    }
    forall j, k | j in after && k in after && Automatic(after[j]) && Automatic(after[k])
      && after[j].retryOf == after[k].retryOf
      ensures j == k
    {
      assert Automatic(ops[j]) && Automatic(ops[k]) && ops[j].retryOf == ops[k].retryOf;
    }
  }

  lemma StatusKeepsRuns(ops: Rows, runs: map<Moment, ScheduleRun>, i: OpId, s: Status)
    requires RunsMatchOrigins(ops, runs) && i in ops
    ensures RunsMatchOrigins(WithStatus(ops, i, s), runs)
  {
    var after := WithStatus(ops, i, s);
    assert forall j | j in ops :: after[j].origin == ops[j].origin;
  }

  lemma StatusKeeps(db: Db, i: OpId, s: Status, locks: map<string, Lock>)
    requires Good(db) && i in db.ops && Incomplete(db.ops[i])
    requires LocksMatchRunning(WithStatus(db.ops, i, s), locks)
    ensures Good(Db(WithStatus(db.ops, i, s), locks, db.runs))
  {
    StatusKeepsRows(db.ops, i, s);
    StatusKeepsLinks(db.ops, i, s);
    StatusKeepsAutomatic(db.ops, i, s);
    StatusKeepsRuns(db.ops, db.runs, i, s);
  }

  // ---- Every transaction keeps the invariant ----

  /** Before a running operation is settled, nothing can already be an automatic retry of it. */
  lemma NoAutomaticChildYet(ops: Rows, i: OpId)
    requires AutomaticWithinPolicy(ops) && i in ops && !ops[i].status.Failed?
    ensures forall j | j in ops && Automatic(ops[j]) :: ops[j].retryOf != Some(i)
  {
  }

  lemma UnlockMatches(ops: Rows, locks: map<string, Lock>, i: OpId, s: Status)
    requires LocksMatchRunning(ops, locks) && OneIncompletePerResource(ops)
    requires i in ops && ops[i].status.Running? && Terminal(s)
    ensures LocksMatchRunning(WithStatus(ops, i, s), Unlock(locks, ops[i].resource, i))
  {
    var after, held := WithStatus(ops, i, s), Unlock(locks, ops[i].resource, i);
    assert Locked(locks, ops[i].resource) && locks[ops[i].resource].owner == i;
    assert forall j | j in ops && j != i :: after[j] == ops[j];
  }

  lemma SettleKeeps(db: Db, i: OpId, s: Status, plan: Option<RetryPlan>, now: Time)
    requires Good(db) && i in db.ops && db.ops[i].status.Running? && Terminal(s)
    requires plan.Some? ==>
               && s.Failed? && plan.value.policy == db.ops[i].policy
               && db.ops[i].attempt + 1 <= db.ops[i].policy.maxAttempts
    ensures SettleDb(db, i, s, plan, now).Ok? ==> Good(SettleDb(db, i, s, plan, now).value)
  {
    var o := db.ops[i];
    UnlockMatches(db.ops, db.locks, i, s);
    StatusKeeps(db, i, s, Unlock(db.locks, o.resource, i));
    if plan.Some? {
      var settled := Db(WithStatus(db.ops, i, s), Unlock(db.locks, o.resource, i), db.runs);
      var row := RetryRow(o, plan.value, now);
      if CanInsert(settled.ops, row) {
        NoAutomaticChildYet(db.ops, i);
        SettledIsAdmissible(db.ops, i, row);
        InsertKeeps(settled, row);
      }
    }
  }

  lemma SettledIsAdmissible(ops: Rows, i: OpId, row: Operation)
    requires OneIncompletePerResource(ops) && i in ops && Incomplete(ops[i])
    requires forall j | j in ops && Automatic(ops[j]) :: ops[j].retryOf != Some(i)
    requires row.retryOf == Some(i) && RetryLink(ops[i].(status := Failed), row) && row.attempt >= 1
    requires row.status.Pending? && row.attempt <= row.policy.maxAttempts && CanInsert(WithStatus(ops, i, Failed), row)
    ensures Admissible(WithStatus(ops, i, Failed), row)
  {
    var after := WithStatus(ops, i, Failed);
    assert forall j | j in ops && j != i :: after[j] == ops[j];
    assert after[i].notBefore == ops[i].notBefore && after[i].retryOf == ops[i].retryOf;
  }

  lemma ClaimMatches(ops: Rows, locks: map<string, Lock>, i: OpId)
    requires LocksMatchRunning(ops, locks) && OneIncompletePerResource(ops)
    requires i in ops && ops[i].status.Pending?
    ensures LocksMatchRunning(WithStatus(ops, i, Running), locks[ops[i].resource := Lock(i, false)])
  {
    var after, held := WithStatus(ops, i, Running), locks[ops[i].resource := Lock(i, false)];
    assert forall j | j in ops && j != i :: after[j] == ops[j];
    forall j | j in after && after[j].status.Running?
      ensures Locked(held, after[j].resource) && held[after[j].resource].owner == j
    {
      if j != i {
        assert ops[j].resource != ops[i].resource;
      }
    }
  }

  lemma ClaimKeeps(db: Db, i: OpId, now: Time)
    requires Good(db) && Claimable(db, i, now)
    ensures Good(ClaimDb(db, i))
  {
    ClaimMatches(db.ops, db.locks, i);
    StatusKeeps(db, i, Running, db.locks[db.ops[i].resource := Lock(i, false)]);
  }

  lemma CancelKeeps(db: Db, i: OpId)
    requires Good(db)
    ensures Good(CancelDb(db, i))
  {
    if i in db.ops && db.ops[i].status.Pending? {
      var after := WithStatus(db.ops, i, Cancelled);
      assert forall j | j in db.ops && j != i :: after[j] == db.ops[j];
      assert LocksMatchRunning(after, db.locks);
      StatusKeeps(db, i, Cancelled, db.locks);
    }
  }

  lemma {:induction false} RecoverKeeps(db: Db, stale: seq<OpId>, newIds: OpId -> OpId, jitters: OpId -> real, now: Time)
    requires Good(db)
    requires forall k | 0 <= k < |stale| :: stale[k] in db.ops && db.ops[stale[k]].status.Running?
    requires forall k, l | 0 <= k < l < |stale| :: stale[k] != stale[l]
    ensures var r := RecoverDb(db, stale, RecoveryPlan(newIds, jitters, now), now); r.Ok? ==> Good(r.value)
    decreases |stale|
  {
    if stale != [] {
      var plan := RecoveryPlan(newIds, jitters, now);
      var i := stale[0];
      SettleKeeps(db, i, Failed, plan(db.ops[i]), now);
      var r := SettleDb(db, i, Failed, plan(db.ops[i]), now);
      if r.Ok? {
        SettleLeavesOthers(db, stale, plan(db.ops[i]), now);
        RecoverKeeps(r.value, stale[1..], newIds, jitters, now);
      }
    }
  }

  /** Settling the first stale operation leaves the later ones running. */
  lemma SettleLeavesOthers(db: Db, stale: seq<OpId>, plan: Option<RetryPlan>, now: Time)
    requires stale != []
    requires forall k | 0 <= k < |stale| :: stale[k] in db.ops && db.ops[stale[k]].status.Running?
    requires forall k, l | 0 <= k < l < |stale| :: stale[k] != stale[l]
    ensures var r := SettleDb(db, stale[0], Failed, plan, now);
            r.Ok? ==>
              && (forall k | 0 <= k < |stale[1..]| ::
                    stale[1..][k] in r.value.ops && r.value.ops[stale[1..][k]].status.Running?)
              && (forall k, l | 0 <= k < l < |stale[1..]| :: stale[1..][k] != stale[1..][l])
  {
    var r := SettleDb(db, stale[0], Failed, plan, now);
    if r.Ok? {
      forall k | 0 <= k < |stale[1..]|
        ensures stale[1..][k] in r.value.ops && r.value.ops[stale[1..][k]].status.Running?
      {
        assert stale[1..][k] == stale[k + 1] != stale[0];
      }
    }
  }

  lemma DispatchKeeps(db: Db, m: Moment, o: Operation)
    requires Good(db)
    requires o.status.Pending? && o.attempt >= 1 && o.origin == Some(m) && o.retryOf.None? && !Automatic(o)
    ensures Good(DispatchDb(db, m, o))
  {
    if m !in db.runs && !HasIncomplete(db.ops, o.resource) && CanInsert(db.ops, o) {
      assert Inserted(db.ops, o) == db.ops[o.id := o];
      InsertKeepsOneIncomplete(db.ops, o);
      InsertKeepsKeys(db.ops, o);
      InsertKeepsLocks(db.ops, db.locks, o);
      InsertKeepsForest(db.ops, o);
      RecordDispatched(db.ops, db.runs, m, o);
    }
  }

  lemma RecordDispatched(ops: Rows, runs: map<Moment, ScheduleRun>, m: Moment, o: Operation)
    requires RunsMatchOrigins(ops, runs) && m !in runs && o.id !in ops && o.origin == Some(m)
    ensures RunsMatchOrigins(ops[o.id := o], runs[m := ScheduleRun(Dispatched, Some(o.id))])
  {
  }

  lemma CreateKeeps(db: Db, o: Operation)
    requires Good(db) && o.origin.None?
    requires CanInsert(db.ops, o) && !HasIncomplete(db.ops, o.resource) ==> Admissible(db.ops, o)
    ensures Good(CreateDb(db, o))
  {
    if CanInsert(db.ops, o) && !HasIncomplete(db.ops, o.resource) {
      InsertKeeps(db, o);
    }
  }

  lemma StepKeepsGood(db: Db, s: Step)
    requires Good(db)
    ensures Good(Apply(db, s))
  {
    match s
    case Submit(id, resource, key, hash, policy, now) =>
      CreateKeeps(db, NewOperation(id, resource, key, hash, policy, now));
    case ManualRetry(original, id, now) =>
      if original in db.ops && CanRetry(db.ops[original].status) {
        CreateKeeps(db, ManualRetryRow(db.ops[original], id, now));
      }
    case Claim(chosen, now) =>
      if IsNextClaim(db, chosen, now) {
        ClaimKeeps(db, chosen, now);
      }
    case WorkerFinish(op, status, code, newId, jitter, now) =>
      if op in db.ops && Terminal(status) && db.ops[op].status.Running? {
        SettleKeeps(db, op, status, PlanRetry(db.ops[op], status, code, now, newId, jitter), now);
      }
    case Cancel(op) =>
      CancelKeeps(db, op);
    case Recover(stale, newIds, jitters, now) =>
      if ListsRunning(db, stale) {
        RecoverKeeps(db, stale, newIds, jitters, now);
      }
    case Dispatch(moment, id, resource, hash, now) =>
      DispatchKeeps(db, moment, ScheduledOperation(moment, id, resource, hash, now));
    case RecordMissed(moment) =>
  }

  /** Main theorem: the invariant and the retry forest hold after every run. */
  lemma {:induction false} EveryRunIsGood(db: Db, steps: seq<Step>)
    requires Good(db)
    ensures Good(Run(db, steps))
    decreases |steps|
  {
    if steps != [] {
      StepKeepsGood(db, steps[0]);
      EveryRunIsGood(Apply(db, steps[0]), steps[1..]);
    }
  }

  /** In every reachable state a claim comes back empty only when nothing is due. */
  lemma ClaimMissesNothing(steps: seq<Step>, now: Time)
    ensures var db := Run(EMPTY, steps);
            (forall i :: !Claimable(db, i, now)) ==> forall i | i in db.ops :: !Due(db.ops[i], now)
  {
    EveryRunIsGood(EMPTY, steps);
    var db := Run(EMPTY, steps);
    if forall i :: !Claimable(db, i, now) {
      NothingDueWhenNothingClaimable(db, now);
    }
  }

  // ---- Rows only move along the state machine ----

  /** b is a later state of the same row. */
  predicate Evolves(a: Operation, b: Operation) {
    b == a || (CanTransition(a.status, b.status) && b == a.(status := b.status))
  }

  ghost predicate RowsEvolve(before: Rows, after: Rows) {
    forall i | i in before :: i in after && Evolves(before[i], after[i])
  }

  ghost predicate RunsKept(before: map<Moment, ScheduleRun>, after: map<Moment, ScheduleRun>) {
    forall m | m in before :: m in after && after[m] == before[m]
  }

  ghost predicate Extends(before: Db, after: Db) {
    RowsEvolve(before.ops, after.ops) && RunsKept(before.runs, after.runs)
  }

  lemma SettleEvolves(db: Db, i: OpId, s: Status, plan: Option<RetryPlan>, now: Time)
    requires i in db.ops && db.ops[i].status.Running? && Terminal(s)
    ensures var r := SettleDb(db, i, s, plan, now);
            r.Ok? ==>
              && RowsEvolve(db.ops, r.value.ops) && r.value.runs == db.runs
              && r.value.ops[i].status == s
              && (forall j | j in db.ops && j != i :: r.value.ops[j] == db.ops[j])
              && (forall j | j in r.value.ops && j !in db.ops :: r.value.ops[j].status.Pending?)
  {
  }

  /** Recovery fails exactly the listed operations, touches no other old row and adds only pending rows. */
  lemma {:induction false} RecoverEvolves(db: Db, stale: seq<OpId>, plan: Operation -> Option<RetryPlan>, now: Time)
    requires forall k | 0 <= k < |stale| :: stale[k] in db.ops && db.ops[stale[k]].status.Running?
    requires forall k, l | 0 <= k < l < |stale| :: stale[k] != stale[l]
    ensures var r := RecoverDb(db, stale, plan, now);
            r.Ok? ==>
              && r.value.runs == db.runs
              && (forall i | i in db.ops :: i in r.value.ops)
              && (forall i | i in stale :: r.value.ops[i] == db.ops[i].(status := Failed))
              && (forall i | i in db.ops && i !in stale :: r.value.ops[i] == db.ops[i])
              && (forall i | i in r.value.ops && i !in db.ops :: r.value.ops[i].status.Pending?)
    decreases |stale|
  {
    if stale != [] {
      var i := stale[0];
      SettleEvolves(db, i, Failed, plan(db.ops[i]), now);
      var s := SettleDb(db, i, Failed, plan(db.ops[i]), now);
      if s.Ok? {
        SettleLeavesOthers(db, stale, plan(db.ops[i]), now);
        RecoverEvolves(s.value, stale[1..], plan, now);
        assert i !in stale[1..];
        assert forall j | j in stale && j != i :: j in stale[1..];
        assert s.value.ops[i] == db.ops[i].(status := Failed);
      }
    }
  }

  lemma InsertEvolves(ops: Rows, o: Operation)
    ensures o.id !in ops ==> RowsEvolve(ops, Inserted(ops, o))
  {
  }

  lemma StatusEvolves(ops: Rows, i: OpId, s: Status)
    requires i in ops && CanTransition(ops[i].status, s)
    ensures RowsEvolve(ops, WithStatus(ops, i, s))
  {
  }

  lemma CreateExtends(db: Db, o: Operation)
    ensures Extends(db, CreateDb(db, o))
  {
    InsertEvolves(db.ops, o);
  }

  lemma DispatchExtends(db: Db, m: Moment, o: Operation)
    ensures Extends(db, DispatchDb(db, m, o))
  {
    InsertEvolves(db.ops, o);
  }

  lemma FinishExtends(db: Db, i: OpId, s: Status, plan: Option<RetryPlan>, now: Time)
    requires Terminal(s)
    ensures Extends(db, FinishDb(db, i, s, plan, now))
  {
    if i in db.ops && db.ops[i].status.Running? {
      SettleEvolves(db, i, s, plan, now);
    }
  }

  lemma RecoverExtends(db: Db, stale: seq<OpId>, plan: Operation -> Option<RetryPlan>, now: Time)
    requires ListsRunning(db, stale)
    ensures var r := RecoverDb(db, stale, plan, now); r.Ok? ==> Extends(db, r.value)
  {
    RecoverEvolves(db, stale, plan, now);
  }

  lemma ClaimExtends(db: Db, i: OpId)
    requires i in db.ops && db.ops[i].status.Pending?
    ensures Extends(db, ClaimDb(db, i))
  {
    StatusEvolves(db.ops, i, Running);
  }

  lemma CancelExtends(db: Db, i: OpId)
    ensures Extends(db, CancelDb(db, i))
  {
    if i in db.ops && db.ops[i].status.Pending? {
      StatusEvolves(db.ops, i, Cancelled);
    }
  }

  /** Each step moves existing rows only along the transition table, and never rewrites a run record. */
  lemma StepExtends(db: Db, s: Step)
    ensures Extends(db, Apply(db, s))
  {
    match s
    case WorkerFinish(op, status, code, newId, jitter, now) =>
      if op in db.ops && Terminal(status) {
        FinishExtends(db, op, status, PlanRetry(db.ops[op], status, code, now, newId, jitter), now);
      }
    case Recover(stale, newIds, jitters, now) =>
      if ListsRunning(db, stale) {
        RecoverExtends(db, stale, RecoveryPlan(newIds, jitters, now), now);
      }
    case Submit(id, resource, key, hash, policy, now) =>
      CreateExtends(db, NewOperation(id, resource, key, hash, policy, now));
    case ManualRetry(original, id, now) =>
      if original in db.ops {
        CreateExtends(db, ManualRetryRow(db.ops[original], id, now));
      }
    case Claim(chosen, now) =>
      if IsNextClaim(db, chosen, now) {
        ClaimExtends(db, chosen);
      }
    case Cancel(op) =>
      CancelExtends(db, op);
    case Dispatch(moment, id, resource, hash, now) =>
      DispatchExtends(db, moment, ScheduledOperation(moment, id, resource, hash, now));
    case RecordMissed(moment) =>
  }

  /** Terminal rows and run records of before are still there, unchanged. */
  ghost predicate Preserves(before: Db, after: Db) {
    && (forall i | i in before.ops && Terminal(before.ops[i].status) :: i in after.ops && after.ops[i] == before.ops[i])
    && RunsKept(before.runs, after.runs)
  }

  lemma ExtendsPreserves(a: Db, b: Db, c: Db)
    requires Extends(a, b) && Preserves(b, c)
    ensures Preserves(a, c)
  {
  }

  /** Terminal rows and run records are final, whatever runs afterwards. */
  lemma {:induction false} FinishedIsFinal(db: Db, steps: seq<Step>)
    ensures Preserves(db, Run(db, steps))
    decreases |steps|
  {
    if steps != [] {
      var mid := Apply(db, steps[0]);
      StepExtends(db, steps[0]);
      FinishedIsFinal(mid, steps[1..]);
      ExtendsPreserves(db, mid, Run(mid, steps[1..]));
    }
  }

  /** Recovery leaves nothing running and no lock held, and exactly the interrupted operations failed. */
  lemma RecoveryClearsRunning(db: Db, stale: seq<OpId>, newIds: OpId -> OpId, jitters: OpId -> real, now: Time)
    requires Good(db) && ListsRunning(db, stale)
    ensures var r := RecoverDb(db, stale, RecoveryPlan(newIds, jitters, now), now);
            r.Ok? ==>
              && (forall i | i in r.value.ops :: !r.value.ops[i].status.Running?)
              && (forall resource :: !Locked(r.value.locks, resource))
              && (forall i | i in db.ops :: i in r.value.ops
                    && r.value.ops[i] == if db.ops[i].status.Running? then db.ops[i].(status := Failed) else db.ops[i])
  {
    var plan := RecoveryPlan(newIds, jitters, now);
    var r := RecoverDb(db, stale, plan, now);
    if r.Ok? {
      RecoverEvolves(db, stale, plan, now);
      SettledAreAll(db, stale, r.value);
      RecoverKeeps(db, stale, newIds, jitters, now);
      NothingRunningNothingLocked(r.value.ops, r.value.locks);
    }
  }

  lemma SettledAreAll(db: Db, stale: seq<OpId>, after: Db)
    requires ListsRunning(db, stale)
    requires forall i | i in db.ops :: i in after.ops
    requires forall i | i in stale :: after.ops[i] == db.ops[i].(status := Failed)
    requires forall i | i in db.ops && i !in stale :: after.ops[i] == db.ops[i]
    requires forall i | i in after.ops && i !in db.ops :: after.ops[i].status.Pending?
    ensures forall i | i in after.ops :: !after.ops[i].status.Running?
    ensures forall i | i in db.ops ::
              after.ops[i] == if db.ops[i].status.Running? then db.ops[i].(status := Failed) else db.ops[i]
  {
    forall i | i in db.ops
      ensures i in stale <==> db.ops[i].status.Running?
    {
      if i in stale {
        var k :| 0 <= k < |stale| && stale[k] == i;
      }
    }
  }

  lemma NothingRunningNothingLocked(ops: Rows, locks: map<string, Lock>)
    requires LocksMatchRunning(ops, locks) && forall i | i in ops :: !ops[i].status.Running?
    ensures forall resource :: !Locked(locks, resource)
  {
  }

  // ---- Retry chains ----

  /** chain[k+1] is the automatic retry of chain[k]. */
  ghost predicate AutomaticChain(db: Db, chain: seq<OpId>) {
    && (forall k | 0 <= k < |chain| :: chain[k] in db.ops)
    && (forall k | 0 < k < |chain| ::
          Automatic(db.ops[chain[k]]) && db.ops[chain[k]].retryOf == Some(chain[k - 1]))
  }

  /** Along a chain the attempt counts up by one and the policy never changes. */
  lemma {:induction false} ChainCountsAttempts(db: Db, chain: seq<OpId>, k: nat)
    requires Good(db) && AutomaticChain(db, chain) && k < |chain|
    ensures db.ops[chain[k]].attempt == db.ops[chain[0]].attempt + k
    ensures db.ops[chain[k]].policy == db.ops[chain[0]].policy
  {
    if k > 0 {
      ChainCountsAttempts(db, chain, k - 1);
    }
  }

  /** So a chain with an automatic retry in it never has more than maxAttempts operations, and nothing branches off it. */
  lemma ChainsAreBounded(steps: seq<Step>, chain: seq<OpId>)
    requires |chain| >= 2
    requires AutomaticChain(Run(EMPTY, steps), chain)
    ensures var db := Run(EMPTY, steps);
            && |chain| <= db.ops[chain[0]].policy.maxAttempts - db.ops[chain[0]].attempt + 1
            && |chain| <= db.ops[chain[0]].policy.maxAttempts
            && (forall k | 0 <= k < |chain| - 1 :: db.ops[chain[k]].status.Failed?)
            && (forall k, j | 0 < k < |chain| && j in db.ops && Automatic(db.ops[j])
                  && db.ops[j].retryOf == Some(chain[k - 1]) :: j == chain[k])
  {
    EveryRunIsGood(EMPTY, steps);
    var db := Run(EMPTY, steps);
    ChainCountsAttempts(db, chain, |chain| - 1);
    assert Automatic(db.ops[chain[|chain| - 1]]);
    forall k | 0 <= k < |chain| - 1
      ensures db.ops[chain[k]].status.Failed?
    {
      assert db.ops[chain[k + 1]].retryOf == Some(chain[k]);
    }
  }

  /** A failure the policy does not list, a success or a cancellation never schedules another attempt. */
  lemma OnlyListedFailuresRetry(db: Db, s: Step, j: OpId)
    requires Good(db) && s.WorkerFinish?
    requires j !in db.ops && j in Apply(db, s).ops
    ensures s.status.Failed? && Retryable(db.ops[s.op].policy, s.code)
    ensures j == s.newId && Apply(db, s).ops[j].retryOf == Some(s.op)
    ensures Apply(db, s).ops[j].notBefore == Some(s.now + DelayFor(db.ops[s.op].policy, db.ops[s.op].attempt, s.jitter))
  {
  }
}

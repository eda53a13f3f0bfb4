/**
 * The operation store: operations, resource locks and schedule runs, changed by transactions.
 *
 * The first half defines what each transaction does to the database as a function on Db. The class Store
 * is the store itself: its methods change its fields the way the transactions change the tables, and each
 * is proved to do what the function says. A failed insert rolls the whole transaction back.
 */
module Operations {
  import opened Basics
  import opened Retry

  type OpId = nat
  type Time = int

  datatype Status = Pending | Running | Succeeded | Failed | Cancelled

  /** A schedule and one of its planned moments: the unique key of a schedule run. */
  datatype Moment = Moment(schedule: nat, at: Time)

  /**
   * One row of operations. key == "" means no idempotency key. notBefore is set for automatic retries and
   * for nothing else. origin is what the creation audit event of a scheduled operation records.
   */
  datatype Operation = Operation(
    id: OpId,
    resource: string,
    status: Status,
    key: string,
    hash: string,
    retryOf: Option<OpId>,
    createdAt: Time,
    attempt: int,
    notBefore: Option<Time>,
    policy: RetryPolicy,
    origin: Option<Moment>)

  type Rows = map<OpId, Operation>

  /** One row of resource_locks; released means released_at is set. */
  datatype Lock = Lock(owner: OpId, released: bool)

  datatype RunResult = Dispatched | Missed | RunFailed

  datatype ScheduleRun = ScheduleRun(result: RunResult, operation: Option<OpId>)

  datatype Db = Db(ops: Rows, locks: map<string, Lock>, runs: map<Moment, ScheduleRun>)

  const EMPTY := Db(map[], map[], map[])

  datatype RetryPlan = RetryPlan(id: OpId, notBefore: Time, policy: RetryPolicy)

  predicate Terminal(s: Status) {
    s.Succeeded? || s.Failed? || s.Cancelled?
  }

  predicate Incomplete(o: Operation) {
    o.status.Pending? || o.status.Running?
  }

  /** The transition table of the domain layer. */
  predicate CanTransition(from: Status, to: Status) {
    || (from.Pending? && (to.Running? || to.Cancelled?))
    || (from.Running? && Terminal(to))
  }

  predicate CanRetry(s: Status) {
    s.Failed? || s.Cancelled?
  }

  function NormalizeAttempt(attempt: int): int {
    if attempt < 1 then 1 else attempt
  }

  // ---- The decision to retry, shared by the worker and by recovery ----

  /** None: no further attempt. newId and jitter are the fresh id and the random value the caller supplies. */
  function PlanRetryFor(o: Operation, code: Code, now: Time, newId: OpId, jitter: real): Option<RetryPlan> {
    if !Enabled(o.policy) || !Retryable(o.policy, code) then None
    else
      var attempt := NormalizeAttempt(o.attempt);
      if attempt + 1 > o.policy.maxAttempts then None
      else Some(RetryPlan(newId, now + DelayFor(o.policy, attempt, jitter), o.policy))
  }

  function PlanRetry(o: Operation, status: Status, code: Code, now: Time, newId: OpId, jitter: real): Option<RetryPlan> {
    if !status.Failed? then None else PlanRetryFor(o, code, now, newId, jitter)
  }

  // ---- Transactions as functions ----

  ghost predicate HasIncomplete(ops: Rows, resource: string) {
    exists i :: i in ops && ops[i].resource == resource && Incomplete(ops[i])
  }

  ghost predicate KeyTaken(ops: Rows, key: string) {
    key != "" && exists i :: i in ops && ops[i].key == key
  }

  /** The table's own constraints: primary key, unique idempotency key, and the self reference of retry_of. */
  ghost predicate CanInsert(ops: Rows, o: Operation) {
    && o.id !in ops
    && !KeyTaken(ops, o.key)
    && (o.retryOf.Some? ==> o.retryOf.value in ops || o.retryOf.value == o.id)
  }

  function Inserted(ops: Rows, o: Operation): Rows {
    ops[o.id := o.(attempt := NormalizeAttempt(o.attempt))]
  }

  ghost function CreateDb(db: Db, o: Operation): Db {
    if KeyTaken(db.ops, o.key) || HasIncomplete(db.ops, o.resource) || !CanInsert(db.ops, o) then db
    else db.(ops := Inserted(db.ops, o))
  }

  predicate Locked(locks: map<string, Lock>, resource: string) {
    resource in locks && !locks[resource].released
  }

  predicate Due(o: Operation, now: Time) {
    o.status.Pending? && (o.notBefore.Some? ==> o.notBefore.value <= now)
  }

  predicate Claimable(db: Db, i: OpId, now: Time) {
    i in db.ops && Due(db.ops[i], now) && !Locked(db.locks, db.ops[i].resource)
  }

  /** created_at, then id. */
  predicate Before(a: Operation, b: Operation) {
    a.createdAt < b.createdAt || (a.createdAt == b.createdAt && a.id <= b.id)
  }

  ghost predicate IsNextClaim(db: Db, i: OpId, now: Time) {
    && Claimable(db, i, now)
    && forall j | Claimable(db, j, now) :: Before(db.ops[i], db.ops[j])
  }

  function ClaimDb(db: Db, i: OpId): Db
    requires i in db.ops
  {
    var o := db.ops[i];
    db.(ops := db.ops[i := o.(status := Running)], locks := db.locks[o.resource := Lock(i, false)])
  }

  function Unlock(locks: map<string, Lock>, resource: string, owner: OpId): map<string, Lock> {
    if Locked(locks, resource) && locks[resource].owner == owner
    then locks[resource := Lock(owner, true)]
    else locks
  }

  function RetryRow(original: Operation, plan: RetryPlan, now: Time): Operation {
    Operation(plan.id, original.resource, Pending, "", original.hash, Some(original.id), now,
              NormalizeAttempt(original.attempt) + 1, Some(plan.notBefore), plan.policy, None)
  }

  /** The running operation i reaches the terminal status s, releases its lock and may leave a next attempt. */
  ghost function SettleDb(db: Db, i: OpId, s: Status, plan: Option<RetryPlan>, now: Time): Result<Db>
    requires i in db.ops
  {
    var o := db.ops[i];
    var settled := db.(ops := db.ops[i := o.(status := s)], locks := Unlock(db.locks, o.resource, i));
    if plan.None? then Ok(settled)
    else
      var row := RetryRow(o, plan.value, now);
      if CanInsert(settled.ops, row) then Ok(settled.(ops := Inserted(settled.ops, row))) else Err(Internal)
  }

  ghost function FinishDb(db: Db, i: OpId, s: Status, plan: Option<RetryPlan>, now: Time): Db {
    if i !in db.ops || !db.ops[i].status.Running? then db
    else
      match SettleDb(db, i, s, plan, now)
      case Ok(after) => after
      case Err(_) => db
  }

  function CancelDb(db: Db, i: OpId): Db {
    if i in db.ops && db.ops[i].status.Pending?
    then db.(ops := db.ops[i := db.ops[i].(status := Cancelled)])
    else db
  }

  /** Recovery settles the stale operations one after another inside one transaction. */
  ghost function RecoverDb(db: Db, stale: seq<OpId>, plan: Operation -> Option<RetryPlan>, now: Time): Result<Db>
    decreases |stale|
  {
    if stale == [] then Ok(db)
    else if stale[0] !in db.ops then Err(Internal)
    else
      match SettleDb(db, stale[0], Failed, plan(db.ops[stale[0]]), now)
      case Ok(after) => RecoverDb(after, stale[1..], plan, now)
      case Err(c) => Err(c)
  }

  /** stale lists every running operation exactly once. */
  ghost predicate ListsRunning(db: Db, stale: seq<OpId>) {
    && (forall k | 0 <= k < |stale| :: stale[k] in db.ops && db.ops[stale[k]].status.Running?)
    && (forall i | i in db.ops && db.ops[i].status.Running? :: i in stale)
    && (forall k, l | 0 <= k < l < |stale| :: stale[k] != stale[l])
  }

  /** What a scheduled dispatch of the moment m records, when it has not been recorded yet. */
  ghost function DispatchDb(db: Db, m: Moment, o: Operation): Db {
    if m in db.runs then db
    else if HasIncomplete(db.ops, o.resource) then
      db.(runs := db.runs[m := ScheduleRun(RunFailed, None)])
    else if CanInsert(db.ops, o) then
      db.(ops := Inserted(db.ops, o), runs := db.runs[m := ScheduleRun(Dispatched, Some(o.id))])
    else db
  }

  function MissedDb(db: Db, m: Moment): Db {
    if m in db.runs then db else db.(runs := db.runs[m := ScheduleRun(Missed, None)])
  }

  // ---- The invariant ----

  ghost predicate WellFormed(ops: Rows) {
    forall i | i in ops :: ops[i].id == i && ops[i].attempt >= 1
  }

  ghost predicate OneIncompletePerResource(ops: Rows) {
    forall i, j | i in ops && j in ops && Incomplete(ops[i]) && Incomplete(ops[j])
      && ops[i].resource == ops[j].resource :: i == j
  }

  /** A lock is active with owner o exactly when o is running on that resource. */
  ghost predicate LocksMatchRunning(ops: Rows, locks: map<string, Lock>) {
    && (forall r | Locked(locks, r) ::
          locks[r].owner in ops && ops[locks[r].owner].status.Running? && ops[locks[r].owner].resource == r)
    && (forall i | i in ops && ops[i].status.Running? ::
          Locked(locks, ops[i].resource) && locks[ops[i].resource].owner == i)
  }

  ghost predicate KeysUnique(ops: Rows) {
    forall i, j | i in ops && j in ops && ops[i].key != "" && ops[i].key == ops[j].key :: i == j
  }

  /** An operation comes from a scheduled moment exactly when that moment's run record names it. */
  ghost predicate RunsMatchOrigins(ops: Rows, runs: map<Moment, ScheduleRun>) {
    && (forall i | i in ops && ops[i].origin.Some? ::
          ops[i].origin.value in runs && runs[ops[i].origin.value] == ScheduleRun(Dispatched, Some(i)))
    && (forall m | m in runs ::
          && (runs[m].result.Dispatched? <==> runs[m].operation.Some?)
          && (runs[m].operation.Some? ==>
                runs[m].operation.value in ops && ops[runs[m].operation.value].origin == Some(m)))
  }

  ghost predicate Inv(db: Db) {
    && WellFormed(db.ops)
    && OneIncompletePerResource(db.ops)
    && LocksMatchRunning(db.ops, db.locks)
    && KeysUnique(db.ops)
    && RunsMatchOrigins(db.ops, db.runs)
  }

  predicate Automatic(o: Operation) {
    o.notBefore.Some?
  }

  /** b retries a: the same work, one attempt later, after a has failed or been cancelled. */
  predicate RetryLink(a: Operation, b: Operation) {
    && b.attempt == a.attempt + 1
    && b.policy == a.policy
    && b.resource == a.resource
    && CanRetry(a.status)
  }

  ghost predicate LinksAreRetries(ops: Rows) {
    forall i | i in ops && ops[i].retryOf.Some? ::
      ops[i].retryOf.value in ops && RetryLink(ops[ops[i].retryOf.value], ops[i])
  }

  /** An automatic retry follows a failure and stays within the policy's attempts. */
  ghost predicate AutomaticWithinPolicy(ops: Rows) {
    forall i | i in ops && Automatic(ops[i]) ::
      && ops[i].retryOf.Some?
      && ops[i].retryOf.value in ops
      && ops[ops[i].retryOf.value].status.Failed?
      && ops[i].attempt <= ops[i].policy.maxAttempts
  }

  ghost predicate OneAutomaticRetryEach(ops: Rows) {
    forall i, j | i in ops && j in ops && Automatic(ops[i]) && Automatic(ops[j])
      && ops[i].retryOf == ops[j].retryOf :: i == j
  }

  ghost predicate RetryForest(ops: Rows) {
    LinksAreRetries(ops) && AutomaticWithinPolicy(ops) && OneAutomaticRetryEach(ops)
  }

  // ---- The store ----

  datatype CreateOutcome = Created(operation: Operation) | Replayed(operation: Operation) | Rejected(code: Code)

  class Store {
    var ops: Rows
    var locks: map<string, Lock>
    var runs: map<Moment, ScheduleRun>

    ghost function Data(): Db
      reads this
    {
      Db(ops, locks, runs)
    }

    constructor ()
      ensures Data() == EMPTY
    {
      ops, locks, runs := map[], map[], map[];
    }

    /** SELECT ... WHERE idempotency_key = ? */
    method FindByKey(key: string) returns (found: Option<OpId>)
      ensures found.Some? ==> found.value in ops && ops[found.value].key == key
      ensures found.None? ==> forall i | i in ops :: ops[i].key != key
    {
      var rest := ops.Keys;
      while rest != {}
        invariant rest <= ops.Keys
        invariant forall i | i in ops && i !in rest :: ops[i].key != key
        decreases |rest|
      {
        var i :| i in rest;
        if ops[i].key == key {
          return Some(i);
        }
        rest := rest - {i};
      }
      return None;
    }

    method HasIncompleteOperation(resource: string) returns (busy: bool)
      ensures busy <==> HasIncomplete(ops, resource)
    {
      var rest := ops.Keys;
      while rest != {}
        invariant rest <= ops.Keys
        invariant forall i | i in ops && i !in rest :: !(ops[i].resource == resource && Incomplete(ops[i]))
        decreases |rest|
      {
        var i :| i in rest;
        if ops[i].resource == resource && Incomplete(ops[i]) {
          return true;
        }
        rest := rest - {i};
      }
      return false;
    }

    /** INSERT INTO operations inside a transaction whose current view of the table is rows. */
    static method InsertOperation(rows: Rows, o: Operation) returns (r: Result<Rows>)
      ensures r == if CanInsert(rows, o) then Ok(Inserted(rows, o)) else Err(Internal)
    {
      if o.id in rows {
        return Err(Internal);
      }
      if o.key != "" {
        var rest := rows.Keys;
        while rest != {}
          invariant rest <= rows.Keys
          invariant forall i | i in rows && i !in rest :: rows[i].key != o.key
          decreases |rest|
        {
          var i :| i in rest;
          if rows[i].key == o.key {
            return Err(Internal);
          }
          rest := rest - {i};
        }
      }
      if o.retryOf.Some? && o.retryOf.value !in rows && o.retryOf.value != o.id {
        return Err(Internal);
      }
      return Ok(Inserted(rows, o));
    }

    method CreateOperation(o: Operation) returns (r: CreateOutcome)
      modifies this`ops
      ensures Data() == CreateDb(old(Data()), o)
      ensures r.Created? ==> o.id !in old(ops) && o.id in ops && ops == old(ops)[o.id := ops[o.id]]
      ensures r.Replayed? ==>
                ops == old(ops) && r.operation.key == o.key != "" && r.operation.hash == o.hash
                && exists i :: i in ops && ops[i] == r.operation
      ensures r.Rejected? ==> ops == old(ops)
      ensures r == Rejected(IdempotencyConflict) ==>
                exists i :: i in ops && o.key != "" && ops[i].key == o.key && ops[i].hash != o.hash
      ensures r == Rejected(LockBusy) <==> !KeyTaken(old(ops), o.key) && HasIncomplete(old(ops), o.resource)
    {
      if o.key != "" {
        var existing := FindByKey(o.key);
        if existing.Some? {
          if ops[existing.value].hash != o.hash {
            return Rejected(IdempotencyConflict);
          }
          return Replayed(ops[existing.value]);
        }
      }
      var busy := HasIncompleteOperation(o.resource);
      if busy {
        return Rejected(LockBusy);
      }
      var rows := InsertOperation(ops, o);
      if rows.Err? {
        return Rejected(Internal);
      }
      ops := rows.value;
      return Created(o);
    }

    /** The SELECT of ClaimNextPending: the oldest due pending operation whose resource is free. */
    method SelectNext(now: Time) returns (next: Option<OpId>)
      ensures next.Some? ==> IsNextClaim(Data(), next.value, now)
      ensures next.None? ==> forall i :: !Claimable(Data(), i, now)
    {
      next := None;
      var rest := ops.Keys;
      while rest != {}
        invariant rest <= ops.Keys
        invariant next.Some? ==> Claimable(Data(), next.value, now)
        invariant next.Some? ==>
                    forall j | j !in rest && Claimable(Data(), j, now) :: Before(ops[next.value], ops[j])
        invariant next.None? ==> forall j | j !in rest :: !Claimable(Data(), j, now)
        decreases |rest|
      {
        var i :| i in rest;
        if Due(ops[i], now) && !Locked(locks, ops[i].resource) {
          if next.None? || !Before(ops[next.value], ops[i]) {
            next := Some(i);
          }
        }
        rest := rest - {i};
      }
    }

    /**
     * Claims the next runnable operation and takes its resource lock. Under the invariant it comes back
     * empty-handed only when no pending operation is due.
     */
    method ClaimNextPending(now: Time) returns (claimed: Option<Operation>)
      modifies this`ops, this`locks
      ensures claimed.Some? ==>
                var i := claimed.value.id;
                old(Inv(Data())) ==> IsNextClaim(old(Data()), i, now) && Data() == ClaimDb(old(Data()), i)
      ensures claimed.None? ==> Data() == old(Data()) && forall i :: !Claimable(old(Data()), i, now)
      ensures claimed.None? && old(Inv(Data())) ==> forall i | i in ops :: !Due(ops[i], now)
    {
      var next := SelectNext(now);
      if next.None? {
        if Inv(Data()) {
          NothingDueWhenNothingClaimable(Data(), now);
        }
        return None;
      }
      var o := ops[next.value];
      locks := locks[o.resource := Lock(next.value, false)];
      ops := ops[next.value := o.(status := Running)];
      return Some(o.(status := Running));
    }

    /** Moves a running operation to a terminal status; anything else is left alone. */
    method Finish(i: OpId, s: Status, plan: Option<RetryPlan>, now: Time) returns (r: Result<Operation>)
      requires Terminal(s)
      modifies this`ops, this`locks
      ensures Data() == FinishDb(old(Data()), i, s, plan, now)
      ensures r == Err(OperationNotFound) <==> i !in old(ops)
      ensures r.Ok? ==> i in ops && r.value == ops[i]
      ensures r.Ok? && old(ops[i].status.Running?) ==> ops[i].status == s
    {
      if i !in ops {
        return Err(OperationNotFound);
      }
      var o := ops[i];
      if !o.status.Running? {
        return Ok(o);
      }
      var rows := ops[i := o.(status := s)];
      var held := Unlock(locks, o.resource, i);
      if plan.Some? {
        var inserted := InsertOperation(rows, RetryRow(o, plan.value, now));
        if inserted.Err? {
          return Err(Internal);
        }
        rows := inserted.value;
      }
      ops, locks := rows, held;
      return Ok(o.(status := s));
    }

    method CancelPending(i: OpId) returns (r: Result<Operation>, cancelled: bool)
      modifies this`ops
      ensures Data() == CancelDb(old(Data()), i)
      ensures r == Err(OperationNotFound) <==> i !in old(ops)
      ensures r.Ok? ==> i in ops && r.value == ops[i]
      ensures cancelled <==> i in old(ops) && old(ops)[i].status.Pending?
    {
      if i !in ops {
        return Err(OperationNotFound), false;
      }
      if !ops[i].status.Pending? {
        return Ok(ops[i]), false;
      }
      ops := ops[i := ops[i].(status := Cancelled)];
      return Ok(ops[i]), true;
    }

    /** SELECT ... WHERE status = 'running' ORDER BY created_at */
    method ListRunning() returns (stale: seq<OpId>)
      ensures ListsRunning(Data(), stale)
      ensures forall k, l | 0 <= k < l < |stale| :: ops[stale[k]].createdAt <= ops[stale[l]].createdAt
    {
      stale := [];
      var rest := set i | i in ops && ops[i].status.Running?;
      while rest != {}
        invariant forall k | 0 <= k < |stale| :: stale[k] in ops && stale[k] !in rest && ops[stale[k]].status.Running?
        invariant forall i | i in rest :: i in ops && ops[i].status.Running?
        invariant forall i | i in ops && ops[i].status.Running? :: i in rest || i in stale
        invariant forall k, l | 0 <= k < l < |stale| :: stale[k] != stale[l]
        invariant forall k, l | 0 <= k < l < |stale| :: ops[stale[k]].createdAt <= ops[stale[l]].createdAt
        invariant forall k, i | 0 <= k < |stale| && i in rest :: ops[stale[k]].createdAt <= ops[i].createdAt
        decreases |rest|
      {
        var oldest := Oldest(rest);
        stale := stale + [oldest];
        rest := rest - {oldest};
      }
    }

    method Oldest(candidates: set<OpId>) returns (oldest: OpId)
      requires candidates != {} && candidates <= ops.Keys
      ensures oldest in candidates
      ensures forall i | i in candidates :: ops[oldest].createdAt <= ops[i].createdAt
    {
      oldest :| oldest in candidates;
      var rest := candidates - {oldest};
      while rest != {}
        invariant rest <= candidates && oldest in candidates
        invariant forall i | i in candidates && i !in rest :: ops[oldest].createdAt <= ops[i].createdAt
        decreases |rest|
      {
        var i :| i in rest;
        if ops[i].createdAt < ops[oldest].createdAt {
          oldest := i;
        }
        rest := rest - {i};
      }
    }

    /** Fails every operation a previous daemon left running; all of it or nothing. */
    method RecoverRunning(plan: Operation -> Option<RetryPlan>, now: Time) returns (r: Result<seq<OpId>>)
      modifies this`ops, this`locks
      ensures r.Ok? ==>
                ListsRunning(old(Data()), r.value) && RecoverDb(old(Data()), r.value, plan, now) == Ok(Data())
      ensures r.Err? ==> Data() == old(Data())
    {
      var stale := ListRunning();
      var rows, held := ops, locks;
      ghost var before := Data();
      var k := 0;
      while k < |stale|
        invariant 0 <= k <= |stale|
        invariant Data() == before
        invariant forall j | j in before.ops :: j in rows
        invariant RecoverDb(before, stale, plan, now) == RecoverDb(Db(rows, held, runs), stale[k..], plan, now)
      {
        var i := stale[k];
        var o := rows[i];
        var settled := rows[i := o.(status := Failed)];
        var unlocked := Unlock(held, o.resource, i);
        var next := plan(o);
        assert stale[k..][0] == i && stale[k..][1..] == stale[k + 1..];
        if next.Some? {
          var inserted := InsertOperation(settled, RetryRow(o, next.value, now));
          if inserted.Err? {
            return Err(Internal);
          }
          settled := inserted.value;
        }
        rows, held := settled, unlocked;
        k := k + 1;
      }
      ops, locks := rows, held;
      return Ok(stale);
    }

    /** The run record, and the operation it dispatches, in one transaction. */
    method DispatchScheduledRun(m: Moment, o: Operation) returns (r: Result<ScheduleRun>, handled: bool)
      modifies this`ops, this`runs
      ensures Data() == DispatchDb(old(Data()), m, o)
      ensures handled <==> m in old(runs)
      ensures r.Ok? ==> m in runs
      ensures r.Ok? && !handled ==> runs[m] == r.value
      ensures r.Err? ==> Data() == old(Data()) && m !in runs
    {
      if m in runs {
        return Ok(ScheduleRun(Dispatched, None)), true;
      }
      var busy := HasIncompleteOperation(o.resource);
      if busy {
        runs := runs[m := ScheduleRun(RunFailed, None)];
        return Ok(runs[m]), false;
      }
      var rows := InsertOperation(ops, o);
      if rows.Err? {
        return Err(Internal), false;
      }
      ops := rows.value;
      runs := runs[m := ScheduleRun(Dispatched, Some(o.id))];
      return Ok(runs[m]), false;
    }

    method RecordMissedRun(m: Moment) returns (handled: bool)
      modifies this`runs
      ensures Data() == MissedDb(old(Data()), m)
      ensures handled <==> m in old(runs)
    {
      if m in runs {
        return true;
      }
      runs := runs[m := ScheduleRun(Missed, None)];
      return false;
    }
  }

  /**
   * A pending operation's resource is never locked: the lock's owner would be a second incomplete operation
   * on the same resource. So a claim misses nothing.
   */
  lemma DueIsClaimable(db: Db, i: OpId, now: Time)
    requires Inv(db) && i in db.ops && Due(db.ops[i], now)
    ensures Claimable(db, i, now)
  {
  }

  lemma NothingDueWhenNothingClaimable(db: Db, now: Time)
    requires Inv(db)
    requires forall i :: !Claimable(db, i, now)
    ensures forall i | i in db.ops :: !Due(db.ops[i], now)
  {
    forall i | i in db.ops && Due(db.ops[i], now)
      ensures Claimable(db, i, now)
    {
      DueIsClaimable(db, i, now);
    }
  }
}

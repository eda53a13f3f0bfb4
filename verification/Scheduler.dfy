/**
 * Catch-up: turning due moments into run records and operations.
 *
 * A pass over one schedule is a sequence of separate transactions, and the daemon can stop between any two
 * of them while other actors use the store. So the pass is modelled call by call (Begin, Handle, Complete),
 * with a crash possible at every point and any other engine step in between. The class Scheduler is the
 * pass as the daemon runs it, proved to be a run of those calls.
 */
module Scheduler {
  import opened Basics
  import opened Schedule
  import Operations
  import Engine

  type Db = Operations.Db
  type OpId = Operations.OpId

  /** 60 s in ns: a single moment this recent is a normal firing, whatever the missed-run policy says. */
  const MISFIRE_THRESHOLD := 60_000_000_000

  datatype MissedRunPolicy = Skip | RunOnce

  /** One enabled row of schedules. */
  datatype ScheduleRow = ScheduleRow(
    id: nat,
    resource: string,
    hash: string,
    policy: MissedRunPolicy,
    nextRunAt: Option<Time>,
    lastRunAt: Option<Time>)

  function Key(row: ScheduleRow, at: Time): Operations.Moment {
    Operations.Moment(row.id, at)
  }

  /** Which of the due moments get an operation; the others are recorded as missed. */
  function Chosen(moments: seq<Time>, policy: MissedRunPolicy, now: Time): (r: set<Time>)
    requires moments != []
    ensures |r| <= 1 && forall t | t in r :: t == moments[|moments| - 1]
  {
    if |moments| == 1 && now - moments[0] <= MISFIRE_THRESHOLD then {moments[0]}
    else if policy.RunOnce? then {moments[|moments| - 1]}
    else {}
  }

  // ---- The pass, call by call ----

  datatype Phase = Idle | InPass(now: Time, moments: seq<Time>, handled: nat)

  /**
   * The database, the schedule row and how far the pass has come. The last four fields are history, read by
   * no step: the first next_run_at, how many moments from it lie before the current next_run_at, whether
   * any completed pass was truncated, and the schedule's operations when the pass began.
   */
  datatype World = World(
    db: Db,
    row: ScheduleRow,
    phase: Phase,
    first: Option<Time>,
    covered: nat,
    truncatedOnce: bool,
    before: set<OpId>)

  datatype Step =
    | Begin(now: Time)
    | Handle(id: OpId)
    | Complete
    | Crash
    | Other(step: Engine.Step)

  /** The operations dispatched by this schedule. */
  ghost function Scheduled(db: Db, schedule: nat): set<OpId> {
    set i | i in db.ops && db.ops[i].origin.Some? && db.ops[i].origin.value.schedule == schedule
  }

  ghost function BeginWorld(w: World, next: Time -> Time, now: Time, limit: nat): World
    requires limit >= 1
  {
    if w.row.nextRunAt.None? then
      // a new schedule: initialise next_run_at and nothing else
      w.(row := w.row.(nextRunAt := Some(next(now))), first := Some(next(now)), covered := 0)
    else if w.row.nextRunAt.value > now then w
    else
      w.(phase := InPass(now, Due(next, w.row.nextRunAt.value, now, limit), 0),
         before := Scheduled(w.db, w.row.id))
  }

  ghost function HandleDb(db: Db, row: ScheduleRow, at: Time, dispatch: bool, id: OpId, now: Time): Db {
    if dispatch
    then Operations.DispatchDb(db, Key(row, at), Engine.ScheduledOperation(Key(row, at), id, row.resource, row.hash, now))
    else Operations.MissedDb(db, Key(row, at))
  }

  /** The insert of a dispatched operation fails (its id is taken), so nothing is recorded and the pass ends. */
  ghost predicate HandleFails(db: Db, row: ScheduleRow, at: Time, dispatch: bool, id: OpId, now: Time) {
    dispatch && Key(row, at) !in HandleDb(db, row, at, dispatch, id, now).runs
  }

  ghost function HandleWorld(w: World, id: OpId): World
    requires w.phase.InPass? && w.phase.handled < |w.phase.moments|
  {
    var p := w.phase;
    var at := p.moments[p.handled];
    var dispatch := at in Chosen(p.moments, w.row.policy, p.now);
    if HandleFails(w.db, w.row, at, dispatch, id, p.now) then w.(phase := Idle)
    else w.(db := HandleDb(w.db, w.row, at, dispatch, id, p.now), phase := p.(handled := p.handled + 1))
  }

  function NextAfterPass(next: Time -> Time, moments: seq<Time>, now: Time, limit: nat): Time
    requires moments != []
  {
    if |moments| == limit then next(now) else next(moments[|moments| - 1])
  }

  ghost function CompleteWorld(w: World, next: Time -> Time, limit: nat): World
    requires w.phase.InPass? && w.phase.moments != []
  {
    var p := w.phase;
    w.(row := w.row.(nextRunAt := Some(NextAfterPass(next, p.moments, p.now, limit)),
                     lastRunAt := Some(p.moments[|p.moments| - 1])),
       phase := Idle,
       covered := w.covered + |p.moments|,
       truncatedOnce := w.truncatedOnce || |p.moments| == limit)
  }

  /** Every other actor; there is one scheduler loop, so nobody else records runs of this schedule. */
  ghost predicate NotOurs(s: Engine.Step, schedule: nat) {
    && (s.Dispatch? ==> s.moment.schedule != schedule)
    && (s.RecordMissed? ==> s.moment.schedule != schedule)
  }

  /** A step whose guard does not hold changes nothing. */
  ghost function Apply(w: World, next: Time -> Time, limit: nat, s: Step): World
    requires limit >= 1
  {
    match s
    case Begin(now) => if w.phase.Idle? then BeginWorld(w, next, now, limit) else w
    case Handle(id) =>
      if w.phase.InPass? && w.phase.handled < |w.phase.moments| then HandleWorld(w, id) else w
    case Complete =>
      if w.phase.InPass? && w.phase.moments != [] && w.phase.handled == |w.phase.moments|
      then CompleteWorld(w, next, limit) else w
    case Crash => w.(phase := Idle)
    case Other(step) => if NotOurs(step, w.row.id) then w.(db := Engine.Apply(w.db, step)) else w
  }

  ghost function Run(w: World, next: Time -> Time, limit: nat, steps: seq<Step>): World
    requires limit >= 1
    decreases |steps|
  {
    if steps == [] then w else Run(Apply(w, next, limit, steps[0]), next, limit, steps[1..])
  }

  // ---- What holds after every step ----

  /** Run records of this schedule lie on planned moments, and all of them before next_run_at are recorded. */
  ghost predicate Covered(w: World, next: Time -> Time) {
    !w.truncatedOnce ==>
      && (w.row.nextRunAt.Some? <==> w.first.Some?)
      && (w.first.Some? ==> w.row.nextRunAt.value == Nth(next, w.first.value, w.covered))
      && (w.first.Some? ==>
            forall k: nat | k < w.covered :: Key(w.row, Nth(next, w.first.value, k)) in w.db.runs)
      && (forall m | m in w.db.runs && m.schedule == w.row.id ::
            w.first.Some? && exists k: nat :: m.at == Nth(next, w.first.value, k))
  }

  ghost predicate PassSound(w: World, next: Time -> Time, limit: nat)
    requires limit >= 1
  {
    w.phase.InPass? ==>
      && w.row.nextRunAt.Some? && w.row.nextRunAt.value <= w.phase.now
      && w.phase.moments == Due(next, w.row.nextRunAt.value, w.phase.now, limit)
      && w.phase.handled <= |w.phase.moments|
      && (forall k | 0 <= k < w.phase.handled :: Key(w.row, w.phase.moments[k]) in w.db.runs)
  }

  /** At most one operation has appeared since the pass began, and only once the chosen moment was handled. */
  ghost predicate AtMostOneNew(w: World) {
    w.phase.InPass? ==>
      && w.before <= Scheduled(w.db, w.row.id)
      && |Scheduled(w.db, w.row.id) - w.before| <= 1
      && (w.phase.handled < |w.phase.moments| ==> Scheduled(w.db, w.row.id) == w.before)
  }

  ghost predicate Sound(w: World, next: Time -> Time, limit: nat)
    requires limit >= 1
  {
    Covered(w, next) && PassSound(w, next, limit) && AtMostOneNew(w)
  }

  ghost function Fresh(row: ScheduleRow): World {
    World(Operations.EMPTY, row.(nextRunAt := None, lastRunAt := None), Idle, None, 0, false, {})
  }

  // Facts about one change of the database, without the engine's invariant in sight.

  /** after records the same moments of this schedule as before. */
  ghost predicate SameRecords(before: Db, after: Db, schedule: nat) {
    forall m: Operations.Moment | m.schedule == schedule :: m in before.runs <==> m in after.runs
  }

  /** after records the moment m as well, and nothing else of this schedule. */
  ghost predicate OneMoreRecord(before: Db, after: Db, m: Operations.Moment) {
    && m in after.runs
    && forall n: Operations.Moment | n != m && n.schedule == m.schedule :: n in before.runs <==> n in after.runs
  }

  lemma OtherKeepsRecords(db: Db, s: Engine.Step, schedule: nat)
    requires NotOurs(s, schedule)
    ensures SameRecords(db, Engine.Apply(db, s), schedule)
  {
    match s
    case Recover(stale, newIds, jitters, now) =>
      if Operations.ListsRunning(db, stale) {
        Engine.RecoverEvolves(db, stale, Engine.RecoveryPlan(newIds, jitters, now), now);
      }
    case WorkerFinish(op, status, code, newId, jitter, now) =>
    case Submit(_, _, _, _, _, _) =>
    case ManualRetry(_, _, _) =>
    case Claim(_, _) =>
    case Cancel(_) =>
    case Dispatch(_, _, _, _, _) =>
    case RecordMissed(_) =>
  }

  /** An operation is scheduled exactly when a run record names it, and the records are the same. */
  lemma SameRecordsSameOperations(before: Db, after: Db, schedule: nat)
    requires Operations.RunsMatchOrigins(before.ops, before.runs)
    requires Operations.RunsMatchOrigins(after.ops, after.runs)
    requires Engine.Extends(before, after) && SameRecords(before, after, schedule)
    ensures Scheduled(after, schedule) == Scheduled(before, schedule)
  {
    forall i | i in Scheduled(after, schedule)
      ensures i in Scheduled(before, schedule)
    {
      var m := after.ops[i].origin.value;
      assert m in before.runs && before.runs[m] == after.runs[m];
    }
    forall i | i in Scheduled(before, schedule)
      ensures i in Scheduled(after, schedule)
    {
      assert Engine.Evolves(before.ops[i], after.ops[i]);
    }
  }

  lemma OtherKeepsSchedule(db: Db, s: Engine.Step, schedule: nat)
    requires Engine.Good(db) && NotOurs(s, schedule)
    ensures var after := Engine.Apply(db, s);
            && Engine.Good(after)
            && SameRecords(db, after, schedule)
            && Scheduled(after, schedule) == Scheduled(db, schedule)
  {
    Engine.StepKeepsGood(db, s);
    Engine.StepExtends(db, s);
    OtherKeepsRecords(db, s, schedule);
    SameRecordsSameOperations(db, Engine.Apply(db, s), schedule);
  }

  lemma MissedRecords(db: Db, row: ScheduleRow, at: Time)
    ensures OneMoreRecord(db, Operations.MissedDb(db, Key(row, at)), Key(row, at))
    ensures Scheduled(Operations.MissedDb(db, Key(row, at)), row.id) == Scheduled(db, row.id)
  {
  }

  lemma DispatchRecords(db: Db, m: Operations.Moment, o: Operations.Operation)
    requires o.origin == Some(m)
    ensures var after := Operations.DispatchDb(db, m, o);
            && (m in after.runs ==> OneMoreRecord(db, after, m))
            && (m !in after.runs ==> after == db)
            && Scheduled(db, m.schedule) <= Scheduled(after, m.schedule) <= Scheduled(db, m.schedule) + {o.id}
  {
    var after := Operations.DispatchDb(db, m, o);
    if m !in db.runs && !Operations.HasIncomplete(db.ops, o.resource) && Operations.CanInsert(db.ops, o) {
      assert forall i | i in db.ops :: i in after.ops && after.ops[i] == db.ops[i];
    }
  }

  /** One handled moment: it is recorded afterwards, and at most one operation is new, none if it was not chosen. */
  lemma HandleRecords(db: Db, row: ScheduleRow, at: Time, dispatch: bool, id: OpId, now: Time)
    ensures var after := HandleDb(db, row, at, dispatch, id, now);
            && (!HandleFails(db, row, at, dispatch, id, now) ==> OneMoreRecord(db, after, Key(row, at)))
            && (HandleFails(db, row, at, dispatch, id, now) ==> after == db)
            && Scheduled(db, row.id) <= Scheduled(after, row.id) <= Scheduled(db, row.id) + {id}
            && (!dispatch ==> Scheduled(after, row.id) == Scheduled(db, row.id))
  {
    var m := Key(row, at);
    if dispatch {
      DispatchRecords(db, m, Engine.ScheduledOperation(m, id, row.resource, row.hash, now));
    } else {
      MissedRecords(db, row, at);
    }
  }

  lemma DispatchKeepsGood(db: Db, row: ScheduleRow, at: Time, id: OpId, now: Time)
    requires Engine.Good(db)
    ensures Engine.Good(HandleDb(db, row, at, true, id, now))
  {
    var m := Key(row, at);
    Engine.DispatchKeeps(db, m, Engine.ScheduledOperation(m, id, row.resource, row.hash, now));
  }

  lemma MissedKeepsGood(db: Db, m: Operations.Moment)
    requires Engine.Good(db)
    ensures Engine.Good(Operations.MissedDb(db, m))
  {
    Engine.StepKeepsGood(db, Engine.RecordMissed(m));
  }

  lemma HandleKeepsGood(db: Db, row: ScheduleRow, at: Time, dispatch: bool, id: OpId, now: Time)
    requires Engine.Good(db)
    ensures Engine.Good(HandleDb(db, row, at, dispatch, id, now))
  {
    if dispatch {
      DispatchKeepsGood(db, row, at, id, now);
    } else {
      MissedKeepsGood(db, Key(row, at));
    }
  }

  lemma NewIsSingleton(a: set<OpId>, b: set<OpId>, id: OpId)
    requires a <= b <= a + {id}
    ensures |b - a| <= 1
  {
    assert b - a <= {id};
    SubsetSize(b - a, {id});
  }

  // Each part of Sound, kept by each call.

  lemma CoveredWithSameRecords(w: World, next: Time -> Time, db: Db)
    requires Covered(w, next) && SameRecords(w.db, db, w.row.id)
    ensures Covered(w.(db := db), next)
  {
    forall m | m in db.runs && m.schedule == w.row.id
      ensures m in w.db.runs
    {
    }
  }

  lemma CoveredWithOneMore(w: World, next: Time -> Time, db: Db, k: nat)
    requires Covered(w, next) && w.first.Some?
    requires OneMoreRecord(w.db, db, Key(w.row, Nth(next, w.first.value, k)))
    ensures Covered(w.(db := db), next)
  {
    if !w.truncatedOnce {
      forall m | m in db.runs && m.schedule == w.row.id
        ensures exists j: nat :: m.at == Nth(next, w.first.value, j)
      {
        if m != Key(w.row, Nth(next, w.first.value, k)) {
          assert m in w.db.runs;
        }
      }
    }
  }

  lemma PassPosition(w: World, next: Time -> Time, limit: nat, k: nat)
    requires limit >= 1 && StrictlyIncreasing(next) && Covered(w, next) && PassSound(w, next, limit)
    requires w.phase.InPass? && k < |w.phase.moments|
    ensures w.phase.moments[k] == Nth(next, w.row.nextRunAt.value, k)
    ensures !w.truncatedOnce ==> w.first.Some? && w.phase.moments[k] == Nth(next, w.first.value, w.covered + k)
  {
    DueIsOrbit(next, w.row.nextRunAt.value, w.phase.now, limit);
    if !w.truncatedOnce {
      NthCompose(next, w.first.value, w.covered, k);
    }
  }

  /** Only the last moment of a pass can be chosen. */
  lemma ChosenIsLast(w: World, next: Time -> Time, limit: nat)
    requires limit >= 1 && StrictlyIncreasing(next) && PassSound(w, next, limit)
    requires w.phase.InPass? && w.phase.handled < |w.phase.moments|
    ensures w.phase.moments[w.phase.handled] in Chosen(w.phase.moments, w.row.policy, w.phase.now) ==>
              w.phase.handled == |w.phase.moments| - 1
  {
    DueIsOrbit(next, w.row.nextRunAt.value, w.phase.now, limit);
    var last := |w.phase.moments| - 1;
    if w.phase.handled < last {
      NthIncreases(next, w.row.nextRunAt.value, w.phase.handled, last);
    }
  }

  lemma BeginKeepsSound(w: World, next: Time -> Time, limit: nat, now: Time)
    requires limit >= 1 && StrictlyIncreasing(next) && Sound(w, next, limit) && w.phase.Idle?
    ensures Sound(BeginWorld(w, next, now, limit), next, limit)
  {
    var after := BeginWorld(w, next, now, limit);
    assert Covered(after, next);
  }

  lemma HandleKeepsSound(w: World, next: Time -> Time, limit: nat, id: OpId)
    requires limit >= 1 && StrictlyIncreasing(next) && Sound(w, next, limit)
    requires w.phase.InPass? && w.phase.handled < |w.phase.moments|
    ensures Sound(HandleWorld(w, id), next, limit)
  {
    var p := w.phase;
    var at := p.moments[p.handled];
    var dispatch := at in Chosen(p.moments, w.row.policy, p.now);
    HandleRecords(w.db, w.row, at, dispatch, id, p.now);
    if !HandleFails(w.db, w.row, at, dispatch, id, p.now) {
      HandleKeepsParts(w, next, limit, id, HandleDb(w.db, w.row, at, dispatch, id, p.now), dispatch);
    }
  }

  lemma HandleKeepsParts(w: World, next: Time -> Time, limit: nat, id: OpId, db: Db, dispatch: bool)
    requires limit >= 1 && StrictlyIncreasing(next)
    requires Covered(w, next) && PassSound(w, next, limit) && AtMostOneNew(w)
    requires w.phase.InPass? && w.phase.handled < |w.phase.moments|
    requires dispatch <==> w.phase.moments[w.phase.handled] in Chosen(w.phase.moments, w.row.policy, w.phase.now)
    requires OneMoreRecord(w.db, db, Key(w.row, w.phase.moments[w.phase.handled]))
    requires Scheduled(w.db, w.row.id) <= Scheduled(db, w.row.id) <= Scheduled(w.db, w.row.id) + {id}
    requires !dispatch ==> Scheduled(db, w.row.id) == Scheduled(w.db, w.row.id)
    ensures var after := w.(db := db, phase := w.phase.(handled := w.phase.handled + 1));
            Covered(after, next) && PassSound(after, next, limit) && AtMostOneNew(after)
  {
    var p := w.phase;
    var after := w.(db := db, phase := p.(handled := p.handled + 1));
    PassPosition(w, next, limit, p.handled);
    if !w.truncatedOnce {
      CoveredWithOneMore(w, next, db, w.covered + p.handled);
    }
    ChosenIsLast(w, next, limit);
    NewIsSingleton(Scheduled(w.db, w.row.id), Scheduled(db, w.row.id), id);
    assert PassSound(after, next, limit);
  }

  lemma CompletedIsCovered(w: World, next: Time -> Time, limit: nat)
    requires limit >= 1 && StrictlyIncreasing(next) && Covered(w, next) && PassSound(w, next, limit)
    requires w.phase.InPass? && w.phase.moments != [] && w.phase.handled == |w.phase.moments|
    ensures var after := CompleteWorld(w, next, limit);
            Covered(after, next) && after.row.nextRunAt.value > w.phase.now
  {
    var p := w.phase;
    var after := CompleteWorld(w, next, limit);
    var n := |p.moments|;
    DueIsOrbit(next, w.row.nextRunAt.value, p.now, limit);
    assert p.moments[n - 1] == Nth(next, w.row.nextRunAt.value, n - 1);
    if n < limit {
      assert next(p.moments[n - 1]) == Nth(next, w.row.nextRunAt.value, n);
    }
    if !after.truncatedOnce {
      var first := w.first.value;
      NthCompose(next, first, w.covered, n);
      forall k: nat | k < after.covered
        ensures Key(after.row, Nth(next, first, k)) in after.db.runs
      {
        if k >= w.covered {
          PassPosition(w, next, limit, k - w.covered);
        }
      }
    }
  }

  lemma CompleteKeepsSound(w: World, next: Time -> Time, limit: nat)
    requires limit >= 1 && StrictlyIncreasing(next) && Sound(w, next, limit)
    requires w.phase.InPass? && w.phase.moments != [] && w.phase.handled == |w.phase.moments|
    ensures var after := CompleteWorld(w, next, limit);
            && Sound(after, next, limit)
            && after.row.nextRunAt.value > w.phase.now
            && |Scheduled(after.db, after.row.id) - w.before| <= 1
  {
    CompletedIsCovered(w, next, limit);
  }

  lemma OtherKeepsSound(w: World, next: Time -> Time, limit: nat, s: Engine.Step)
    requires limit >= 1 && Engine.Good(w.db) && Sound(w, next, limit) && NotOurs(s, w.row.id)
    ensures Sound(w.(db := Engine.Apply(w.db, s)), next, limit)
  {
    OtherKeepsSchedule(w.db, s, w.row.id);
    OtherKeepsParts(w, next, limit, Engine.Apply(w.db, s));
  }

  lemma OtherKeepsParts(w: World, next: Time -> Time, limit: nat, db: Db)
    requires limit >= 1 && Sound(w, next, limit)
    requires SameRecords(w.db, db, w.row.id) && Scheduled(db, w.row.id) == Scheduled(w.db, w.row.id)
    ensures Sound(w.(db := db), next, limit)
  {
    CoveredWithSameRecords(w, next, db);
  }

  lemma StepKeepsSound(w: World, next: Time -> Time, limit: nat, s: Step)
    requires limit >= 1 && StrictlyIncreasing(next) && Engine.Good(w.db) && Sound(w, next, limit)
    ensures Sound(Apply(w, next, limit, s), next, limit)
  {
    match s
    case Begin(now) =>
      if w.phase.Idle? {
        BeginKeepsSound(w, next, limit, now);
      }
    case Handle(id) =>
      if w.phase.InPass? && w.phase.handled < |w.phase.moments| {
        HandleKeepsSound(w, next, limit, id);
      }
    case Complete =>
      if w.phase.InPass? && w.phase.moments != [] && w.phase.handled == |w.phase.moments| {
        CompleteKeepsSound(w, next, limit);
      }
    case Crash =>
    case Other(step) =>
      if NotOurs(step, w.row.id) {
        OtherKeepsSound(w, next, limit, step);
      }
  }

  lemma StepKeepsGood(w: World, next: Time -> Time, limit: nat, s: Step)
    requires limit >= 1 && Engine.Good(w.db)
    ensures Engine.Good(Apply(w, next, limit, s).db)
  {
    if s.Other? && NotOurs(s.step, w.row.id) {
      Engine.StepKeepsGood(w.db, s.step);
    } else if s.Handle? && w.phase.InPass? && w.phase.handled < |w.phase.moments| {
      var at := w.phase.moments[w.phase.handled];
      HandleKeepsGood(w.db, w.row, at, at in Chosen(w.phase.moments, w.row.policy, w.phase.now), s.id, w.phase.now);
    }
  }

  lemma {:induction false} EveryRunIsSound(w: World, next: Time -> Time, limit: nat, steps: seq<Step>)
    requires limit >= 1 && StrictlyIncreasing(next) && Engine.Good(w.db) && Sound(w, next, limit)
    ensures Engine.Good(Run(w, next, limit, steps).db)
    ensures Sound(Run(w, next, limit, steps), next, limit)
    decreases |steps|
  {
    if steps != [] {
      StepKeepsSound(w, next, limit, steps[0]);
      StepKeepsGood(w, next, limit, steps[0]);
      EveryRunIsSound(Apply(w, next, limit, steps[0]), next, limit, steps[1..]);
    }
  }

  /**
   * Main theorem, over every interleaving with crashes: two operations never come from the same moment, and
   * the moment's one record names its operation.
   */
  lemma OneOperationPerMoment(row: ScheduleRow, next: Time -> Time, limit: nat, steps: seq<Step>, i: OpId, j: OpId)
    requires limit >= 1 && StrictlyIncreasing(next)
    requires var db := Run(Fresh(row), next, limit, steps).db;
             i in db.ops && j in db.ops && db.ops[i].origin.Some? && db.ops[i].origin == db.ops[j].origin
    ensures var db := Run(Fresh(row), next, limit, steps).db;
            i == j && db.ops[i].origin.value in db.runs
            && db.runs[db.ops[i].origin.value] == Operations.ScheduleRun(Operations.Dispatched, Some(i))
  {
    EveryRunIsSound(Fresh(row), next, limit, steps);
  }

  /** What a completed pass leaves behind. */
  ghost predicate CaughtUp(w: World, next: Time -> Time, now: Time) {
    && w.row.nextRunAt.Some? && w.row.nextRunAt.value > now
    && |Scheduled(w.db, w.row.id) - w.before| <= 1
    && (!w.truncatedOnce ==>
          && w.first.Some?
          && (forall k: nat | Nth(next, w.first.value, k) <= now ::
                Key(w.row, Nth(next, w.first.value, k)) in w.db.runs)
          && (forall m | m in w.db.runs && m.schedule == w.row.id ::
                exists k: nat :: m.at == Nth(next, w.first.value, k)))
  }

  lemma CompletedIsCaughtUp(w: World, next: Time -> Time, limit: nat)
    requires limit >= 1 && StrictlyIncreasing(next) && Sound(w, next, limit)
    requires w.phase.InPass? && w.phase.moments != [] && w.phase.handled == |w.phase.moments|
    ensures CaughtUp(CompleteWorld(w, next, limit), next, w.phase.now)
  {
    CompletedIsCovered(w, next, limit);
    var after := CompleteWorld(w, next, limit);
    if !after.truncatedOnce {
      forall k: nat | Nth(next, after.first.value, k) <= w.phase.now
        ensures k < after.covered
      {
        if k > after.covered {
          NthIncreases(next, after.first.value, after.covered, k);
        }
      }
    }
  }

  /**
   * Main theorem: right after a pass completes the next moment lies in the future and at most one operation
   * is new; and as long as no completed pass was truncated, exactly planned moments are recorded and every
   * planned moment up to the time of the pass is.
   */
  lemma CompletedPassRecordsEverything(row: ScheduleRow, next: Time -> Time, limit: nat, steps: seq<Step>)
    requires limit >= 1 && StrictlyIncreasing(next)
    requires var w := Run(Fresh(row), next, limit, steps);
             w.phase.InPass? && w.phase.moments != [] && w.phase.handled == |w.phase.moments|
    ensures var w := Run(Fresh(row), next, limit, steps);
            var after := Apply(w, next, limit, Complete);
            CaughtUp(after, next, w.phase.now) && after.row.id == row.id
  {
    EveryRunIsSound(Fresh(row), next, limit, steps);
    RowIdIsConstant(Fresh(row), next, limit, steps);
    CompletedIsCaughtUp(Run(Fresh(row), next, limit, steps), next, limit);
  }

  lemma {:induction false} RowIdIsConstant(w: World, next: Time -> Time, limit: nat, steps: seq<Step>)
    requires limit >= 1
    ensures Run(w, next, limit, steps).row.id == w.row.id
    decreases |steps|
  {
    if steps != [] {
      RowIdIsConstant(Apply(w, next, limit, steps[0]), next, limit, steps[1..]);
    }
  }

  // ---- The pass as the daemon runs it ----

  lemma {:induction false} RunThenApply(w: World, next: Time -> Time, limit: nat, steps: seq<Step>, s: Step)
    requires limit >= 1
    ensures Run(w, next, limit, steps + [s]) == Apply(Run(w, next, limit, steps), next, limit, s)
    decreases |steps|
  {
    if steps == [] {
      assert steps + [s] == [s];
      assert Run(w, next, limit, [s]) == Run(Apply(w, next, limit, s), next, limit, []);
    } else {
      assert (steps + [s])[1..] == steps[1..] + [s];
      RunThenApply(Apply(w, next, limit, steps[0]), next, limit, steps[1..], s);
    }
  }

  method ChooseDispatchedMoments(moments: seq<Time>, policy: MissedRunPolicy, now: Time) returns (dispatch: set<Time>)
    requires moments != []
    ensures dispatch == Chosen(moments, policy, now)
    ensures |dispatch| <= 1 && dispatch <= {moments[|moments| - 1]}
    ensures dispatch != {} <==> policy == RunOnce || (|moments| == 1 && now - moments[0] <= MISFIRE_THRESHOLD)
  {
    dispatch := {};
    if |moments| == 1 && now - moments[0] <= MISFIRE_THRESHOLD {
      dispatch := dispatch + {moments[0]};
      return;
    }
    if policy == RunOnce {
      dispatch := dispatch + {moments[|moments| - 1]};
    }
  }

  /**
   * The scheduler of one schedule. taken is the history of everything that happened so far; Valid() ties
   * the fields and the store to the run of that history, so the theorems above hold of them.
   */
  class Scheduler {
    const store: Operations.Store
    const next: Time -> Time
    const created: ScheduleRow
    var row: ScheduleRow
    ghost var world: World
    ghost var taken: seq<Step>

    ghost predicate Coupled()
      reads this, store
    {
      && world == Run(Fresh(created), next, MAX_SCHEDULED_MOMENTS, taken)
      && world.db == store.Data() && world.row == row
    }

    ghost predicate Valid()
      reads this, store
    {
      Coupled() && world.phase.Idle?
    }

    constructor (store: Operations.Store, next: Time -> Time, row: ScheduleRow)
      requires store.Data() == Operations.EMPTY
      ensures Valid() && this.store == store && this.next == next && created == row && taken == []
    {
      this.store, this.next, this.created := store, next, row;
      this.row := row.(nextRunAt := None, lastRunAt := None);
      world := Fresh(row);
      taken := [];
    }

    ghost method Take(s: Step)
      requires world == Run(Fresh(created), next, MAX_SCHEDULED_MOMENTS, taken)
      modifies this`world, this`taken
      ensures taken == old(taken) + [s]
      ensures world == Apply(old(world), next, MAX_SCHEDULED_MOMENTS, s)
      ensures world == Run(Fresh(created), next, MAX_SCHEDULED_MOMENTS, taken)
    {
      RunThenApply(Fresh(created), next, MAX_SCHEDULED_MOMENTS, taken, s);
      world := Apply(world, next, MAX_SCHEDULED_MOMENTS, s);
      taken := taken + [s];
    }

    /** Another actor has used the store. */
    ghost method Observe(s: Engine.Step)
      requires world == Run(Fresh(created), next, MAX_SCHEDULED_MOMENTS, taken) && world.row == row
      requires NotOurs(s, row.id) && store.Data() == Engine.Apply(world.db, s)
      modifies this`world, this`taken
      ensures Coupled() && taken == old(taken) + [Other(s)] && world.phase == old(world).phase
    {
      Take(Other(s));
    }

    /** One moment: at most one repository transaction. ok is false when the transaction fails. */
    method HandleMoment(at: Time, dispatch: bool, id: OpId, now: Time) returns (ok: bool)
      requires Coupled() && world.phase.InPass? && world.phase.handled < |world.phase.moments|
      requires at == world.phase.moments[world.phase.handled] && now == world.phase.now
      requires dispatch <==> at in Chosen(world.phase.moments, row.policy, now)
      modifies this`world, this`taken, store`ops, store`runs
      ensures Coupled() && taken == old(taken) + [Handle(id)]
      ensures ok ==> world.phase == old(world).phase.(handled := old(world).phase.handled + 1)
      ensures !ok ==> world.phase.Idle?
    {
      ghost var before := store.Data();
      var m := Key(row, at);
      if !dispatch {
        var _ := store.RecordMissedRun(m);
        ok := true;
      } else {
        var o := Engine.ScheduledOperation(m, id, row.resource, row.hash, now);
        var r, handled := store.DispatchScheduledRun(m, o);
        DispatchRecords(before, m, o);
        ok := r.Ok?;
      }
      assert store.Data() == HandleDb(before, row, at, dispatch, id, now);
      Take(Handle(id));
    }

    /**
     * One pass at time now. budget is the number of repository calls that succeed before the process dies;
     * ids are the operation ids it draws. A pass that completes has caught up.
     */
    method ProcessSchedule(now: Time, budget: nat, ids: nat -> OpId) returns (completed: bool)
      requires Valid() && StrictlyIncreasing(next)
      modifies this`row, this`world, this`taken, store`ops, store`runs
      ensures Valid() && old(taken) <= taken
      ensures old(row.nextRunAt).None? || old(row.nextRunAt).value > now ==>
                store.Data() == old(store.Data()) && row.lastRunAt == old(row.lastRunAt)
      ensures completed ==> row.nextRunAt.Some? && row.nextRunAt.value > now
      ensures completed && old(row.nextRunAt).Some? && old(row.nextRunAt).value <= now ==> CaughtUp(world, next, now)
    {
      if row.nextRunAt.None? {
        if budget == 0 {
          return false;
        }
        Take(Begin(now));
        row := row.(nextRunAt := Some(next(now)));
        return true;
      }
      if row.nextRunAt.value > now {
        return true;
      }

      completed := CatchUp(now, budget, ids);
    }

    /** A pass over the due moments. */
    method CatchUp(now: Time, budget: nat, ids: nat -> OpId) returns (completed: bool)
      requires Valid() && StrictlyIncreasing(next) && row.nextRunAt.Some? && row.nextRunAt.value <= now
      modifies this`row, this`world, this`taken, store`ops, store`runs
      ensures Valid() && old(taken) <= taken
      ensures completed ==> row.nextRunAt.Some? && row.nextRunAt.value > now && CaughtUp(world, next, now)
    {
      var first := row.nextRunAt.value;
      Take(Begin(now));
      var moments, truncated := DueMoments(next, first, now, 0);
      var dispatch := ChooseDispatchedMoments(moments, row.policy, now);
      var k := 0;
      while k < |moments|
        invariant 0 <= k <= |moments| && Coupled() && row == old(row) && old(taken) <= taken
        invariant world.phase == InPass(now, moments, k)
      {
        if k == budget {
          Take(Crash);
          return false;
        }
        var ok := HandleMoment(moments[k], moments[k] in dispatch, ids(k), now);
        if !ok {
          return false;
        }
        k := k + 1;
      }
      if budget == |moments| {
        Take(Crash);
        return false;
      }
      var nextRun := next(moments[|moments| - 1]);
      if truncated {
        nextRun := next(now);
      }
      CompletedPassRecordsEverything(created, next, MAX_SCHEDULED_MOMENTS, taken);
      row := row.(nextRunAt := Some(nextRun), lastRunAt := Some(moments[|moments| - 1]));
      Take(Complete);
      return true;
    }
  }
}

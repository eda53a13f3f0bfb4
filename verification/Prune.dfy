/**
 * Carrying out a retention plan over a content-addressed store whose blobs several backups may share, call by
 * call, so that stopping anywhere leaves every remaining backup its content.
 */
module Prune {
  import opened Basics
  import opened Retention
  import opened Sorting

  type Rows = map<BackupId, Backup>

  const MAX_BACKUP_SCAN := 5000

  /** The backups table and the blob store; freed is what a prune has reported as freed so far. */
  datatype Vault = Vault(rows: Rows, blobs: set<Digest>, freed: nat)

  ghost predicate WellKeyed(rows: Rows) {
    forall i | i in rows :: rows[i].id == i
  }

  ghost predicate Holds(rows: Rows, i: BackupId, d: Digest) {
    i in rows && rows[i].digest == Some(d) && !rows[i].status.Pruned?
  }

  /** SELECT COUNT(*) ... WHERE storage_digest = ? AND status <> 'pruned' */
  function References(rows: Rows, d: Digest): nat {
    |Holders(rows, d)|
  }

  function Holders(rows: Rows, d: Digest): set<BackupId> {
    set i | i in rows && rows[i].digest == Some(d) && !rows[i].status.Pruned?
  }

  /** Every backup that is not pruned, of any policy, has its content. */
  ghost predicate AllHaveContent(v: Vault) {
    forall i, d :: Holds(v.rows, i, d) ==> d in v.blobs
  }

  function Mark(rows: Rows, id: BackupId): Rows {
    if id in rows && rows[id].status.Succeeded? then rows[id := rows[id].(status := Pruned)] else rows
  }

  /** The content of the marked backup b goes when nobody holds it any more. */
  function Release(v: Vault, b: Backup): Vault {
    if b.digest.Some? && References(v.rows, b.digest.value) == 0
    then v.(blobs := v.blobs - {b.digest.value}, freed := v.freed + b.storedBytes)
    else v
  }

  function PruneOne(v: Vault, id: BackupId): Vault
    requires id in v.rows
  {
    Release(v.(rows := Mark(v.rows, id)), v.rows[id])
  }

  function PruneAll(v: Vault, ids: seq<BackupId>): Vault
    requires forall id | id in ids :: id in v.rows
    decreases |ids|
  {
    if ids == [] then v else PruneAll(PruneOne(v, ids[0]), ids[1..])
  }

  /** What a dry run reports: content held by nobody else, judged before anything is marked. */
  function DryFreed(rows: Rows, ids: seq<BackupId>): nat
    requires forall id | id in ids :: id in rows
  {
    if ids == [] then 0
    else
      var b := rows[ids[0]];
      (if b.digest.None? || References(rows, b.digest.value) <= 1 then b.storedBytes else 0) + DryFreed(rows, ids[1..])
  }

  // ---- Counting references ----

  lemma HoldersHold(rows: Rows, d: Digest)
    ensures forall i :: i in Holders(rows, d) <==> Holds(rows, i, d)
  {
  }

  lemma NoReferences(rows: Rows, d: Digest)
    ensures References(rows, d) == 0 <==> forall i :: !Holds(rows, i, d)
  {
    HoldersHold(rows, d);
    if Holders(rows, d) != {} {
      var i :| i in Holders(rows, d);
      assert Holds(rows, i, d);
    }
  }

  lemma SoleHolder(rows: Rows, i: BackupId, d: Digest)
    requires Holds(rows, i, d)
    ensures References(rows, d) <= 1 <==> forall j :: Holds(rows, j, d) ==> j == i
  {
    HoldersHold(rows, d);
    var holders := Holders(rows, d);
    assert i in holders;
    if holders == {i} {
      forall j | Holds(rows, j, d)
        ensures j == i
      {
        assert j in holders;
      }
    } else {
      var j :| j in holders && j != i;
      AtLeastTwo(holders, i, j);
      assert Holds(rows, j, d);
    }
  }

  lemma AtLeastTwo(s: set<BackupId>, i: BackupId, j: BackupId)
    requires i in s && j in s && i != j
    ensures |s| >= 2
  {
    assert s == {i} + (s - {i});
    assert j in s - {i};
  }

  // ---- Safety of every step ----

  /** Marking a backup takes nothing away from any other. */
  lemma MarkKeepsContent(v: Vault, id: BackupId)
    requires AllHaveContent(v)
    ensures AllHaveContent(v.(rows := Mark(v.rows, id)))
  {
    forall i, d | Holds(Mark(v.rows, id), i, d)
      ensures d in v.blobs
    {
      assert Holds(v.rows, i, d);
    }
  }

  lemma ReleaseKeepsContent(v: Vault, b: Backup)
    requires AllHaveContent(v)
    ensures AllHaveContent(Release(v, b))
  {
    if b.digest.Some? {
      NoReferences(v.rows, b.digest.value);
    }
  }

  /** Crash safety: after any number of backups, every backup that remains has its content. */
  lemma {:induction false} PruneKeepsContent(v: Vault, ids: seq<BackupId>)
    requires AllHaveContent(v) && forall id | id in ids :: id in v.rows
    ensures AllHaveContent(PruneAll(v, ids))
    decreases |ids|
  {
    if ids != [] {
      MarkKeepsContent(v, ids[0]);
      ReleaseKeepsContent(v.(rows := Mark(v.rows, ids[0])), v.rows[ids[0]]);
      PruneKeepsContent(PruneOne(v, ids[0]), ids[1..]);
    }
  }

  /** The rows after a prune: the listed backups are marked, nothing else about any row changes. */
  lemma {:induction false} PruneMarksOnly(v: Vault, ids: seq<BackupId>)
    requires forall id | id in ids :: id in v.rows
    ensures PruneAll(v, ids).rows.Keys == v.rows.Keys
    ensures forall i | i in v.rows ::
              PruneAll(v, ids).rows[i] ==
              if i in ids && v.rows[i].status.Succeeded? then v.rows[i].(status := Pruned) else v.rows[i]
    decreases |ids|
  {
    if ids != [] {
      PruneMarksOnly(PruneOne(v, ids[0]), ids[1..]);
      forall i
        ensures i in ids <==> i == ids[0] || i in ids[1..]
      {
      }
    }
  }

  /** Planned backups are succeeded rows, each once. */
  ghost predicate Ready(rows: Rows, ids: seq<BackupId>) {
    && (forall id | id in ids :: id in rows && rows[id].status.Succeeded?)
    && (forall k, l | 0 <= k < l < |ids| :: ids[k] != ids[l])
  }

  /** A digest is given up by this prune: one of the listed backups held it and nobody does afterwards. */
  ghost predicate GivenUp(v: Vault, ids: seq<BackupId>, d: Digest)
    requires forall id | id in ids :: id in v.rows
  {
    && (exists i :: i in ids && Holds(v.rows, i, d))
    && (forall i :: !Holds(PruneAll(v, ids).rows, i, d))
  }

  lemma {:induction false} DeletedIsGivenUp(v: Vault, ids: seq<BackupId>, d: Digest)
    requires Ready(v.rows, ids)
    requires d in v.blobs && d !in PruneAll(v, ids).blobs
    ensures GivenUp(v, ids, d)
    decreases |ids|
  {
    var one, rest := PruneOne(v, ids[0]), ids[1..];
    RestIsReady(v, ids);
    PruneMarksOnly(one, rest);
    if d !in one.blobs {
      NoReferences(Mark(v.rows, ids[0]), d);
      assert ids[0] in ids && Holds(v.rows, ids[0], d);
      forall i
        ensures !Holds(PruneAll(v, ids).rows, i, d)
      {
        assert !Holds(one.rows, i, d);
      }
    } else {
      DeletedIsGivenUp(one, rest, d);
      var i :| i in rest && Holds(one.rows, i, d);
      assert i in ids && Holds(v.rows, i, d);
    }
  }

  lemma RestIsReady(v: Vault, ids: seq<BackupId>)
    requires ids != [] && Ready(v.rows, ids)
    ensures var one := PruneOne(v, ids[0]); Ready(one.rows, ids[1..]) && one.blobs <= v.blobs
  {
    forall id | id in ids[1..]
      ensures id in ids && id != ids[0]
    {
      var k :| 0 <= k < |ids[1..]| && ids[1..][k] == id;
      assert ids[k + 1] == id;
    }
  }

  lemma {:induction false} BlobsOnlyGo(v: Vault, ids: seq<BackupId>)
    requires forall id | id in ids :: id in v.rows
    ensures PruneAll(v, ids).blobs <= v.blobs
    decreases |ids|
  {
    if ids != [] {
      BlobsOnlyGo(PruneOne(v, ids[0]), ids[1..]);
    }
  }

  lemma {:induction false} GivenUpIsDeleted(v: Vault, ids: seq<BackupId>, d: Digest)
    requires Ready(v.rows, ids)
    requires GivenUp(v, ids, d)
    ensures d !in PruneAll(v, ids).blobs
    decreases |ids|
  {
    var one, rest := PruneOne(v, ids[0]), ids[1..];
    RestIsReady(v, ids);
    PruneMarksOnly(one, rest);
    BlobsOnlyGo(one, rest);
    NoReferences(one.rows, d);
    if j :| Holds(one.rows, j, d) {
      // nobody holds it in the end, so j is marked later
      assert !Holds(PruneAll(v, ids).rows, j, d);
      assert j in rest;
      GivenUpIsDeleted(one, rest, d);
    } else {
      var i :| i in ids && Holds(v.rows, i, d);
      assert !Holds(one.rows, i, d);
      assert i == ids[0];
    }
  }

  /** A blob is deleted exactly when the last backup holding it has been pruned. */
  lemma BlobsGoWithLastHolder(v: Vault, ids: seq<BackupId>, d: Digest)
    requires Ready(v.rows, ids)
    requires d in v.blobs
    ensures d !in PruneAll(v, ids).blobs <==> GivenUp(v, ids, d)
  {
    if d !in PruneAll(v, ids).blobs {
      DeletedIsGivenUp(v, ids, d);
    } else if GivenUp(v, ids, d) {
      GivenUpIsDeleted(v, ids, d);
      assert false;
    }
  }

  // ---- The table over its whole life ----

  /** A stored stream; it carries at least a header. */
  datatype Content = Content(digest: Digest, size: nat)

  datatype Step =
    | CreateStep(id: BackupId, policy: nat)
    | StoreStep(content: Content)
    | FinishStep(id: BackupId, stored: Option<Content>, now: Time)
    | FailStaleStep(now: Time)
    | VerifyStep(id: BackupId, sound: bool)
    | PruneStep(id: BackupId)

  predicate Unfinished(b: Backup) {
    b.status.Pending? || b.status.Running?
  }

  /** Settles an unfinished backup, with what was stored or as failed; anything else stays as it is. */
  function Finish(rows: Rows, id: BackupId, stored: Option<Content>, now: Time): Rows {
    if id !in rows || !Unfinished(rows[id]) then rows
    else
      match stored
      case Some(c) =>
        rows[id := rows[id].(status := Succeeded, digest := Some(c.digest), storedBytes := c.size, finishedAt := Some(now))]
      case None =>
        rows[id := rows[id].(status := Failed, digest := None, storedBytes := 0, finishedAt := Some(now))]
  }

  function FailStale(rows: Rows, now: Time): Rows {
    map i | i in rows :: if Unfinished(rows[i]) then rows[i].(status := Failed, finishedAt := Some(now)) else rows[i]
  }

  function Apply(v: Vault, s: Step): Vault {
    match s
    case CreateStep(id, policy) =>
      if id in v.rows then v else v.(rows := v.rows[id := Backup(id, policy, Running, None, None, None, 0)])
    case StoreStep(content) => v.(blobs := v.blobs + {content.digest})
    case FinishStep(id, stored, now) => v.(rows := Finish(v.rows, id, stored, now))
    case FailStaleStep(now) => v.(rows := FailStale(v.rows, now))
    case VerifyStep(id, sound) => if id in v.rows then v.(rows := v.rows[id := v.rows[id].(verified := Some(sound))]) else v
    case PruneStep(id) => if id in v.rows then PruneOne(v, id) else v
  }

  /** A backup is finished as succeeded only with a content that has been stored. */
  ghost predicate Possible(v: Vault, s: Step) {
    s.FinishStep? && s.stored.Some? ==> s.stored.value.digest in v.blobs && s.stored.value.size > 0
  }

  /** Every backup that was ever completed names its content, its size and when that was. */
  ghost predicate Contented(rows: Rows) {
    forall i | i in rows && (rows[i].status.Succeeded? || rows[i].status.Pruned?) ::
      rows[i].digest.Some? && rows[i].storedBytes > 0 && rows[i].finishedAt.Some?
  }

  ghost predicate Good(v: Vault) {
    WellKeyed(v.rows) && Contented(v.rows) && AllHaveContent(v)
  }

  lemma StepKeepsGood(v: Vault, s: Step)
    requires Good(v) && Possible(v, s)
    ensures Good(Apply(v, s))
  {
    if s.PruneStep? && s.id in v.rows {
      MarkKeepsContent(v, s.id);
      ReleaseKeepsContent(v.(rows := Mark(v.rows, s.id)), v.rows[s.id]);
    } else {
      var after := Apply(v, s);
      forall i, d | Holds(after.rows, i, d)
        ensures d in after.blobs
      {
        assert i in v.rows && (Holds(v.rows, i, d) || (s.FinishStep? && s.stored == Some(Content(d, s.stored.value.size))));
      }
    }
  }

  ghost predicate AllPossible(v: Vault, steps: seq<Step>)
    decreases |steps|
  {
    steps != [] ==> Possible(v, steps[0]) && AllPossible(Apply(v, steps[0]), steps[1..])
  }

  function Run(v: Vault, steps: seq<Step>): Vault
    decreases |steps|
  {
    if steps == [] then v else Run(Apply(v, steps[0]), steps[1..])
  }

  /** Main theorem: over every run of backups, checks, restarts and prunes each backup that remains has its content. */
  lemma {:induction false} EveryRunIsGood(v: Vault, steps: seq<Step>)
    requires Good(v) && AllPossible(v, steps)
    ensures Good(Run(v, steps))
    decreases |steps|
  {
    if steps != [] {
      StepKeepsGood(v, steps[0]);
      EveryRunIsGood(Apply(v, steps[0]), steps[1..]);
    }
  }

  // ---- The bytes reported as freed ----

  /** Some planned backup holds this content, and every backup that holds it is planned. */
  ghost predicate Emptied(rows: Rows, ids: seq<BackupId>, d: Digest) {
    && (exists i :: i in ids && Holds(rows, i, d))
    && (forall i :: Holds(rows, i, d) ==> i in ids)
  }

  /** A content several backups hold is given up altogether. The real run frees it, no single backup would. */
  ghost predicate SharedEmptied(dry: Rows, rows: Rows, ids: seq<BackupId>, d: Digest) {
    Emptied(rows, ids, d) && References(dry, d) > 1
  }

  /** What marking the first backup leaves of the contents still to be emptied. */
  lemma EmptiedLater(dry: Rows, v: Vault, ids: seq<BackupId>)
    requires ids != [] && Ready(v.rows, ids) && v.rows[ids[0]].digest.Some?
    ensures var one, d0 := PruneOne(v, ids[0]), v.rows[ids[0]].digest.value;
            (exists d :: SharedEmptied(dry, v.rows, ids, d)) <==>
            || (References(one.rows, d0) == 0 && References(dry, d0) > 1)
            || (exists d :: SharedEmptied(dry, one.rows, ids[1..], d))
  {
    var one, d0 := PruneOne(v, ids[0]), v.rows[ids[0]].digest.value;
    assert Holds(v.rows, ids[0], d0);
    assert forall i, d :: Holds(one.rows, i, d) <==> Holds(v.rows, i, d) && i != ids[0];
    assert forall i :: i in ids <==> i == ids[0] || i in ids[1..];
    NoReferences(one.rows, d0);
    if d :| SharedEmptied(dry, v.rows, ids, d) {
      if References(one.rows, d0) > 0 || d != d0 {
        var i :| i in ids[1..] && Holds(one.rows, i, d);
        assert SharedEmptied(dry, one.rows, ids[1..], d);
      }
    }
    if d :| SharedEmptied(dry, one.rows, ids[1..], d) {
      assert SharedEmptied(dry, v.rows, ids, d);
    }
    if References(one.rows, d0) == 0 && References(dry, d0) > 1 {
      assert SharedEmptied(dry, v.rows, ids, d0);
    }
  }

  /**
   * dry is the table a dry run looks at, v.rows the same table with some other backups marked already. A
   * content held by one backup alone at first is held by nobody once that backup is marked.
   */
  lemma {:induction false} DryAgainstReal(dry: Rows, v: Vault, ids: seq<BackupId>)
    requires Ready(v.rows, ids) && Contented(v.rows)
    requires forall id | id in ids :: id in dry && dry[id] == v.rows[id]
    requires forall i, d :: Holds(v.rows, i, d) ==> Holds(dry, i, d)
    ensures v.freed + DryFreed(dry, ids) <= PruneAll(v, ids).freed
    ensures v.freed + DryFreed(dry, ids) == PruneAll(v, ids).freed <==> !exists d :: SharedEmptied(dry, v.rows, ids, d)
    decreases |ids|
  {
    if ids == [] {
    } else {
      var one, rest := PruneOne(v, ids[0]), ids[1..];
      RestIsReady(v, ids);
      forall id | id in rest
        ensures id in ids && one.rows[id] == v.rows[id]
      {
      }
      DryAgainstReal(dry, one, rest);
      EmptiedLater(dry, v, ids);
      var d := dry[ids[0]].digest.value;
      assert Holds(dry, ids[0], d);
      SoleHolder(dry, ids[0], d);
      NoReferences(one.rows, d);
    }
  }

  /**
   * A dry run never promises more than the real run frees. It promises exactly that if and only if no content
   * that several backups hold loses all of them; such a content is freed, but the dry run counts it for none.
   */
  lemma DryRunIsHonest(rows: Rows, blobs: set<Digest>, ids: seq<BackupId>)
    requires Contented(rows) && Ready(rows, ids)
    ensures DryFreed(rows, ids) <= PruneAll(Vault(rows, blobs, 0), ids).freed
    ensures DryFreed(rows, ids) == PruneAll(Vault(rows, blobs, 0), ids).freed <==>
            forall d :: Emptied(rows, ids, d) ==> References(rows, d) == 1
  {
    DryAgainstReal(rows, Vault(rows, blobs, 0), ids);
    if exists d :: SharedEmptied(rows, rows, ids, d) {
      var d :| SharedEmptied(rows, rows, ids, d);
      assert Emptied(rows, ids, d);
    } else {
      forall d | Emptied(rows, ids, d)
        ensures References(rows, d) == 1
      {
        NoReferences(rows, d);
        assert !SharedEmptied(rows, rows, ids, d);
      }
    }
  }

  // ---- The service ----

  datatype Skip = InUse(id: BackupId) | StillReferenced(id: BackupId)

  datatype PruneResult = PruneResult(removed: seq<BackupId>, skipped: seq<Skip>, freed: nat, truncated: bool, ignored: bool)

  /** The planned backups no operation is using, in the plan's order. */
  function Victims(planned: seq<BackupId>, busy: BackupId -> bool): seq<BackupId> {
    if planned == [] then []
    else
      var init := Victims(planned[..|planned| - 1], busy);
      var last := planned[|planned| - 1];
      if busy(last) then init else init + [last]
  }

  lemma {:induction false} VictimsArePlanned(planned: seq<BackupId>, busy: BackupId -> bool)
    requires forall k, l | 0 <= k < l < |planned| :: planned[k] != planned[l]
    ensures forall id :: id in Victims(planned, busy) <==> id in planned && !busy(id)
    ensures forall k, l | 0 <= k < l < |Victims(planned, busy)| :: Victims(planned, busy)[k] != Victims(planned, busy)[l]
  {
    if planned != [] {
      var init := planned[..|planned| - 1];
      VictimsArePlanned(init, busy);
      assert planned == init + [planned[|planned| - 1]];
      assert planned[|planned| - 1] !in init;
    }
  }

  lemma {:induction false} PruneAllThen(v: Vault, ids: seq<BackupId>, id: BackupId)
    requires id in v.rows && forall i | i in ids :: i in v.rows
    ensures id in PruneAll(v, ids).rows
    ensures PruneAll(v, ids + [id]) == PruneOne(PruneAll(v, ids), id)
    ensures id !in ids ==> PruneAll(v, ids).rows[id] == v.rows[id]
    decreases |ids|
  {
    PruneMarksOnly(v, ids);
    if ids == [] {
      assert PruneAll(v, [id]) == PruneAll(PruneOne(v, id), []);
    } else {
      assert (ids + [id])[1..] == ids[1..] + [id];
      PruneAllThen(PruneOne(v, ids[0]), ids[1..], id);
    }
  }

  lemma {:induction false} DryFreedThen(rows: Rows, ids: seq<BackupId>, id: BackupId)
    requires id in rows && forall i | i in ids :: i in rows
    ensures DryFreed(rows, ids + [id]) == DryFreed(rows, ids) + DryFreed(rows, [id])
  {
    if ids == [] {
      assert [] + [id] == [id];
    } else {
      assert (ids + [id])[1..] == ids[1..] + [id];
      DryFreedThen(rows, ids[1..], id);
    }
  }

  /** What the retention query returns: the most recent backups of the policy, all of them below the cap. */
  ghost predicate IsListing(list: seq<Backup>, rows: Rows, policy: nat, cap: nat) {
    && DistinctIds(list) && |list| <= cap
    && (forall b | b in list :: b.id in rows && rows[b.id] == b && b.policy == policy)
    && (forall i | i in rows && rows[i].policy == policy ::
          rows[i] in list || (|list| == cap && forall b | b in list :: MoreRecent(b, rows[i])))
  }

  lemma PlannedAreReady(rules: Rules, list: seq<Backup>, rows: Rows, policy: nat, cap: nat, now: Time)
    requires IsListing(list, rows, policy, cap)
    ensures Ready(rows, Deleted(rules, list, now))
    ensures forall id | id in Deleted(rules, list, now) :: rows[id].policy == policy && Usable(rows[id])
  {
    DeletedAreTheDoomed(rules, list, now);
    RecencyIs(list);
    DroppedAreDistinct(rules, Recency(list), 0, now);
    forall id | id in Deleted(rules, list, now)
      ensures id in rows && Usable(rows[id]) && rows[id].policy == policy
    {
      var b :| b in list && b.id == id;
      assert Doomed(rules, list, b, now);
    }
  }

  /** What is planned from the capped listing is planned from the whole one too. */
  lemma CappedListingDeletesLess(rules: Rules, capped: seq<Backup>, whole: seq<Backup>, rows: Rows, policy: nat, cap: nat, now: Time,
                                 id: BackupId)
    requires WellKeyed(rows) && IsListing(capped, rows, policy, cap) && IsListing(whole, rows, policy, |whole| + 1)
    requires id in Deleted(rules, capped, now)
    ensures id in Deleted(rules, whole, now)
  {
    forall b | b in capped
      ensures b in whole
    {
      assert rows[b.id] == b;
    }
    forall b, x | b in capped && x in whole && MoreRecent(x, b)
      ensures x in capped
    {
      RecentTies(x, b);
      assert rows[x.id] == x && rows[b.id] == b;
      assert x in capped || MoreRecent(b, x);
    }
    CutListDeletesLess(rules, whole, capped, now, id);
  }

  class BackupService {
    const busy: BackupId -> bool
    /** Whether the n-th call to the repository or the store goes through; false also stands for a cancelled run. */
    const calls: nat -> bool
    var count: nat
    var rows: Rows
    var blobs: set<Digest>

    ghost function Contents(freed: nat): Vault
      reads this
    {
      Vault(rows, blobs, freed)
    }

    constructor (rows: Rows, blobs: set<Digest>, busy: BackupId -> bool, calls: nat -> bool)
      ensures this.rows == rows && this.blobs == blobs && this.busy == busy && this.calls == calls
    {
      this.rows, this.blobs, this.busy, this.calls, count := rows, blobs, busy, calls, 0;
    }

    /** No call fails and nobody cancels. */
    ghost predicate Undisturbed() {
      forall k :: calls(k)
    }

    method Call() returns (ok: bool)
      modifies this`count
      ensures Undisturbed() ==> ok
    {
      ok := calls(count);
      count := count + 1;
    }

    /** ORDER BY finished_at DESC, id DESC LIMIT ? */
    method ListBackupsForRetention(policy: nat, cap: nat) returns (list: seq<Backup>)
      requires WellKeyed(rows)
      ensures IsListing(list, rows, policy, cap)
    {
      list := [];
      var rest := rows.Keys;
      while rest != {}
        invariant rest <= rows.Keys && DistinctIds(list)
        invariant forall b | b in list :: b.id in rows && b.id !in rest && rows[b.id] == b && b.policy == policy
        invariant forall i | i in rows && i !in rest && rows[i].policy == policy :: rows[i] in list
        decreases |rest|
      {
        var i :| i in rest;
        if rows[i].policy == policy {
          list := list + [rows[i]];
        }
        rest := rest - {i};
      }
      var all := list;
      list := Sort(all, RECENT);
      RecentOrders();
      SortSorts(all, RECENT);
      PermutationIsDistinct(all, list);
      if |list| > cap {
        CutIsListing(list, rows, policy, cap);
        list := list[..cap];
      }
    }

    /** One backup of a real run: mark it, then delete its content if nobody holds it any more. */
    method PruneBackup(id: BackupId, freed: nat) returns (ok: bool, marked: bool, shared: bool, now: nat)
      requires id in rows
      modifies this`count, this`rows, this`blobs
      ensures Undisturbed() ==> ok
      ensures ok ==> marked && Contents(now) == PruneOne(old(Contents(freed)), id)
      ensures !ok ==> blobs == old(blobs) && now == freed
      ensures !ok ==> rows == if marked then Mark(old(rows), id) else old(rows)
      ensures ok ==> (shared <==> rows[id].digest.Some? && References(rows, rows[id].digest.value) > 0)
    {
      now, shared := freed, false;
      ok := Call();
      if !ok {
        return false, false, false, freed;
      }
      var b := rows[id];
      if b.status.Succeeded? {
        rows := rows[id := b.(status := Pruned)];
      }
      ok := Call();
      if !ok {
        return false, true, false, freed;
      }
      var references := if b.digest.Some? then References(rows, b.digest.value) else 0;
      if references > 0 || b.digest.None? {
        return true, true, references > 0, freed;
      }
      ok := Call();
      if !ok {
        return false, true, false, freed;
      }
      blobs := blobs - {b.digest.value};
      return true, true, false, freed + b.storedBytes;
    }

    /**
     * Prunes one policy. list and victims are history: what was listed, and which planned backups nothing was
     * using. An interrupted run has handled the first victims completely and at most marked the next one.
     */
    method Prune(policy: nat, rules: Rules, now: Time, dryRun: bool)
      returns (result: PruneResult, ok: bool, ghost list: seq<Backup>, ghost victims: seq<BackupId>)
      requires WellKeyed(rows)
      modifies this`count, this`rows, this`blobs
      ensures Undisturbed() ==> ok
      ensures IsListing(list, old(rows), policy, MAX_BACKUP_SCAN)
      ensures victims == Victims(Deleted(rules, list, now), busy) && Ready(old(rows), victims)
      ensures old(AllHaveContent(Contents(0))) ==> AllHaveContent(Contents(0))
      ensures dryRun ==> rows == old(rows) && blobs == old(blobs)
      ensures dryRun && ok ==> result.removed == victims && result.freed == DryFreed(old(rows), victims)
      ensures !dryRun && ok ==>
                result.removed == victims && Contents(result.freed) == PruneAll(old(Contents(0)), victims)
      ensures !dryRun && !ok ==> Stopped(old(Contents(0)), victims, Contents(0))
      ensures ok ==> result.truncated == (|list| == MAX_BACKUP_SCAN) && result.ignored == rules.gfs
    {
      result := PruneResult([], [], 0, false, false);
      var backups := ListBackupsForRetention(policy, MAX_BACKUP_SCAN);
      list := backups;
      ghost var before := Contents(0);
      var plan := PlanRetention(rules, backups, now);
      PlannedAreReady(rules, list, rows, policy, MAX_BACKUP_SCAN, now);
      VictimsArePlanned(plan.delete, busy);
      victims := Victims(plan.delete, busy);
      ok := Call();
      if !ok {
        InterruptedAfter(before, victims, [], before);
        return;
      }
      result := result.(truncated := |backups| >= MAX_BACKUP_SCAN, ignored := plan.ignored);
      if dryRun {
        result, ok := DryRun(plan.delete, result);
      } else {
        var removed, skipped, freed;
        ok, removed, skipped, freed := RealRun(plan.delete);
        result := result.(removed := removed, skipped := skipped, freed := freed);
        if AllHaveContent(before) {
          if ok {
            PruneKeepsContent(before, victims);
          } else {
            StoppingKeepsContent(before, victims, Contents(0));
          }
        }
      }
    }

    method DryRun(planned: seq<BackupId>, start: PruneResult) returns (result: PruneResult, ok: bool)
      requires forall id | id in planned :: id in rows
      requires start.removed == [] && start.freed == 0
      modifies this`count
      ensures Undisturbed() ==> ok
      ensures result.truncated == start.truncated && result.ignored == start.ignored
      ensures ok ==> result.removed == Victims(planned, busy)
      ensures ok ==> (forall id | id in result.removed :: id in rows) && result.freed == DryFreed(rows, result.removed)
    {
      result := start;
      var k := 0;
      while k < |planned|
        invariant 0 <= k <= |planned|
        invariant result.truncated == start.truncated && result.ignored == start.ignored
        invariant result.removed == Victims(planned[..k], busy)
        invariant (forall id | id in result.removed :: id in rows) && result.freed == DryFreed(rows, result.removed)
      {
        var id := planned[k];
        ok := Call();
        if !ok {
          return;
        }
        assert planned[..k + 1][..k] == planned[..k];
        if busy(id) {
          result := result.(skipped := result.skipped + [InUse(id)]);
        } else {
          var b := rows[id];
          var references := if b.digest.Some? then References(rows, b.digest.value) else 0;
          DryFreedThen(rows, result.removed, id);
          assert DryFreed(rows, [id]) == (if references <= 1 then b.storedBytes else 0) + DryFreed(rows, []);
          result := result.(removed := result.removed + [id]);
          if references <= 1 {
            result := result.(freed := result.freed + b.storedBytes);
          } else {
            result := result.(skipped := result.skipped + [StillReferenced(id)]);
          }
        }
        k := k + 1;
      }
      assert planned[..k] == planned;
      ok := true;
    }

    /** The vault is where pruning the first victims, removed, leads. */
    ghost predicate Along(before: Vault, victims: seq<BackupId>, removed: seq<BackupId>, freed: nat)
      reads this
    {
      Reached(before, victims, removed) && Contents(freed) == PruneAll(before, removed)
    }

    /** One planned backup of a real run. */
    method RealStep(id: BackupId, done: seq<BackupId>, soFar: nat, ghost before: Vault, ghost victims: seq<BackupId>)
      returns (ok: bool, removed: seq<BackupId>, skipped: seq<Skip>, freed: nat)
      requires Along(before, victims, done, soFar)
      requires id in before.rows && (!busy(id) ==> done + [id] <= victims)
      modifies this`count, this`rows, this`blobs
      ensures Undisturbed() ==> ok
      ensures ok ==>
                removed == (if busy(id) then done else done + [id]) && Along(before, victims, removed, freed)
      ensures !ok ==> Stopped(before, victims, Contents(0))
    {
      removed, skipped, freed := done, [], soFar;
      ok := Call();
      if !ok {
        InterruptedAfter(before, victims, done, Contents(soFar));
        return;
      }
      if busy(id) {
        return true, done, [InUse(id)], soFar;
      }
      PruneAllThen(before, done, id);
      ghost var reached := Contents(soFar);
      var marked, shared;
      ok, marked, shared, freed := PruneBackup(id, soFar);
      if !ok {
        InterruptedAfter(before, victims, done, reached);
        InterruptedMarking(before, victims, done, id, reached);
        return;
      }
      removed := done + [id];
      skipped := if shared then [StillReferenced(id)] else [];
    }

    method RealRun(planned: seq<BackupId>) returns (ok: bool, removed: seq<BackupId>, skipped: seq<Skip>, freed: nat)
      requires Ready(rows, planned)
      modifies this`count, this`rows, this`blobs
      ensures Undisturbed() ==> ok
      ensures Ready(old(rows), Victims(planned, busy))
      ensures ok ==>
                && removed == Victims(planned, busy)
                && Contents(freed) == PruneAll(old(Contents(0)), Victims(planned, busy))
      ensures !ok ==> Stopped(old(Contents(0)), Victims(planned, busy), Contents(0))
    {
      ok, removed, skipped, freed := true, [], [], 0;
      ghost var before := Contents(0);
      ghost var victims := Victims(planned, busy);
      VictimsArePlanned(planned, busy);
      var k := 0;
      while k < |planned|
        invariant 0 <= k <= |planned|
        invariant removed == Victims(planned[..k], busy)
        invariant Along(before, victims, removed, freed)
      {
        VictimsExtend(planned, busy, k);
        var skip;
        ok, removed, skip, freed := RealStep(planned[k], removed, freed, before, victims);
        if !ok {
          return;
        }
        skipped := skipped + skip;
        k := k + 1;
      }
      assert planned[..k] == planned;
      ok := true;
    }
  }

  /** The vault when a run stops: k victims are done, and the next one may have been marked. */
  ghost predicate Interrupted(before: Vault, victims: seq<BackupId>, k: nat, after: Vault)
    requires k <= |victims| && Ready(before.rows, victims)
  {
    var done := PruneAll(before, victims[..k]);
    && after.blobs == done.blobs
    && (after.rows == done.rows || (k < |victims| && after.rows == Mark(done.rows, victims[k])))
  }

  ghost predicate Stopped(before: Vault, victims: seq<BackupId>, after: Vault)
    requires Ready(before.rows, victims)
  {
    exists k :: 0 <= k <= |victims| && Interrupted(before, victims, k, after)
  }

  /** removed are the first of the victims. */
  ghost predicate Reached(before: Vault, victims: seq<BackupId>, removed: seq<BackupId>) {
    && Ready(before.rows, victims) && removed <= victims
    && forall id | id in removed :: id in before.rows
  }

  lemma InterruptedAfter(before: Vault, victims: seq<BackupId>, removed: seq<BackupId>, reached: Vault)
    requires Reached(before, victims, removed) && reached == PruneAll(before, removed)
    ensures Stopped(before, victims, reached.(freed := 0))
  {
    assert victims[..|removed|] == removed;
    assert Interrupted(before, victims, |removed|, reached.(freed := 0));
  }

  lemma InterruptedMarking(before: Vault, victims: seq<BackupId>, removed: seq<BackupId>, id: BackupId, reached: Vault)
    requires Reached(before, victims, removed) && reached == PruneAll(before, removed)
    requires |removed| < |victims| && victims[|removed|] == id
    ensures Stopped(before, victims, reached.(rows := Mark(reached.rows, id), freed := 0))
  {
    assert victims[..|removed|] == removed;
    assert Interrupted(before, victims, |removed|, reached.(rows := Mark(reached.rows, id), freed := 0));
  }

  /** Crash safety of the run: wherever it stops, every backup that remains has its content. */
  lemma StoppingKeepsContent(before: Vault, victims: seq<BackupId>, after: Vault)
    requires Ready(before.rows, victims) && AllHaveContent(before) && Stopped(before, victims, after)
    ensures AllHaveContent(after)
  {
    var k :| 0 <= k <= |victims| && Interrupted(before, victims, k, after);
    var done := PruneAll(before, victims[..k]);
    PruneKeepsContent(before, victims[..k]);
    if after.rows != done.rows {
      MarkKeepsContent(done, victims[k]);
    }
    forall i, d | Holds(after.rows, i, d)
      ensures d in after.blobs
    {
    }
  }

  lemma {:induction false} VictimsExtend(planned: seq<BackupId>, busy: BackupId -> bool, k: nat)
    requires k < |planned|
    ensures Victims(planned[..k + 1], busy) == Victims(planned[..k], busy) + if busy(planned[k]) then [] else [planned[k]]
    ensures Victims(planned[..k], busy) <= Victims(planned, busy)
    ensures !busy(planned[k]) ==> Victims(planned[..k], busy) + [planned[k]] <= Victims(planned, busy)
    decreases |planned|
  {
    assert planned[..k + 1][..k] == planned[..k];
    if k == |planned| - 1 {
      assert planned[..k + 1] == planned;
    } else {
      var init := planned[..|planned| - 1];
      VictimsExtend(init, busy, k);
      assert init[..k] == planned[..k];
    }
  }

  lemma CutIsListing(list: seq<Backup>, rows: Rows, policy: nat, cap: nat)
    requires |list| > cap && Ordered(list, RECENT)
    requires forall i, j | 0 <= i < j < |list| :: list[i].id != list[j].id
    requires forall b | b in list :: b.id in rows && rows[b.id] == b && b.policy == policy
    requires forall i | i in rows && rows[i].policy == policy :: rows[i] in list
    ensures IsListing(list[..cap], rows, policy, cap)
  {
    forall i | i in rows && rows[i].policy == policy && rows[i] !in list[..cap]
      ensures forall b | b in list[..cap] :: MoreRecent(b, rows[i])
    {
      var k :| 0 <= k < |list| && list[k] == rows[i];
      assert k >= cap;
      forall b | b in list[..cap]
        ensures MoreRecent(b, rows[i])
      {
        var j :| 0 <= j < cap && list[..cap][j] == b;
        assert RECENT(list[j], list[k]);
      }
    }
  }
}

/**
 * Which backups of a policy are kept: the most recent keepLast of them and those finished within keepDays,
 * two rules that stand side by side.
 */
module Retention {
  import opened Basics
  import opened Sorting

  type BackupId = nat
  type Digest = nat
  type Time = int

  datatype Status = Pending | Running | Succeeded | Failed | Pruned

  datatype Backup = Backup(
    id: BackupId,
    policy: nat,
    status: Status,
    verified: Option<bool>,
    finishedAt: Option<Time>,
    digest: Option<Digest>,
    storedBytes: nat)

  datatype Rules = Rules(keepLast: int, keepDays: int, gfs: bool)

  datatype Plan = Plan(keep: set<BackupId>, delete: seq<BackupId>, ignored: bool)

  /** Completed and not found broken. */
  predicate Usable(b: Backup) {
    b.status.Succeeded? && (b.verified.None? || b.verified.value)
  }

  /** Latest completion first; without a completion time last; ids decide ties. */
  predicate MoreRecent(a: Backup, b: Backup) {
    if a.finishedAt.Some? && b.finishedAt.Some? && a.finishedAt != b.finishedAt then
      a.finishedAt.value > b.finishedAt.value
    else if a.finishedAt.Some? != b.finishedAt.Some? then a.finishedAt.Some?
    else a.id >= b.id
  }

  const RECENT: (Backup, Backup) -> bool := (a, b) => MoreRecent(a, b)

  /** 24 hours in ns, and the signed 64-bit arithmetic durations are computed in. */
  const DAY := 86_400_000_000_000
  const TWO_63 := 0x8000_0000_0000_0000

  function Wrap64(x: int): int {
    (x + TWO_63) % (2 * TWO_63) - TWO_63
  }

  function Cutoff(keepDays: int, now: Time): Time {
    now - Wrap64(keepDays * DAY)
  }

  /** Is the backup at this position of the recency order kept? */
  predicate Keeps(rules: Rules, position: nat, b: Backup, now: Time) {
    || (rules.keepLast > 0 && position < rules.keepLast)
    || (rules.keepDays > 0 && b.finishedAt.Some? && b.finishedAt.value >= Cutoff(rules.keepDays, now))
    || b.finishedAt.None?
  }

  function UsableOf(backups: seq<Backup>): seq<Backup> {
    if backups == [] then []
    else (if Usable(backups[0]) then [backups[0]] else []) + UsableOf(backups[1..])
  }

  function Recency(backups: seq<Backup>): seq<Backup> {
    Sort(UsableOf(backups), RECENT)
  }

  method SelectUsable(backups: seq<Backup>) returns (usable: seq<Backup>)
    ensures usable == UsableOf(backups)
  {
    usable := [];
    var k := 0;
    while k < |backups|
      invariant 0 <= k <= |backups|
      invariant usable + UsableOf(backups[k..]) == UsableOf(backups)
    {
      UsableFrom(backups, k, usable);
      if Usable(backups[k]) {
        usable := usable + [backups[k]];
      }
      k := k + 1;
    }
  }

  lemma UsableFrom(backups: seq<Backup>, k: nat, found: seq<Backup>)
    requires k < |backups|
    ensures found + UsableOf(backups[k..]) ==
            (if Usable(backups[k]) then found + [backups[k]] else found) + UsableOf(backups[k + 1..])
  {
    assert backups[k..][1..] == backups[k + 1..];
  }

  method PlanRetention(rules: Rules, backups: seq<Backup>, now: Time) returns (plan: Plan)
    ensures plan.ignored == rules.gfs
    ensures plan.keep == Kept(rules, backups, now)
    ensures plan.delete == Deleted(rules, backups, now)
  {
    var usable := SelectUsable(backups);
    var recent := Sort(usable, RECENT);
    plan := Plan({}, [], rules.gfs);
    var cutoff := Cutoff(rules.keepDays, now);
    assert recent == Recency(backups);
    assert plan.keep == KeptOf(rules, recent, 0, now);
    var i := 0;
    while i < |recent|
      invariant 0 <= i <= |recent| && plan.ignored == rules.gfs
      invariant plan.keep == KeptOf(rules, recent, i, now)
      invariant plan.delete + Dropped(rules, recent[i..], i, now) == Dropped(rules, recent, 0, now)
    {
      var b := recent[i];
      var keep := rules.keepLast > 0 && i < rules.keepLast;
      if keep {
      } else if rules.keepDays > 0 && b.finishedAt.Some? && !(b.finishedAt.value < cutoff) {
        keep := true;
      } else if b.finishedAt.None? {
        keep := true;
      }
      DroppedFrom(rules, recent, i, now, plan.delete);
      KeptThen(rules, recent, i, now);
      if keep {
        plan := plan.(keep := plan.keep + {b.id});
      } else {
        plan := plan.(delete := plan.delete + [b.id]);
      }
      i := i + 1;
    }
  }

  /** The ids among the first n of the recency order that some rule keeps. */
  function KeptOf(rules: Rules, recent: seq<Backup>, n: nat, now: Time): set<BackupId>
    requires n <= |recent|
  {
    set i | 0 <= i < n && Keeps(rules, i, recent[i], now) :: recent[i].id
  }

  /** The ids the rules do not keep, where the first backup of the list stands at position first. */
  function Dropped(rules: Rules, recent: seq<Backup>, first: nat, now: Time): seq<BackupId>
    decreases |recent|
  {
    if recent == [] then []
    else
      (if Keeps(rules, first, recent[0], now) then [] else [recent[0].id])
      + Dropped(rules, recent[1..], first + 1, now)
  }

  lemma DroppedFrom(rules: Rules, recent: seq<Backup>, i: nat, now: Time, found: seq<BackupId>)
    requires i < |recent|
    ensures found + Dropped(rules, recent[i..], i, now) ==
            (if Keeps(rules, i, recent[i], now) then found else found + [recent[i].id])
            + Dropped(rules, recent[i + 1..], i + 1, now)
  {
    assert recent[i..][1..] == recent[i + 1..];
  }

  lemma KeptThen(rules: Rules, recent: seq<Backup>, i: nat, now: Time)
    requires i < |recent|
    ensures KeptOf(rules, recent, i + 1, now) ==
            KeptOf(rules, recent, i, now) + if Keeps(rules, i, recent[i], now) then {recent[i].id} else {}
  {
  }

  // ---- What the plan means, without the order of the list ----

  ghost predicate DistinctIds(backups: seq<Backup>) {
    forall i, j | 0 <= i < |backups| && 0 <= j < |backups| && backups[i].id == backups[j].id :: i == j
  }

  /** The usable backups more recent than b. */
  ghost function Ahead(backups: seq<Backup>, b: Backup): set<Backup> {
    set x | x in backups && Usable(x) && x != b && MoreRecent(x, b)
  }

  /** b is usable and no rule keeps it. */
  ghost predicate Doomed(rules: Rules, backups: seq<Backup>, b: Backup, now: Time) {
    b in backups && Usable(b) && !Keeps(rules, |Ahead(backups, b)|, b, now)
  }

  /** The ids planned to be kept. */
  function Kept(rules: Rules, backups: seq<Backup>, now: Time): set<BackupId> {
    KeptOf(rules, Recency(backups), |Recency(backups)|, now)
  }

  /** The ids planned for deletion. */
  function Deleted(rules: Rules, backups: seq<Backup>, now: Time): seq<BackupId> {
    Dropped(rules, Recency(backups), 0, now)
  }

  lemma RecentOrders()
    ensures Orders(RECENT)
  {
  }

  lemma {:induction false} UsableOfIs(backups: seq<Backup>)
    ensures forall b :: b in UsableOf(backups) <==> b in backups && Usable(b)
    ensures DistinctIds(backups) ==> DistinctIds(UsableOf(backups))
  {
    if backups != [] {
      var rest := UsableOf(backups[1..]);
      UsableOfIs(backups[1..]);
      forall b
        ensures b in UsableOf(backups) <==> b in backups && Usable(b)
      {
        assert b in backups <==> b == backups[0] || b in backups[1..];
      }
      if DistinctIds(backups) {
        DistinctTail(backups);
        forall b | b in rest
          ensures b.id != backups[0].id
        {
          var k :| 0 <= k < |backups[1..]| && backups[1..][k] == b;
          assert backups[k + 1].id == b.id;
        }
      }
    }
  }

  lemma DistinctTail(backups: seq<Backup>)
    requires backups != [] && DistinctIds(backups)
    ensures DistinctIds(backups[1..])
  {
    forall i, j | 0 <= i < |backups[1..]| && 0 <= j < |backups[1..]| && backups[1..][i].id == backups[1..][j].id
      ensures i == j
    {
      assert backups[i + 1].id == backups[j + 1].id;
    }
  }

  /** The recency order of a list: ordered, its usable backups, each once. */
  ghost predicate IsRecency(backups: seq<Backup>, recent: seq<Backup>) {
    && (forall i, j | 0 <= i < j < |recent| :: MoreRecent(recent[i], recent[j]))
    && (forall b :: b in recent <==> b in backups && Usable(b))
    && (forall i, j | 0 <= i < j < |recent| :: recent[i].id != recent[j].id)
  }

  lemma RecencyIs(backups: seq<Backup>)
    requires DistinctIds(backups)
    ensures IsRecency(backups, Recency(backups))
  {
    var usable, recent := UsableOf(backups), Recency(backups);
    UsableOfIs(backups);
    RecentOrders();
    SortSorts(usable, RECENT);
    forall i, j | 0 <= i < j < |recent|
      ensures MoreRecent(recent[i], recent[j])
    {
      assert RECENT(recent[i], recent[j]);
    }
    PermutationIsDistinct(usable, recent);
  }

  lemma {:induction false} DistinctMultiset(s: seq<Backup>, b: Backup)
    requires DistinctIds(s)
    ensures multiset(s)[b] <= 1
  {
    if s != [] {
      DistinctTail(s);
      DistinctMultiset(s[1..], b);
      assert s == [s[0]] + s[1..];
      forall k | 0 <= k < |s[1..]|
        ensures s[1..][k].id != s[0].id
      {
        assert s[1..][k] == s[k + 1];
      }
      assert b in s[1..] <==> b in multiset(s[1..]);
    }
  }

  lemma PermutationIsDistinct(a: seq<Backup>, b: seq<Backup>)
    requires DistinctIds(a) && multiset(a) == multiset(b)
    ensures forall i, j | 0 <= i < j < |b| :: b[i].id != b[j].id
  {
    forall i, j | 0 <= i < j < |b|
      ensures b[i].id != b[j].id
    {
      SameElements(a, b);
      assert b[i] in a && b[j] in a;
      if b[i].id == b[j].id {
        var k :| 0 <= k < |a| && a[k] == b[i];
        var l :| 0 <= l < |a| && a[l] == b[j];
        TwiceInMultiset(b, i, j);
        DistinctMultiset(a, b[i]);
      }
    }
  }

  lemma TwiceInMultiset(s: seq<Backup>, i: nat, j: nat)
    requires i < j < |s| && s[i] == s[j]
    ensures multiset(s)[s[i]] >= 2
  {
    assert s == s[..i] + [s[i]] + s[i + 1..j] + [s[j]] + s[j + 1..];
  }

  /** In the recency order a backup stands behind exactly the more recent ones. */
  lemma PositionIsRank(backups: seq<Backup>, recent: seq<Backup>, i: nat)
    requires IsRecency(backups, recent) && i < |recent|
    ensures |Ahead(backups, recent[i])| == i
  {
    var before := set x | x in recent[..i];
    forall j | i < j < |recent|
      ensures !MoreRecent(recent[j], recent[i])
    {
      assert MoreRecent(recent[i], recent[j]) && recent[i].id != recent[j].id;
    }
    forall x
      ensures x in Ahead(backups, recent[i]) <==> x in before
    {
      if x in Ahead(backups, recent[i]) {
        var k :| 0 <= k < |recent| && recent[k] == x;
        assert k < i;
        assert recent[..i][k] == x;
      }
      if x in before {
        var k :| 0 <= k < |recent[..i]| && recent[..i][k] == x;
        assert recent[k] == x && MoreRecent(recent[k], recent[i]) && x in recent;
      }
    }
    assert Ahead(backups, recent[i]) == before;
    SetOfDistinct(recent[..i]);
  }

  lemma {:induction false} SetOfDistinct(s: seq<Backup>)
    requires forall i, j | 0 <= i < j < |s| :: s[i].id != s[j].id
    ensures |set x | x in s| == |s|
  {
    if s != [] {
      SetOfDistinct(s[1..]);
      assert (set x | x in s) == {s[0]} + (set x | x in s[1..]);
    }
  }

  lemma {:induction false} DroppedAre(rules: Rules, recent: seq<Backup>, first: nat, now: Time, id: BackupId)
    ensures id in Dropped(rules, recent, first, now) <==>
            exists i :: 0 <= i < |recent| && recent[i].id == id && !Keeps(rules, first + i, recent[i], now)
    decreases |recent|
  {
    if recent != [] {
      var rest := recent[1..];
      DroppedAre(rules, rest, first + 1, now, id);
      if id in Dropped(rules, rest, first + 1, now) {
        var i :| 0 <= i < |rest| && rest[i].id == id && !Keeps(rules, first + 1 + i, rest[i], now);
        assert recent[i + 1] == rest[i];
      }
      if i :| 0 < i < |recent| && recent[i].id == id && !Keeps(rules, first + i, recent[i], now) {
        assert rest[i - 1] == recent[i] && first + 1 + (i - 1) == first + i;
      }
    }
  }

  /** Main theorem: what is deleted are exactly the usable backups no rule keeps, by their rank in recency. */
  lemma DeletedAreTheDoomed(rules: Rules, backups: seq<Backup>, now: Time)
    requires DistinctIds(backups)
    ensures forall b | b in backups :: b.id in Deleted(rules, backups, now) <==> Doomed(rules, backups, b, now)
    ensures forall id | id in Deleted(rules, backups, now) :: exists b :: b in backups && b.id == id
  {
    var recent := Recency(backups);
    RecencyIs(backups);
    forall id
      ensures id in Deleted(rules, backups, now) <==>
              exists b: Backup :: b.id == id && Doomed(rules, backups, b, now)
    {
      DroppedAre(rules, recent, 0, now, id);
      if i :| 0 <= i < |recent| && recent[i].id == id && !Keeps(rules, i, recent[i], now) {
        PositionIsRank(backups, recent, i);
        assert recent[i] in recent;
        assert Doomed(rules, backups, recent[i], now);
      }
      if b: Backup :| b.id == id && Doomed(rules, backups, b, now) {
        assert b in recent;
        var i :| 0 <= i < |recent| && recent[i] == b;
        PositionIsRank(backups, recent, i);
      }
    }
    forall b | b in backups
      ensures b.id in Deleted(rules, backups, now) <==> Doomed(rules, backups, b, now)
    {
      if b.id in Deleted(rules, backups, now) {
        var c: Backup :| c.id == b.id && Doomed(rules, backups, c, now);
        SameId(backups, b, c);
      }
    }
  }

  lemma SameId(backups: seq<Backup>, a: Backup, b: Backup)
    requires DistinctIds(backups) && a in backups && b in backups && a.id == b.id
    ensures a == b
  {
  }

  // ---- Consequences ----

  /** Every usable backup is on exactly one of the two lists, by its rank in recency, and no other backup is on either. */
  lemma Partition(rules: Rules, backups: seq<Backup>, now: Time)
    requires DistinctIds(backups)
    ensures forall b | b in backups && Usable(b) ::
              && (b.id in Kept(rules, backups, now) <==> Keeps(rules, |Ahead(backups, b)|, b, now))
              && (b.id in Kept(rules, backups, now) <==> b.id !in Deleted(rules, backups, now))
    ensures forall id | id in Kept(rules, backups, now) || id in Deleted(rules, backups, now) ::
              exists b :: b in backups && Usable(b) && b.id == id
  {
    var recent := Recency(backups);
    RecencyIs(backups);
    DeletedAreTheDoomed(rules, backups, now);
    forall b | b in backups && Usable(b)
      ensures b.id in Kept(rules, backups, now) <==> Keeps(rules, |Ahead(backups, b)|, b, now)
    {
      var i :| 0 <= i < |recent| && recent[i] == b;
      PositionIsRank(backups, recent, i);
    }
    forall id | id in Kept(rules, backups, now)
      ensures exists b :: b in backups && Usable(b) && b.id == id
    {
      var i :| 0 <= i < |recent| && recent[i].id == id;
      assert recent[i] in recent;
    }
    forall id | id in Deleted(rules, backups, now)
      ensures exists b :: b in backups && Usable(b) && b.id == id
    {
      DroppedAre(rules, recent, 0, now, id);
      var i :| 0 <= i < |recent| && recent[i].id == id;
      assert recent[i] in recent;
    }
  }

  /** The plan does not depend on the order in which the backups are listed. */
  lemma PlanForgetsOrder(rules: Rules, backups: seq<Backup>, shuffled: seq<Backup>, now: Time)
    requires DistinctIds(backups) && multiset(backups) == multiset(shuffled)
    ensures Deleted(rules, backups, now) == Deleted(rules, shuffled, now)
  {
    UsableMultiset(backups);
    UsableMultiset(shuffled);
    assert multiset(UsableOf(backups)) == multiset(UsableOf(shuffled));
    UsableOfIs(backups);
    RecentOrders();
    RecentHasNoTies(UsableOf(backups));
    SortForgetsOrder(UsableOf(backups), UsableOf(shuffled), RECENT);
  }

  lemma {:induction false} UsableMultiset(backups: seq<Backup>)
    ensures forall b :: multiset(UsableOf(backups))[b] == if Usable(b) then multiset(backups)[b] else 0
  {
    if backups != [] {
      UsableMultiset(backups[1..]);
      assert backups == [backups[0]] + backups[1..];
    }
  }

  lemma RecentHasNoTies(backups: seq<Backup>)
    requires DistinctIds(backups)
    ensures NoTies(backups, RECENT)
  {
    forall a, b | a in backups && b in backups && RECENT(a, b) && RECENT(b, a)
      ensures a == b
    {
      assert a.id == b.id;
    }
  }

  /** By number and by age, the rules more, applied at the time earlier, keep whatever less keep at the time later. */
  predicate KeepsAtLeast(less: Rules, more: Rules, later: Time, earlier: Time) {
    && Max(0, less.keepLast) <= Max(0, more.keepLast)
    && (less.keepDays > 0 ==> more.keepDays > 0 && Cutoff(more.keepDays, earlier) <= Cutoff(less.keepDays, later))
  }

  /** Over every list, everything the one plan deletes the other deletes too. */
  ghost predicate DeletesLess(less: Rules, more: Rules, later: Time, earlier: Time) {
    forall backups, id | DistinctIds(backups) && id in Deleted(more, backups, earlier) :: id in Deleted(less, backups, later)
  }

  /**
   * A change of the rules or of the time never adds a deletion exactly when no fewer are kept by number and, as the
   * cutoffs are computed, none by age. The wrap-around of keepDays is part of the condition.
   */
  lemma DeletesLessExactly(less: Rules, more: Rules, later: Time, earlier: Time)
    ensures DeletesLess(less, more, later, earlier) <==> KeepsAtLeast(less, more, later, earlier)
  {
    if KeepsAtLeast(less, more, later, earlier) {
      forall backups, id | DistinctIds(backups) && id in Deleted(more, backups, earlier)
        ensures id in Deleted(less, backups, later)
      {
        KeptByMore(less, more, backups, later, earlier, id);
      }
    } else if Max(0, less.keepLast) > Max(0, more.keepLast) {
      var t := Min(Cutoff(more.keepDays, earlier), Cutoff(less.keepDays, later)) - 1;
      OldestOf(less, more, t, later, earlier);
    } else {
      OldestOf(less, more, Cutoff(less.keepDays, later), later, earlier);
    }
  }

  lemma KeptByMore(less: Rules, more: Rules, backups: seq<Backup>, later: Time, earlier: Time, id: BackupId)
    requires DistinctIds(backups) && KeepsAtLeast(less, more, later, earlier)
    requires id in Deleted(more, backups, earlier)
    ensures id in Deleted(less, backups, later)
  {
    DeletedAreTheDoomed(more, backups, earlier);
    DeletedAreTheDoomed(less, backups, later);
    var b :| b in backups && b.id == id;
    assert Doomed(less, backups, b, later);
  }

  function Finished(id: BackupId, t: Time): Backup {
    Backup(id, 0, Succeeded, None, Some(t), None, 0)
  }

  /** n + 1 backups finished at once; by its id the first is the oldest. */
  function Alike(n: nat, t: Time): seq<Backup> {
    seq(n + 1, i requires 0 <= i => Finished(i, t))
  }

  /** Behind as many backups as more keep by number, one is deleted unless its age keeps it; less keep it all the same. */
  lemma OldestOf(less: Rules, more: Rules, t: Time, later: Time, earlier: Time)
    requires var n := Max(0, more.keepLast);
             && !(more.keepDays > 0 && t >= Cutoff(more.keepDays, earlier))
             && Keeps(less, n, Finished(0, t), later)
    ensures !DeletesLess(less, more, later, earlier)
  {
    var n := Max(0, more.keepLast);
    var backups := Alike(n, t);
    var b := backups[0];
    assert DistinctIds(backups);
    AheadOfOldest(n, t);
    assert b in backups;
    DeletedAreTheDoomed(more, backups, earlier);
    DeletedAreTheDoomed(less, backups, later);
    assert Doomed(more, backups, b, earlier) && !Doomed(less, backups, b, later);
  }

  lemma AheadOfOldest(n: nat, t: Time)
    ensures |Ahead(Alike(n, t), Finished(0, t))| == n
  {
    var backups := Alike(n, t);
    var others := backups[1..];
    forall x
      ensures x in Ahead(backups, backups[0]) <==> x in others
    {
      if x in Ahead(backups, backups[0]) {
        var k :| 0 <= k < |backups| && backups[k] == x;
        assert others[k - 1] == x;
      }
      if x in others {
        var k :| 0 <= k < |others| && others[k] == x;
        assert backups[k + 1] == x;
      }
    }
    assert Ahead(backups, backups[0]) == set x | x in others;
    SetOfDistinct(others);
  }

  /** Where nothing wraps: raising keepLast or keepDays, or looking at an earlier time, never adds a deletion. */
  lemma KeepingMoreDeletesLess(less: Rules, more: Rules, later: Time, earlier: Time)
    requires less.keepLast <= more.keepLast && less.keepDays <= more.keepDays <= 106_751 && earlier <= later
    ensures DeletesLess(less, more, later, earlier)
  {
    DeletesLessExactly(less, more, later, earlier);
  }

  lemma RecentTies(a: Backup, b: Backup)
    ensures MoreRecent(a, b) && MoreRecent(b, a) ==> a.id == b.id
  {
  }

  /** The list after the planned deletions have been carried out. */
  function Surviving(backups: seq<Backup>, deleted: seq<BackupId>): seq<Backup> {
    if backups == [] then []
    else
      [if backups[0].id in deleted then backups[0].(status := Pruned) else backups[0]]
      + Surviving(backups[1..], deleted)
  }

  lemma {:induction false} SurvivingAt(backups: seq<Backup>, deleted: seq<BackupId>)
    ensures |Surviving(backups, deleted)| == |backups|
    ensures forall i | 0 <= i < |backups| ::
              Surviving(backups, deleted)[i] ==
              if backups[i].id in deleted then backups[i].(status := Pruned) else backups[i]
  {
    if backups != [] {
      SurvivingAt(backups[1..], deleted);
    }
  }

  /** Planning again on the survivors at the same time deletes nothing. */
  lemma PlanIsIdempotent(rules: Rules, backups: seq<Backup>, now: Time)
    requires DistinctIds(backups)
    ensures Deleted(rules, Surviving(backups, Deleted(rules, backups, now)), now) == []
  {
    var deleted := Deleted(rules, backups, now);
    var left := Surviving(backups, deleted);
    SurvivingAt(backups, deleted);
    DeletedAreTheDoomed(rules, backups, now);
    DeletedAreTheDoomed(rules, left, now);
    var again := Deleted(rules, left, now);
    if again != [] {
      var id := again[0];
      assert id in again;
      var b :| b in left && b.id == id;
      SurvivorIsKept(rules, backups, deleted, b, now);
    }
  }

  lemma SurvivorIsKept(rules: Rules, backups: seq<Backup>, deleted: seq<BackupId>, b: Backup, now: Time)
    requires DistinctIds(backups) && b in Surviving(backups, deleted)
    requires forall x | x in backups :: x.id in deleted <==> Doomed(rules, backups, x, now)
    ensures !Doomed(rules, Surviving(backups, deleted), b, now)
  {
    var left := Surviving(backups, deleted);
    SurvivingAt(backups, deleted);
    if Usable(b) {
      var i :| 0 <= i < |left| && left[i] == b;
      assert backups[i] == b && b in backups;
      forall x | x in Ahead(left, b)
        ensures x in Ahead(backups, b)
      {
        var k :| 0 <= k < |left| && left[k] == x;
        assert backups[k] == x;
      }
      SubsetSize(Ahead(left, b), Ahead(backups, b));
    }
  }

  /** Computing the cutoff is exact for 106 751 days and wraps around beyond. */
  lemma CutoffIsExact(keepDays: int, now: Time)
    requires keepDays >= 0
    ensures Cutoff(keepDays, now) == now - keepDays * DAY <==> keepDays <= 106_751
  {
  }

  /** The cutoff lies in the future exactly where the product wraps to a negative number, first from 106 752 to 213 503 days. */
  lemma FutureCutoff(keepDays: int, now: Time)
    ensures Cutoff(keepDays, now) > now <==> Wrap64(keepDays * DAY) < 0
    ensures 0 <= keepDays <= 213_503 ==> (Cutoff(keepDays, now) > now <==> keepDays >= 106_752)
  {
  }

  /** Then the rule keeps no backup finished by now: what is left is the number and the missing completion time. */
  lemma WrappedCutoffDeletes(rules: Rules, position: nat, b: Backup, now: Time)
    requires 106_752 <= rules.keepDays <= 213_503 && (b.finishedAt.Some? ==> b.finishedAt.value <= now)
    ensures Keeps(rules, position, b, now) <==> position < rules.keepLast || b.finishedAt.None?
  {
    FutureCutoff(rules.keepDays, now);
  }

  /** Past the second wrap the rule keeps again, but briefly: 213 600 days keep what was finished within 97. */
  lemma TwiceWrappedCutoff(now: Time)
    ensures now - 97 * DAY < Cutoff(213_600, now) < now - 96 * DAY
  {
  }

  /** A policy with nothing but generation rules, which the plan does not implement, loses all its backups. */
  lemma GenerationsOnlyDeletesEverything(backups: seq<Backup>, now: Time, b: Backup)
    requires DistinctIds(backups) && b in backups && Usable(b)
    ensures b.id in Deleted(Rules(0, 0, true), backups, now) <==> b.finishedAt.Some?
  {
    DeletedAreTheDoomed(Rules(0, 0, true), backups, now);
  }

  lemma {:induction false} DroppedAreDistinct(rules: Rules, recent: seq<Backup>, first: nat, now: Time)
    requires forall i, j | 0 <= i < j < |recent| :: recent[i].id != recent[j].id
    ensures forall k, l | 0 <= k < l < |Dropped(rules, recent, first, now)| ::
              Dropped(rules, recent, first, now)[k] != Dropped(rules, recent, first, now)[l]
    decreases |recent|
  {
    if recent != [] {
      var rest := recent[1..];
      DroppedAreDistinct(rules, rest, first + 1, now);
      var later := Dropped(rules, rest, first + 1, now);
      forall k | 0 <= k < |later|
        ensures later[k] != recent[0].id
      {
        DroppedAre(rules, rest, first + 1, now, later[k]);
        var i :| 0 <= i < |rest| && rest[i].id == later[k];
        assert recent[i + 1] == rest[i];
      }
    }
  }

  /**
   * A list cut off after its most recent entries: what is planned from it is planned from the whole list too.
   */
  lemma CutListDeletesLess(rules: Rules, all: seq<Backup>, cut: seq<Backup>, now: Time, id: BackupId)
    requires DistinctIds(all) && DistinctIds(cut)
    requires forall b | b in cut :: b in all
    requires forall b, x | b in cut && x in all && MoreRecent(x, b) :: x in cut
    requires id in Deleted(rules, cut, now)
    ensures id in Deleted(rules, all, now)
  {
    DeletedAreTheDoomed(rules, all, now);
    DeletedAreTheDoomed(rules, cut, now);
    var b :| b in cut && b.id == id;
    assert Ahead(cut, b) == Ahead(all, b);
    assert Doomed(rules, all, b, now);
  }
}

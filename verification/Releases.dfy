/**
 * Releases of one application: the status-guarded transitions of the releases table, and the plan of which
 * release directories to delete.
 */
module Releases {
  import opened Basics
  import opened Host
  import opened Sorting

  type Time = int

  datatype Status = Created | Deploying | Active | Superseded | Failed | Removed

  /** directory says whether the row records a directory. */
  datatype Release = Release(
    id: ReleaseId,
    status: Status,
    slot: Option<Slot>,
    directory: bool,
    createdAt: Time,
    activatedAt: Option<Time>)

  type Rows = map<ReleaseId, Release>

  predicate Rollbackable(s: Status) {
    s.Active? || s.Superseded?
  }

  // ---- The transitions; a guard that does not match updates no row ----

  function Insert(rows: Rows, id: ReleaseId, now: Time): Rows {
    if id in rows then rows else rows[id := Release(id, Created, None, false, now, None)]
  }

  function MarkDeploying(rows: Rows, id: ReleaseId): Rows {
    if id in rows && (rows[id].status.Created? || rows[id].status.Failed? || rows[id].status.Removed?)
    then rows[id := rows[id].(status := Deploying, directory := true, activatedAt := None)]
    else rows
  }

  /** Supersedes whatever is active and activates id, whatever status it has, in one transaction. */
  function Activate(rows: Rows, id: ReleaseId, now: Time): Rows {
    if id !in rows then rows
    else
      map i | i in rows ::
        if i == id then rows[i].(status := Active, activatedAt := Some(now))
        else if rows[i].status.Active? then rows[i].(status := Superseded)
        else rows[i]
  }

  function Fail(rows: Rows, id: ReleaseId): Rows {
    if id in rows && (rows[id].status.Created? || rows[id].status.Deploying?)
    then rows[id := rows[id].(status := Failed, directory := false)]
    else rows
  }

  function MarkRemoved(rows: Rows, id: ReleaseId): Rows {
    if id in rows && (rows[id].status.Superseded? || rows[id].status.Failed?)
    then rows[id := rows[id].(status := Removed, directory := false)]
    else rows
  }

  function SetSlot(rows: Rows, id: ReleaseId, slot: Slot): Rows {
    if id in rows then rows[id := rows[id].(slot := Some(slot))] else rows
  }

  datatype Step =
    | InsertStep(id: ReleaseId, now: Time)
    | DeployStep(id: ReleaseId)
    | ActivateStep(id: ReleaseId, now: Time)
    | FailStep(id: ReleaseId)
    | RemoveStep(id: ReleaseId)
    | SlotStep(id: ReleaseId, slot: Slot)

  function Apply(rows: Rows, s: Step): Rows {
    match s
    case InsertStep(id, now) => Insert(rows, id, now)
    case DeployStep(id) => MarkDeploying(rows, id)
    case ActivateStep(id, now) => Activate(rows, id, now)
    case FailStep(id) => Fail(rows, id)
    case RemoveStep(id) => MarkRemoved(rows, id)
    case SlotStep(id, slot) => SetSlot(rows, id, slot)
  }

  function Run(rows: Rows, steps: seq<Step>): Rows
    decreases |steps|
  {
    if steps == [] then rows else Run(Apply(rows, steps[0]), steps[1..])
  }

  // ---- Over every run ----

  ghost predicate SomeActive(rows: Rows) {
    exists i :: i in rows && rows[i].status.Active?
  }

  ghost function TheActive(rows: Rows): (r: Option<ReleaseId>)
    ensures r.Some? <==> SomeActive(rows)
    ensures r.Some? ==> r.value in rows && rows[r.value].status.Active?
  {
    if SomeActive(rows) then
      var i :| i in rows && rows[i].status.Active?;
      Some(i)
    else None
  }

  ghost predicate AtMostOneActive(rows: Rows) {
    forall i, j | i in rows && j in rows && rows[i].status.Active? && rows[j].status.Active? :: i == j
  }

  /** Nothing records a directory that was given up. */
  ghost predicate GoneHaveNoDirectory(rows: Rows) {
    forall i | i in rows && (rows[i].status.Failed? || rows[i].status.Removed?) :: !rows[i].directory
  }

  ghost predicate Sound(rows: Rows) {
    && (forall i | i in rows :: rows[i].id == i)
    && AtMostOneActive(rows)
    && GoneHaveNoDirectory(rows)
  }

  /** What the table can be: the guards of the transitions see to it. */
  type SoundRows = rows: Rows | Sound(rows) witness map[]

  lemma StepKeepsSound(rows: Rows, s: Step)
    requires Sound(rows)
    ensures Sound(Apply(rows, s))
    ensures SomeActive(rows) ==> SomeActive(Apply(rows, s))
  {
    if SomeActive(rows) {
      var i :| i in rows && rows[i].status.Active?;
      var after := Apply(rows, s);
      if s.ActivateStep? && s.id in rows {
        assert after[s.id].status.Active?;
      } else {
        assert i in after && after[i].status.Active?;
      }
    }
  }

  lemma ActiveIs(rows: Rows, i: ReleaseId)
    requires Sound(rows) && i in rows && rows[i].status.Active?
    ensures TheActive(rows) == Some(i)
  {
  }

  /** Only an activation changes which release is active. */
  lemma StepActive(rows: Rows, s: Step)
    requires Sound(rows)
    ensures TheActive(Apply(rows, s)) == if s.ActivateStep? && s.id in rows then Some(s.id) else TheActive(rows)
    ensures !s.InsertStep? ==> Apply(rows, s).Keys == rows.Keys
  {
    var after := Apply(rows, s);
    StepKeepsSound(rows, s);
    if s.ActivateStep? && s.id in rows {
      ActiveIs(after, s.id);
    } else {
      forall i | i in after && after[i].status.Active?
        ensures i in rows && rows[i].status.Active?
      {
      }
      if SomeActive(rows) {
        ActiveIs(after, TheActive(rows).value);
      }
    }
  }

  /** Main theorem: at most one release is ever active, and from the first activation on exactly one is. */
  lemma {:induction false} EveryRunIsSound(rows: Rows, steps: seq<Step>)
    requires Sound(rows)
    ensures Sound(Run(rows, steps))
    ensures SomeActive(rows) ==> SomeActive(Run(rows, steps))
    decreases |steps|
  {
    if steps != [] {
      StepKeepsSound(rows, steps[0]);
      EveryRunIsSound(Apply(rows, steps[0]), steps[1..]);
    }
  }

  /** Every activation happened before t, and the active release's is the latest. */
  ghost predicate ActivatedBefore(rows: Rows, t: Time) {
    && (forall i | i in rows && rows[i].activatedAt.Some? :: rows[i].activatedAt.value < t)
    && (forall i | i in rows && (rows[i].status.Active? || rows[i].status.Superseded?) :: rows[i].activatedAt.Some?)
    && (forall i, j | i in rows && j in rows && i != j && rows[i].status.Active? && rows[j].activatedAt.Some? ::
          rows[j].activatedAt.value < rows[i].activatedAt.value)
  }

  lemma ActivateKeepsActivationOrder(rows: Rows, id: ReleaseId, now: Time, t: Time)
    requires ActivatedBefore(rows, t) && now >= t
    ensures ActivatedBefore(Activate(rows, id, now), now + 1)
  {
  }

  /** One row changes into something that was activated when it was, or never. */
  lemma RowKeepsActivationOrder(rows: Rows, r: Release, t: Time)
    requires ActivatedBefore(rows, t)
    requires r.activatedAt.None? || (r.id in rows && rows[r.id].activatedAt == r.activatedAt)
    requires r.status.Active? || r.status.Superseded? ==> r.activatedAt.Some? && r.id in rows && rows[r.id].status == r.status
    ensures ActivatedBefore(rows[r.id := r], t)
  {
  }

  lemma StepKeepsActivationOrder(rows: Rows, s: Step, t: Time)
    requires Sound(rows) && ActivatedBefore(rows, t)
    requires s.ActivateStep? ==> s.now >= t
    ensures ActivatedBefore(Apply(rows, s), if s.ActivateStep? then s.now + 1 else t)
  {
    if s.ActivateStep? {
      ActivateKeepsActivationOrder(rows, s.id, s.now, t);
    } else if s.id in Apply(rows, s) {
      var r := Apply(rows, s)[s.id];
      assert r.id == s.id && Apply(rows, s) == rows[r.id := r];
      RowKeepsActivationOrder(rows, r, t);
    }
  }

  /** Activations happen at ever later times, from t on. */
  ghost predicate Timed(steps: seq<Step>, t: Time)
    decreases |steps|
  {
    steps != [] ==>
      && (steps[0].ActivateStep? ==> steps[0].now >= t)
      && Timed(steps[1..], if steps[0].ActivateStep? then steps[0].now + 1 else t)
  }

  /** With a clock that advances between activations, the active release is always the one activated last. */
  lemma {:induction false} LatestActivationIsActive(rows: Rows, steps: seq<Step>, t: Time)
    requires Sound(rows) && ActivatedBefore(rows, t) && Timed(steps, t)
    ensures exists later :: later >= t && ActivatedBefore(Run(rows, steps), later)
    decreases |steps|
  {
    if steps == [] {
      assert ActivatedBefore(Run(rows, steps), t);
    } else {
      var after := Apply(rows, steps[0]);
      StepKeepsSound(rows, steps[0]);
      StepKeepsActivationOrder(rows, steps[0], t);
      var next := if steps[0].ActivateStep? then steps[0].now + 1 else t;
      LatestActivationIsActive(after, steps[1..], next);
      var later :| later >= next && ActivatedBefore(Run(after, steps[1..]), later);
      assert Run(rows, steps) == Run(after, steps[1..]);
    }
  }

  /** activated_at DESC, id DESC; rows without activated_at come last. */
  predicate ActivatedLater(a: Release, b: Release) {
    || (a.activatedAt.Some? && b.activatedAt.None?)
    || (a.activatedAt.Some? && b.activatedAt.Some? && a.activatedAt.value > b.activatedAt.value)
    || (a.activatedAt == b.activatedAt && a.id >= b.id)
  }

  /** i is what the query for the latest activated row of this status returns. */
  ghost predicate IsLatest(rows: Rows, status: Status, i: ReleaseId) {
    && i in rows && rows[i].status == status
    && forall j | j in rows && rows[j].status == status :: ActivatedLater(rows[i], rows[j])
  }

  method Latest(rows: Rows, status: Status) returns (r: Option<ReleaseId>)
    requires forall i | i in rows :: rows[i].id == i
    ensures r.Some? ==> IsLatest(rows, status, r.value)
    ensures r.None? ==> forall i | i in rows :: rows[i].status != status
  {
    r := None;
    var rest := rows.Keys;
    while rest != {}
      invariant rest <= rows.Keys
      invariant r.None? ==> forall i | i in rows && i !in rest :: rows[i].status != status
      invariant r.Some? ==> r.value in rows && rows[r.value].status == status
      invariant r.Some? ==>
                  forall j | j in rows && j !in rest && rows[j].status == status :: ActivatedLater(rows[r.value], rows[j])
      decreases |rest|
    {
      var i :| i in rest;
      if rows[i].status == status && (r.None? || !ActivatedLater(rows[r.value], rows[i])) {
        r := Some(i);
      }
      rest := rest - {i};
    }
  }

  /**
   * The default rollback target right after an activation is the release that was active before it: it was
   * activated after every other superseded one.
   */
  lemma RollbackTargetIsLastActive(rows: Rows, before: ReleaseId, id: ReleaseId, now: Time, t: Time)
    requires Sound(rows) && ActivatedBefore(rows, t)
    requires before in rows && rows[before].status.Active? && id in rows && id != before && now >= t
    ensures forall i :: IsLatest(Activate(rows, id, now), Superseded, i) <==> i == before
  {
    var after := Activate(rows, id, now);
    forall j | j in after && after[j].status == Superseded
      ensures ActivatedLater(after[before], after[j])
      ensures j != before ==> !ActivatedLater(after[j], after[before])
    {
      assert j in rows && rows[j].activatedAt == after[j].activatedAt;
    }
    assert IsLatest(after, Superseded, before);
  }

  // ---- Which directories to delete ----

  predicate IsCandidate(r: Release) {
    r.status.Superseded? && r.directory
  }

  /** Younger first: activation time, then creation time, then id; never activated comes last. */
  predicate YoungerOrSame(a: Release, b: Release) {
    if a.activatedAt.Some? && b.activatedAt.Some? && a.activatedAt != b.activatedAt then
      a.activatedAt.value > b.activatedAt.value
    else if a.activatedAt.Some? != b.activatedAt.Some? then a.activatedAt.Some?
    else if a.createdAt != b.createdAt then a.createdAt > b.createdAt
    else a.id >= b.id
  }

  const YOUNGER: (Release, Release) -> bool := (a, b) => YoungerOrSame(a, b)

  function Candidates(rows: seq<Release>): seq<Release> {
    if rows == [] then []
    else (if IsCandidate(rows[0]) then [rows[0]] else []) + Candidates(rows[1..])
  }

  predicate HasActive(rows: seq<Release>) {
    exists k :: 0 <= k < |rows| && rows[k].status.Active?
  }

  function KeepOthers(rows: seq<Release>, keepLast: int): nat
    requires keepLast >= 1
  {
    if HasActive(rows) then keepLast - 1 else keepLast
  }

  function Reversed(s: seq<Release>): seq<ReleaseId> {
    if s == [] then [] else Reversed(s[1..]) + [s[0].id]
  }

  function Removal(rows: seq<Release>, keepLast: int): seq<ReleaseId> {
    if keepLast <= 0 then []
    else
      var sorted := Sort(Candidates(rows), YOUNGER);
      var keep := KeepOthers(rows, keepLast);
      if |sorted| <= keep then [] else Reversed(sorted[keep..])
  }

  method SelectCandidates(rows: seq<Release>) returns (candidates: seq<Release>, active: bool)
    ensures candidates == Candidates(rows)
    ensures active <==> HasActive(rows)
  {
    active, candidates := false, [];
    var k := 0;
    while k < |rows|
      invariant 0 <= k <= |rows|
      invariant active <==> exists j :: 0 <= j < k && rows[j].status.Active?
      invariant candidates + Candidates(rows[k..]) == Candidates(rows)
    {
      CandidatesFrom(rows, k, candidates);
      if rows[k].status.Active? {
        active := true;
      } else if rows[k].status.Superseded? && rows[k].directory {
        candidates := candidates + [rows[k]];
      }
      k := k + 1;
    }
  }

  lemma CandidatesFrom(rows: seq<Release>, k: nat, found: seq<Release>)
    requires k < |rows|
    ensures found + Candidates(rows[k..]) ==
            (if IsCandidate(rows[k]) then found + [rows[k]] else found) + Candidates(rows[k + 1..])
  {
    assert rows[k..][1..] == rows[k + 1..];
  }

  /** Collects the ids from the oldest on. */
  method OldestFirst(removable: seq<Release>) returns (removal: seq<ReleaseId>)
    ensures removal == Reversed(removable)
  {
    removal := [];
    var i := |removable|;
    assert removable[..i] == removable;
    while i > 0
      invariant 0 <= i <= |removable|
      invariant removal + Reversed(removable[..i]) == Reversed(removable)
    {
      i := i - 1;
      ReversedLast(removable[..i + 1]);
      assert removable[..i + 1][..i] == removable[..i];
      removal := removal + [removable[i].id];
    }
  }

  method PlanReleaseRemoval(rows: seq<Release>, keepLast: int) returns (removal: seq<ReleaseId>)
    ensures removal == Removal(rows, keepLast)
  {
    var candidates, active := SelectCandidates(rows);
    if keepLast <= 0 {
      return [];
    }
    candidates := Sort(candidates, YOUNGER);
    var keepOthers := keepLast - 1;
    if !active {
      keepOthers := keepLast;
    }
    if |candidates| <= keepOthers {
      return [];
    }
    removal := OldestFirst(candidates[keepOthers..]);
  }

  lemma {:induction false} ReversedLast(s: seq<Release>)
    requires s != []
    ensures Reversed(s) == [s[|s| - 1].id] + Reversed(s[..|s| - 1])
  {
    if |s| > 1 {
      ReversedLast(s[1..]);
      assert s[1..][..|s| - 2] == s[..|s| - 1][1..];
    }
  }

  lemma {:induction false} ReversedElements(s: seq<Release>, id: ReleaseId)
    ensures |Reversed(s)| == |s|
    ensures id in Reversed(s) <==> exists k :: 0 <= k < |s| && s[k].id == id
  {
    if s != [] {
      ReversedElements(s[1..], id);
      if id in Reversed(s[1..]) {
        var k :| 0 <= k < |s[1..]| && s[1..][k].id == id;
        assert s[k + 1].id == id;
      } else {
        assert forall k | 0 < k < |s| :: s[k] == s[1..][k - 1];
      }
    }
  }

  lemma {:induction false} CandidatesAre(rows: seq<Release>)
    ensures forall r :: r in Candidates(rows) <==> r in rows && IsCandidate(r)
  {
    if rows != [] {
      CandidatesAre(rows[1..]);
      forall r
        ensures r in Candidates(rows) <==> r in rows && IsCandidate(r)
      {
        assert r in rows <==> r == rows[0] || r in rows[1..];
      }
    }
  }

  ghost predicate DistinctIds(rows: seq<Release>) {
    forall i, j | 0 <= i < |rows| && 0 <= j < |rows| && rows[i].id == rows[j].id :: i == j
  }

  lemma YoungerOrders()
    ensures Orders(YOUNGER)
  {
  }

  lemma SortedCandidates(rows: seq<Release>)
    ensures var sorted := Sort(Candidates(rows), YOUNGER);
            && Ordered(sorted, YOUNGER)
            && |sorted| == |Candidates(rows)|
            && forall r :: r in sorted <==> r in Candidates(rows)
  {
    YoungerOrders();
    SortSorts(Candidates(rows), YOUNGER);
  }

  lemma {:induction false} CandidatesOfPermutation(rows: seq<Release>)
    ensures forall r :: multiset(Candidates(rows))[r] == if IsCandidate(r) then multiset(rows)[r] else 0
  {
    if rows != [] {
      CandidatesOfPermutation(rows[1..]);
      assert rows == [rows[0]] + rows[1..];
    }
  }

  lemma CandidatesDoNotTie(rows: seq<Release>)
    requires DistinctIds(rows)
    ensures NoTies(Candidates(rows), YOUNGER)
  {
    CandidatesAre(rows);
    forall a, b | a in Candidates(rows) && b in Candidates(rows) && YOUNGER(a, b) && YOUNGER(b, a)
      ensures a == b
    {
      assert a.id == b.id;
    }
  }

  /** The plan does not depend on the order in which the rows are listed. */
  lemma RemovalForgetsOrder(rows: seq<Release>, shuffled: seq<Release>, keepLast: int)
    requires multiset(rows) == multiset(shuffled) && DistinctIds(rows)
    ensures Removal(rows, keepLast) == Removal(shuffled, keepLast)
  {
    CandidatesOfPermutation(rows);
    CandidatesOfPermutation(shuffled);
    assert multiset(Candidates(rows)) == multiset(Candidates(shuffled));
    CandidatesDoNotTie(rows);
    YoungerOrders();
    SortForgetsOrder(Candidates(rows), Candidates(shuffled), YOUNGER);
    HasActiveOfPermutation(rows, shuffled);
    HasActiveOfPermutation(shuffled, rows);
  }

  lemma HasActiveOfPermutation(rows: seq<Release>, shuffled: seq<Release>)
    requires multiset(rows) == multiset(shuffled)
    ensures HasActive(rows) ==> HasActive(shuffled)
  {
    if HasActive(rows) {
      var k :| 0 <= k < |rows| && rows[k].status.Active?;
      SameElements(shuffled, rows);
      assert rows[k] in shuffled;
    }
  }

  /** The directory-bearing versions the plan is about: the candidates and the active release. */
  function Kept(rows: seq<Release>, keepLast: int): int {
    |Candidates(rows)| + (if HasActive(rows) then 1 else 0) - |Removal(rows, keepLast)|
  }

  /** Exactly min(keepLast, n) directory-bearing versions stay. */
  lemma KeepsExactly(rows: seq<Release>, keepLast: int)
    requires keepLast >= 1
    ensures Kept(rows, keepLast) == Min(keepLast, |Candidates(rows)| + (if HasActive(rows) then 1 else 0))
  {
    SortedCandidates(rows);
    var sorted := Sort(Candidates(rows), YOUNGER);
    var keep := KeepOthers(rows, keepLast);
    if |sorted| > keep {
      ReversedElements(sorted[keep..], 0);
    }
  }

  /** Only superseded releases with a directory go, never the active one, and every one kept is younger. */
  lemma RemovesTheOldest(rows: seq<Release>, keepLast: int)
    requires DistinctIds(rows)
    ensures forall r | r in rows && r.id in Removal(rows, keepLast) :: IsCandidate(r)
    ensures forall id | id in Removal(rows, keepLast) :: exists r :: r in rows && r.id == id
    ensures forall gone, kept | gone in rows && kept in rows && gone.id in Removal(rows, keepLast)
              && IsCandidate(kept) && kept.id !in Removal(rows, keepLast) :: YoungerOrSame(kept, gone)
  {
    var removal := Removal(rows, keepLast);
    if removal != [] {
      SortedCandidates(rows);
      CandidatesAre(rows);
      var sorted := Sort(Candidates(rows), YOUNGER);
      var keep := KeepOthers(rows, keepLast);
      forall id
        ensures id in removal <==> exists k :: keep <= k < |sorted| && sorted[k].id == id
      {
        ReversedElements(sorted[keep..], id);
        if id in removal {
          var k :| 0 <= k < |sorted[keep..]| && sorted[keep..][k].id == id;
          assert sorted[keep + k].id == id;
        }
        if k :| keep <= k < |sorted| && sorted[k].id == id {
          assert sorted[keep..][k - keep].id == id;
        }
      }
      RemovesSuffix(rows, sorted, keep, removal);
    }
  }

  lemma RemovesSuffix(rows: seq<Release>, sorted: seq<Release>, keep: nat, removal: seq<ReleaseId>)
    requires DistinctIds(rows) && Ordered(sorted, YOUNGER)
    requires forall r :: r in sorted <==> r in rows && IsCandidate(r)
    requires forall id :: id in removal <==> exists k :: keep <= k < |sorted| && sorted[k].id == id
    ensures forall r | r in rows && r.id in removal :: IsCandidate(r)
    ensures forall id | id in removal :: exists r :: r in rows && r.id == id
    ensures forall gone, kept | gone in rows && kept in rows && gone.id in removal
              && IsCandidate(kept) && kept.id !in removal :: YoungerOrSame(kept, gone)
  {
    forall r | r in rows && r.id in removal
      ensures exists k :: keep <= k < |sorted| && sorted[k] == r
    {
      var k :| keep <= k < |sorted| && sorted[k].id == r.id;
      assert sorted[k] in rows && sorted[k].id == r.id;
    }
    forall id | id in removal
      ensures exists r :: r in rows && r.id == id
    {
      var k :| keep <= k < |sorted| && sorted[k].id == id;
      assert sorted[k] in rows;
    }
    forall gone, kept | gone in rows && kept in rows && gone.id in removal
        && IsCandidate(kept) && kept.id !in removal
      ensures YoungerOrSame(kept, gone)
    {
      var g :| keep <= g < |sorted| && sorted[g] == gone;
      var k :| 0 <= k < |sorted| && sorted[k] == kept;
      assert k < keep;
      assert YOUNGER(sorted[k], sorted[g]);
    }
  }

  /** The rows after every planned release was deleted and marked. */
  function AfterRemoval(rows: seq<Release>, removal: seq<ReleaseId>): seq<Release> {
    if rows == [] then []
    else
      [if rows[0].id in removal then rows[0].(status := Removed, directory := false) else rows[0]]
      + AfterRemoval(rows[1..], removal)
  }

  lemma {:induction false} AfterRemovalCandidates(rows: seq<Release>, removal: seq<ReleaseId>)
    requires DistinctIds(rows) && forall r | r in rows && r.id in removal :: IsCandidate(r)
    ensures HasActive(AfterRemoval(rows, removal)) <==> HasActive(rows)
    ensures DistinctIds(Candidates(AfterRemoval(rows, removal)))
    ensures forall r | r in Candidates(AfterRemoval(rows, removal)) :: r in rows && IsCandidate(r) && r.id !in removal
  {
    if rows != [] {
      DistinctTail(rows);
      assert forall r | r in rows[1..] :: r in rows;
      AfterRemovalCandidates(rows[1..], removal);
      assert rows[0] in rows;
      HasActiveCons(rows);
      HasActiveCons(AfterRemoval(rows, removal));
      var rest := Candidates(AfterRemoval(rows[1..], removal));
      forall r | r in rest
        ensures r.id != rows[0].id
      {
        var k :| 0 <= k < |rows[1..]| && rows[1..][k] == r;
        assert rows[k + 1].id == r.id;
      }
    }
  }

  lemma DistinctTail(rows: seq<Release>)
    requires rows != [] && DistinctIds(rows)
    ensures DistinctIds(rows[1..])
  {
    forall i, j | 0 <= i < |rows[1..]| && 0 <= j < |rows[1..]| && rows[1..][i].id == rows[1..][j].id
      ensures i == j
    {
      assert rows[i + 1].id == rows[j + 1].id;
    }
  }

  lemma HasActiveCons(rows: seq<Release>)
    requires rows != []
    ensures HasActive(rows) <==> rows[0].status.Active? || HasActive(rows[1..])
  {
    if HasActive(rows) && !rows[0].status.Active? {
      var k :| 0 <= k < |rows| && rows[k].status.Active?;
      assert rows[1..][k - 1].status.Active?;
    }
    if HasActive(rows[1..]) {
      var k :| 0 <= k < |rows[1..]| && rows[1..][k].status.Active?;
      assert rows[k + 1].status.Active?;
    }
  }

  lemma NotReversedIsBefore(sorted: seq<Release>, keep: nat, r: Release)
    requires keep < |sorted| && r in sorted && r.id !in Reversed(sorted[keep..])
    ensures r in sorted[..keep]
  {
    var tail := sorted[keep..];
    ReversedElements(tail, r.id);
    var k :| 0 <= k < |sorted| && sorted[k] == r;
    assert forall j | keep <= j < |sorted| :: sorted[j] == tail[j - keep];
    assert k < keep;
    assert sorted[..keep][k] == r;
  }

  lemma SurvivorIsYoung(rows: seq<Release>, keepLast: int, r: Release)
    requires keepLast >= 1 && r in rows && IsCandidate(r) && r.id !in Removal(rows, keepLast)
    ensures var sorted := Sort(Candidates(rows), YOUNGER);
            var keep := KeepOthers(rows, keepLast);
            r in if |sorted| <= keep then sorted else sorted[..keep]
  {
    SortedCandidates(rows);
    CandidatesAre(rows);
    var sorted := Sort(Candidates(rows), YOUNGER);
    if |sorted| > KeepOthers(rows, keepLast) {
      NotReversedIsBefore(sorted, KeepOthers(rows, keepLast), r);
    }
  }

  /** Once the plan is carried out there is nothing left to remove. */
  lemma RemovalIsIdempotent(rows: seq<Release>, keepLast: int)
    requires DistinctIds(rows)
    ensures Removal(AfterRemoval(rows, Removal(rows, keepLast)), keepLast) == []
  {
    if keepLast >= 1 {
      var removal := Removal(rows, keepLast);
      RemovesTheOldest(rows, keepLast);
      AfterRemovalCandidates(rows, removal);
      var left := Candidates(AfterRemoval(rows, removal));
      var sorted := Sort(Candidates(rows), YOUNGER);
      var keep := KeepOthers(rows, keepLast);
      var young := if |sorted| <= keep then sorted else sorted[..keep];
      forall r | r in left
        ensures r in young
      {
        SurvivorIsYoung(rows, keepLast, r);
      }
      NoMoreThan(left, young);
      SortedCandidates(AfterRemoval(rows, removal));
    }
  }
}

/**
 * What the database records about one application's deployments: release rows, the serving slot, one row
 * per slot, and the append-only slot timeline.
 */
module Catalog {
  import opened Basics
  import opened Host
  import Releases

  type Time = Releases.Time

  datatype SlotState = Serving | Standby | Draining | Stopped | Failed

  datatype SlotRow = SlotRow(release: Option<ReleaseId>, state: SlotState, switchedAt: Option<Time>)

  datatype EventKind = Switched | Observed | StoppedEvent | FailedEvent | Reconciled

  datatype Event = Event(slot: Slot, kind: EventKind, release: Option<ReleaseId>)

  /** The slot of the latest switch in the timeline. */
  function LastSwitch(events: seq<Event>): Option<Slot> {
    if events == [] then None
    else if events[|events| - 1].kind.Switched? then Some(events[|events| - 1].slot)
    else LastSwitch(events[..|events| - 1])
  }

  /** A row that records no switch keeps the time of the previous one. */
  function Put(slots: map<Side, SlotRow>, slot: Side, release: Option<ReleaseId>, state: SlotState, switchedAt: Option<Time>)
    : map<Side, SlotRow>
  {
    var kept := if slot in slots then slots[slot].switchedAt else None;
    slots[slot := SlotRow(release, state, if switchedAt.Some? then switchedAt else kept)]
  }

  /** Everything that is recorded; of the timeline, where its latest switch went. */
  datatype Record = Record(serving: Option<Side>, slots: map<Side, SlotRow>, releases: Releases.SoundRows, lastSwitch: Option<Slot>)

  class Catalog {
    const writes: nat -> bool
    var count: nat
    var serving: Option<Side>
    var slots: map<Side, SlotRow>
    var releases: Releases.SoundRows
    var events: seq<Event>

    ghost function Recorded(): Record
      reads this
    {
      Record(serving, slots, releases, LastSwitch(events))
    }

    /** Every write commits. */
    ghost predicate Reliable() {
      forall k :: writes(k)
    }

    constructor (writes: nat -> bool)
      ensures this.writes == writes
      ensures serving.None? && slots == map[] && releases == map[] && events == []
    {
      this.writes := writes;
      count := 0;
      serving, slots, releases, events := None, map[], map[], [];
    }

    method Commit() returns (ok: bool)
      modifies this`count
      ensures Reliable() ==> ok
    {
      ok := writes(count);
      count := count + 1;
    }

    /** None writes NULL: no slot serves. */
    method SetServingSlot(slot: Option<Side>) returns (ok: bool)
      modifies this`count, this`serving
      ensures Reliable() ==> ok
      ensures serving == if ok then slot else old(serving)
    {
      ok := Commit();
      if ok {
        serving := slot;
      }
    }

    method PutApplicationSlot(slot: Side, release: Option<ReleaseId>, state: SlotState, switchedAt: Option<Time>) returns (ok: bool)
      modifies this`count, this`slots
      ensures Reliable() ==> ok
      ensures slots == if ok then Put(old(slots), slot, release, state, switchedAt) else old(slots)
    {
      ok := Commit();
      if ok {
        slots := Put(slots, slot, release, state, switchedAt);
      }
    }

    /** The timeline has grown by this event. */
    ghost predicate Noted(before: seq<Event>, e: Event)
      reads this`events
    {
      events == before + [e]
    }

    /** A lost event is logged and otherwise ignored. */
    method AppendEvent(e: Event)
      modifies this`count, this`events
      ensures Noted(old(events), e) || (!Reliable() && events == old(events))
      ensures !e.kind.Switched? ==> LastSwitch(events) == LastSwitch(old(events))
      ensures e.kind.Switched? && Reliable() ==> LastSwitch(events) == Some(e.slot)
    {
      var ok := Commit();
      if ok {
        assert (events + [e])[..|events|] == events;
        events := events + [e];
      }
    }

    /** Where some release was active, one still is. */
    ghost predicate StillActive(before: Releases.Rows)
      reads this`releases
    {
      Releases.SomeActive(before) ==> Releases.SomeActive(releases)
    }

    /** One transition of the releases table. */
    method Change(s: Releases.Step) returns (ok: bool)
      modifies this`count, this`releases
      ensures Reliable() ==> ok
      ensures StillActive(old(releases))
      ensures releases == if ok then Releases.Apply(old(releases), s) else old(releases)
    {
      ok := Commit();
      if ok {
        Releases.StepKeepsSound(releases, s);
        releases := Releases.Apply(releases, s);
      }
    }

    method ActiveRelease() returns (r: Option<ReleaseId>)
      ensures r.Some? <==> Releases.SomeActive(releases)
      ensures r.Some? ==> r.value in releases && releases[r.value].status.Active?
      ensures r == Releases.TheActive(releases)
    {
      r := Releases.Latest(releases, Releases.Active);
      if r.Some? {
        Releases.ActiveIs(releases, r.value);
      }
    }
  }
}

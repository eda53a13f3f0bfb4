/**
 * Reconciliation at startup: the recorded slots are rewritten from the managed nginx file and the process
 * states, whatever an interrupted deployment left behind.
 */
module Slots {
  import opened Basics
  import opened Host
  import C = Catalog
  import R = Render

  datatype RuntimeStatus = Unknown | Inactive | Activating | Active | Deactivating | Failed

  type Rows = map<Side, C.SlotRow>

  /** What each process is found to be; None when asking fails. */
  type Processes = Side -> Option<RuntimeStatus>

  predicate Running(s: RuntimeStatus) {
    s.Active? || s.Activating?
  }

  /**
   * The state a row must have by the facts; None when they do not say. onlineKnown is false on a machine
   * without nginx.
   */
  function ExpectedState(process: RuntimeStatus, slot: Side, onlineKnown: bool, online: Option<Side>): Option<C.SlotState> {
    if process.Unknown? then None
    else if process.Failed? || process.Activating? || process.Deactivating? then None
    else if !Running(process) then Some(C.Stopped)
    else if !onlineKnown then None
    else if online == Some(slot) then Some(C.Serving)
    else Some(C.Standby)
  }

  function Corrected(row: C.SlotRow, process: Option<RuntimeStatus>, slot: Side, onlineKnown: bool, online: Option<Side>): C.SlotRow {
    if process.None? then row
    else
      match ExpectedState(process.value, slot, onlineKnown, online)
      case None => row
      case Some(state) => row.(state := state)
  }

  function Reconciled(rows: Rows, processes: Processes, onlineKnown: bool, online: Option<Side>): Rows {
    map s | s in rows :: Corrected(rows[s], processes(s), s, onlineKnown, online)
  }

  datatype Change = ServingChange(servingFrom: Option<Side>, servingTo: Option<Side>)
    | StateChange(slot: Side, from: C.SlotState, to: C.SlotState)

  class SlotService {
    const catalog: C.Catalog
    const hasNginx: bool
    const hasRuntime: bool

    constructor (catalog: C.Catalog, hasNginx: bool, hasRuntime: bool)
      ensures this.catalog == catalog && this.hasNginx == hasNginx && this.hasRuntime == hasRuntime
    {
      this.catalog, this.hasNginx, this.hasRuntime := catalog, hasNginx, hasRuntime;
    }

    /** One row, if there is one: at most one write, which corrects the state and nothing else. */
    method ReconcileRow(slot: Side, process: Option<RuntimeStatus>, online: Option<Side>)
      returns (errors: nat, changes: seq<Change>)
      modifies catalog`count, catalog`slots, catalog`events
      ensures errors == 0 && slot in old(catalog.slots) ==>
                catalog.slots == old(catalog.slots)[slot := Corrected(old(catalog.slots)[slot], process, slot, hasNginx, online)]
      ensures slot !in old(catalog.slots) || errors > 0 ==> catalog.slots == old(catalog.slots)
      ensures catalog.slots.Keys == old(catalog.slots.Keys)
      ensures forall s | s in catalog.slots && s != slot :: catalog.slots[s] == old(catalog.slots)[s]
      ensures catalog.Reliable() && process.Some? ==> errors == 0
      ensures slot in old(catalog.slots) && process.None? ==> errors > 0
      ensures changes == [] <==> catalog.slots == old(catalog.slots)
    {
      if slot !in catalog.slots {
        return 0, [];
      }
      var row := catalog.slots[slot];
      if process.None? {
        return 1, [];
      }
      var want := ExpectedState(process.value, slot, hasNginx, online);
      if want.None? || want.value == row.state {
        return 0, [];
      }
      var ok := catalog.PutApplicationSlot(slot, row.release, want.value, None);
      if !ok {
        return 1, [];
      }
      catalog.AppendEvent(C.Event(slot, C.Reconciled, row.release));
      return 0, [StateChange(slot, row.state, want.value)];
    }

    /** The rows in the order of their slots. */
    method ReconcileRows(processes: Processes, online: Option<Side>) returns (errors: nat, changes: seq<Change>)
      modifies catalog`count, catalog`slots, catalog`events
      ensures errors == 0 ==> catalog.slots == Reconciled(old(catalog.slots), processes, hasNginx, online)
      ensures changes == [] <==> catalog.slots == old(catalog.slots)
      ensures catalog.Reliable() && processes(Blue).Some? && processes(Green).Some? ==> errors == 0
    {
      var blueErrors, blueChanges := ReconcileRow(Blue, processes(Blue), online);
      var greenErrors, greenChanges := ReconcileRow(Green, processes(Green), online);
      errors, changes := blueErrors + greenErrors, blueChanges + greenChanges;
    }

    /**
     * manifest is the one of the active release, or None when it cannot be obtained; file is the managed file, or
     * None inside when there is none. An application without slots is skipped. Without errors the recorded serving
     * slot is the one in the file and every row has the state the facts dictate; changes is empty exactly when
     * nothing had to be corrected.
     */
    method ReconcileApplication(manifest: Option<R.Entry>, file: Result<Option<string>>, processes: Processes)
      returns (errors: nat, changes: seq<Change>, skipped: bool)
      modifies catalog`count, catalog`serving, catalog`slots, catalog`events
      ensures skipped <==> !HasSlots(manifest)
      ensures skipped ==> errors == 0 && changes == [] && catalog.Recorded() == old(catalog.Recorded())
      ensures !skipped && errors == 0 && hasNginx ==>
                PointsAt(file, manifest.value).Ok? && catalog.serving == PointsAt(file, manifest.value).value
      ensures !hasNginx ==> catalog.serving == old(catalog.serving)
      ensures !skipped && hasNginx && PointsAt(file, manifest.value).Err? ==>
                errors > 0 && catalog.serving == old(catalog.serving) && catalog.slots == old(catalog.slots)
      ensures !skipped && errors == 0 ==>
                catalog.slots ==
                if !hasRuntime then old(catalog.slots)
                else if !hasNginx then Reconciled(old(catalog.slots), processes, false, None)
                else Reconciled(old(catalog.slots), processes, true, PointsAt(file, manifest.value).value)
      ensures changes == [] <==> catalog.serving == old(catalog.serving) && catalog.slots == old(catalog.slots)
      ensures catalog.Reliable() && (!skipped && hasNginx ==> PointsAt(file, manifest.value).Ok?)
              && (hasRuntime ==> processes(Blue).Some? && processes(Green).Some?) ==>
                errors == 0
    {
      errors, changes, skipped := 0, [], !HasSlots(manifest);
      if skipped {
        return;
      }
      var online: Option<Side> := None;
      if hasNginx {
        var current := PointsAt(file, manifest.value);
        if current.Err? {
          return 1, [], false;
        }
        online := current.value;
        errors, changes := CorrectServing(online);
      }
      if hasRuntime && errors == 0 {
        var corrected: seq<Change>;
        errors, corrected := ReconcileRows(processes, online);
        changes := changes + corrected;
      }
    }

    /** An event without a slot is refused by the store, so there is none when the file names no slot. */
    method CorrectServing(online: Option<Side>) returns (errors: nat, changes: seq<Change>)
      modifies catalog`count, catalog`serving, catalog`events
      ensures errors == 0 ==> catalog.serving == online
      ensures errors > 0 ==> catalog.serving == old(catalog.serving) && !catalog.Reliable()
      ensures changes == [] <==> catalog.serving == old(catalog.serving)
    {
      errors, changes := 0, [];
      var recorded := catalog.serving;
      if online != recorded {
        var ok := catalog.SetServingSlot(online);
        if !ok {
          return 1, [];
        }
        changes := [ServingChange(recorded, online)];
        if online.Some? {
          catalog.AppendEvent(C.Event(online.value, C.Reconciled, None));
        }
      }
    }
  }

  predicate HasSlots(manifest: Option<R.Entry>) {
    manifest.Some? && manifest.value.slots != map[]
  }

  /** The slot the managed file points at, read under this manifest. */
  function PointsAt(file: Result<Option<string>>, manifest: R.Entry): Result<Option<Side>> {
    match file
    case Err(code) => Err(code)
    case Ok(None) => Ok(None)
    case Ok(Some(text)) =>
      var slot := R.ParseManaged(text, manifest);
      if slot.None? then Err(NginxConfigInvalid) else Ok(Some(slot.value))
  }

  // ---- What the corrected records say ----

  predicate Decided(process: Option<RuntimeStatus>) {
    process.Some? && (process.value.Active? || process.value.Inactive?)
  }

  /** Of the rows whose process is known to be up or down at most one is serving: the one nginx is pointed at. */
  lemma AtMostOneServing(rows: Rows, processes: Processes, online: Option<Side>)
    ensures forall s | s in rows && Decided(processes(s)) ::
              Reconciled(rows, processes, true, online)[s].state.Serving? <==> online == Some(s) && processes(s) == Some(Active)
    ensures forall s, t | s in rows && t in rows && Decided(processes(s)) && Decided(processes(t))
              && Reconciled(rows, processes, true, online)[s].state.Serving?
              && Reconciled(rows, processes, true, online)[t].state.Serving? :: s == t
  {
    forall s | s in rows && Decided(processes(s))
      ensures Reconciled(rows, processes, true, online)[s].state.Serving? <==> online == Some(s) && processes(s) == Some(Active)
    {
      assert Reconciled(rows, processes, true, online)[s] == Corrected(rows[s], processes(s), s, true, online);
    }
  }

  /** Nothing is invented: a row whose process is unknown, failed or in between keeps its state. */
  lemma UndecidedIsKept(rows: Rows, processes: Processes, onlineKnown: bool, online: Option<Side>, s: Side)
    requires s in rows
    ensures !Decided(processes(s)) ==> Reconciled(rows, processes, onlineKnown, online)[s] == rows[s]
    ensures !onlineKnown && processes(s) == Some(Active) ==> Reconciled(rows, processes, onlineKnown, online)[s] == rows[s]
    ensures Reconciled(rows, processes, onlineKnown, online)[s].release == rows[s].release
  {
  }

  /** On the same facts a second reconciliation finds nothing to correct. */
  lemma ReconciledIsStable(rows: Rows, processes: Processes, onlineKnown: bool, online: Option<Side>)
    ensures var once := Reconciled(rows, processes, onlineKnown, online);
            Reconciled(once, processes, onlineKnown, online) == once
  {
  }
}

/** What holds of every slot through a whole cycle of the I/O thread, however it ends. */
module SlotInvariants {
  import opened Transport
  import opened Joints
  import opened Cycle
  import opened Worker

  /** A property of the slots, by place. */
  type SlotProperty = (nat, Slot) -> bool

  ghost predicate AllSlots(w: Work, p: SlotProperty) { forall i: nat | i < |w.slots| :: p(i, w.slots[i]) }

  /** Holding, polling and clearing the limiter flags keep the property. */
  ghost predicate ReadKeeps(c: Context, p: SlotProperty) {
    && (forall i: nat, x: Slot, status: int | p(i, x) :: p(i, FailSlot(x, status)))
    && (forall i: nat, x: Slot | p(i, x) :: p(i, LoseSlot(x)))
    && (forall i: nat, x: Slot | p(i, x) :: p(i, x.(core := Unflagged(x.core))))
    && (forall i: nat, x: Slot, log: Log | p(i, x) :: p(i, PollSlot(c, log, x).0))
  }

  /** Writing under the orders of the post keeps the property. */
  ghost predicate WriteKeeps(c: Context, post: Post, p: SlotProperty) {
    forall i: nat, x: Slot, log: Log | p(i, x) ::
      p(i, WriteSlot(c, log, EffectiveDt(post.dt), x, OrderAt(post, i)).slot)
  }

  lemma AbortKeeps(c: Context, w: Work, status: int, p: SlotProperty)
    requires AllSlots(w, p) && ReadKeeps(c, p)
    ensures AllSlots(Abort(w, status), p)
  {
    hide FailSlot, LoseSlot, PollSlot, Unflagged;
  }

  lemma {:induction false} SensorsKeep(c: Context, w: Work, i: nat, p: SlotProperty)
    requires i <= |w.sensors| && AllSlots(w, p) && ReadKeeps(c, p)
    ensures AllSlots(SensorStage(c, w, i).w, p)
    decreases |w.sensors| - i
  {
    hide Abort, ReadKeeps;
    if i < |w.sensors| {
      var (x, status, log) := ReadSensor(c, w.log, w.sensors[i]);
      var t := w.(sensors := w.sensors[i := x], log := log);
      AbortKeeps(c, t, status, p);
      if !FailFast(status) {
        SensorsKeep(c, t, i + 1, p);
      }
    }
  }

  lemma {:induction false} DrivesKeep(c: Context, w: Work, i: nat, p: SlotProperty)
    requires i <= |w.drives| && AllSlots(w, p) && ReadKeeps(c, p)
    ensures AllSlots(DriveStage(c, w, i).w, p)
    decreases |w.drives| - i
  {
    hide Abort, ReadKeeps;
    if i < |w.drives| {
      var (x, status, log) := ReadDrive(c, w.log, w.drives[i]);
      var t := w.(drives := w.drives[i := x], log := log);
      AbortKeeps(c, t, status, p);
      if !FailFast(status) {
        DrivesKeep(c, t, i + 1, p);
      }
    }
  }

  lemma PollKeeps(c: Context, i: nat, x: Slot, log: Log, p: SlotProperty)
    requires p(i, x) && ReadKeeps(c, p)
    ensures p(i, PollSlot(c, log, x).0)
  {
    hide PollSlot, FailSlot, LoseSlot, Unflagged;
  }

  lemma {:induction false} JointsKeep(c: Context, w: Work, i: nat, p: SlotProperty)
    requires i <= |w.slots| && AllSlots(w, p) && ReadKeeps(c, p)
    ensures AllSlots(JointStage(c, w, i).w, p)
    decreases |w.slots| - i
  {
    hide Abort, ReadKeeps, PollSlot;
    if i < |w.slots| {
      var (x, status, log) := PollSlot(c, w.log, w.slots[i]);
      PollKeeps(c, i, w.slots[i], w.log, p);
      var t := w.(slots := w.slots[i := x], log := log);
      AbortKeeps(c, t, status, p);
      if !FailFast(status) {
        JointsKeep(c, t, i + 1, p);
      }
    }
  }

  lemma LoseKeeps(c: Context, w: Work, p: SlotProperty)
    requires AllSlots(w, p) && ReadKeeps(c, p)
    ensures AllSlots(LoseAll(w), p) && AllSlots(ClearLimiterFlags(w), p)
  {
    hide FailSlot, LoseSlot, PollSlot, Unflagged;
  }

  lemma ReadPhaseKeeps(c: Context, w: Work, p: SlotProperty)
    requires AllSlots(w, p) && ReadKeeps(c, p)
    ensures AllSlots(ReadStage(c, ClearLimiterFlags(w)).w, p)
  {
    hide SensorStage, DriveStage, JointStage, ReadKeeps, AllSlots, LoseAll;
    var v := ClearLimiterFlags(w);
    LoseKeeps(c, w, p);
    LoseKeeps(c, v, p);
    if v.up {
      SensorsKeep(c, v, 0, p);
      var s := SensorStage(c, v, 0);
      DrivesKeep(c, s.w, 0, p);
      var d := DriveStage(c, s.w, 0);
      JointsKeep(c, d.w, 0, p);
    }
  }

  lemma {:induction false} WritesKeep(c: Context, w: Work, post: Post, i: nat, p: SlotProperty)
    requires i <= |w.slots| && AllSlots(w, p) && ReadKeeps(c, p) && WriteKeeps(c, post, p)
    ensures AllSlots(SlotStage(c, w, post, i).w, p)
    decreases |w.slots| - i
  {
    hide Abort, ReadKeeps, WriteSlot, OrderAt, OrderShape;
    if i < |w.slots| {
      var dt := EffectiveDt(post.dt);
      var r := WriteSlot(c, w.log, dt, w.slots[i], OrderAt(post, i));
      var t := AfterSlotWrite(w, i, dt, OrderAt(post, i), r);
      if r.status.Some? {
        AbortKeeps(c, t, r.status.value, p);
      } else {
        WritesKeep(c, t, post, i + 1, p);
      }
    }
  }

  /** A property that every operation on a slot keeps holds of all slots after the cycle. */
  lemma CycleKeeps(c: Context, w: Work, post: Post, p: SlotProperty)
    requires AllSlots(w, p) && ReadKeeps(c, p) && WriteKeeps(c, post, p)
    ensures AllSlots(CycleSpec(c, w, post), p)
  {
    hide ReadStage, SlotStage, ReadKeeps, WriteKeeps, ClearLimiterFlags;
    ReadPhaseKeeps(c, w, p);
    var r := ReadStage(c, ClearLimiterFlags(w));
    WritesKeep(c, r.w.(stats := r.w.stats.(readCycles := r.w.stats.readCycles + 1)), post, 0, p);
  }
}

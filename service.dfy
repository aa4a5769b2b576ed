/**
 * The order-book service: the loaded snapshots, the current index and the
 * replay state. Timers are replaced by an explicit queue of pending steps;
 * `Tick` fires the step at its head, as the expiry of its delay would.
 */
module Service {
  import opened Wrappers
  import opened Snapshots
  import opened Schedule

  class OrderBookService {
    /** The loaded snapshots, in order. */
    var data: seq<Snapshot>
    /** The current position. */
    var index: nat
    /** Whether a replay is running. */
    var replaying: bool
    /** The steps of the running replay that have not fired yet. */
    var pending: seq<Step>

    /**
     * A replay is running exactly while steps are pending; pending steps move
     * one index each and wait at least the floor delay.
     */
    ghost predicate Valid()
      reads this
    {
      && (replaying <==> pending != [])
      && Consecutive(pending)
      && DelaysAtLeastFloor(pending)
    }

    /**
     * The position is inside the data whenever there is data, and every
     * pending step moves to an index inside the data.
     */
    ghost predicate InBounds()
      reads this
    {
      && (|data| > 0 ==> index < |data|)
      && forall k :: 0 <= k < |pending| ==> pending[k].target < |data|
    }

    /** Before the data arrives: no snapshots, index 0, not replaying. */
    constructor ()
      ensures Valid()
      ensures data == [] && index == 0 && !replaying && pending == []
    {
      data := [];
      index := 0;
      replaying := false;
      pending := [];
    }

    /**
     * Delivery of the loaded snapshots: the sequence is replaced and the
     * index reset to 0 when it is non-empty. A running replay is not
     * cancelled.
     */
    method Load(snapshots: seq<Snapshot>)
      requires Valid()
      modifies this
      ensures Valid()
      ensures data == snapshots
      ensures index == if |snapshots| > 0 then 0 else old(index)
      ensures replaying == old(replaying) && pending == old(pending)
      ensures old(pending) == [] ==> InBounds()
    {
      data := snapshots;
      if |snapshots| > 0 {
        index := 0;
      }
    }

    /** The current snapshot: present exactly when the index is within the data. */
    method Current() returns (r: Option<Snapshot>)
      ensures r.Some? <==> index < |data|
      ensures r.Some? ==> r.value == data[index]
    {
      r := CurrentOf(data, index);
    }

    /** The labels offered for selection: one per snapshot, in order. */
    method AvailableTimestamps() returns (labels: seq<string>)
      ensures |labels| == |data|
      ensures forall k :: 0 <= k < |data| ==> labels[k] == data[k].time
    {
      labels := Labels(data);
    }

    /** Moves to `i` when it is a valid index; otherwise nothing changes. */
    method SelectByIndex(i: int)
      requires Valid()
      modifies this
      ensures Valid()
      ensures old(InBounds()) ==> InBounds()
      ensures index == if 0 <= i < |data| then i else old(index)
      ensures 0 <= i < |data| ==> CurrentOf(data, index) == Some(data[i])
      ensures data == old(data) && replaying == old(replaying) && pending == old(pending)
    {
      var total := |data|;
      if 0 <= i < total {
        index := i;
      }
    }

    /** Moves to the first snapshot labelled `time`; nothing changes when there is none. */
    method SelectByTime(time: string)
      requires Valid()
      modifies this
      ensures Valid()
      ensures old(InBounds()) ==> InBounds()
      ensures FirstMatch(old(data), time).Some? ==> index == FirstMatch(old(data), time).value
      ensures FirstMatch(old(data), time).None? ==> index == old(index)
      ensures index != old(index) ==> index < |data| && data[index].time == time
      ensures data == old(data) && replaying == old(replaying) && pending == old(pending)
    {
      var found := FirstMatch(data, time);
      if found.Some? {
        index := found.value;
      }
    }

    /** One snapshot forward, unless already at (or past) the last one. */
    method Next()
      requires Valid()
      modifies this
      ensures Valid()
      ensures old(InBounds()) ==> InBounds()
      ensures index == if old(index) < |data| - 1 then old(index) + 1 else old(index)
      ensures old(index) < |data| ==> index < |data|
      ensures data == old(data) && replaying == old(replaying) && pending == old(pending)
    {
      var current := index;
      var total := |data|;
      if current < total - 1 {
        index := current + 1;
      }
    }

    /** One snapshot back, unless already at the first one. */
    method Previous()
      requires Valid()
      modifies this
      ensures Valid()
      ensures old(InBounds()) ==> InBounds()
      ensures index == if old(index) > 0 then old(index) - 1 else old(index)
      ensures old(index) < |data| ==> index < |data|
      ensures data == old(data) && replaying == old(replaying) && pending == old(pending)
    {
      var current := index;
      if current > 0 {
        index := current - 1;
      }
    }

    /** Cancels the running replay, if any: nothing is pending and no replay runs. */
    method Stop()
      requires Valid()
      modifies this
      ensures Valid()
      ensures old(InBounds()) ==> InBounds()
      ensures pending == [] && !replaying
      ensures data == old(data) && index == old(index)
    {
      pending := [];
      replaying := false;
    }

    /**
     * Starts a replay lasting about `seconds` seconds, cancelling any running
     * one first. With fewer than two snapshots nothing is queued (a single
     * snapshot becomes current); otherwise the index jumps to 0 and the
     * schedule of the remaining indices is queued.
     */
    method StartReplay(seconds: real)
      requires Valid()
      modifies this
      ensures Valid()
      ensures InBounds()
      ensures data == old(data)
      ensures |data| < 2 ==> !replaying && pending == [] && index == (if |data| == 1 then 0 else old(index))
      ensures |data| >= 2 ==> replaying && index == 0 && pending == ReplaySchedule(TimestampsMs(data), seconds)
    {
      Stop();
      replaying := true;
      var snapshots := data;
      if |snapshots| < 2 {
        if |snapshots| == 1 {
          index := 0;
        }
        replaying := false;
        return;
      }
      var ts := TimestampsMs(snapshots);
      var span := ts[|ts| - 1] - ts[0];
      ScheduleTargets(ts, seconds);
      ScheduleDelays(ts, seconds);
      if span <= 0 {
        index := 0;
        pending := FixedCadenceSchedule(|snapshots|);
        return;
      }
      index := 0;
      var steps := BuildProportionalSchedule(ts, seconds);
      pending := steps;
    }

    /**
     * The head step's delay has elapsed: its target becomes current, and
     * the replay ends when it was the last step. Without a pending step
     * nothing happens.
     */
    method Tick()
      requires Valid()
      modifies this
      ensures Valid()
      ensures old(InBounds()) ==> InBounds()
      ensures data == old(data)
      ensures old(pending) == [] ==> index == old(index) && pending == [] && !replaying
      ensures old(pending) != [] ==> index == old(pending)[0].target && pending == old(pending)[1..]
      ensures pending != [] ==> pending[0].target == index + 1 && pending[0].delay >= MinStepMs
    {
      if pending != [] {
        index := pending[0].target;
        pending := pending[1..];
        if pending == [] {
          replaying := false;
        }
      }
    }
  }

  /**
   * Left alone, a replay over at least two snapshots fires every step and
   * ends at the last snapshot, no longer replaying.
   */
  method ReplayToCompletion(s: OrderBookService, seconds: real)
    requires s.Valid() && |s.data| >= 2
    modifies s
    ensures s.Valid()
    ensures s.data == old(s.data)
    ensures s.index == |s.data| - 1 && !s.replaying && s.pending == []
    ensures s.InBounds()
  {
    s.StartReplay(seconds);
    ghost var steps := ReplaySchedule(TimestampsMs(s.data), seconds);
    ScheduleTargets(TimestampsMs(s.data), seconds);
    ghost var fired := 0;
    while s.pending != []
      invariant s.Valid() && s.InBounds() && s.data == old(s.data)
      invariant 0 <= fired <= |steps| && s.pending == steps[fired..]
      invariant s.index == fired
      decreases |s.pending|
    {
      s.Tick();
      fired := fired + 1;
    }
  }

  /** After a cancellation no pending step can fire: a later tick leaves the index alone. */
  method StopThenTick(s: OrderBookService)
    requires s.Valid()
    modifies s
    ensures s.Valid()
    ensures s.index == old(s.index) && s.data == old(s.data)
    ensures !s.replaying && s.pending == []
  {
    s.Stop();
    s.Tick();
  }

  /** Restarting discards the first schedule: only the second one is pending. */
  method RestartReplay(s: OrderBookService, first: real, second: real)
    requires s.Valid() && |s.data| >= 2
    modifies s
    ensures s.Valid() && s.data == old(s.data)
    ensures s.replaying && s.index == 0
    ensures s.pending == ReplaySchedule(TimestampsMs(s.data), second)
  {
    s.StartReplay(first);
    s.Tick();
    s.StartReplay(second);
  }
}

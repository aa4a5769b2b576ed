/**
 * Order-book snapshots and the read-only views the service derives from the
 * loaded sequence: the current snapshot, the list of time labels and the
 * first snapshot carrying a given label.
 */
module Snapshots {
  import opened Wrappers

  /** One price/size pair of one side of the book. */
  datatype Level = Level(price: real, size: real)

  /**
   * A snapshot after ingestion: its `Time` label, the timestamp derived from
   * it (milliseconds since midnight), and the kept bid and ask levels.
   */
  datatype Snapshot = Snapshot(time: string, timestamp: int, bids: seq<Level>, asks: seq<Level>)

  /** The snapshot at `index`, or None when the index is out of range. */
  function CurrentOf(data: seq<Snapshot>, index: int): Option<Snapshot>
  {
    if 0 <= index < |data| then Some(data[index]) else None
  }

  /** The `Time` label of every snapshot, in order. */
  function Labels(data: seq<Snapshot>): (labels: seq<string>)
    ensures |labels| == |data|
    ensures forall k :: 0 <= k < |data| ==> labels[k] == data[k].time
  {
    if data == [] then [] else [data[0].time] + Labels(data[1..])
  }

  /** The timestamps of the snapshots, in order (used by the replay scheduler). */
  function TimestampsMs(data: seq<Snapshot>): (ts: seq<int>)
    ensures |ts| == |data|
    ensures forall k :: 0 <= k < |data| ==> ts[k] == data[k].timestamp
  {
    if data == [] then [] else [data[0].timestamp] + TimestampsMs(data[1..])
  }

  /** The smallest index whose snapshot has label `wanted`, as `findIndex` finds it. */
  function FirstMatch(data: seq<Snapshot>, wanted: string): (r: Option<nat>)
    ensures r.Some? ==> r.value < |data| && data[r.value].time == wanted
    ensures r.Some? ==> forall j :: 0 <= j < r.value ==> data[j].time != wanted
    ensures r.None? <==> forall j :: 0 <= j < |data| ==> data[j].time != wanted
  {
    if data == [] then None
    else if data[0].time == wanted then Some(0)
    else match FirstMatch(data[1..], wanted)
      case None => None
      case Some(k) => Some(k + 1)
  }

  /** A label can be found by lookup exactly when it is offered in the wanted list. */
  lemma LabelListedIffFound(data: seq<Snapshot>, wanted: string)
    ensures wanted in Labels(data) <==> FirstMatch(data, wanted).Some?
  {
    var labels := Labels(data);
    if wanted in labels {
      var k :| 0 <= k < |labels| && labels[k] == wanted;
      assert data[k].time == wanted;
    }
    if FirstMatch(data, wanted).Some? {
      assert labels[FirstMatch(data, wanted).value] == wanted;
    }
  }

  /** Duplicated labels resolve to the first occurrence. */
  lemma DuplicateLabelResolvesToFirst(data: seq<Snapshot>, i: nat, j: nat)
    requires i < j < |data| && data[i].time == data[j].time
    ensures FirstMatch(data, data[j].time).Some?
    ensures FirstMatch(data, data[j].time).value <= i < j
  {
  }
}

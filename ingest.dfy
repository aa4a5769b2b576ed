/**
 * Mapping of one raw JSON entry to a snapshot: the bid and ask columns of
 * levels 1 to 10 are scanned in order, a pair is kept only when both its
 * price and its size are truthy (present and non-zero), and the `Time`
 * label is parsed into a timestamp.
 */
module Ingest {
  import opened Wrappers
  import opened Snapshots
  import TimeLabel

  /** The number of levels a raw entry carries per side (`Bid1` .. `Bid10`). */
  const Depth: nat := 10

  /**
   * One side of a raw entry: level number to price (`Bid<i>`) and to size
   * (`Bid<i>Size`). A level missing from a map is an absent JSON field.
   */
  datatype SideColumns = SideColumns(price: map<int, real>, size: map<int, real>)
  {
    /** Both the price and the size of `level` are truthy. */
    predicate Keeps(level: int)
    {
      level in price && level in size && price[level] != 0.0 && size[level] != 0.0
    }

    function LevelAt(level: int): Level
      requires Keeps(level)
    {
      Level(price[level], size[level])
    }
  }

  datatype RawEntry = RawEntry(time: string, bids: SideColumns, asks: SideColumns)

  /** The level numbers among 1..n that are kept, in scanning order. */
  function KeptNumbers(side: SideColumns, n: nat): seq<int>
  {
    if n == 0 then [] else KeptNumbers(side, n - 1) + (if side.Keeps(n) then [n] else [])
  }

  /** The levels kept when levels 1..n are scanned and pushed in order. */
  function Kept(side: SideColumns, n: nat): seq<Level>
  {
    if n == 0 then [] else Kept(side, n - 1) + (if side.Keeps(n) then [side.LevelAt(n)] else [])
  }

  /** A level is kept exactly when it is within 1..n and both its fields are truthy. */
  lemma {:induction false} KeptNumbersExact(side: SideColumns, n: nat)
    ensures forall x :: x in KeptNumbers(side, n) <==> 1 <= x <= n && side.Keeps(x)
  {
    if n > 0 {
      KeptNumbersExact(side, n - 1);
    }
  }

  /** Kept levels appear in strictly increasing level number. */
  lemma {:induction false} KeptNumbersIncreasing(side: SideColumns, n: nat)
    ensures forall i, j :: 0 <= i < j < |KeptNumbers(side, n)| ==>
              KeptNumbers(side, n)[i] < KeptNumbers(side, n)[j]
  {
    if n > 0 {
      KeptNumbersIncreasing(side, n - 1);
      KeptNumbersExact(side, n - 1);
      var prev := KeptNumbers(side, n - 1);
      forall i | 0 <= i < |prev| ensures prev[i] < n {
        assert prev[i] in prev;
      }
    }
  }

  /** The k-th kept level is the pair of the k-th kept level number. */
  lemma {:induction false} KeptLevelsAreKeptNumbers(side: SideColumns, n: nat)
    ensures |Kept(side, n)| == |KeptNumbers(side, n)|
    ensures forall k :: 0 <= k < |Kept(side, n)| ==>
              side.Keeps(KeptNumbers(side, n)[k]) && Kept(side, n)[k] == side.LevelAt(KeptNumbers(side, n)[k])
  {
    if n > 0 {
      KeptLevelsAreKeptNumbers(side, n - 1);
    }
  }

  /** At most one level per scanned level number, and every kept level has non-zero price and size. */
  lemma {:induction false} KeptLevelsBounded(side: SideColumns, n: nat)
    ensures |Kept(side, n)| <= n
    ensures forall l :: l in Kept(side, n) ==> l.price != 0.0 && l.size != 0.0
  {
    if n > 0 {
      KeptLevelsBounded(side, n - 1);
    }
  }

  /** The `for (let i = 1; i <= 10; i++)` loop that pushes the kept bid and ask pairs. */
  method ExtractLevels(raw: RawEntry) returns (bids: seq<Level>, asks: seq<Level>)
    ensures bids == Kept(raw.bids, Depth) && asks == Kept(raw.asks, Depth)
    ensures |bids| <= Depth && |asks| <= Depth
  {
    bids, asks := [], [];
    for i := 1 to Depth + 1
      invariant bids == Kept(raw.bids, i - 1)
      invariant asks == Kept(raw.asks, i - 1)
    {
      if raw.bids.Keeps(i) {
        bids := bids + [raw.bids.LevelAt(i)];
      }
      if raw.asks.Keeps(i) {
        asks := asks + [raw.asks.LevelAt(i)];
      }
    }
    KeptLevelsBounded(raw.bids, Depth);
    KeptLevelsBounded(raw.asks, Depth);
  }

  /**
   * The per-entry mapping: the kept levels plus the parsed timestamp. None
   * when the label yields no timestamp.
   */
  method MapEntry(raw: RawEntry) returns (r: Option<Snapshot>)
    ensures r.Some? <==> TimeLabel.ParseTime(raw.time).Some?
    ensures r.Some? ==> (
              && r.value.time == raw.time
              && r.value.timestamp == TimeLabel.ParseTime(raw.time).value
              && r.value.bids == Kept(raw.bids, Depth)
              && r.value.asks == Kept(raw.asks, Depth))
  {
    var bids, asks := ExtractLevels(raw);
    var timestamp := TimeLabel.ParseTime(raw.time);
    if timestamp.None? {
      r := None;
    } else {
      r := Some(Snapshot(raw.time, timestamp.value, bids, asks));
    }
  }
}

/**
 * The cost of a hash join under each distributed execution mode
 * (HashJoinCostModel): the mode derived from the children's physical
 * properties, the CPU and memory cost formulas, and the probe penalty that
 * grows with the hash table's size and is clamped per mode.
 *
 * Doubles are modelled as reals. Math.log is a parameter `ln`; the clamps
 * and formulas hold for any `ln`, and the lemmas that need it to behave like
 * a logarithm say so with IsLogarithm.
 */
module HashJoinCost {

  /** Hash tables with more entries than this pay a cache-miss penalty on probes. */
  const BottomNumber: real := 100000.0

  /** The largest probe penalty of a shuffle (or mode-less) join. */
  const ShuffleMaxRatio: real := 3.0

  /** The largest probe penalty of a broadcast join. */
  const BroadcastMatRatio: real := 12.0

  datatype JoinExecMode =
    | Empty      // no input physical properties: the original evaluation
    | Broadcast  // the right child is broadcast
    | Shuffle    // shuffle, bucket shuffle and colocate joins alike

  /** A child's chosen physical property, reduced to whether its distribution is a broadcast. */
  datatype PhysicalPropertySet = PhysicalPropertySet(isBroadcast: bool)

  /** A column reference, by id. */
  type ColumnRef = int

  /** An equi-join predicate `left = right`. */
  datatype EqPredicate = EqPredicate(left: ColumnRef, right: ColumnRef)

  /** A child's statistics: its output row count and its columns' average row sizes. */
  datatype Statistics = Statistics(outputRowCount: real, averageRowSize: map<ColumnRef, real>)

  /** The session's view of the cluster: live backends and the configured degree of parallelism. */
  datatype Runtime = Runtime(aliveBackends: int, degreeOfParallelism: int)

  /**
   * The inputs the cost model is built from. The output sizes are what the
   * children's statistics report for the columns each child must output.
   */
  datatype CostModel = CostModel(
    rightStatistics: Statistics,
    inputProperties: seq<PhysicalPropertySet>,
    eqOnPredicates: seq<EqPredicate>,
    leftOutputSize: real,
    rightOutputSize: real)

  /** Whether a real-valued function behaves as a logarithm where the model relies on it. */
  ghost predicate IsLogarithm(ln: real -> real) {
    && ln(1.0) == 0.0
    && ln(2.0) > 0.0
    && forall x, y :: 0.0 <= x <= y ==> ln(x) <= ln(y)
  }

  function Max(a: real, b: real): real {
    if a >= b then a else b
  }

  function Min(a: real, b: real): real {
    if a <= b then a else b
  }

  function MaxInt(a: int, b: int): int {
    if a >= b then a else b
  }

  /** The execution mode: no properties, a broadcast right child, or any other right child. */
  function DeriveJoinExecMode(inputProperties: seq<PhysicalPropertySet>): (mode: JoinExecMode)
    requires |inputProperties| != 1
    ensures mode == Empty <==> |inputProperties| == 0
    ensures mode == Broadcast <==> |inputProperties| >= 2 && inputProperties[1].isBroadcast
    ensures mode == Shuffle <==> |inputProperties| >= 2 && !inputProperties[1].isBroadcast
  {
    if |inputProperties| == 0 then Empty
    else if inputProperties[1].isBroadcast then Broadcast
    else Shuffle
  }

  /** The parallelism a shuffle build is spread over. */
  function ParallelFactor(rt: Runtime): (p: int)
    ensures p >= rt.aliveBackends && p >= rt.degreeOfParallelism
    ensures p == rt.aliveBackends || p == rt.degreeOfParallelism
  {
    MaxInt(rt.aliveBackends, rt.degreeOfParallelism)
  }

  /** What one predicate adds to the key size: the right child's size of its left column, else of its right one. */
  function KeyContribution(p: EqPredicate, sizes: map<ColumnRef, real>): (c: real)
    ensures p.left in sizes ==> c == sizes[p.left]
    ensures p.left !in sizes && p.right in sizes ==> c == sizes[p.right]
    ensures p.left !in sizes && p.right !in sizes ==> c == 0.0
  {
    if p.left in sizes then sizes[p.left]
    else if p.right in sizes then sizes[p.right]
    else 0.0
  }

  /** The hash key's size: the contributions of all predicates, summed. */
  function KeySize(predicates: seq<EqPredicate>, sizes: map<ColumnRef, real>): (k: real)
    ensures (forall c :: c in sizes ==> sizes[c] >= 0.0) ==> k >= 0.0
    ensures (forall i :: 0 <= i < |predicates| ==>
              predicates[i].left !in sizes && predicates[i].right !in sizes) ==> k == 0.0
    decreases |predicates|
  {
    if |predicates| == 0 then 0.0
    else KeySize(predicates[..|predicates| - 1], sizes) + KeyContribution(predicates[|predicates| - 1], sizes)
  }

  /** The key-size accumulation loop of getAvgProbeCost. */
  method SumKeySize(predicates: seq<EqPredicate>, sizes: map<ColumnRef, real>) returns (keySize: real)
    ensures keySize == KeySize(predicates, sizes)
  {
    keySize := 0.0;
    for i := 0 to |predicates|
      invariant keySize == KeySize(predicates[..i], sizes)
    {
      assert predicates[..i + 1][..i] == predicates[..i];
      var p := predicates[i];
      if p.left in sizes {
        keySize := keySize + sizes[p.left];
      } else if p.right in sizes {
        keySize := keySize + sizes[p.right];
      }
    }
    assert predicates[..|predicates|] == predicates;
  }

  /** The estimated number of hash-table entries: min(1, key size) times the right child's rows. */
  function MapSize(m: CostModel): (size: real)
    ensures var k := KeySize(m.eqOnPredicates, m.rightStatistics.averageRowSize);
      && (k >= 1.0 ==> size == m.rightStatistics.outputRowCount)
      && (k < 1.0 ==> size == k * m.rightStatistics.outputRowCount)
  {
    Min(1.0, KeySize(m.eqOnPredicates, m.rightStatistics.averageRowSize)) * m.rightStatistics.outputRowCount
  }

  /** The probe penalty of a broadcast join, clamped to [1, BroadcastMatRatio]. */
  function BroadcastPenalty(mapSize: real, ln: real -> real): (p: real)
    ensures 1.0 <= p <= BroadcastMatRatio
    ensures ln(mapSize / BottomNumber) <= 1.0 ==> p == 1.0
    ensures ln(mapSize / BottomNumber) >= BroadcastMatRatio ==> p == BroadcastMatRatio
    ensures 1.0 <= ln(mapSize / BottomNumber) <= BroadcastMatRatio ==> p == ln(mapSize / BottomNumber)
  {
    Min(BroadcastMatRatio, Max(1.0, ln(mapSize / BottomNumber)))
  }

  /**
   * The probe penalty of any other join, reduced by log2 of twice the
   * parallel factor and clamped to [1, ShuffleMaxRatio].
   */
  function ShufflePenalty(mapSize: real, parallelFactor: int, ln: real -> real): (p: real)
    requires ln(2.0) != 0.0
    ensures 1.0 <= p <= ShuffleMaxRatio
    ensures var x := ln(mapSize / BottomNumber) - ln((parallelFactor * 2) as real) / ln(2.0);
      && (x <= 1.0 ==> p == 1.0)
      && (x >= ShuffleMaxRatio ==> p == ShuffleMaxRatio)
      && (1.0 <= x <= ShuffleMaxRatio ==> p == x)
  {
    Min(ShuffleMaxRatio, Max(1.0, ln(mapSize / BottomNumber) - ln((parallelFactor * 2) as real) / ln(2.0)))
  }

  /** getAvgProbeCost: the per-row probe penalty of the join's mode. */
  function AvgProbeCost(m: CostModel, rt: Runtime, ln: real -> real): (p: real)
    requires |m.inputProperties| != 1
    requires ln(2.0) != 0.0
    ensures 1.0 <= p
    ensures DeriveJoinExecMode(m.inputProperties) == Broadcast ==> p <= BroadcastMatRatio
    ensures DeriveJoinExecMode(m.inputProperties) != Broadcast ==> p <= ShuffleMaxRatio
    ensures DeriveJoinExecMode(m.inputProperties) == Broadcast ==> p == BroadcastPenalty(MapSize(m), ln)
    ensures DeriveJoinExecMode(m.inputProperties) != Broadcast ==> p == ShufflePenalty(MapSize(m), ParallelFactor(rt), ln)
  {
    if DeriveJoinExecMode(m.inputProperties) == Broadcast then BroadcastPenalty(MapSize(m), ln)
    else ShufflePenalty(MapSize(m), ParallelFactor(rt), ln)
  }

  /** getCpuCost: build cost plus probe cost, as the mode prescribes. */
  function CpuCost(m: CostModel, rt: Runtime, ln: real -> real): (c: real)
    requires |m.inputProperties| != 1
    requires ln(2.0) != 0.0
    requires DeriveJoinExecMode(m.inputProperties) == Shuffle ==> ParallelFactor(rt) != 0
    ensures DeriveJoinExecMode(m.inputProperties) == Empty ==> c == m.rightOutputSize + m.leftOutputSize
    ensures DeriveJoinExecMode(m.inputProperties) == Broadcast ==>
      c == m.rightOutputSize + m.leftOutputSize * AvgProbeCost(m, rt, ln)
    ensures DeriveJoinExecMode(m.inputProperties) == Shuffle ==>
      c == m.rightOutputSize / ParallelFactor(rt) as real + m.leftOutputSize * AvgProbeCost(m, rt, ln)
  {
    match DeriveJoinExecMode(m.inputProperties)
    case Broadcast => m.rightOutputSize + m.leftOutputSize * AvgProbeCost(m, rt, ln)
    case Shuffle => m.rightOutputSize / ParallelFactor(rt) as real + m.leftOutputSize * AvgProbeCost(m, rt, ln)
    case Empty => m.rightOutputSize + m.leftOutputSize
  }

  /** getMemCost: a broadcast right side is held once per live backend, any other once. */
  function MemCost(m: CostModel, rt: Runtime): (c: real)
    requires |m.inputProperties| != 1
    ensures DeriveJoinExecMode(m.inputProperties) == Broadcast ==>
      c == m.rightOutputSize * MaxInt(1, rt.aliveBackends) as real
    ensures DeriveJoinExecMode(m.inputProperties) != Broadcast ==> c == m.rightOutputSize
  {
    if DeriveJoinExecMode(m.inputProperties) == Broadcast then m.rightOutputSize * MaxInt(1, rt.aliveBackends) as real
    else m.rightOutputSize
  }

  /** With non-negative outputs, the CPU cost lies between the unpenalised and the fully penalised probe. */
  lemma CpuCostBounds(m: CostModel, rt: Runtime, ln: real -> real)
    requires |m.inputProperties| != 1
    requires ln(2.0) != 0.0
    requires DeriveJoinExecMode(m.inputProperties) == Shuffle ==> ParallelFactor(rt) != 0
    requires m.leftOutputSize >= 0.0
    ensures DeriveJoinExecMode(m.inputProperties) == Broadcast ==>
      m.rightOutputSize + m.leftOutputSize <= CpuCost(m, rt, ln) <= m.rightOutputSize + m.leftOutputSize * BroadcastMatRatio
    ensures DeriveJoinExecMode(m.inputProperties) == Shuffle ==>
      var build := m.rightOutputSize / ParallelFactor(rt) as real;
      build + m.leftOutputSize <= CpuCost(m, rt, ln) <= build + m.leftOutputSize * ShuffleMaxRatio
  {
    var mode := DeriveJoinExecMode(m.inputProperties);
    if mode == Broadcast {
      ProbeBounds(m.leftOutputSize, AvgProbeCost(m, rt, ln), BroadcastMatRatio, m.rightOutputSize, CpuCost(m, rt, ln));
    } else if mode == Shuffle {
      var build := m.rightOutputSize / ParallelFactor(rt) as real;
      ProbeBounds(m.leftOutputSize, AvgProbeCost(m, rt, ln), ShuffleMaxRatio, build, CpuCost(m, rt, ln));
    }
  }

  /** A build cost plus x rows probed at a penalty between 1 and cap lies between build + x and build + cap * x. */
  lemma ProbeBounds(x: real, p: real, cap: real, build: real, cost: real)
    requires x >= 0.0 && 1.0 <= p <= cap
    requires cost == build + x * p
    ensures build + x <= cost <= build + x * cap
  {
    assert x * p - x == x * (p - 1.0);
    assert x * cap - x * p == x * (cap - p);
  }

  /** A non-negative right output costs at least as much memory broadcast as otherwise: 50 rows on 4 backends cost 200 against 50. */
  lemma BroadcastMemoryDominates(m: CostModel, rt: Runtime)
    requires |m.inputProperties| != 1
    requires m.rightOutputSize >= 0.0
    ensures MemCost(m, rt) >= m.rightOutputSize
    ensures DeriveJoinExecMode(m.inputProperties) != Broadcast ==> MemCost(m, rt) == m.rightOutputSize
    ensures var b := m.(inputProperties := [PhysicalPropertySet(false), PhysicalPropertySet(true)]);
      MemCost(b, rt) >= MemCost(m, rt)
  {
    var n := MaxInt(1, rt.aliveBackends) as real;
    assert m.rightOutputSize * n - m.rightOutputSize == m.rightOutputSize * (n - 1.0);
  }

  /** The memory example: 50 on four live backends costs 200 broadcast and 50 shuffled. */
  lemma MemCostExample(m: CostModel)
    requires m.rightOutputSize == 50.0
    ensures MemCost(m.(inputProperties := [PhysicalPropertySet(false), PhysicalPropertySet(true)]), Runtime(4, 1)) == 200.0
    ensures MemCost(m.(inputProperties := [PhysicalPropertySet(false), PhysicalPropertySet(false)]), Runtime(4, 1)) == 50.0
  {
  }

  /** The hash table never has more entries than the right child has rows, and a key of size at least 1 leaves exactly that. */
  lemma MapSizeBounds(m: CostModel)
    requires m.rightStatistics.outputRowCount >= 0.0
    requires forall c :: c in m.rightStatistics.averageRowSize ==> m.rightStatistics.averageRowSize[c] >= 0.0
    ensures 0.0 <= MapSize(m) <= m.rightStatistics.outputRowCount
    ensures KeySize(m.eqOnPredicates, m.rightStatistics.averageRowSize) >= 1.0 ==>
      MapSize(m) == m.rightStatistics.outputRowCount
  {
    var k := KeySize(m.eqOnPredicates, m.rightStatistics.averageRowSize);
    var rows := m.rightStatistics.outputRowCount;
    if k < 1.0 {
      assert MapSize(m) == k * rows;
      assert rows - k * rows == (1.0 - k) * rows;
      assert 0.0 <= k * rows;
    }
  }

  /** A hash table of at most BottomNumber entries costs no probe penalty, in either mode. */
  lemma SmallTableNoPenalty(m: CostModel, rt: Runtime, ln: real -> real)
    requires IsLogarithm(ln)
    requires |m.inputProperties| != 1
    requires ParallelFactor(rt) >= 1
    requires 0.0 <= MapSize(m) <= BottomNumber
    ensures AvgProbeCost(m, rt, ln) == 1.0
  {
    var ratio := MapSize(m) / BottomNumber;
    assert 0.0 <= ratio <= 1.0;
    assert ln(ratio) <= ln(1.0);
    var doubled := (ParallelFactor(rt) * 2) as real;
    assert 2.0 <= doubled;
    assert ln(2.0) <= ln(doubled);
    assert ln(doubled) / ln(2.0) >= 1.0;
  }

  /** The worked example: 10^12 right rows with a key of size 1 saturate the broadcast penalty at 12. */
  lemma HugeBroadcastTableSaturates(m: CostModel, rt: Runtime, ln: real -> real)
    requires |m.inputProperties| >= 2 && m.inputProperties[1].isBroadcast
    requires ln(2.0) != 0.0
    requires m.rightStatistics.outputRowCount == 1000000000000.0
    requires KeySize(m.eqOnPredicates, m.rightStatistics.averageRowSize) >= 1.0
    requires ln(10000000.0) >= BroadcastMatRatio
    ensures AvgProbeCost(m, rt, ln) == BroadcastMatRatio
  {
    assert MapSize(m) / BottomNumber == 10000000.0;
  }

  /** More right rows never lower the probe penalty, in any mode. */
  lemma PenaltyMonotoneInRows(m: CostModel, rows': real, rt: Runtime, ln: real -> real)
    requires IsLogarithm(ln)
    requires |m.inputProperties| != 1
    requires 0.0 <= m.rightStatistics.outputRowCount <= rows'
    requires KeySize(m.eqOnPredicates, m.rightStatistics.averageRowSize) >= 0.0
    ensures var m' := m.(rightStatistics := m.rightStatistics.(outputRowCount := rows'));
      AvgProbeCost(m, rt, ln) <= AvgProbeCost(m', rt, ln)
  {
    var m' := m.(rightStatistics := m.rightStatistics.(outputRowCount := rows'));
    MapSizeMonotone(m, rows');
    assert ln(MapSize(m) / BottomNumber) <= ln(MapSize(m') / BottomNumber);
  }

  /** With a non-negative key size, more right rows never give a smaller hash table. */
  lemma MapSizeMonotone(m: CostModel, rows': real)
    requires 0.0 <= m.rightStatistics.outputRowCount <= rows'
    requires KeySize(m.eqOnPredicates, m.rightStatistics.averageRowSize) >= 0.0
    ensures var m' := m.(rightStatistics := m.rightStatistics.(outputRowCount := rows'));
      0.0 <= MapSize(m) <= MapSize(m')
  {
    var k := Min(1.0, KeySize(m.eqOnPredicates, m.rightStatistics.averageRowSize));
    var rows := m.rightStatistics.outputRowCount;
    assert k * rows' - k * rows == k * (rows' - rows);
    assert 0.0 <= k * rows <= k * rows';
  }

  /** For the same hash table, a shuffle join's penalty never exceeds a broadcast join's. */
  lemma ShufflePenaltyAtMostBroadcast(mapSize: real, parallelFactor: int, ln: real -> real)
    requires IsLogarithm(ln)
    requires parallelFactor >= 1
    ensures ShufflePenalty(mapSize, parallelFactor, ln) <= BroadcastPenalty(mapSize, ln)
  {
    var doubled := (parallelFactor * 2) as real;
    assert ln(2.0) <= ln(doubled);
    assert ln(doubled) / ln(2.0) >= 1.0;
  }
}

/**
 * The `Statistics` counters aggregate: four `int` counters and a map from
 * operation name to count, pre-filled with the four operation names. Every
 * counter is an `AtomicInteger`, so every update wraps around at 32 bits.
 *
 * `Counters` is the value the object holds at one moment; the class methods
 * are specified by what they do to that value.
 */
module Statistics {
  import opened JavaInt
  import opened Operations

  /** The keys the constructor puts into `operationStats`: the four operation names. */
  const OperationNames: set<string> := {OpName(ADD), OpName(SUB), OpName(MUL), OpName(DIV)}

  datatype Counters = Counters(
    newConnectedClients: Int32,
    computedRequests: Int32,
    incorrectOperations: Int32,
    valuesComputedSum: Int32,
    operationStats: map<string, Int32>)

  /** The key set of the per-operation map is exactly the four operation names. */
  predicate WellFormed(c: Counters) {
    c.operationStats.Keys == OperationNames
  }

  predicate AllWellFormed(cs: seq<Counters>) {
    forall i | 0 <= i < |cs| :: WellFormed(cs[i])
  }

  /** What a new (or cleared) aggregate holds: every counter at zero. */
  function Zero(): (z: Counters)
    ensures WellFormed(z)
    ensures z.newConnectedClients == 0 && z.computedRequests == 0
    ensures z.incorrectOperations == 0 && z.valuesComputedSum == 0
    ensures forall k | k in z.operationStats :: z.operationStats[k] == 0
  {
    Counters(0, 0, 0, 0, map k | k in OperationNames :: 0)
  }

  /**
   * `summarize`: every counter of `a` plus the matching counter of `b`,
   * with 32-bit wrap-around. Every key of `a` must be a key of `b`, or
   * `stats.operationStats.get(key)` would be `null`.
   */
  function Merge(a: Counters, b: Counters): (r: Counters)
    requires a.operationStats.Keys <= b.operationStats.Keys
    ensures r.operationStats.Keys == a.operationStats.Keys
  {
    Counters(
      Add32(a.newConnectedClients, b.newConnectedClients),
      Add32(a.computedRequests, b.computedRequests),
      Add32(a.incorrectOperations, b.incorrectOperations),
      Add32(a.valuesComputedSum, b.valuesComputedSum),
      map k | k in a.operationStats :: Add32(a.operationStats[k], b.operationStats[k]))
  }

  /** The aggregate of a sequence of snapshots, each merged into the total of the ones after it. */
  function Sum(cs: seq<Counters>): (r: Counters)
    requires AllWellFormed(cs)
    ensures WellFormed(r)
  {
    if cs == [] then Zero() else Merge(cs[0], Sum(cs[1..]))
  }

  lemma MergeZero(a: Counters)
    requires WellFormed(a)
    ensures Merge(a, Zero()) == a && Merge(Zero(), a) == a
  {
  }

  lemma MergeCommutes(a: Counters, b: Counters)
    requires a.operationStats.Keys == b.operationStats.Keys
    ensures Merge(a, b) == Merge(b, a)
  {
  }

  lemma {:induction false} MergeAssociates(a: Counters, b: Counters, c: Counters)
    requires a.operationStats.Keys == b.operationStats.Keys == c.operationStats.Keys
    ensures Merge(Merge(a, b), c) == Merge(a, Merge(b, c))
  {
    Add32Associates(a.newConnectedClients, b.newConnectedClients, c.newConnectedClients);
    Add32Associates(a.computedRequests, b.computedRequests, c.computedRequests);
    Add32Associates(a.incorrectOperations, b.incorrectOperations, c.incorrectOperations);
    Add32Associates(a.valuesComputedSum, b.valuesComputedSum, c.valuesComputedSum);
    var l, r := Merge(Merge(a, b), c).operationStats, Merge(a, Merge(b, c)).operationStats;
    forall k | k in a.operationStats ensures l[k] == r[k] {
      Add32Associates(a.operationStats[k], b.operationStats[k], c.operationStats[k]);
    }
    assert l == r;
  }

  /**
   * Merging one more snapshot into a running total gives the total of all of
   * them: a cumulative aggregate built by repeated `summarize` is the sum of
   * the snapshots merged into it.
   */
  lemma {:induction false} SumAppend(cs: seq<Counters>, c: Counters)
    requires AllWellFormed(cs) && WellFormed(c)
    ensures AllWellFormed(cs + [c])
    ensures Sum(cs + [c]) == Merge(Sum(cs), c)
  {
    var e := cs + [c];
    assert AllWellFormed(e) by {
      forall i | 0 <= i < |e| ensures WellFormed(e[i]) {
        if i < |cs| { assert e[i] == cs[i]; }
      }
    }
    if cs == [] {
      assert e[1..] == [];
      MergeZero(c);
    } else {
      assert e[0] == cs[0] && e[1..] == cs[1..] + [c];
      assert AllWellFormed(cs[1..]) by {
        forall i | 0 <= i < |cs| - 1 ensures WellFormed(cs[1..][i]) { assert cs[1..][i] == cs[i + 1]; }
      }
      SumAppend(cs[1..], c);
      MergeAssociates(cs[0], Sum(cs[1..]), c);
    }
  }

  /** The Java object: five fields updated in place. */
  class Statistics {
    var newConnectedClients: Int32
    var computedRequests: Int32
    var incorrectOperations: Int32
    var valuesComputedSum: Int32
    var operationStats: map<string, Int32>

    /** No method adds or removes a key of `operationStats`. */
    ghost predicate Valid()
      reads this
    {
      operationStats.Keys == OperationNames
    }

    /** The counters this object holds now. */
    function Snapshot(): Counters
      reads this
    {
      Counters(newConnectedClients, computedRequests, incorrectOperations, valuesComputedSum, operationStats)
    }

    constructor ()
      ensures Valid()
      ensures Snapshot() == Zero()
    {
      newConnectedClients := 0;
      computedRequests := 0;
      incorrectOperations := 0;
      valuesComputedSum := 0;
      operationStats := map k | k in OperationNames :: 0;
    }

    method IncrementNewConnectedClients()
      requires Valid()
      modifies this
      ensures Valid()
      ensures Snapshot() == old(Snapshot()).(newConnectedClients := Add32(old(newConnectedClients), 1))
    {
      newConnectedClients := Add32(newConnectedClients, 1);
    }

    method IncrementComputedRequests()
      requires Valid()
      modifies this
      ensures Valid()
      ensures Snapshot() == old(Snapshot()).(computedRequests := Add32(old(computedRequests), 1))
    {
      computedRequests := Add32(computedRequests, 1);
    }

    method IncrementIncorrectOperations()
      requires Valid()
      modifies this
      ensures Valid()
      ensures Snapshot() == old(Snapshot()).(incorrectOperations := Add32(old(incorrectOperations), 1))
    {
      incorrectOperations := Add32(incorrectOperations, 1);
    }

    method AddValuesComputedSum(value: Int32)
      requires Valid()
      modifies this
      ensures Valid()
      ensures Snapshot() == old(Snapshot()).(valuesComputedSum := Add32(old(valuesComputedSum), value))
    {
      valuesComputedSum := Add32(valuesComputedSum, value);
    }

    /** `operationStats.get(operation).incrementAndGet()`: the name must be one of the four keys. */
    method IncrementOperationStats(operation: string)
      requires Valid() && operation in OperationNames
      modifies this
      ensures Valid()
      ensures Snapshot() == old(Snapshot()).(operationStats :=
                old(operationStats)[operation := Add32(old(operationStats)[operation], 1)])
    {
      operationStats := operationStats[operation := Add32(operationStats[operation], 1)];
    }

    /**
     * Adds every counter of `stats` into this object. The per-operation counts
     * are added key by key, as the `forEach` over this object's map does;
     * `stats` is read, never written (unless it is this very object).
     */
    method Summarize(stats: Statistics)
      requires Valid() && stats.Valid()
      modifies this
      ensures Valid()
      ensures Snapshot() == Merge(old(Snapshot()), old(stats.Snapshot()))
      ensures stats != this ==> stats.Snapshot() == old(stats.Snapshot())
    {
      newConnectedClients := Add32(newConnectedClients, stats.newConnectedClients);
      computedRequests := Add32(computedRequests, stats.computedRequests);
      incorrectOperations := Add32(incorrectOperations, stats.incorrectOperations);
      valuesComputedSum := Add32(valuesComputedSum, stats.valuesComputedSum);
      ghost var before := operationStats;
      ghost var other := stats.operationStats;
      var pending := operationStats.Keys;
      while pending != {}
        invariant pending <= before.Keys
        invariant operationStats.Keys == before.Keys
        invariant forall k | k in before.Keys && k !in pending :: operationStats[k] == Add32(before[k], other[k])
        invariant forall k | k in pending :: operationStats[k] == before[k]
        invariant pending <= stats.operationStats.Keys
        invariant forall k | k in pending :: stats.operationStats[k] == other[k]
        invariant stats != this ==> stats.operationStats == other
        invariant newConnectedClients == Add32(old(newConnectedClients), old(stats.newConnectedClients))
        invariant computedRequests == Add32(old(computedRequests), old(stats.computedRequests))
        invariant incorrectOperations == Add32(old(incorrectOperations), old(stats.incorrectOperations))
        invariant valuesComputedSum == Add32(old(valuesComputedSum), old(stats.valuesComputedSum))
        invariant stats != this ==> stats.Snapshot() == old(stats.Snapshot())
        decreases pending
      {
        var key :| key in pending;
        operationStats := operationStats[key := Add32(operationStats[key], stats.operationStats[key])];
        pending := pending - {key};
      }
      assert operationStats == Merge(old(Snapshot()), old(stats.Snapshot())).operationStats;
    }

    /** Every counter back to zero; `replaceAll` keeps the key set. */
    method Clear()
      requires Valid()
      modifies this
      ensures Valid()
      ensures Snapshot() == Zero()
    {
      newConnectedClients := 0;
      computedRequests := 0;
      incorrectOperations := 0;
      valuesComputedSum := 0;
      operationStats := map k | k in operationStats :: 0;
    }
  }
}

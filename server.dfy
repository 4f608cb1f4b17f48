/**
 * The `CCS` object: a rolling `Statistics` (since the last report) that the
 * TCP accept loop and the client handlers write into, and a cumulative one
 * that the reporter merges the rolling one into on each tick.
 */
module Server {
  import opened JavaInt
  import opened Protocol
  import opened Statistics
  import opened Operations

  /** The address and port of an accepted connection. */
  datatype Peer = Peer(address: string, port: int)

  /**
   * What one answered line does to the rolling counters: a failure adds one
   * to `incorrectOperations`; a success adds one to `computedRequests` and to
   * its operation's count and adds the result to `valuesComputedSum`.
   */
  function Effect(c: Counters, o: Outcome): (r: Counters)
    requires WellFormed(c)
    ensures WellFormed(r)
  {
    match o
    case Failed(_) => c.(incorrectOperations := Add32(c.incorrectOperations, 1))
    case Computed(op, v) =>
      var name := OpName(op);
      c.(computedRequests := Add32(c.computedRequests, 1),
         operationStats := c.operationStats[name := Add32(c.operationStats[name], 1)],
         valuesComputedSum := Add32(c.valuesComputedSum, v))
  }

  /** The outcome of each line, in order. */
  function Outcomes(lines: seq<string>): (r: seq<Outcome>)
    ensures |r| == |lines|
    ensures forall i | 0 <= i < |lines| :: r[i] == Respond(lines[i])
  {
    if lines == [] then [] else Outcomes(lines[..|lines| - 1]) + [Respond(lines[|lines| - 1])]
  }

  /** The line written back for each outcome, in order. */
  function Responses(os: seq<Outcome>): (r: seq<string>)
    ensures |r| == |os|
    ensures forall i | 0 <= i < |os| :: r[i] == Response(os[i])
  {
    if os == [] then [] else Responses(os[..|os| - 1]) + [Response(os[|os| - 1])]
  }

  /** The rolling counters after every outcome of `os` has been recorded, in order. */
  function Apply(c: Counters, os: seq<Outcome>): (r: Counters)
    requires WellFormed(c)
    ensures WellFormed(r)
  {
    if os == [] then c else Effect(Apply(c, os[..|os| - 1]), os[|os| - 1])
  }

  /** How many of `os` are computed. */
  function Successes(os: seq<Outcome>): nat {
    if os == [] then 0 else Successes(os[..|os| - 1]) + (if os[|os| - 1].Computed? then 1 else 0)
  }

  /** How many of `os` are answered `ERROR`. */
  function Failures(os: seq<Outcome>): nat {
    if os == [] then 0 else Failures(os[..|os| - 1]) + (if os[|os| - 1].Failed? then 1 else 0)
  }

  /** How many of `os` are computed with operation `op`. */
  function OpCount(os: seq<Outcome>, op: Op): nat {
    if os == [] then 0
    else OpCount(os[..|os| - 1], op) + (if os[|os| - 1].Computed? && os[|os| - 1].op == op then 1 else 0)
  }

  /** The mathematical sum of the computed results. */
  function ComputedTotal(os: seq<Outcome>): int {
    if os == [] then 0
    else ComputedTotal(os[..|os| - 1]) + (if os[|os| - 1].Computed? then os[|os| - 1].value else 0)
  }

  /** Every outcome is either computed or answered `ERROR`. */
  lemma {:induction false} EveryOutcomeCounted(os: seq<Outcome>)
    ensures Successes(os) + Failures(os) == |os|
  {
    if os != [] {
      EveryOutcomeCounted(os[..|os| - 1]);
    }
  }

  /** `newConnectedClients` is not touched by any answered line. */
  lemma {:induction false} ApplyKeepsClients(c: Counters, os: seq<Outcome>)
    requires WellFormed(c)
    ensures Apply(c, os).newConnectedClients == c.newConnectedClients
  {
    if os != [] {
      ApplyKeepsClients(c, os[..|os| - 1]);
    }
  }

  /** `computedRequests` grows by the number of computed outcomes, modulo 2^32. */
  lemma {:induction false} ApplyCountsSuccesses(c: Counters, os: seq<Outcome>)
    requires WellFormed(c)
    ensures Apply(c, os).computedRequests == Wrap(c.computedRequests as int + Successes(os))
  {
    if os != [] {
      var init, o := os[..|os| - 1], os[|os| - 1];
      ApplyCountsSuccesses(c, init);
      Add32OfWrap(c.computedRequests as int + Successes(init), if o.Computed? then 1 else 0,
               c.computedRequests as int + Successes(os));
    }
  }

  /** `incorrectOperations` grows by the number of failed outcomes, modulo 2^32. */
  lemma {:induction false} ApplyCountsFailures(c: Counters, os: seq<Outcome>)
    requires WellFormed(c)
    ensures Apply(c, os).incorrectOperations == Wrap(c.incorrectOperations as int + Failures(os))
  {
    if os != [] {
      var init, o := os[..|os| - 1], os[|os| - 1];
      ApplyCountsFailures(c, init);
      Add32OfWrap(c.incorrectOperations as int + Failures(init), if o.Failed? then 1 else 0,
               c.incorrectOperations as int + Failures(os));
    }
  }

  /** `valuesComputedSum` grows by the sum of the computed results, modulo 2^32. */
  lemma {:induction false} ApplySumsValues(c: Counters, os: seq<Outcome>)
    requires WellFormed(c)
    ensures Apply(c, os).valuesComputedSum == Wrap(c.valuesComputedSum as int + ComputedTotal(os))
  {
    if os != [] {
      var init, o := os[..|os| - 1], os[|os| - 1];
      ApplySumsValues(c, init);
      Add32OfWrap(c.valuesComputedSum as int + ComputedTotal(init), if o.Computed? then o.value else 0,
               c.valuesComputedSum as int + ComputedTotal(os));
    }
  }

  /** Each operation's count grows by the number of outcomes computed with it, modulo 2^32. */
  lemma {:induction false} ApplyCountsOperation(c: Counters, os: seq<Outcome>, op: Op)
    requires WellFormed(c)
    ensures Apply(c, os).operationStats[OpName(op)] == Wrap(c.operationStats[OpName(op)] as int + OpCount(os, op))
  {
    if os != [] {
      var init, o := os[..|os| - 1], os[|os| - 1];
      ApplyCountsOperation(c, init, op);
      EffectOnOperation(Apply(c, init), o, op);
      Add32OfWrap(c.operationStats[OpName(op)] as int + OpCount(init, op), if o.Computed? && o.op == op then 1 else 0,
               c.operationStats[OpName(op)] as int + OpCount(os, op));
    }
  }

  lemma EffectOnOperation(c: Counters, o: Outcome, op: Op)
    requires WellFormed(c)
    ensures Effect(c, o).operationStats[OpName(op)] ==
            if o.Computed? && o.op == op then Add32(c.operationStats[OpName(op)], 1) else c.operationStats[OpName(op)]
  {
    if o.Computed? && o.op != op {
      ParseOpName(op);
      ParseOpName(o.op);
    }
  }

  /** The answers to a connection's lines are, line by line, the answers to each line alone. */
  lemma AnswerEachLine(lines: seq<string>)
    ensures |Responses(Outcomes(lines))| == |lines|
    ensures forall i | 0 <= i < |lines| :: Responses(Outcomes(lines))[i] == Response(Respond(lines[i]))
  {
  }

  class CCS {
    const overallStatistics: Statistics
    const lastStatistics: Statistics
    /** The rolling snapshots the reporter has merged so far, oldest first. */
    ghost var reports: seq<Counters>

    /** The cumulative counters are the sum of every rolling snapshot merged into them. */
    ghost predicate Valid()
      reads this, overallStatistics, lastStatistics
    {
      && overallStatistics != lastStatistics
      && overallStatistics.Valid() && lastStatistics.Valid()
      && AllWellFormed(reports)
      && overallStatistics.Snapshot() == Sum(reports)
    }

    constructor ()
      ensures Valid() && fresh(overallStatistics) && fresh(lastStatistics)
      ensures overallStatistics.Snapshot() == Zero() && lastStatistics.Snapshot() == Zero()
      ensures reports == []
    {
      overallStatistics := new Statistics();
      lastStatistics := new Statistics();
      reports := [];
    }

    /**
     * The TCP accept loop over the connections it accepts: every accepted
     * socket counts as a new connected client, whoever the peer is.
     */
    method AcceptConnections(peers: seq<Peer>)
      requires Valid()
      modifies lastStatistics
      ensures Valid()
      ensures lastStatistics.Snapshot() == old(lastStatistics.Snapshot()).(
                newConnectedClients := Wrap(old(lastStatistics.newConnectedClients) as int + |peers|))
    {
      for n := 0 to |peers|
        invariant Valid()
        invariant lastStatistics.Snapshot() == old(lastStatistics.Snapshot()).(
                    newConnectedClients := Wrap(old(lastStatistics.newConnectedClients) as int + n))
      {
        Add32OfWrap(old(lastStatistics.newConnectedClients) as int + n, 1, old(lastStatistics.newConnectedClients) as int + (n + 1));
        lastStatistics.IncrementNewConnectedClients();
      }
    }

    /**
     * The `handleClient` loop over the lines a client sends: each line gets
     * exactly one response, in order, and updates the rolling counters; an
     * error never ends the loop.
     */
    method HandleClient(lines: seq<string>) returns (responses: seq<string>)
      requires Valid()
      modifies lastStatistics
      ensures Valid()
      ensures |responses| == |lines|
      ensures responses == Responses(Outcomes(lines))
      ensures forall i | 0 <= i < |lines| :: responses[i] == Response(Respond(lines[i]))
      ensures lastStatistics.Snapshot() == Apply(old(lastStatistics.Snapshot()), Outcomes(lines))
    {
      ghost var start := lastStatistics.Snapshot();
      ghost var outcomes := Outcomes(lines);
      responses := [];
      for n := 0 to |lines|
        invariant Valid()
        invariant responses == Responses(outcomes[..n])
        invariant lastStatistics.Snapshot() == Apply(start, outcomes[..n])
      {
        var outcome := Respond(lines[n]);
        Record(outcome);
        responses := responses + [Response(outcome)];
        assert outcomes[..n + 1][..n] == outcomes[..n];
      }
      assert outcomes[..|lines|] == outcomes;
      AnswerEachLine(lines);
    }

    /** The counter updates `handleClient` makes for one answered line. */
    method Record(outcome: Outcome)
      requires Valid()
      modifies lastStatistics
      ensures Valid()
      ensures lastStatistics.Snapshot() == Effect(old(lastStatistics.Snapshot()), outcome)
    {
      match outcome {
        case Failed(_) =>
          lastStatistics.IncrementIncorrectOperations();
        case Computed(op, result) =>
          lastStatistics.IncrementComputedRequests();
          lastStatistics.IncrementOperationStats(OpName(op));
          lastStatistics.AddValuesComputedSum(result);
      }
    }

    /**
     * One tick of the statistics reporter: the rolling counters are merged
     * into the cumulative ones and then cleared.
     */
    method ReporterTick()
      requires Valid()
      modifies this, overallStatistics, lastStatistics
      ensures Valid()
      ensures overallStatistics.Snapshot() == Merge(old(overallStatistics.Snapshot()), old(lastStatistics.Snapshot()))
      ensures lastStatistics.Snapshot() == Zero()
      ensures reports == old(reports) + [old(lastStatistics.Snapshot())]
    {
      ghost var snapshot := lastStatistics.Snapshot();
      SumAppend(reports, snapshot);
      MergeCommutes(Sum(reports), snapshot);
      overallStatistics.Summarize(lastStatistics);
      lastStatistics.Clear();
      reports := reports + [snapshot];
    }
  }
}

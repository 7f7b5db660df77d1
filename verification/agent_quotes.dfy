/**
 * Per-agent aggregation (`calculate_agent_quotes`): the analyses are grouped
 * by agent id in a dictionary of running totals, each agent's eligible
 * remaining value is multiplied by the advance rate and capped, and the
 * quotes are sorted by agent id.
 */
module AgentQuotes {
  import opened Records
  import opened StringOrder

  /** The agent ids the analyses mention. */
  function AgentIds(a: seq<PolicyAnalysis>): set<string>
  {
    set p | p in a :: p.agentId
  }

  /** Reference definitions, first analysis first. */

  /** Earned to date summed over all of the agent's policies, eligible or not. */
  function AgentEarned(a: seq<PolicyAnalysis>, id: string): real
  {
    if a == [] then 0.0
    else (if a[0].agentId == id then a[0].earnedToDate else 0.0) + AgentEarned(a[1..], id)
  }

  /** Remaining expected value summed over the agent's eligible policies only. */
  function AgentEligibleRemaining(a: seq<PolicyAnalysis>, id: string): real
  {
    if a == [] then 0.0
    else (if a[0].agentId == id && a[0].isEligible then a[0].remainingExpected else 0.0)
         + AgentEligibleRemaining(a[1..], id)
  }

  /** The number of the agent's eligible policies. */
  function AgentEligibleCount(a: seq<PolicyAnalysis>, id: string): nat
  {
    if a == [] then 0
    else (if a[0].agentId == id && a[0].isEligible then 1 else 0) + AgentEligibleCount(a[1..], id)
  }

  /** The number of the agent's policies. */
  function AgentPolicyCount(a: seq<PolicyAnalysis>, id: string): nat
  {
    if a == [] then 0
    else (if a[0].agentId == id then 1 else 0) + AgentPolicyCount(a[1..], id)
  }

  /** One agent's running totals (`total_earned`, `total_eligible_remaining`,
      `eligible_policies_count`). */
  datatype Totals = Totals(earned: real, eligibleRemaining: real, eligibleCount: nat)

  /** The totals the reference definitions give an agent. */
  function ReferenceTotals(a: seq<PolicyAnalysis>, id: string): Totals
  {
    Totals(AgentEarned(a, id), AgentEligibleRemaining(a, id), AgentEligibleCount(a, id))
  }

  lemma {:induction false} ReferenceAppend(a: seq<PolicyAnalysis>, p: PolicyAnalysis, id: string)
    ensures AgentEarned(a + [p], id) == AgentEarned(a, id) + (if p.agentId == id then p.earnedToDate else 0.0)
    ensures AgentEligibleRemaining(a + [p], id)
            == AgentEligibleRemaining(a, id) + (if p.agentId == id && p.isEligible then p.remainingExpected else 0.0)
    ensures AgentEligibleCount(a + [p], id) == AgentEligibleCount(a, id) + (if p.agentId == id && p.isEligible then 1 else 0)
  {
    if a != [] {
      assert (a + [p])[1..] == a[1..] + [p];
      ReferenceAppend(a[1..], p, id);
    }
  }

  /** The first sight of an agent creates zero totals, as the `defaultdict` factory does. */
  const NoTotals: Totals := Totals(0.0, 0.0, 0)

  /** One analysis added into its agent's running totals: earned always,
      remaining and one to the count only when eligible. */
  function Add(t: Totals, p: PolicyAnalysis): Totals
  {
    Totals(
      t.earned + p.earnedToDate,
      if p.isEligible then t.eligibleRemaining + p.remainingExpected else t.eligibleRemaining,
      if p.isEligible then t.eligibleCount + 1 else t.eligibleCount)
  }

  /** The accumulation loop of `calculate_agent_quotes`, one analysis at a
      time; it agrees with the reference sums for every agent it has seen. */
  function Accumulate(a: seq<PolicyAnalysis>): (m: map<string, Totals>)
    ensures m.Keys == AgentIds(a)
    ensures forall id :: id in m ==> m[id] == ReferenceTotals(a, id)
  {
    if a == [] then map[]
    else
      var init := a[..|a| - 1];
      var p := a[|a| - 1];
      assert a == init + [p];
      var m := Accumulate(init);
      AccumulateStep(init, p, m);
      m[p.agentId := Add(if p.agentId in m then m[p.agentId] else NoTotals, p)]
  }

  /** One step of the accumulation loop keeps every agent's totals equal to
      the reference sums. */
  lemma AccumulateStep(init: seq<PolicyAnalysis>, p: PolicyAnalysis, m: map<string, Totals>)
    requires m.Keys == AgentIds(init)
    requires forall id :: id in m ==> m[id] == ReferenceTotals(init, id)
    ensures forall id :: id in m && id != p.agentId ==> ReferenceTotals(init + [p], id) == m[id]
    ensures ReferenceTotals(init + [p], p.agentId) == Add(if p.agentId in m then m[p.agentId] else NoTotals, p)
  {
    forall id | id in m && id != p.agentId ensures ReferenceTotals(init + [p], id) == m[id] {
      ReferenceAppend(init, p, id);
    }
    ReferenceAppend(init, p, p.agentId);
    if p.agentId !in m {
      AbsentAgent(init, p.agentId);
    }
  }

  /** An agent without analyses has zero reference totals. */
  lemma {:induction false} AbsentAgent(a: seq<PolicyAnalysis>, id: string)
    requires id !in AgentIds(a)
    ensures ReferenceTotals(a, id) == NoTotals
    ensures AgentPolicyCount(a, id) == 0
  {
    if a != [] {
      assert AgentIds(a[1..]) <= AgentIds(a) by {
        forall p | p in a[1..] ensures p in a { }
      }
      AbsentAgent(a[1..], id);
    }
  }

  /** The agent ids in the order the dictionary first sees them. */
  function FirstSeen(a: seq<PolicyAnalysis>): (r: seq<string>)
    ensures Distinct(r)
    ensures Elements(r) == AgentIds(a)
  {
    if a == [] then []
    else
      var init := a[..|a| - 1];
      var p := a[|a| - 1];
      assert a == init + [p];
      var r := FirstSeen(init);
      assert AgentIds(a) == AgentIds(init) + {p.agentId};
      if p.agentId in r then r
      else
        assert p.agentId !in Elements(r);
        assert Elements(r + [p.agentId]) == Elements(r) + {p.agentId};
        r + [p.agentId]
  }

  /** The agent ids of the analyses, each once, in Python's string order. */
  function SortedAgentIds(a: seq<PolicyAnalysis>): (ids: seq<string>)
    ensures StrictlySorted(ids)
    ensures forall i :: 0 <= i < |ids| ==> ids[i] in AgentIds(a)
    ensures forall id :: id in AgentIds(a) ==> exists i :: 0 <= i < |ids| && ids[i] == id
    ensures |ids| == |AgentIds(a)|
  {
    var firstSeen := FirstSeen(a);
    var ids := Sort(firstSeen);
    assert forall i :: 0 <= i < |ids| ==> ids[i] in Elements(ids);
    assert forall id :: id in AgentIds(a) ==> exists i :: 0 <= i < |ids| && ids[i] == id by {
      forall id | id in AgentIds(a) ensures exists i :: 0 <= i < |ids| && ids[i] == id {
        assert id in Elements(ids);
      }
    }
    DistinctCount(firstSeen);
    ids
  }

  /** Python's `min(calculated, cap)`: the first argument unless the second is smaller. */
  function Min(x: real, y: real): real
  {
    if y < x then y else x
  }

  /** The advance is the rate's share of the eligible remaining value, unless
      the cap is smaller. */
  predicate CappedShare(q: AgentQuote, rate: real, cap: real)
  {
    var share := q.totalEligibleRemaining * rate;
    && q.safeToAdvance <= cap
    && q.safeToAdvance <= share
    && (q.safeToAdvance == cap || q.safeToAdvance == share)
  }

  /** One agent's quote from its totals: the advance is the rate's share of
      the eligible remaining value, unless the cap is smaller. */
  function Quote(id: string, t: Totals, rate: real, cap: real): (q: AgentQuote)
    ensures q.agentId == id && q.earnedToDate == t.earned
    ensures q.totalEligibleRemaining == t.eligibleRemaining && q.eligiblePoliciesCount == t.eligibleCount
    ensures CappedShare(q, rate, cap)
  {
    var calculated := t.eligibleRemaining * rate;
    AgentQuote(id, t.earned, t.eligibleRemaining, Min(calculated, cap), t.eligibleCount)
  }

  /** A quote's totals are the reference sums over its agent's analyses. */
  predicate MatchesReference(q: AgentQuote, a: seq<PolicyAnalysis>)
  {
    && q.earnedToDate == AgentEarned(a, q.agentId)
    && q.totalEligibleRemaining == AgentEligibleRemaining(a, q.agentId)
    && q.eligiblePoliciesCount == AgentEligibleCount(a, q.agentId)
  }

  /** `calculate_agent_quotes(analyses)` with `ADVANCE_PERCENTAGE` = `rate` and
      `MAX_ADVANCE_AMOUNT` = `cap`. */
  function CalculateAgentQuotes(a: seq<PolicyAnalysis>, rate: real, cap: real): (r: seq<AgentQuote>)
    ensures forall i, j :: 0 <= i < j < |r| ==> Less(r[i].agentId, r[j].agentId)
    ensures forall i :: 0 <= i < |r| ==> r[i].agentId in AgentIds(a)
    ensures forall i :: 0 <= i < |r| ==> MatchesReference(r[i], a)
    ensures forall i :: 0 <= i < |r| ==> CappedShare(r[i], rate, cap)
  {
    var totals := Accumulate(a);
    var ids := SortedAgentIds(a);
    QuotesFor(ids, totals, rate, cap)
  }

  /** Every agent that has an analysis gets exactly one quote. */
  lemma QuotesCoverAgents(a: seq<PolicyAnalysis>, rate: real, cap: real)
    ensures var r := CalculateAgentQuotes(a, rate, cap);
            && |r| == |AgentIds(a)|
            && forall id :: id in AgentIds(a) ==> exists i :: 0 <= i < |r| && r[i].agentId == id
  {
    var ids := SortedAgentIds(a);
    var r := CalculateAgentQuotes(a, rate, cap);
    assert r == QuotesFor(ids, Accumulate(a), rate, cap);
    forall id | id in AgentIds(a) ensures exists i :: 0 <= i < |r| && r[i].agentId == id {
      var i :| 0 <= i < |ids| && ids[i] == id;
      assert r[i].agentId == id;
    }
  }

  /** The quotes of the listed agents, in the order listed. */
  function QuotesFor(ids: seq<string>, totals: map<string, Totals>, rate: real, cap: real): (r: seq<AgentQuote>)
    requires forall i :: 0 <= i < |ids| ==> ids[i] in totals
    ensures |r| == |ids|
    ensures forall i :: 0 <= i < |r| ==> r[i].agentId == ids[i]
    ensures forall i :: 0 <= i < |r| ==>
              && r[i].earnedToDate == totals[ids[i]].earned
              && r[i].totalEligibleRemaining == totals[ids[i]].eligibleRemaining
              && r[i].eligiblePoliciesCount == totals[ids[i]].eligibleCount
    ensures forall i :: 0 <= i < |r| ==> CappedShare(r[i], rate, cap)
  {
    seq(|ids|, i requires 0 <= i < |ids| => Quote(ids[i], totals[ids[i]], rate, cap))
  }

  /** A sequence without repeats has as many elements as its set. */
  lemma {:induction false} DistinctCount(s: seq<string>)
    requires Distinct(s)
    ensures |Elements(s)| == |s|
  {
    if s != [] {
      var t := s[..|s| - 1];
      assert s == t + [s[|s| - 1]];
      assert Elements(s) == Elements(t) + {s[|s| - 1]};
      DistinctCount(t);
    }
  }

  /** An agent never has more eligible policies than policies. */
  lemma {:induction false} EligibleCountBounded(a: seq<PolicyAnalysis>, id: string)
    ensures AgentEligibleCount(a, id) <= AgentPolicyCount(a, id)
  {
    if a != [] {
      EligibleCountBounded(a[1..], id);
    }
  }

  /** Remaining values that are never negative sum to a total that is not negative. */
  lemma {:induction false} EligibleRemainingNonNegative(a: seq<PolicyAnalysis>, id: string)
    requires forall p :: p in a ==> p.remainingExpected >= 0.0
    ensures AgentEligibleRemaining(a, id) >= 0.0
  {
    if a != [] {
      assert a[0] in a;
      assert forall p :: p in a[1..] ==> p in a;
      EligibleRemainingNonNegative(a[1..], id);
    }
  }

  /** A capped share of a non-negative value at a non-negative rate is not negative. */
  lemma CappedShareNonNegative(q: AgentQuote, rate: real, cap: real)
    requires CappedShare(q, rate, cap)
    requires rate >= 0.0 && cap >= 0.0 && q.totalEligibleRemaining >= 0.0
    ensures 0.0 <= q.safeToAdvance <= cap
  {
    assert q.totalEligibleRemaining * rate >= 0.0;
  }

  /** With a non-negative rate and cap and non-negative remaining values, every
      safe-to-advance amount lies between 0 and the cap, and no agent is
      credited with more eligible policies than it has. */
  lemma QuoteBounds(a: seq<PolicyAnalysis>, rate: real, cap: real)
    requires rate >= 0.0 && cap >= 0.0
    requires forall p :: p in a ==> p.remainingExpected >= 0.0
    ensures var r := CalculateAgentQuotes(a, rate, cap);
            forall i :: 0 <= i < |r| ==>
              && 0.0 <= r[i].safeToAdvance <= cap
              && r[i].eligiblePoliciesCount <= AgentPolicyCount(a, r[i].agentId)
  {
    var r := CalculateAgentQuotes(a, rate, cap);
    forall i | 0 <= i < |r|
      ensures 0.0 <= r[i].safeToAdvance <= cap && r[i].eligiblePoliciesCount <= AgentPolicyCount(a, r[i].agentId)
    {
      var q := r[i];
      EligibleRemainingNonNegative(a, q.agentId);
      EligibleCountBounded(a, q.agentId);
      CappedShareNonNegative(q, rate, cap);
    }
  }

  /** With the default rate 0.80 and cap 2000, an eligible remaining value of
      3125 or more is advanced exactly the cap. */
  lemma CapReached(t: Totals, id: string)
    requires t.eligibleRemaining >= 3125.0
    ensures Quote(id, t, 0.8, 2000.0).safeToAdvance == 2000.0
  {
  }

  /** No analyses, no quotes. */
  lemma NoAnalysesNoQuotes(rate: real, cap: real)
    ensures CalculateAgentQuotes([], rate, cap) == []
  {
  }
}

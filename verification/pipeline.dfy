/**
 * The two entry points of the engine: `get_detailed_agent_quotes` (analyses
 * followed by per-agent aggregation) and `compute_quotes`, which projects each
 * quote to the dictionary the API returns. The frozen reference date of
 * `get_today` and a few worked ledgers from the Python code's own scenarios close
 * the module.
 */
module Pipeline {
  import opened Wrappers
  import opened Records
  import opened StringOrder
  import opened Calendar
  import opened Dedup
  import opened PolicyState
  import opened Analysis
  import opened AgentQuotes
  import opened Eligibility

  /** The agent ids on the roster. */
  function RosterAgents(roster: seq<RosterEntry>): set<string>
  {
    set e | e in roster :: e.agentId
  }

  /** One analysis per roster row means one agent id per roster agent. */
  lemma AnalysedAgents(ledger: seq<Payment>, roster: seq<RosterEntry>, cfg: Config)
    ensures AgentIds(AnalyzePolicies(ledger, roster, cfg)) == RosterAgents(roster)
  {
    var a := AnalyzePolicies(ledger, roster, cfg);
    forall id | id in RosterAgents(roster) ensures id in AgentIds(a) {
      var e :| e in roster && e.agentId == id;
      var i :| 0 <= i < |roster| && roster[i] == e;
      assert a[i] in a;
    }
    forall id | id in AgentIds(a) ensures id in RosterAgents(roster) {
      var p :| p in a && p.agentId == id;
      var i :| 0 <= i < |a| && a[i] == p;
      assert roster[i] in roster;
    }
  }

  /** `get_detailed_agent_quotes`: the quotes of the roster's agents, sorted
      by agent id; each quote's totals are the reference sums over that
      agent's policy analyses, its advance is the capped share of the
      eligible remaining value, and that advance lies within [0, cap] when
      rate and cap are not negative. */
  function GetDetailedAgentQuotes(ledger: seq<Payment>, roster: seq<RosterEntry>, cfg: Config): (r: seq<AgentQuote>)
    ensures forall i, j :: 0 <= i < j < |r| ==> Less(r[i].agentId, r[j].agentId)
    ensures forall i :: 0 <= i < |r| ==> r[i].agentId in RosterAgents(roster)
    ensures |r| == |RosterAgents(roster)|
    ensures forall i :: 0 <= i < |r| ==>
              MatchesReference(r[i], AnalyzePolicies(ledger, roster, cfg)) && CappedShare(r[i], cfg.rate, cfg.cap)
    ensures cfg.rate >= 0.0 && cfg.cap >= 0.0 ==>
              forall i :: 0 <= i < |r| ==> 0.0 <= r[i].safeToAdvance <= cfg.cap
  {
    var a := AnalyzePolicies(ledger, roster, cfg);
    AnalysedAgents(ledger, roster, cfg);
    QuotesCoverAgents(a, cfg.rate, cfg.cap);
    if cfg.rate >= 0.0 && cfg.cap >= 0.0 then
      QuoteBounds(a, cfg.rate, cfg.cap);
      CalculateAgentQuotes(a, cfg.rate, cfg.cap)
    else
      CalculateAgentQuotes(a, cfg.rate, cfg.cap)
  }

  /** Every roster agent, with or without payments, gets a quote. */
  lemma EveryRosterAgentQuoted(ledger: seq<Payment>, roster: seq<RosterEntry>, cfg: Config, id: string)
    requires id in RosterAgents(roster)
    ensures exists i :: 0 <= i < |GetDetailedAgentQuotes(ledger, roster, cfg)|
                        && GetDetailedAgentQuotes(ledger, roster, cfg)[i].agentId == id
  {
    var a := AnalyzePolicies(ledger, roster, cfg);
    var r := CalculateAgentQuotes(a, cfg.rate, cfg.cap);
    assert GetDetailedAgentQuotes(ledger, roster, cfg) == r;
    AnalysedAgents(ledger, roster, cfg);
    QuotesCoverAgents(a, cfg.rate, cfg.cap);
    assert id in AgentIds(a);
    var i :| 0 <= i < |r| && r[i].agentId == id;
  }

  /** An empty roster gives no quotes, whatever the ledger holds. */
  lemma EmptyRosterNoQuotes(ledger: seq<Payment>, cfg: Config)
    ensures GetDetailedAgentQuotes(ledger, [], cfg) == []
  {
  }

  /** A value of the response dictionary. */
  datatype Value = Text(text: string) | Amount(amount: real) | Count(count: nat)

  /** The response dictionary's keys. */
  const AgentIdField: string := "agent_id"
  const EarnedField: string := "earned_to_date"
  const RemainingField: string := "total_eligible_remaining"
  const SafeField: string := "safe_to_advance"
  const CountField: string := "eligible_policies_count"

  /** The dictionary `compute_quotes` builds from one quote. */
  function ToDict(q: AgentQuote): map<string, Value>
  {
    map[AgentIdField := Text(q.agentId),
        EarnedField := Amount(q.earnedToDate),
        RemainingField := Amount(q.totalEligibleRemaining),
        SafeField := Amount(q.safeToAdvance),
        CountField := Count(q.eligiblePoliciesCount)]
  }

  /** Reads a quote back from a response dictionary, if it has the five keys
      with values of the right kinds. */
  function FromDict(d: map<string, Value>): Option<AgentQuote>
  {
    if && AgentIdField in d && d[AgentIdField].Text?
       && EarnedField in d && d[EarnedField].Amount?
       && RemainingField in d && d[RemainingField].Amount?
       && SafeField in d && d[SafeField].Amount?
       && CountField in d && d[CountField].Count?
    then Some(AgentQuote(d[AgentIdField].text, d[EarnedField].amount, d[RemainingField].amount,
                         d[SafeField].amount, d[CountField].count))
    else None
  }

  /** The projection loses nothing: the quote can be read back from its
      dictionary, which has exactly the five response keys. */
  lemma DictRoundTrip(q: AgentQuote)
    ensures FromDict(ToDict(q)) == Some(q)
    ensures ToDict(q).Keys == {AgentIdField, EarnedField, RemainingField, SafeField, CountField}
  {
  }

  /** `compute_quotes`: the detailed quotes as response dictionaries, in the
      same order. */
  function ComputeQuotes(ledger: seq<Payment>, roster: seq<RosterEntry>, cfg: Config): (r: seq<map<string, Value>>)
    ensures |r| == |GetDetailedAgentQuotes(ledger, roster, cfg)|
    ensures forall i :: 0 <= i < |r| ==> FromDict(r[i]) == Some(GetDetailedAgentQuotes(ledger, roster, cfg)[i])
  {
    ToDicts(GetDetailedAgentQuotes(ledger, roster, cfg))
  }

  /** Each quote as a response dictionary, in order. */
  function ToDicts(quotes: seq<AgentQuote>): (r: seq<map<string, Value>>)
    ensures |r| == |quotes|
    ensures forall i :: 0 <= i < |r| ==> FromDict(r[i]) == Some(quotes[i])
  {
    var r := seq(|quotes|, i requires 0 <= i < |quotes| => ToDict(quotes[i]));
    assert forall i :: 0 <= i < |r| ==> FromDict(r[i]) == Some(quotes[i]) by {
      forall i | 0 <= i < |r| ensures FromDict(r[i]) == Some(quotes[i]) {
        DictRoundTrip(quotes[i]);
      }
    }
    r
  }

  /** `get_today`'s frozen date 2025-07-06 is the day number the default
      configuration uses. */
  lemma FrozenTodayIsJulySixth()
    ensures IsValidDate(Date(2025, 7, 6))
    ensures Ordinal(Date(2025, 7, 6)) == FrozenToday
  {
  }

  /** A worked ledger row. */
  function Row(policyId: string, agentId: string, paidDate: int, amount: real, status: string): Payment
  {
    Payment(policyId, agentId, "Carrier", paidDate, amount, status)
  }

  /** Two identical payments of 175 are one payment: 175 is earned, not 350. */
  lemma DuplicatePaymentCountsOnce()
    ensures var ledger := [Row("P1", "A1", 739400, 175.0, Active), Row("P1", "A1", 739400, 175.0, Active)];
            EarnedPerPolicy(ledger) == map[PolicyKey("P1", "A1") := 175.0]
  {
    var ledger := [Row("P1", "A1", 739400, 175.0, Active), Row("P1", "A1", 739400, 175.0, Active)];
    LastOfTwoKept(ledger);
    SingleRowSum(ledger[1]);
  }

  /** Of two rows sharing a deduplication key and a status, the second is kept. */
  lemma LastOfTwoKept(ledger: seq<Payment>)
    requires |ledger| == 2 && KeyOf(ledger[0]) == KeyOf(ledger[1]) && ledger[0].status == ledger[1].status
    ensures Deduplicate(ledger) == [ledger[1]]
  {
    LessIrreflexive(ledger[0].status);
    assert !Survives(ledger, 0);
    assert Survives(ledger, 1);
    assert KeepFrom(ledger, 2) == [];
    assert KeepFrom(ledger, 1) == [ledger[1]];
  }

  /** A one-row ledger earns its amount under its own key. */
  lemma SingleRowSum(p: Payment)
    ensures SumByKey([p]) == map[PaymentKey(p) := p.amount]
  {
    assert [p][..0] == [];
  }

  /** A claw-back of the same size, reported later with status "cancelled",
      undoes the payment: both rows are kept, nothing is earned, the later
      row's status is the policy's status, and the policy is no longer
      eligible however long ago it was submitted. */
  lemma ClawBackCancels()
    ensures var ledger := [Row("P1", "A1", 739400, 200.0, Active), Row("P1", "A1", 739410, -200.0, Cancelled)];
            && EarnedPerPolicy(ledger) == map[PolicyKey("P1", "A1") := 0.0]
            && LatestPolicyStatus(ledger) == map[PolicyKey("P1", "A1") := Cancelled]
    ensures var ledger := [Row("P1", "A1", 739400, 200.0, Active), Row("P1", "A1", 739410, -200.0, Cancelled)];
            var a := AnalyzePolicies(ledger, [RosterEntry("P1", "A1", 739300, 1000.0)], DefaultConfig);
            && a[0].earnedToDate == 0.0 && a[0].remainingExpected == 1000.0
            && a[0].latestStatus == Cancelled && !a[0].isEligible
  {
    var p := Row("P1", "A1", 739400, 200.0, Active);
    var q := Row("P1", "A1", 739410, -200.0, Cancelled);
    ClawBackPair(p, q);
    ClawBackIneligible(p, q, RosterEntry("P1", "A1", 739300, 1000.0), DefaultConfig);
  }

  /** After a claw-back whose row carries a non-active status, the policy's
      analysis shows nothing earned, the full expected value remaining, that
      status, and no eligibility. */
  lemma ClawBackIneligible(p: Payment, q: Payment, e: RosterEntry, cfg: Config)
    requires PaymentKey(p) == PaymentKey(q) == RosterKey(e)
    requires p.paidDate < q.paidDate && q.amount == -p.amount && q.status != Active
    ensures var a := AnalyzePolicies([p, q], [e], cfg)[0];
            && a.earnedToDate == 0.0 && a.remainingExpected == Max(e.ltvExpected, 0.0)
            && a.latestStatus == q.status && !a.isEligible
  {
    ClawBackPair(p, q);
    SingleKeyAnalysis([p, q], e, cfg, 0.0, q.status);
    InactiveNeverEligible(e.submitDate, q.status, cfg.today, cfg.windowDays);
  }

  /** A payment followed by a later claw-back of the same size under the same
      policy key: both rows survive deduplication, they sum to zero, and the
      later row's status is the key's status. */
  lemma ClawBackPair(p: Payment, q: Payment)
    requires PaymentKey(p) == PaymentKey(q) && p.paidDate < q.paidDate && q.amount == -p.amount
    ensures EarnedPerPolicy([p, q]) == map[PaymentKey(p) := 0.0]
    ensures LatestPolicyStatus([p, q]) == map[PaymentKey(p) := q.status]
  {
    BothOfTwoKept([p, q]);
    TwoRowSum(p, q);
    LaterRowDecides(p, q);
  }

  /** Of two rows under one policy key, the later-dated one gives the status. */
  lemma LaterRowDecides(p: Payment, q: Payment)
    requires PaymentKey(p) == PaymentKey(q) && p.paidDate < q.paidDate
    ensures LatestPolicyStatus([p, q]) == map[PaymentKey(p) := q.status]
  {
    LatestStatusOverride([p, q], 1);
    PairKeys(p, q);
    SingletonMap(LatestPolicyStatus([p, q]), PaymentKey(p), q.status);
  }

  /** Two rows under one policy key touch only that key. */
  lemma PairKeys(p: Payment, q: Payment)
    requires PaymentKey(p) == PaymentKey(q)
    ensures PolicyKeys([p, q]) == {PaymentKey(p)}
  {
    assert [p, q][0] == p;
  }

  /** A map with one key is the one-entry map display. */
  lemma SingletonMap(m: map<PolicyKey, string>, k: PolicyKey, v: string)
    requires m.Keys == {k} && m[k] == v
    ensures m == map[k := v]
  {
  }

  /** A ledger that touches one policy key: the analysis of the roster entry
      with that key reads its earned amount and status from that key. */
  lemma SingleKeyAnalysis(ledger: seq<Payment>, e: RosterEntry, cfg: Config, earned: real, status: string)
    requires EarnedPerPolicy(ledger) == map[RosterKey(e) := earned]
    requires LatestPolicyStatus(ledger) == map[RosterKey(e) := status]
    ensures AnalyzePolicies(ledger, [e], cfg)[0].earnedToDate == earned
    ensures AnalyzePolicies(ledger, [e], cfg)[0].latestStatus == status
    ensures AnalyzePolicies(ledger, [e], cfg)[0].remainingExpected == Max(e.ltvExpected - earned, 0.0)
    ensures AnalyzePolicies(ledger, [e], cfg)[0].isEligible == IsEligible(e.submitDate, status, cfg.today, cfg.windowDays)
  {
    AnalysisAt(ledger, [e], cfg, 0);
    OneKeyAnalysis(e, EarnedPerPolicy(ledger), LatestPolicyStatus(ledger), cfg, earned, status);
  }

  /** The analysis of a roster entry against one-key maps for its own key. */
  lemma OneKeyAnalysis(e: RosterEntry, earnedMap: map<PolicyKey, real>, statusMap: map<PolicyKey, string>,
                       cfg: Config, earned: real, status: string)
    requires earnedMap == map[RosterKey(e) := earned] && statusMap == map[RosterKey(e) := status]
    ensures AnalyzePolicy(e, earnedMap, statusMap, cfg).earnedToDate == earned
    ensures AnalyzePolicy(e, earnedMap, statusMap, cfg).latestStatus == status
    ensures AnalyzePolicy(e, earnedMap, statusMap, cfg).remainingExpected == Max(e.ltvExpected - earned, 0.0)
    ensures AnalyzePolicy(e, earnedMap, statusMap, cfg).isEligible == IsEligible(e.submitDate, status, cfg.today, cfg.windowDays)
  {
  }

  /** Two rows with different deduplication keys are both kept. */
  lemma BothOfTwoKept(ledger: seq<Payment>)
    requires |ledger| == 2 && KeyOf(ledger[0]) != KeyOf(ledger[1])
    ensures Deduplicate(ledger) == ledger
  {
    KeepFromDistinct(ledger, 0);
    assert ledger[0..] == ledger;
  }

  /** Two rows of one policy key earn the sum of their amounts. */
  lemma TwoRowSum(p: Payment, q: Payment)
    requires PaymentKey(p) == PaymentKey(q)
    ensures SumByKey([p, q]) == map[PaymentKey(p) := p.amount + q.amount]
  {
    assert [p, q][..1] == [p];
    SingleRowSum(p);
  }

  /** The deduplication key has no agent id: when two agents' rows agree on
      policy, date and amount, only one agent keeps the payment. */
  lemma SharedKeyDropsOtherAgent()
    ensures var ledger := [Row("P1", "A1", 739400, 100.0, Active), Row("P1", "A2", 739400, 100.0, Active)];
            EarnedPerPolicy(ledger) == map[PolicyKey("P1", "A2") := 100.0]
  {
    var ledger := [Row("P1", "A1", 739400, 100.0, Active), Row("P1", "A2", 739400, 100.0, Active)];
    LastOfTwoKept(ledger);
    SingleRowSum(ledger[1]);
  }
}

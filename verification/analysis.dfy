/**
 * The join of roster and ledger (`analyze_policies`): one analysis per roster
 * row, in roster order, with the ledger-derived values filled in by default
 * (earned 0.0, status "active") for a policy with no payments.
 */
module Analysis {
  import opened Records
  import opened Dedup
  import opened PolicyState
  import opened Eligibility

  function Max(a: real, b: real): real
  {
    if a >= b then a else b
  }

  /** The analysis of one roster row, given the two ledger maps. */
  function AnalyzePolicy(e: RosterEntry, earned: map<PolicyKey, real>, status: map<PolicyKey, string>, cfg: Config): PolicyAnalysis
  {
    var key := RosterKey(e);
    var earnedToDate := if key in earned then earned[key] else 0.0;
    var latestStatus := if key in status then status[key] else Active;
    PolicyAnalysis(
      e.policyId,
      e.agentId,
      earnedToDate,
      Max(e.ltvExpected - earnedToDate, 0.0),
      IsEligible(e.submitDate, latestStatus, cfg.today, cfg.windowDays),
      e.submitDate,
      latestStatus)
  }

  /** `analyze_policies`. Earned is summed over the deduplicated ledger while
      the status is resolved over the ledger as given. */
  function AnalyzePolicies(ledger: seq<Payment>, roster: seq<RosterEntry>, cfg: Config): (r: seq<PolicyAnalysis>)
    ensures |r| == |roster|
    ensures forall i :: 0 <= i < |roster| ==>
              && r[i].policyId == roster[i].policyId
              && r[i].agentId == roster[i].agentId
              && r[i].submitDate == roster[i].submitDate
    ensures forall i :: 0 <= i < |roster| ==>
              r[i].earnedToDate == AmountFor(Deduplicate(ledger), RosterKey(roster[i]))
    ensures forall i :: 0 <= i < |roster| && RosterKey(roster[i]) !in PolicyKeys(ledger) ==>
              r[i].latestStatus == Active
    ensures forall i :: 0 <= i < |roster| && RosterKey(roster[i]) in PolicyKeys(ledger) ==>
              exists j :: IsLatestRow(ledger, RosterKey(roster[i]), j) && ledger[j].status == r[i].latestStatus
    ensures forall i :: 0 <= i < |roster| ==>
              && r[i].remainingExpected >= 0.0
              && r[i].remainingExpected >= roster[i].ltvExpected - r[i].earnedToDate
              && (r[i].remainingExpected == 0.0 || r[i].remainingExpected == roster[i].ltvExpected - r[i].earnedToDate)
    ensures forall i :: 0 <= i < |roster| ==>
              (r[i].isEligible <==> IsEligible(roster[i].submitDate, r[i].latestStatus, cfg.today, cfg.windowDays))
  {
    var earned := EarnedPerPolicy(ledger);
    var status := LatestPolicyStatus(ledger);
    seq(|roster|, i requires 0 <= i < |roster| => AnalyzePolicy(roster[i], earned, status, cfg))
  }

  /** Each entry of the analysis is the analysis of its roster row against
      the ledger's earned amounts and latest statuses. */
  lemma AnalysisAt(ledger: seq<Payment>, roster: seq<RosterEntry>, cfg: Config, i: nat)
    requires i < |roster|
    ensures AnalyzePolicies(ledger, roster, cfg)[i]
            == AnalyzePolicy(roster[i], EarnedPerPolicy(ledger), LatestPolicyStatus(ledger), cfg)
  {
  }

  /** A roster policy with no payment rows counts as active with nothing
      earned; its eligibility rests on its submit date alone. */
  lemma NoPaymentDefaults(ledger: seq<Payment>, roster: seq<RosterEntry>, cfg: Config, i: nat)
    requires i < |roster|
    requires forall p :: p in ledger ==> PaymentKey(p) != RosterKey(roster[i])
    ensures AnalyzePolicies(ledger, roster, cfg)[i].earnedToDate == 0.0
    ensures AnalyzePolicies(ledger, roster, cfg)[i].latestStatus == Active
    ensures AnalyzePolicies(ledger, roster, cfg)[i].remainingExpected == Max(roster[i].ltvExpected, 0.0)
    ensures AnalyzePolicies(ledger, roster, cfg)[i].isEligible <==> roster[i].submitDate <= cfg.today - cfg.windowDays
  {
    var key := RosterKey(roster[i]);
    assert key !in PolicyKeys(ledger);
    var d := Deduplicate(ledger);
    assert key !in PolicyKeys(d) by {
      forall p | p in d ensures PaymentKey(p) != key {
        var k :| 0 <= k < |ledger| && ledger[k] == p && Survives(ledger, k);
      }
    }
    AmountForAbsent(d, key);
  }
}

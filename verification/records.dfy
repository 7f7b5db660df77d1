/**
 * The record shapes of the commission-advance engine (app/models.py) and the
 * configuration it reads (app/config.py), with amounts as exact reals and
 * calendar dates as day numbers (see module Calendar).
 */
module Records {

  /** The two statuses a validated, cleaned ledger row carries. */
  const Active: string := "active"
  const Cancelled: string := "cancelled"

  /** One row of the carrier remittance ledger (`CarrierRemittance`). A
      negative amount is a claw-back. */
  datatype Payment = Payment(
    policyId: string,
    agentId: string,
    carrier: string,
    paidDate: int,
    amount: real,
    status: string)

  /** One row of the CRM policy roster (`CRMPolicy`). */
  datatype RosterEntry = RosterEntry(
    policyId: string,
    agentId: string,
    submitDate: int,
    ltvExpected: real)

  /** The `(policy_id, agent_id)` pair the ledger aggregates are keyed by. */
  datatype PolicyKey = PolicyKey(policyId: string, agentId: string)

  function PaymentKey(p: Payment): PolicyKey
  {
    PolicyKey(p.policyId, p.agentId)
  }

  function RosterKey(e: RosterEntry): PolicyKey
  {
    PolicyKey(e.policyId, e.agentId)
  }

  /** Per-policy result of the join between roster and ledger (`PolicyAnalysis`). */
  datatype PolicyAnalysis = PolicyAnalysis(
    policyId: string,
    agentId: string,
    earnedToDate: real,
    remainingExpected: real,
    isEligible: bool,
    submitDate: int,
    latestStatus: string)

  /** Per-agent advance quote (`AgentQuote`). */
  datatype AgentQuote = AgentQuote(
    agentId: string,
    earnedToDate: real,
    totalEligibleRemaining: real,
    safeToAdvance: real,
    eligiblePoliciesCount: nat)

  /** `ADVANCE_PERCENTAGE`, `MAX_ADVANCE_AMOUNT`, `ELIGIBILITY_DAYS` and the
      reference date `today`, passed in instead of read from globals. */
  datatype Config = Config(rate: real, cap: real, windowDays: int, today: int)

  /** The frozen reference date 2025-07-06 as a day number. */
  const FrozenToday: int := 739438

  /** The configuration defaults: 0.80, 2000.0, 7 days, 2025-07-06. */
  const DefaultConfig: Config := Config(0.8, 2000.0, 7, FrozenToday)
}

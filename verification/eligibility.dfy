/**
 * The eligibility rule (`determine_eligibility`): a policy may be advanced
 * against when its latest status is "active" and it was submitted at least
 * `windowDays` days before the reference date, the boundary day included.
 */
module Eligibility {
  import opened Records

  /** `latest_status == 'active' and submit_date <= today - timedelta(days=windowDays)`,
      with dates as day numbers. */
  predicate IsEligible(submitDate: int, latestStatus: string, today: int, windowDays: int)
  {
    latestStatus == Active && submitDate <= today - windowDays
  }

  /** The boundary is inclusive: submitted exactly `windowDays` days ago is
      eligible, one day later is not, one day earlier is. */
  lemma EligibilityBoundary(today: int, windowDays: int)
    ensures IsEligible(today - windowDays, Active, today, windowDays)
    ensures !IsEligible(today - windowDays + 1, Active, today, windowDays)
    ensures IsEligible(today - windowDays - 1, Active, today, windowDays)
  {
  }

  /** A policy whose latest status is not "active" (a cancellation, say) is
      never eligible, however old. */
  lemma InactiveNeverEligible(submitDate: int, latestStatus: string, today: int, windowDays: int)
    requires latestStatus != Active
    ensures !IsEligible(submitDate, latestStatus, today, windowDays)
  {
  }

  /** Eligibility only improves with age: an earlier submission of an eligible
      policy is eligible too, and so is the same policy on a later reference date. */
  lemma EligibilityMonotone(s1: int, s2: int, latestStatus: string, t1: int, t2: int, windowDays: int)
    requires s1 <= s2 && t1 <= t2
    requires IsEligible(s2, latestStatus, t1, windowDays)
    ensures IsEligible(s1, latestStatus, t2, windowDays)
  {
  }
}

/**
 * The two per-policy reductions of the ledger, both keyed by
 * (policy_id, agent_id): the earned amount (`calculate_earned_per_policy`,
 * over the deduplicated ledger) and the latest status
 * (`get_latest_policy_status`, over the ledger as given). Keys with no
 * rows are absent from both maps.
 */
module PolicyState {
  import opened Records
  import opened Dedup

  /** The (policy_id, agent_id) keys present among ledger rows. */
  function PolicyKeys(s: seq<Payment>): set<PolicyKey>
  {
    set p | p in s :: PaymentKey(p)
  }

  /** Reference definition: the sum of the amounts of the rows of key `k`,
      claw-backs included, first row first. */
  function AmountFor(s: seq<Payment>, k: PolicyKey): real
  {
    if s == [] then 0.0
    else (if PaymentKey(s[0]) == k then s[0].amount else 0.0) + AmountFor(s[1..], k)
  }

  lemma {:induction false} AmountForAppend(s: seq<Payment>, p: Payment, k: PolicyKey)
    ensures AmountFor(s + [p], k) == AmountFor(s, k) + (if PaymentKey(p) == k then p.amount else 0.0)
  {
    if s != [] {
      assert (s + [p])[1..] == s[1..] + [p];
      AmountForAppend(s[1..], p, k);
    }
  }

  lemma {:induction false} AmountForAbsent(s: seq<Payment>, k: PolicyKey)
    requires k !in PolicyKeys(s)
    ensures AmountFor(s, k) == 0.0
  {
    if s != [] {
      assert PolicyKeys(s[1..]) <= PolicyKeys(s) by {
        forall p | p in s[1..] ensures p in s { }
      }
      AmountForAbsent(s[1..], k);
    }
  }

  /** The pandas `groupby(['policy_id', 'agent_id'])['amount'].sum()`, as a
      left-to-right accumulation into a dictionary. A key missing from the
      result has nothing to sum, so `get(key, 0.0)` agrees with the sum. */
  function SumByKey(s: seq<Payment>): (m: map<PolicyKey, real>)
    ensures m.Keys == PolicyKeys(s)
    ensures forall k :: AmountFor(s, k) == if k in m then m[k] else 0.0
  {
    if s == [] then map[]
    else
      var init := s[..|s| - 1];
      var p := s[|s| - 1];
      assert s == init + [p];
      var m := SumByKey(init);
      var key := PaymentKey(p);
      var r := m[key := (if key in m then m[key] else 0.0) + p.amount];
      assert forall k :: AmountFor(s, k) == if k in r then r[k] else 0.0 by {
        forall k ensures AmountFor(s, k) == if k in r then r[k] else 0.0 {
          AmountForAppend(init, p, k);
        }
      }
      r
  }

  /** `calculate_earned_per_policy`: per key, the sum of the deduplicated amounts. */
  function EarnedPerPolicy(ledger: seq<Payment>): (m: map<PolicyKey, real>)
    ensures m.Keys == PolicyKeys(Deduplicate(ledger))
    ensures forall k :: AmountFor(Deduplicate(ledger), k) == if k in m then m[k] else 0.0
  {
    SumByKey(Deduplicate(ledger))
  }

  /** Deduplication only ever drops (policy_id, agent_id) keys, never invents them. */
  lemma EarnedKeysFromLedger(ledger: seq<Payment>)
    ensures EarnedPerPolicy(ledger).Keys <= PolicyKeys(ledger)
  {
    var d := Deduplicate(ledger);
    forall k | k in PolicyKeys(d) ensures k in PolicyKeys(ledger) {
      var p :| p in d && PaymentKey(p) == k;
      var i :| 0 <= i < |ledger| && ledger[i] == p && Survives(ledger, i);
    }
  }

  /** Row `i` is a row of key `k` with the latest paid date of that key. */
  predicate IsLatestRow(s: seq<Payment>, k: PolicyKey, i: int)
  {
    && 0 <= i < |s|
    && PaymentKey(s[i]) == k
    && forall j :: 0 <= j < |s| && PaymentKey(s[j]) == k ==> s[j].paidDate <= s[i].paidDate
  }

  /** The paid date and status of the row a key's group ends with. */
  datatype Latest = Latest(paidDate: int, status: string)

  /** Every key of `m` is backed by a latest row of `s` with the same date and status. */
  ghost predicate BackedByLatestRows(s: seq<Payment>, m: map<PolicyKey, Latest>)
  {
    forall k :: k in m ==> exists i :: IsLatestRow(s, k, i) && s[i].paidDate == m[k].paidDate && s[i].status == m[k].status
  }

  /** `sort_values('paid_date').groupby([...])['status'].last()`, as a
      left-to-right scan in which a row replaces the key's current entry when
      its date is not earlier (so a later row wins a tie, as a stable sort
      would have it). */
  function LatestByKey(s: seq<Payment>): (m: map<PolicyKey, Latest>)
    ensures m.Keys == PolicyKeys(s)
    ensures BackedByLatestRows(s, m)
  {
    if s == [] then map[]
    else
      var init := s[..|s| - 1];
      var p := s[|s| - 1];
      assert s == init + [p];
      var m := LatestByKey(init);
      var key := PaymentKey(p);
      if key !in m || m[key].paidDate <= p.paidDate then
        var r := m[key := Latest(p.paidDate, p.status)];
        LatestStepReplace(init, p, m);
        r
      else
        LatestStepKeep(init, p, m);
        m
  }

  /** The scan step in which the new row becomes its key's entry. */
  lemma LatestStepReplace(init: seq<Payment>, p: Payment, m: map<PolicyKey, Latest>)
    requires m.Keys == PolicyKeys(init) && BackedByLatestRows(init, m)
    requires PaymentKey(p) !in m || m[PaymentKey(p)].paidDate <= p.paidDate
    ensures BackedByLatestRows(init + [p], m[PaymentKey(p) := Latest(p.paidDate, p.status)])
  {
    var s := init + [p];
    var key := PaymentKey(p);
    var r := m[key := Latest(p.paidDate, p.status)];
    forall k | k in r
      ensures exists i :: IsLatestRow(s, k, i) && s[i].paidDate == r[k].paidDate && s[i].status == r[k].status
    {
      if k == key {
        var last := |s| - 1;
        forall j | 0 <= j < |s| && PaymentKey(s[j]) == k ensures s[j].paidDate <= s[last].paidDate {
          if j < last {
            assert init[j] == s[j];
            assert k in m;
            var i :| IsLatestRow(init, k, i) && init[i].paidDate == m[k].paidDate;
          }
        }
        assert IsLatestRow(s, k, last);
      } else {
        var i :| IsLatestRow(init, k, i) && init[i].paidDate == m[k].paidDate && init[i].status == m[k].status;
        assert s[i] == init[i];
        assert IsLatestRow(s, k, i);
      }
    }
  }

  /** The scan step in which the new row is older than its key's entry. */
  lemma LatestStepKeep(init: seq<Payment>, p: Payment, m: map<PolicyKey, Latest>)
    requires m.Keys == PolicyKeys(init) && BackedByLatestRows(init, m)
    requires PaymentKey(p) in m && p.paidDate < m[PaymentKey(p)].paidDate
    ensures BackedByLatestRows(init + [p], m)
  {
    var s := init + [p];
    forall k | k in m
      ensures exists i :: IsLatestRow(s, k, i) && s[i].paidDate == m[k].paidDate && s[i].status == m[k].status
    {
      var i :| IsLatestRow(init, k, i) && init[i].paidDate == m[k].paidDate && init[i].status == m[k].status;
      assert s[i] == init[i];
      assert IsLatestRow(s, k, i);
    }
  }

  /** `get_latest_policy_status`: for each key of the ledger, the status of
      some row of that key with the latest paid date. Which of several rows
      sharing the latest date supplies it is left open, as the Python code's sort
      does not promise stability. */
  function LatestPolicyStatus(ledger: seq<Payment>): (m: map<PolicyKey, string>)
    ensures m.Keys == PolicyKeys(ledger)
    ensures forall k :: k in m ==> exists i :: IsLatestRow(ledger, k, i) && ledger[i].status == m[k]
  {
    var latest := LatestByKey(ledger);
    map k | k in latest :: latest[k].status
  }

  /** A status reported retroactively wins: when one row of a key is dated
      strictly after all others of that key, its status is the key's status. */
  lemma LatestStatusOverride(ledger: seq<Payment>, i: nat)
    requires i < |ledger|
    requires forall j :: 0 <= j < |ledger| && j != i && PaymentKey(ledger[j]) == PaymentKey(ledger[i]) ==>
               ledger[j].paidDate < ledger[i].paidDate
    ensures PaymentKey(ledger[i]) in LatestPolicyStatus(ledger)
    ensures LatestPolicyStatus(ledger)[PaymentKey(ledger[i])] == ledger[i].status
  {
    var k := PaymentKey(ledger[i]);
    var m := LatestPolicyStatus(ledger);
    assert k in PolicyKeys(ledger);
    var w :| IsLatestRow(ledger, k, w) && ledger[w].status == m[k];
    assert w == i;
  }
}

/**
 * Payment deduplication (`deduplicate_payments`): the ledger is sorted by
 * (policy_id, paid_date, amount, status) and, of the rows sharing
 * (policy_id, paid_date, amount), only the last is kept. The key leaves out
 * agent_id, so rows of two agents that agree on the key collapse as well.
 *
 * The kept row of a key is therefore the one with the greatest status in
 * Python's string order ("cancelled" beats "active"); among rows that agree
 * on the status too, pandas' multi-column sort is stable, so the last in
 * input order is kept. The model keeps the surviving rows in input order
 * rather than in sorted order: every caller only sums them.
 */
module Dedup {
  import opened Records
  import opened StringOrder

  /** The columns `drop_duplicates` compares. */
  datatype DedupKey = DedupKey(policyId: string, paidDate: int, amount: real)

  function KeyOf(p: Payment): DedupKey
  {
    DedupKey(p.policyId, p.paidDate, p.amount)
  }

  /** The keys present in a ledger. */
  function Keys(s: seq<Payment>): set<DedupKey>
  {
    set p | p in s :: KeyOf(p)
  }

  /** No two rows of `s` share a key. */
  predicate DistinctKeys(s: seq<Payment>)
  {
    forall a, b :: 0 <= a < b < |s| ==> KeyOf(s[a]) != KeyOf(s[b])
  }

  /** Row `i` is the one `sort_values(...).drop_duplicates(..., keep='last')`
      keeps: no row of its key has a greater status, and every later row of
      its key has a strictly smaller one. */
  predicate Survives(s: seq<Payment>, i: int)
    requires 0 <= i < |s|
  {
    && (forall j :: 0 <= j < i && KeyOf(s[j]) == KeyOf(s[i]) ==> LessOrEqual(s[j].status, s[i].status))
    && (forall j :: i < j < |s| && KeyOf(s[j]) == KeyOf(s[i]) ==> Less(s[j].status, s[i].status))
  }

  /** The surviving rows among `s[i..]`, in input order. */
  function KeepFrom(s: seq<Payment>, i: nat): (r: seq<Payment>)
    requires i <= |s|
    ensures multiset(r) <= multiset(s[i..])
    ensures forall x :: x in r ==> exists k :: i <= k < |s| && s[k] == x && Survives(s, k)
    ensures forall k :: i <= k < |s| && Survives(s, k) ==> s[k] in r
    ensures DistinctKeys(r)
    decreases |s| - i
  {
    if i == |s| then []
    else
      var rest := KeepFrom(s, i + 1);
      assert s[i..] == [s[i]] + s[i + 1..];
      if Survives(s, i) then
        assert forall x :: x in rest ==> KeyOf(x) != KeyOf(s[i]) by {
          forall x | x in rest ensures KeyOf(x) != KeyOf(s[i]) {
            var k :| i + 1 <= k < |s| && s[k] == x && Survives(s, k);
          }
        }
        var r := [s[i]] + rest;
        assert forall b :: 0 < b < |r| ==> r[b] in rest;
        r
      else
        rest
  }

  /** The row `deduplicate_payments` keeps for each key. */
  function Deduplicate(s: seq<Payment>): (r: seq<Payment>)
    ensures multiset(r) <= multiset(s)
    ensures DistinctKeys(r)
    ensures forall x :: x in r ==> exists k :: 0 <= k < |s| && s[k] == x && Survives(s, k)
    ensures forall k :: 0 <= k < |s| && Survives(s, k) ==> s[k] in r
  {
    assert s[0..] == s;
    KeepFrom(s, 0)
  }

  /** Among the first `n` rows of `s`, the one of key `key` that the sort
      puts last: greatest status, and the last such in input order. */
  function Champion(s: seq<Payment>, key: DedupKey, n: nat): (c: nat)
    requires n <= |s|
    requires exists j :: 0 <= j < n && KeyOf(s[j]) == key
    ensures c < n && KeyOf(s[c]) == key
    ensures forall j :: 0 <= j < c && KeyOf(s[j]) == key ==> LessOrEqual(s[j].status, s[c].status)
    ensures forall j :: c < j < n && KeyOf(s[j]) == key ==> Less(s[j].status, s[c].status)
  {
    var last := n - 1;
    if KeyOf(s[last]) != key then
      Champion(s, key, last)
    else if !exists j :: 0 <= j < last && KeyOf(s[j]) == key then
      last
    else
      var c := Champion(s, key, last);
      if LessOrEqual(s[c].status, s[last].status) then
        assert forall j :: 0 <= j < last && KeyOf(s[j]) == key ==> LessOrEqual(s[j].status, s[last].status) by {
          forall j | 0 <= j < last && KeyOf(s[j]) == key
            ensures LessOrEqual(s[j].status, s[last].status)
          {
            if j < c {
              LessOrEqualTransitive(s[j].status, s[c].status, s[last].status);
            } else if c < j {
              LessAsymmetric(s[j].status, s[c].status);
              LessOrEqualTransitive(s[j].status, s[c].status, s[last].status);
            }
          }
        }
        last
      else
        c
  }

  /** Every key present in the ledger has a surviving row. */
  lemma SurvivorExists(s: seq<Payment>, i: nat)
    requires i < |s|
    ensures exists k :: 0 <= k < |s| && KeyOf(s[k]) == KeyOf(s[i]) && Survives(s, k)
  {
    var c := Champion(s, KeyOf(s[i]), |s|);
    assert Survives(s, c);
  }

  /** Deduplication keeps every key of the ledger and no other. */
  lemma DeduplicateKeys(s: seq<Payment>)
    ensures Keys(Deduplicate(s)) == Keys(s)
  {
    var r := Deduplicate(s);
    forall key | key in Keys(s) ensures key in Keys(r) {
      var p :| p in s && KeyOf(p) == key;
      var i :| 0 <= i < |s| && s[i] == p;
      SurvivorExists(s, i);
      var k :| 0 <= k < |s| && KeyOf(s[k]) == key && Survives(s, k);
      assert s[k] in r;
    }
    forall key | key in Keys(r) ensures key in Keys(s) {
      var p :| p in r && KeyOf(p) == key;
      var k :| 0 <= k < |s| && s[k] == p && Survives(s, k);
    }
  }

  /** The kept row of a key carries the greatest status among that key's rows,
      so a "cancelled" duplicate wins over an "active" one. */
  lemma KeptStatusIsGreatest(s: seq<Payment>, x: Payment, y: Payment)
    requires x in Deduplicate(s) && y in s && KeyOf(y) == KeyOf(x)
    ensures LessOrEqual(y.status, x.status)
  {
    var k :| 0 <= k < |s| && s[k] == x && Survives(s, k);
    var j :| 0 <= j < |s| && s[j] == y;
    if k < j {
      LessAsymmetric(y.status, x.status);
    } else if j == k {
      LessIrreflexive(x.status);
    }
  }

  /** Rows whose keys are already distinct are all kept, in order. */
  lemma {:induction false} KeepFromDistinct(s: seq<Payment>, i: nat)
    requires i <= |s| && DistinctKeys(s)
    ensures KeepFrom(s, i) == s[i..]
    decreases |s| - i
  {
    if i < |s| {
      KeepFromDistinct(s, i + 1);
      assert Survives(s, i);
      assert s[i..] == [s[i]] + s[i + 1..];
    }
  }

  /** Deduplicating an already deduplicated ledger changes nothing. */
  lemma DeduplicateIdempotent(s: seq<Payment>)
    ensures Deduplicate(Deduplicate(s)) == Deduplicate(s)
  {
    var r := Deduplicate(s);
    KeepFromDistinct(r, 0);
    assert r[0..] == r;
  }

  /** A sequence with distinct keys has exactly one row per key. */
  lemma {:induction false} DistinctKeysCount(s: seq<Payment>)
    requires DistinctKeys(s)
    ensures |Keys(s)| == |s|
  {
    if s != [] {
      var t := s[..|s| - 1];
      var last := s[|s| - 1];
      assert DistinctKeys(t);
      DistinctKeysCount(t);
      assert Keys(s) == Keys(t) + {KeyOf(last)} by {
        assert s == t + [last];
      }
      assert KeyOf(last) !in Keys(t);
    }
  }

  /** The deduplicated ledger has exactly one row per distinct
      (policy_id, paid_date, amount) of the input. */
  lemma DeduplicateCount(s: seq<Payment>)
    ensures |Deduplicate(s)| == |Keys(s)|
  {
    DeduplicateKeys(s);
    DistinctKeysCount(Deduplicate(s));
  }
}

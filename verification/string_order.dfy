/**
 * Python's ordering of `str` values (code point by code point, a proper
 * prefix first) and the sort the quote list is put through.
 */
module StringOrder {

  /** `a < b` on Python strings. */
  predicate Less(a: string, b: string)
  {
    if |a| == 0 then |b| > 0
    else if |b| == 0 then false
    else if a[0] != b[0] then a[0] < b[0]
    else Less(a[1..], b[1..])
  }

  lemma {:induction false} LessIrreflexive(a: string)
    ensures !Less(a, a)
  {
    if |a| > 0 {
      LessIrreflexive(a[1..]);
    }
  }

  lemma {:induction false} LessAsymmetric(a: string, b: string)
    ensures Less(a, b) ==> !Less(b, a)
  {
    if |a| > 0 && |b| > 0 && a[0] == b[0] {
      LessAsymmetric(a[1..], b[1..]);
    }
  }

  lemma {:induction false} LessTransitive(a: string, b: string, c: string)
    requires Less(a, b) && Less(b, c)
    ensures Less(a, c)
  {
    if |a| > 0 && a[0] == b[0] && b[0] == c[0] {
      LessTransitive(a[1..], b[1..], c[1..]);
    }
  }

  /** Two different strings are always ordered one way or the other. */
  lemma {:induction false} LessTotal(a: string, b: string)
    requires a != b
    ensures Less(a, b) || Less(b, a)
  {
    if |a| > 0 && |b| > 0 && a[0] == b[0] {
      assert a == [a[0]] + a[1..] && b == [b[0]] + b[1..];
      LessTotal(a[1..], b[1..]);
    }
  }

  /** `a <= b` on Python strings. */
  predicate LessOrEqual(a: string, b: string)
  {
    !Less(b, a)
  }

  lemma LessOrEqualTransitive(a: string, b: string, c: string)
    requires LessOrEqual(a, b) && LessOrEqual(b, c)
    ensures LessOrEqual(a, c)
  {
    if Less(c, a) {
      if a == b {
      } else {
        LessTotal(a, b);
        LessTransitive(c, a, b);
      }
    }
  }

  /** The strings occurring in `s`. */
  function Elements(s: seq<string>): set<string>
  {
    set x | x in s
  }

  /** Every element is strictly smaller than every later one (hence no repeats). */
  predicate StrictlySorted(s: seq<string>)
  {
    forall i, j :: 0 <= i < j < |s| ==> Less(s[i], s[j])
  }

  /** No string occurs twice in `s`. */
  predicate Distinct(s: seq<string>)
  {
    forall i, j :: 0 <= i < j < |s| ==> s[i] != s[j]
  }

  /** Inserts `x` at its place in a strictly sorted sequence that lacks it. */
  function Insert(x: string, s: seq<string>): (r: seq<string>)
    requires StrictlySorted(s) && x !in s
    ensures StrictlySorted(r)
    ensures Elements(r) == Elements(s) + {x}
    ensures |r| == |s| + 1
  {
    if s == [] then [x]
    else if Less(x, s[0]) then
      assert forall j | 0 < j < |s| :: Less(x, s[j]) by {
        forall j | 0 < j < |s| ensures Less(x, s[j]) { LessTransitive(x, s[0], s[j]); }
      }
      [x] + s
    else
      LessTotal(x, s[0]);
      var t := Insert(x, s[1..]);
      assert forall y | y in t :: Less(s[0], y) by {
        forall y | y in t ensures Less(s[0], y) {
          if y != x {
            assert y in Elements(t);
            var j :| 0 <= j < |s[1..]| && s[1..][j] == y;
            assert s[1 + j] == y;
          }
        }
      }
      assert Elements(s) == {s[0]} + Elements(s[1..]) by {
        assert s == [s[0]] + s[1..];
      }
      [s[0]] + t
  }

  /** The distinct strings of `s`, in ascending order (Python's `list.sort`). */
  function Sort(s: seq<string>): (r: seq<string>)
    requires Distinct(s)
    ensures StrictlySorted(r)
    ensures Elements(r) == Elements(s)
    ensures |r| == |s|
  {
    if s == [] then []
    else
      var t := Sort(s[1..]);
      assert s[0] !in s[1..];
      assert Elements(s) == {s[0]} + Elements(s[1..]) by {
        assert s == [s[0]] + s[1..];
      }
      Insert(s[0], t)
  }

  /** A strictly sorted sequence is determined by its set of elements. */
  lemma {:induction false} SortedUnique(a: seq<string>, b: seq<string>)
    requires StrictlySorted(a) && StrictlySorted(b)
    requires Elements(a) == Elements(b)
    ensures a == b
    decreases |a|
  {
    assert a != [] ==> a[0] in Elements(a);
    assert b != [] ==> b[0] in Elements(b);
    if a != [] && b != [] {
      if a[0] != b[0] {
        assert a[0] in Elements(a) && b[0] in Elements(b);
        var i :| 0 <= i < |b| && b[i] == a[0];
        var j :| 0 <= j < |a| && a[j] == b[0];
        assert i != 0 && j != 0;
        assert Less(b[0], a[0]) && Less(a[0], b[0]);
        LessAsymmetric(a[0], b[0]);
      }
      assert forall x | x in a[1..] :: x != a[0] by {
        forall x | x in a[1..] ensures x != a[0] {
          var k :| 0 <= k < |a[1..]| && a[1..][k] == x;
          assert a[1 + k] == x;
          LessIrreflexive(a[0]);
        }
      }
      assert forall x | x in b[1..] :: x != b[0] by {
        forall x | x in b[1..] ensures x != b[0] {
          var k :| 0 <= k < |b[1..]| && b[1..][k] == x;
          assert b[1 + k] == x;
          LessIrreflexive(b[0]);
        }
      }
      assert a == [a[0]] + a[1..] && b == [b[0]] + b[1..];
      assert Elements(a[1..]) == Elements(b[1..]) by {
        assert Elements(a) == {a[0]} + Elements(a[1..]);
        assert Elements(b) == {b[0]} + Elements(b[1..]);
      }
      SortedUnique(a[1..], b[1..]);
    }
  }
}

/**
 * Text split into and joined from lines: `"\n".join` and `str.split("\n")`.
 */
module Lines {

  /** The position of the first newline in `s`, or `|s|` when there is none. */
  function NewlineAt(s: string): (i: nat)
    ensures i <= |s|
    ensures i < |s| ==> s[i] == '\n'
    ensures forall j :: 0 <= j < i ==> s[j] != '\n'
  {
    if s == [] || s[0] == '\n' then 0 else 1 + NewlineAt(s[1..])
  }

  /** `"\n".join(lines)`. */
  function JoinLines(lines: seq<string>): (r: string)
    ensures lines == [] ==> r == []
    ensures |lines| == 1 ==> r == lines[0]
  {
    if lines == [] then []
    else if |lines| == 1 then lines[0]
    else lines[0] + "\n" + JoinLines(lines[1..])
  }

  /** `s.split("\n")`: the pieces between newlines, always at least one. */
  function SplitLines(s: string): (r: seq<string>)
    ensures |r| >= 1
    ensures forall k :: 0 <= k < |r| ==> '\n' !in r[k]
    decreases |s|
  {
    var i := NewlineAt(s);
    if i == |s| then [s] else [s[..i]] + SplitLines(s[i + 1..])
  }

  /** Joining then splitting gives the lines back, when none holds a newline
      and there is at least one. */
  lemma {:induction false} SplitJoin(lines: seq<string>)
    requires |lines| >= 1
    requires forall k :: 0 <= k < |lines| ==> '\n' !in lines[k]
    ensures SplitLines(JoinLines(lines)) == lines
  {
    if |lines| == 1 {
      NoNewline(lines[0]);
    } else {
      var rest := JoinLines(lines[1..]);
      var s := lines[0] + "\n" + rest;
      FirstNewline(lines[0], rest);
      assert s[..|lines[0]|] == lines[0];
      assert s[|lines[0]| + 1..] == rest;
      SplitJoin(lines[1..]);
    }
  }

  lemma NoNewline(s: string)
    requires '\n' !in s
    ensures NewlineAt(s) == |s|
  {
  }

  lemma FirstNewline(a: string, rest: string)
    requires '\n' !in a
    ensures NewlineAt(a + "\n" + rest) == |a|
  {
    assert (a + "\n" + rest)[|a|] == '\n';
  }

  /** Splitting then joining gives the text back. */
  lemma {:induction false} JoinSplit(s: string)
    ensures JoinLines(SplitLines(s)) == s
    decreases |s|
  {
    var i := NewlineAt(s);
    if i < |s| {
      JoinSplit(s[i + 1..]);
      assert s == s[..i] + "\n" + s[i + 1..];
    }
  }

  /** One more line in front of a non-empty list. */
  lemma JoinLinesCons(head: string, lines: seq<string>)
    requires |lines| >= 1
    ensures JoinLines([head] + lines) == head + "\n" + JoinLines(lines)
  {
    assert ([head] + lines)[1..] == lines;
  }
}

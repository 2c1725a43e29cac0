/**
 * Go's `strings.Join`, used to flatten a header's list of values into one
 * tag value, and its inverse for a one-character separator that occurs in
 * none of the joined values.
 */
module Strings {

  /** `strings.Join(v, sep)`: the elements of `v` in order, `sep` between neighbours. */
  function Join(v: seq<string>, sep: string): (r: string)
    ensures |v| == 0 ==> r == ""
    ensures |v| > 0 ==> |r| == TotalLength(v) + (|v| - 1) * |sep|
    decreases |v|
  {
    if |v| == 0 then ""
    else if |v| == 1 then v[0]
    else v[0] + sep + Join(v[1..], sep)
  }

  /** Sum of the lengths of the elements of `v`. */
  function TotalLength(v: seq<string>): nat
    decreases |v|
  {
    if |v| == 0 then 0 else |v[0]| + TotalLength(v[1..])
  }

  /**
   * Go's `strings.Split(s, [c])`: the pieces of `s` between occurrences of
   * `c`; always at least one piece.
   */
  function Split(s: string, c: char): (r: seq<string>)
    ensures |r| >= 1
    decreases |s|
  {
    if |s| == 0 then [""]
    else
      var rest := Split(s[1..], c);
      if s[0] == c then [""] + rest
      else [[s[0]] + rest[0]] + rest[1..]
  }

  /** A string without `c` splits into itself. */
  lemma {:induction false} SplitWithout(s: string, c: char)
    requires c !in s
    ensures Split(s, c) == [s]
    decreases |s|
  {
    if |s| > 0 {
      SplitWithout(s[1..], c);
      assert [s[0]] + s[1..] == s;
    }
  }

  /** Splitting at the first separator: the piece before it, then the split of the rest. */
  lemma {:induction false} SplitAfterPiece(a: string, c: char, b: string)
    requires c !in a
    ensures Split(a + [c] + b, c) == [a] + Split(b, c)
    decreases |a|
  {
    var s := a + [c] + b;
    if |a| == 0 {
      assert s[1..] == b;
    } else {
      assert s[1..] == a[1..] + [c] + b;
      SplitAfterPiece(a[1..], c, b);
      assert [a[0]] + a[1..] == a;
    }
  }

  /**
   * Round trip: joining values that do not contain the one-character
   * separator and splitting at it gives the values back.
   */
  lemma {:induction false} SplitJoin(v: seq<string>, c: char)
    requires |v| > 0
    requires forall i :: 0 <= i < |v| ==> c !in v[i]
    ensures Split(Join(v, [c]), c) == v
    decreases |v|
  {
    if |v| == 1 {
      SplitWithout(v[0], c);
    } else {
      SplitJoin(v[1..], c);
      SplitAfterPiece(v[0], c, Join(v[1..], [c]));
      assert [v[0]] + v[1..] == v;
    }
  }

  /** The example of the header normalisation: `["a", "b"]` becomes `"a,b"`. */
  lemma JoinExample()
    ensures Join(["a", "b"], ",") == "a,b"
  {
  }
}

/** Sequence helpers shared by the subscriber lists and the argument string. */
module Seqs {

  /** The index of the first `x` in `s`, or `|s|` when there is none. */
  function IndexOf<T(==)>(s: seq<T>, x: T): (i: nat)
    ensures i <= |s|
    ensures i < |s| ==> s[i] == x
    ensures x !in s[..i]
    ensures i == |s| <==> x !in s
  {
    if s == [] then 0
    else if s[0] == x then 0
    else
      var j := IndexOf(s[1..], x);
      assert s[..j + 1] == [s[0]] + s[1..][..j];
      1 + j
  }

  /** Appending after an occurrence does not move the first occurrence. */
  lemma {:induction false} IndexOfAppend<T>(s: seq<T>, t: seq<T>, x: T)
    requires x in s
    ensures IndexOf(s + t, x) == IndexOf(s, x)
    decreases |s|
  {
    if s[0] != x {
      assert (s + t)[0] == s[0] && (s + t)[1..] == s[1..] + t;
      assert x in s[1..] by {
        var i :| 0 <= i < |s| && s[i] == x;
        assert s[1..][i - 1] == x;
      }
      IndexOfAppend(s[1..], t, x);
    }
  }
}

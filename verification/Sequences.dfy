/** Order-reversal and bounded-window operations on sequences. */
module Sequences {

  function Reverse<T>(s: seq<T>): (r: seq<T>)
  {
    seq(|s|, i requires 0 <= i < |s| => s[|s| - 1 - i])
  }

  /** The first `n` elements, or all of them when there are fewer. */
  function First<T>(n: nat, s: seq<T>): seq<T>
  {
    if |s| <= n then s else s[..n]
  }

  /** The last `n` elements, or all of them when there are fewer. */
  function Last<T>(n: nat, s: seq<T>): seq<T>
  {
    if |s| <= n then s else s[|s| - n..]
  }

  lemma FirstOfReverse<T>(n: nat, s: seq<T>)
    ensures First(n, Reverse(s)) == Reverse(Last(n, s))
  {
  }

  lemma LastByIndex<T>(n: nat, s: seq<T>, i: nat)
    ensures |Last(n, s)| == if |s| < n then |s| else n
    ensures i < |Last(n, s)| ==> Last(n, s)[i] == s[|s| - |Last(n, s)| + i]
  {
  }
}

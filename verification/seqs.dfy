/** Order-preserving filtering (`Array.prototype.filter`), shared by the
    catalog loaders. */
module Seqs {

  /** The elements of `s` that `keep` accepts, in their original order. */
  function Filter<T>(keep: T -> bool, s: seq<T>): (r: seq<T>)
    ensures |r| <= |s|
    ensures forall i | 0 <= i < |r| :: keep(r[i])
    ensures forall x | x in r :: x in s
    ensures forall x | x in s && keep(x) :: x in r
  {
    if |s| == 0 then []
    else
      var rest := Filter(keep, s[1..]);
      var r := if keep(s[0]) then [s[0]] + rest else rest;
      assert forall x | x in s && keep(x) :: x in r by {
        forall x | x in s && keep(x) ensures x in r {
          if x != s[0] {
            assert x in s[1..];
          }
        }
      }
      r
  }

  /** Filtering works element by element: on a concatenation it is the
      concatenation of the filtered parts. */
  lemma {:induction false} FilterAppend<T>(keep: T -> bool, a: seq<T>, b: seq<T>)
    ensures Filter(keep, a + b) == Filter(keep, a) + Filter(keep, b)
    decreases |a|
  {
    if |a| == 0 {
      assert a + b == b;
    } else {
      assert (a + b)[1..] == a[1..] + b;
      FilterAppend(keep, a[1..], b);
    }
  }

  /** When `keep` accepts every element, nothing is dropped. */
  lemma {:induction false} FilterKeepsAll<T>(keep: T -> bool, s: seq<T>)
    requires forall i | 0 <= i < |s| :: keep(s[i])
    ensures Filter(keep, s) == s
    decreases |s|
  {
    if |s| > 0 {
      var t := s[1..];
      forall i | 0 <= i < |t| ensures keep(t[i]) {
        assert t[i] == s[i + 1];
      }
      FilterKeepsAll(keep, t);
      assert keep(s[0]);
      assert Filter(keep, s) == [s[0]] + t;
    }
  }
}

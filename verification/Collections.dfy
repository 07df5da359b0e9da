/** Options, sets, sequences, rings and C strings, as several parts need them. */
module Collections {

  datatype Option<T> = None | Some(value: T)

  const NUL: char := '\0'

  predicate NoNul(s: string) {
    forall i :: 0 <= i < |s| ==> s[i] != NUL
  }

  /** The place `i` of a ring of `n` places, counted one round at most. */
  function Wrap(i: nat, n: nat): nat
    requires i <= n
  {
    if i == n then 0 else i
  }

  lemma {:induction false} SubsetSize<T>(a: set<T>, b: set<T>)
    requires a <= b
    ensures |a| <= |b|
    decreases |a|
  {
    if x :| x in a {
      SubsetSize(a - {x}, b - {x});
    }
  }

  /** `s` with the elements from `p` on overwritten by `c`. */
  function Splice<T>(s: seq<T>, p: nat, c: seq<T>): (r: seq<T>)
    requires p + |c| <= |s|
    ensures |r| == |s|
    ensures forall i :: 0 <= i < |s| ==> r[i] == if p <= i < p + |c| then c[i - p] else s[i]
  {
    s[..p] + c + s[p + |c|..]
  }
}

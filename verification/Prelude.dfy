/** Types shared by every module. */
module Prelude {
  newtype byte = b: int | 0 <= b < 256

  const WORD: nat := 0x1_0000_0000

  type u16 = n: nat | n < 0x1_0000
  type u32 = n: nat | n < WORD

  datatype Option<+T> = None | Some(value: T)

  function Abs(x: int): (r: nat)
    ensures r == x || r == -x
  {
    if x < 0 then -x else x
  }

  /** A sequence nothing is in is empty. */
  lemma NothingIn<T>(s: seq<T>)
    requires forall x :: x !in s
    ensures s == []
  {
    forall x ensures x !in multiset(s) {
      assert x !in s;
    }
    assert multiset(s) == multiset{};
    assert |multiset(s)| == |s|;
  }

  lemma {:induction false} SubsetSize<T>(a: set<T>, b: set<T>)
    requires a <= b
    ensures |a| <= |b|
  {
    if x :| x in a {
      SubsetSize(a - {x}, b - {x});
    }
  }

  lemma SmallerSet<T>(a: set<T>, b: set<T>)
    requires a < b
    ensures |a| < |b|
  {
    var x :| x in b && x !in a;
    assert a <= b - {x};
    SubsetSize(a, b - {x});
  }
}

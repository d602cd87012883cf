/**
  Bytes and hashing. The hash is a parameter of every definition that uses it. Nothing assumes it
  injective on all inputs; the binding results ask that it has no collision among an explicit finite
  set of preimages, namely those hashed by the computations they speak about.
*/
module Crypto {
  type Byte = b: int | 0 <= b < 256

  type Bytes = seq<Byte>

  type Hash = d: Bytes | |d| == 32 witness seq(32, _ => 0)

  type HashFn = Bytes -> Hash

  ghost predicate CollisionFree(h: HashFn, preimages: set<Bytes>) {
    forall a, b :: a in preimages && b in preimages && h(a) == h(b) ==> a == b
  }

  lemma {:induction false} AppendInjective<T>(a: seq<T>, b: seq<T>, c: seq<T>, d: seq<T>)
    requires |a| == |c| && a + b == c + d
    ensures a == c && b == d
  {
    assert a == (a + b)[..|a|] && c == (c + d)[..|c|];
    assert b == (a + b)[|a|..] && d == (c + d)[|c|..];
  }
}

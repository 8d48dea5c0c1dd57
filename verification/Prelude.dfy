/** Small types shared by every part of the model. */
module Prelude {

  /** One octet. */
  type byte = x: int | 0 <= x < 256

  datatype Option<+T> = None | Some(value: T)

  /** The digest function (SHA-256 in the program) is a parameter of every
      model that needs it: any function of the bytes will do. */
  type Digest = seq<byte>

  function Elements<T>(xs: seq<T>): set<T> {
    if xs == [] then {} else Elements(xs[..|xs| - 1]) + {xs[|xs| - 1]}
  }

  predicate NoRepeats<T(==)>(xs: seq<T>) {
    xs != [] ==> NoRepeats(xs[..|xs| - 1]) && xs[|xs| - 1] !in Elements(xs[..|xs| - 1])
  }

  /** The number these bytes stand for with the most significant first. */
  function BigEndian(b: seq<byte>): nat {
    if b == [] then 0 else BigEndian(b[..|b| - 1]) * 256 + b[|b| - 1]
  }

  lemma {:induction false} NoRepeatsPrefix<T>(xs: seq<T>, k: nat)
    requires NoRepeats(xs) && k <= |xs|
    ensures NoRepeats(xs[..k])
  {
    if k < |xs| {
      NoRepeatsPrefix(xs[..|xs| - 1], k);
      assert xs[..|xs| - 1][..k] == xs[..k];
    } else {
      assert xs[..k] == xs;
    }
  }

  /** Collecting a hash set into a vector: every element once, in some order. */
  method Enumerate<T(==)>(s: set<T>) returns (xs: seq<T>)
    ensures Elements(xs) == s && NoRepeats(xs)
    ensures forall i :: 0 <= i < |xs| ==> xs[i] in s
  {
    xs := [];
    var todo := s;
    while todo != {}
      invariant Elements(xs) + todo == s && Elements(xs) !! todo && NoRepeats(xs)
      invariant forall i :: 0 <= i < |xs| ==> xs[i] in s
      decreases todo
    {
      var x :| x in todo;
      assert (xs + [x])[..|xs|] == xs;
      xs, todo := xs + [x], todo - {x};
    }
  }
}

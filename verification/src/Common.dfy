/** What the other modules share. */
module Common {
  type byte = b: nat | b < 256

  datatype Option<+T> = None | Some(value: T)

  /** The hash slots of a cluster. */
  const SLOTS: nat := 16384

  function Max(a: nat, b: nat): nat {
    if a < b then b else a
  }

  lemma {:induction false} SubsetSize<T>(a: set<T>, b: set<T>)
    requires a <= b
    ensures |a| <= |b|
  {
    if a != {} {
      var x :| x in a;
      SubsetSize(a - {x}, b - {x});
    }
  }
}

/** Small definitions shared by the other modules. */
module Common {
  type Address = nat

  datatype Option<+T> = None | Some(value: T)

  const TWO_64: int := 0x1_0000_0000_0000_0000

  /** The value a 64-bit subtraction or addition leaves in the register. */
  function Wrap(x: int): nat {
    x % TWO_64
  }

  lemma SubsetSize<T>(a: set<T>, b: set<T>)
    requires a <= b
    ensures |a| <= |b| && (a != b ==> |a| < |b|)
  {
    assert b == a + (b - a);
  }
}

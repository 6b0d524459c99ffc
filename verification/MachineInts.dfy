/** Two's-complement arithmetic of Go's int64 and uint64, written out on unbounded integers. */
module MachineInts {
  const TWO_63: int := 0x8000_0000_0000_0000
  const TWO_64: int := 0x1_0000_0000_0000_0000
  const MAX_INT64: int := TWO_63 - 1

  predicate IsInt64(x: int) {
    -TWO_63 <= x < TWO_63
  }

  predicate IsUint64(x: int) {
    0 <= x < TWO_64
  }

  /** The int64 that a mathematical result is stored as. */
  function WrapInt64(x: int): (r: int)
    ensures IsInt64(r)
    ensures IsInt64(x) ==> r == x
  {
    (x + TWO_63) % TWO_64 - TWO_63
  }

  /** The uint64 that a mathematical result is stored as. */
  function WrapUint64(x: int): (r: int)
    ensures IsUint64(r)
    ensures IsUint64(x) ==> r == x
  {
    x % TWO_64
  }
}

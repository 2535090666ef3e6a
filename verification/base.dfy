/** Java runtime notions the server's code leans on: the exceptions its
    operations can raise, the width of `int`, the byte, and a
    failure-compatible result type standing in for a thrown exception. */
module Base {

  /** The exceptions the modelled code can raise, one constructor each. */
  datatype JavaError =
    | NoSuchElement          // StringTokenizer.nextToken with no token left
    | ArrayIndexOutOfBounds  // keyVal[1] of a header line without ':', or System.arraycopy past the end
    | NullPointer            // raw.length read before any body was set
    | NegativeArraySize      // new byte[n] with an int sum n that wrapped around
    | ClosedChannel          // a write on a channel that is already closed
    | StreamEnded            // the IOException toBuffer raises when the peer closed

  /** Either a value, or the exception that ended the computation. */
  datatype Result<+T> = Success(value: T) | Failure(error: JavaError) {

    predicate IsFailure() {
      Failure?
    }

    function PropagateFailure<U>(): Result<U>
      requires Failure?
    {
      Failure(error)
    }

    function Extract(): T
      requires Success?
    {
      value
    }
  }

  datatype Option<+T> = None | Some(value: T)

  const MinInt: int := -0x8000_0000
  const MaxInt: int := 0x7fff_ffff

  /** Java's `int`. */
  type Int32 = x: int | MinInt <= x <= MaxInt

  /** An octet, as the bit pattern 0..255 (Java's signed `byte` reinterpreted). */
  type Byte = b: int | 0 <= b < 256

  /** The all-zero array `new byte[n]`. */
  function Zeros(n: nat): (z: seq<Byte>)
    ensures |z| == n
    ensures forall i :: 0 <= i < n ==> z[i] == 0
  {
    seq(n, i => 0)
  }
}

/** What the two grid classes share: the 32-bit cell type, the default range
    of FillRandom, the exceptions the operations raise, and the process-wide
    random source that FillRandom draws from. */
module MatrixBase {

  const Int32Min: int := -0x8000_0000
  const Int32Max: int := 0x7FFF_FFFF

  /** C#'s `int`: the type of every cell and of every fill bound. */
  newtype Int32 = x: int | -0x8000_0000 <= x < 0x8000_0000

  /** The default arguments of FillRandom(minValue = -50, maxValue = 50). */
  const DefaultMinValue: Int32 := -50
  const DefaultMaxValue: Int32 := 50

  const InvertedRangeMessage := "minValue має бути <= maxValue."
  const EmptyMatrixMessage := "Масив порожній або неініціалізований."

  /** The exceptions the modelled operations can raise. */
  datatype Error =
    | ArgumentException(message: string)
    | ArgumentOutOfRangeException
    | InvalidOperationException(message: string)

  /** How a void operation that may throw ends. */
  datatype Outcome = Pass | Fail(error: Error)

  /** How a value-returning operation that may throw ends. */
  datatype Result<T> = Success(value: T) | Failure(error: Error)

  /** C#'s unchecked `int` arithmetic: x reduced modulo 2^32 into the Int32 range. */
  function Wrap(x: int): (r: Int32)
    ensures Int32Min <= x <= Int32Max ==> r as int == x
    ensures (x - r as int) % 0x1_0000_0000 == 0
  {
    ((x - Int32Min) % 0x1_0000_0000 + Int32Min) as Int32
  }

  /** Random.Next(minValue, maxValue) returns instead of throwing
      ArgumentOutOfRangeException exactly when minValue <= maxValue. */
  predicate NextAccepts(minValue: int, maxValue: int) {
    minValue <= maxValue
  }

  /** Random.Next(minValue, maxValue): a value at least minValue and below the
      exclusive bound maxValue, or minValue itself when the two bounds are
      equal; ArgumentOutOfRangeException when minValue > maxValue. The
      generator's distribution is not modelled: any value in range may come
      back. The bound is an unbounded integer, so that the bound
      FillRandom means to pass can be passed without overflow. */
  method Next(minValue: Int32, maxValue: int) returns (r: Result<Int32>)
    ensures r.Failure? <==> !NextAccepts(minValue as int, maxValue)
    ensures r.Failure? ==> r.error == ArgumentOutOfRangeException
    ensures r.Success? ==> minValue <= r.value
    ensures r.Success? ==> r.value as int < maxValue || (r.value == minValue && maxValue == minValue as int)
  {
    if minValue as int > maxValue {
      r := Failure(ArgumentOutOfRangeException);
    } else if minValue as int == maxValue {
      r := Success(minValue);
    } else {
      var v: Int32 :| minValue <= v && v as int < maxValue;
      r := Success(v);
    }
  }

  /** The exclusive bound FillRandom passes to Random.Next, as the source
      writes it: `maxValue + 1` in unchecked 32-bit arithmetic. */
  function UpperBoundAsWritten(maxValue: Int32): Int32 {
    Wrap(maxValue as int + 1)
  }

  /** The exclusive bound the guard `minValue <= maxValue` is written for:
      maxValue + 1 without overflow. The model's FillRandom uses this one. */
  function UpperBound(maxValue: Int32): int {
    maxValue as int + 1
  }

  /** As written, FillRandom(minValue, int.MaxValue) passes its own guard for
      every minValue, but the wrapped bound is int.MinValue, so Next accepts
      the range only for minValue = int.MinValue (and then returns
      int.MinValue for every cell); for any larger minValue it throws
      ArgumentOutOfRangeException instead of the grid being filled. */
  lemma UpperBoundAsWrittenOverflows(minValue: Int32)
    // FillRandom's guard minValue <= maxValue passes at maxValue = int.MaxValue
    ensures minValue <= Int32Max as Int32
    ensures UpperBoundAsWritten(Int32Max as Int32) as int == Int32Min
    ensures NextAccepts(minValue as int, UpperBoundAsWritten(Int32Max as Int32) as int) <==>
      minValue as int == Int32Min
  {
  }

  /** Below int.MaxValue the bound as written and the intended bound agree. */
  lemma UpperBoundAsWrittenBelowMax(maxValue: Int32)
    requires maxValue as int < Int32Max
    ensures UpperBoundAsWritten(maxValue) as int == UpperBound(maxValue)
  {
  }

  /** With the intended bound every valid range [minValue, maxValue] is
      accepted by Next, and the values Next may return are exactly
      minValue..maxValue inclusive. */
  lemma UpperBoundAccepted(minValue: Int32, maxValue: Int32, v: Int32)
    requires minValue <= maxValue
    ensures NextAccepts(minValue as int, UpperBound(maxValue))
    ensures minValue as int < UpperBound(maxValue)
    ensures (minValue <= v && v as int < UpperBound(maxValue)) <==> minValue <= v <= maxValue
  {
  }
}

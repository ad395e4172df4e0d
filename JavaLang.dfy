/**
 * The few Java language types the logback classes rely on: the fixed-width
 * integers `int` and `long` with their two's-complement wrap-around, the
 * `byte`, and an optional value standing for a Java enum lookup that may throw.
 */
module JavaLang {

  const TWO_POW_32: int := 0x1_0000_0000
  const TWO_POW_64: int := 0x1_0000_0000_0000_0000

  /** The values of a Java `int`. */
  type Int32 = x: int | -0x8000_0000 <= x < 0x8000_0000

  /** The values of a Java `long`. */
  type Int64 = x: int | -0x8000_0000_0000_0000 <= x < 0x8000_0000_0000_0000

  /** A Java `byte`, by its eight bits read as an unsigned number. */
  type Byte = x: int | 0 <= x < 256

  datatype Option<T> = None | Some(value: T)

  /** The Java `int` that an exact result becomes after two's-complement wrap-around. */
  function ToInt(x: int): (r: Int32)
    ensures -0x8000_0000 <= x < 0x8000_0000 ==> r == x
  {
    (x + 0x8000_0000) % TWO_POW_32 - 0x8000_0000
  }

  /** The Java `long` that an exact result becomes after two's-complement wrap-around. */
  function ToLong(x: int): (r: Int64)
    ensures -0x8000_0000_0000_0000 <= x < 0x8000_0000_0000_0000 ==> r == x
    ensures (x - r) % TWO_POW_64 == 0
  {
    (x + 0x8000_0000_0000_0000) % TWO_POW_64 - 0x8000_0000_0000_0000
  }

  /** Multiplying and adding after a wrap wraps to the same `int` as doing it exactly. */
  lemma ToIntMulAdd(a: int, m: int, d: int)
    ensures ToInt(ToInt(a) * m + d) == ToInt(a * m + d)
  {
    var k := (a + 0x8000_0000) / TWO_POW_32;
    assert ToInt(a) == a - TWO_POW_32 * k;
    assert ToInt(a) * m + d == a * m + d - TWO_POW_32 * (k * m);
    ModMultiple32(a * m + d + 0x8000_0000, -(k * m));
  }

  lemma ModMultiple32(x: int, k: int)
    ensures (x + TWO_POW_32 * k) % TWO_POW_32 == x % TWO_POW_32
  {
  }

  /** Adding to an already wrapped `long` wraps to the same value as adding to the exact one. */
  lemma ToLongAdd(a: int, b: int)
    ensures ToLong(ToLong(a) + b) == ToLong(a + b)
  {
    var k := (a - ToLong(a)) / TWO_POW_64;
    assert a == ToLong(a) + TWO_POW_64 * k;
    ModMultiple(ToLong(a) + b + 0x8000_0000_0000_0000, k);
  }

  lemma ModMultiple(x: int, k: int)
    ensures (x + TWO_POW_64 * k) % TWO_POW_64 == x % TWO_POW_64
  {
  }

  /** The low eight bits of a Java `int`, the byte `OutputStream.write(int)` writes. */
  function LowByte(b: Int32): (r: Byte)
    ensures 0 <= b < 256 ==> r == b
  {
    b % 256
  }
}

/** Small vocabulary shared by the models: optional values, bytes and little-endian words. */
module Common {

  datatype Option<+T> = None | Some(value: T)

  /** A `u8`. */
  type Byte = b: int | 0 <= b < 256

  function Min(a: int, b: int): int { if a <= b then a else b }

  function Max(a: int, b: int): int { if a >= b then a else b }

  // ----- little-endian numbers -----

  function Le32(v: nat): (bytes: seq<Byte>) {
    var q1 := v / 256;
    var q2 := q1 / 256;
    [v % 256, q1 % 256, q2 % 256, q2 / 256 % 256]
  }

  function FromLe32(b0: Byte, b1: Byte, b2: Byte, b3: Byte): nat {
    b0 + 256 * b1 + 65536 * b2 + 16777216 * b3
  }

  lemma Le32RoundTrip(v: nat)
    requires v < 0x1_0000_0000
    ensures var b := Le32(v); FromLe32(b[0], b[1], b[2], b[3]) == v
  {
    var q1 := v / 256;
    var q2 := q1 / 256;
    assert v == 256 * q1 + v % 256 && q1 == 256 * q2 + q1 % 256 && q2 == 256 * (q2 / 256) + q2 % 256;
  }

  function Le16(v: nat): (bytes: seq<Byte>) {
    [v % 256, v / 256 % 256]
  }
}

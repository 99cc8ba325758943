/** Header fields as four bytes, least significant first. */
module LittleEndian {

  type byte = x: int | 0 <= x < 0x100
  type u32 = x: int | 0 <= x < 0x1_0000_0000
  type Bytes = seq<byte>

  function Le32(n: u32): (b: Bytes)
    ensures |b| == 4
  {
    var n1 := n / 0x100;
    var n2 := n1 / 0x100;
    [n % 0x100, n1 % 0x100, n2 % 0x100, n2 / 0x100]
  }

  function FromLe32(b: Bytes): u32
    requires |b| == 4
  {
    var b0: int, b1: int, b2: int, b3: int := b[0], b[1], b[2], b[3];
    b0 + 0x100 * (b1 + 0x100 * (b2 + 0x100 * b3))
  }

  lemma DivMod256(q: int, r: int)
    requires 0 <= r < 0x100
    ensures (r + 0x100 * q) / 0x100 == q && (r + 0x100 * q) % 0x100 == r
  {
  }

  lemma Le32RoundTrip(n: u32)
    ensures FromLe32(Le32(n)) == n
  {
  }

  lemma FromLe32RoundTrip(b: Bytes)
    requires |b| == 4
    ensures Le32(FromLe32(b)) == b
  {
    var b2: int, b3: int := b[2], b[3];
    DivMod256(b[1] as int + 0x100 * (b2 + 0x100 * b3), b[0]);
    DivMod256(b2 + 0x100 * b3, b[1]);
    DivMod256(b3, b2);
  }
}

/**
 * Fixed-width integers, byte strings and the small codecs shared by the
 * key schedule, the ENS log and the GATT services: C's unsigned conversions,
 * little- and big-endian packing, ASCII literals and byte-wise XOR.
 */
module Common {

  type byte = x: int | 0 <= x < 0x100
  type u16 = x: int | 0 <= x < 0x1_0000
  type u32 = x: int | 0 <= x < 0x1_0000_0000
  type i32 = x: int | -0x8000_0000 <= x < 0x8000_0000

  datatype Option<+T> = None | Some(value: T)

  /** A C return code: `Ok` carries what was written through the output pointer. */
  datatype Result<+T> = Ok(value: T) | Err(code: int)

  /** C's conversion of any integer to `uint32_t`: reduction modulo 2^32. */
  function ToU32(x: int): (r: u32)
    ensures (r - x) % 0x1_0000_0000 == 0
    ensures 0 <= x < 0x1_0000_0000 ==> r == x
  {
    x % 0x1_0000_0000
  }

  /** C's `/` on integers truncates toward zero (Dafny's `/` is Euclidean). */
  function TruncDiv(a: int, b: int): (q: int)
    requires b > 0
    ensures a >= 0 ==> q == a / b
    ensures a < 0 ==> q <= 0 && -q == (-a) / b
  {
    if a >= 0 then a / b else -((-a) / b)
  }

  function Zeros(n: nat): (r: seq<byte>)
    ensures |r| == n && forall i :: 0 <= i < n ==> r[i] == 0
  {
    seq(n, _ => 0)
  }

  /** The bytes of an ASCII string literal, without a terminating NUL. */
  function Ascii(s: string): (r: seq<byte>)
    requires forall i :: 0 <= i < |s| ==> s[i] as int < 0x80
    ensures |r| == |s|
    ensures forall i :: 0 <= i < |s| ==> r[i] == s[i] as int
  {
    seq(|s|, i requires 0 <= i < |s| => s[i] as int)
  }

  function Pow2(k: nat): (r: nat)
    ensures r > 0
  {
    if k == 0 then 1 else 2 * Pow2(k - 1)
  }

  /** Bit-wise exclusive or of the low `k` bits of `a` and `b`. */
  function XorBits(a: nat, b: nat, k: nat): (r: nat)
    ensures r < Pow2(k)
  {
    if k == 0 then 0 else (if a % 2 == b % 2 then 0 else 1) + 2 * XorBits(a / 2, b / 2, k - 1)
  }

  lemma {:induction false} XorBitsInvolutive(a: nat, b: nat, k: nat)
    requires a < Pow2(k)
    ensures XorBits(XorBits(a, b, k), b, k) == a
  {
    if k > 0 {
      var bit := if a % 2 == b % 2 then 0 else 1;
      var x := XorBits(a / 2, b / 2, k - 1);
      var c := bit + 2 * x;
      assert c == XorBits(a, b, k);
      assert c / 2 == x && c % 2 == bit;
      assert (if c % 2 == b % 2 then 0 else 1) == a % 2;
      XorBitsInvolutive(a / 2, b / 2, k - 1);
      assert XorBits(c, b, k) == a % 2 + 2 * (a / 2);
    }
  }

  function XorByte(a: byte, b: byte): byte
  {
    XorBits(a, b, 8)
  }

  lemma XorByteInvolutive(a: byte, b: byte)
    ensures XorByte(XorByte(a, b), b) == a
  {
    XorBitsInvolutive(a, b, 8);
  }

  /**
   * Byte-wise XOR of `data` with the first bytes of `pad`; bytes of `data`
   * beyond the end of `pad` are passed through.
   */
  function XorPrefix(data: seq<byte>, pad: seq<byte>): (r: seq<byte>)
    ensures |r| == |data|
    ensures forall i :: 0 <= i < |data| && i < |pad| ==> r[i] == XorByte(data[i], pad[i])
  {
    seq(|data|, i requires 0 <= i < |data| => if i < |pad| then XorByte(data[i], pad[i]) else data[i])
  }

  lemma XorPrefixInvolutive(data: seq<byte>, pad: seq<byte>)
    ensures XorPrefix(XorPrefix(data, pad), pad) == data
  {
    var once := XorPrefix(data, pad);
    var twice := XorPrefix(once, pad);
    forall i | 0 <= i < |data| ensures twice[i] == data[i] {
      if i < |pad| {
        XorByteInvolutive(data[i], pad[i]);
      }
    }
  }

  // Little-endian: the native layout of a `uint32_t` on the nRF target.

  function Le32(x: u32): (r: seq<byte>)
    ensures |r| == 4
  {
    [x % 0x100, x / 0x100 % 0x100, x / 0x1_0000 % 0x100, x / 0x100_0000]
  }

  function FromLe32(b: seq<byte>): u32
    requires |b| == 4
  {
    b[0] as int + 0x100 * b[1] as int + 0x1_0000 * b[2] as int + 0x100_0000 * b[3] as int
  }

  lemma Le32RoundTrip(x: u32)
    ensures FromLe32(Le32(x)) == x
  {
    Split256(x);
    Split256(x / 0x100);
    Split256(x / 0x1_0000);
    assert x / 0x100 / 0x100 == x / 0x1_0000;
    assert x / 0x1_0000 / 0x100 == x / 0x100_0000;
  }

  lemma Le32Injective(x: u32, y: u32)
    requires Le32(x) == Le32(y)
    ensures x == y
  {
    Le32RoundTrip(x);
    Le32RoundTrip(y);
  }

  lemma Split256(x: nat)
    ensures x == x / 0x100 * 0x100 + x % 0x100
  {
  }
}

/** The lightweight message signature of the wire protocol: the 64-bit
    hash of the input, and its complement, written little-endian and
    masked with an 8-byte hint of the session key. The hash function is a
    parameter. Words and bytes are integers in range; exclusive or is
    defined bit by bit. */
module NetProto {

  type byte = x: int | 0 <= x < 0x100
  type u64 = x: int | 0 <= x < 0x1_0000_0000_0000_0000

  /** `PROTOCOL_VERSION`. */
  const ProtocolVersion: int := 1

  function Pow2(n: nat): (p: nat)
    ensures p >= 1
  {
    if n == 0 then 1 else 2 * Pow2(n - 1)
  }

  function Pow256(n: nat): (p: nat)
    ensures p >= 1
  {
    if n == 0 then 1 else 256 * Pow256(n - 1)
  }

  /** Bitwise not on a 64-bit word. */
  function Not64(h: u64): u64 {
    0xFFFF_FFFF_FFFF_FFFF - h
  }

  /** Exclusive or of the low `n` bits of `a` and `b`. */
  function XorBits(a: nat, b: nat, n: nat): (r: nat)
    ensures r < Pow2(n)
  {
    if n == 0 then 0
    else (if a % 2 == b % 2 then 0 else 1) + 2 * XorBits(a / 2, b / 2, n - 1)
  }

  /** `a ^ b` on bytes. */
  function Xor(a: byte, b: byte): byte {
    assert Pow2(8) == 256;
    XorBits(a, b, 8)
  }

  /** The `n` low bytes of `h`, least significant first; `LeBytes(h, 8)`
      is `u64::to_le_bytes`. */
  function LeBytes(h: nat, n: nat): (r: seq<byte>)
    ensures |r| == n
  {
    if n == 0 then [] else [h % 256] + LeBytes(h / 256, n - 1)
  }

  /** Each byte combined by exclusive or with the hint byte at its place. */
  function Mask(b: seq<byte>, hint: seq<byte>): (r: seq<byte>)
    requires |b| == |hint|
    ensures |r| == |b| && forall i :: 0 <= i < |b| ==> r[i] == Xor(b[i], hint[i])
  {
    seq(|b|, i requires 0 <= i < |b| => Xor(b[i], hint[i]))
  }

  /** The 16-byte signature of a hash `h`: the little-endian bytes of `h`,
      then those of its complement, each half masked with the hint. */
  function Signature(h: u64, hint: seq<byte>): (r: seq<byte>)
    requires |hint| == 8
    ensures |r| == 16
  {
    Mask(LeBytes(h, 8), hint) + Mask(LeBytes(Not64(h), 8), hint)
  }

  /** `sign16`: writes the hash and its complement into a 16-byte buffer,
      then masks both halves with the hint in one loop. */
  method Sign16(input: seq<byte>, hint: seq<byte>, hash: seq<byte> -> u64) returns (sig: seq<byte>)
    requires |hint| == 8
    ensures sig == Signature(hash(input), hint)
  {
    var h := hash(input);
    var lo := LeBytes(h, 8);
    var hi := LeBytes(Not64(h), 8);
    var out := new byte[16](_ => 0);
    for j := 0 to 8
      invariant forall k :: 0 <= k < j ==> out[k] == lo[k] && out[8 + k] == hi[k]
    {
      out[j] := lo[j];
      out[8 + j] := hi[j];
    }
    for i := 0 to 8
      invariant forall k :: 0 <= k < i ==> out[k] == Xor(lo[k], hint[k]) && out[8 + k] == Xor(hi[k], hint[k])
      invariant forall k :: i <= k < 8 ==> out[k] == lo[k] && out[8 + k] == hi[k]
    {
      out[i] := Xor(out[i], hint[i]);
      out[8 + i] := Xor(out[8 + i], hint[i]);
    }
    assert out[..8] == Mask(lo, hint);
    assert out[8..] == Mask(hi, hint);
    assert out[..] == out[..8] + out[8..];
    sig := out[..];
  }

  /** Exclusive or with the same mask twice is the identity. */
  lemma {:induction false} XorBitsTwice(a: nat, m: nat, n: nat)
    requires a < Pow2(n)
    ensures XorBits(XorBits(a, m, n), m, n) == a
  {
    if n > 0 {
      XorBitsTwice(a / 2, m / 2, n - 1);
    }
  }

  /** Masking a number and its complement in `n` bits with the same mask
      leaves them complements of each other. */
  lemma {:induction false} XorBitsComplement(a: nat, m: nat, n: nat)
    requires a < Pow2(n)
    ensures XorBits(XorBits(a, m, n), XorBits(Pow2(n) - 1 - a, m, n), n) == Pow2(n) - 1
  {
    if n > 0 {
      var c := Pow2(n - 1) - 1;
      var b := Pow2(n) - 1 - a;
      assert b % 2 != a % 2 && b / 2 == c - a / 2;
      XorBitsComplement(a / 2, m / 2, n - 1);
      var x := XorBits(a, m, n);
      var y := XorBits(b, m, n);
      assert x % 2 != y % 2;
      assert x / 2 == XorBits(a / 2, m / 2, n - 1) && y / 2 == XorBits(c - a / 2, m / 2, n - 1);
    }
  }

  /** The bytes of the complement of an `n`-byte number are the
      complements of its bytes. */
  lemma {:induction false} LeBytesComplement(h: nat, n: nat)
    requires h < Pow256(n)
    ensures forall i :: 0 <= i < n ==> LeBytes(Pow256(n) - 1 - h, n)[i] == 255 - LeBytes(h, n)[i]
  {
    if n > 0 {
      var c := Pow256(n - 1) - 1;
      assert (Pow256(n) - 1 - h) / 256 == c - h / 256;
      LeBytesComplement(h / 256, n - 1);
    }
  }

  /** Numbers below `256^n` are determined by their `n` low bytes. */
  lemma {:induction false} LeBytesInjective(h1: nat, h2: nat, n: nat)
    requires h1 < Pow256(n) && h2 < Pow256(n)
    requires LeBytes(h1, n) == LeBytes(h2, n)
    ensures h1 == h2
  {
    if n > 0 {
      assert LeBytes(h1, n)[1..] == LeBytes(h1 / 256, n - 1);
      assert LeBytes(h2, n)[1..] == LeBytes(h2 / 256, n - 1);
      LeBytesInjective(h1 / 256, h2 / 256, n - 1);
    }
  }

  /** Whatever the hint, byte `i` and byte `8 + i` of a signature are
      complements of each other: their exclusive or is 0xFF. */
  lemma HalvesComplement(h: u64, hint: seq<byte>)
    requires |hint| == 8
    ensures var sig := Signature(h, hint);
      forall i :: 0 <= i < 8 ==> Xor(sig[i], sig[8 + i]) == 0xFF
  {
    assert Pow256(8) == 0x1_0000_0000_0000_0000;
    assert Pow2(8) == 256;
    LeBytesComplement(h, 8);
    var lo := LeBytes(h, 8);
    var sig := Signature(h, hint);
    forall i | 0 <= i < 8
      ensures Xor(sig[i], sig[8 + i]) == 0xFF
    {
      XorBitsComplement(lo[i], hint[i], 8);
    }
  }

  /** Masking the first half with the hint again gives back the hash's
      little-endian bytes. */
  lemma HintRecoversHash(h: u64, hint: seq<byte>)
    requires |hint| == 8
    ensures Mask(Signature(h, hint)[..8], hint) == LeBytes(h, 8)
  {
    assert Pow2(8) == 256;
    var lo := LeBytes(h, 8);
    forall i | 0 <= i < 8
      ensures Mask(Signature(h, hint)[..8], hint)[i] == lo[i]
    {
      XorBitsTwice(lo[i], hint[i], 8);
    }
  }

  /** Under one hint, the first half of a signature determines the hash. */
  lemma SignatureDeterminesHash(h1: u64, h2: u64, hint: seq<byte>)
    requires |hint| == 8
    requires Signature(h1, hint)[..8] == Signature(h2, hint)[..8]
    ensures h1 == h2
  {
    HintRecoversHash(h1, hint);
    HintRecoversHash(h2, hint);
    assert Pow256(8) == 0x1_0000_0000_0000_0000;
    LeBytesInjective(h1, h2, 8);
  }
}

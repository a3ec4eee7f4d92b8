/** Bytes, fixed-width unsigned integers and their little-endian encodings. */
module Bytes {

  type byte = b: int | 0 <= b < 0x100
  type u32 = x: int | 0 <= x < 0x1_0000_0000
  type u64 = x: int | 0 <= x < 0x1_0000_0000_0000_0000

  const U32_RANGE: nat := 0x1_0000_0000
  const U64_RANGE: nat := 0x1_0000_0000_0000_0000

  /** A 32-byte account address. */
  type Pubkey = s: seq<byte> | |s| == 32 witness seq(32, _ => 0)

  function Zeros(n: nat): (s: seq<byte>)
    ensures |s| == n && forall i :: 0 <= i < n ==> s[i] == 0
  {
    seq(n, _ => 0)
  }

  /** `x as u32`: the low 32 bits. */
  function TruncU32(x: nat): u32 {
    x % U32_RANGE
  }

  function Pow256(n: nat): (p: nat)
    ensures p > 0
  {
    if n == 0 then 1 else 0x100 * Pow256(n - 1)
  }

  /** The low `n` bytes of `x`, least significant first. */
  function ToLE(x: nat, n: nat): (s: seq<byte>)
    ensures |s| == n
  {
    if n == 0 then [] else [x % 0x100] + ToLE(x / 0x100, n - 1)
  }

  function FromLE(s: seq<byte>): (x: nat)
    ensures x < Pow256(|s|)
  {
    if s == [] then 0 else s[0] + 0x100 * FromLE(s[1..])
  }

  lemma {:induction false} FromToLE(x: nat, n: nat)
    requires x < Pow256(n)
    ensures FromLE(ToLE(x, n)) == x
  {
    if n > 0 {
      FromToLE(x / 0x100, n - 1);
      assert ToLE(x, n)[1..] == ToLE(x / 0x100, n - 1);
    }
  }

  lemma {:induction false} ToFromLE(s: seq<byte>)
    ensures ToLE(FromLE(s), |s|) == s
  {
    if s != [] {
      var rest := FromLE(s[1..]);
      ToFromLE(s[1..]);
      assert (s[0] + 0x100 * rest) / 0x100 == rest && (s[0] + 0x100 * rest) % 0x100 == s[0];
    }
  }

  lemma Widths()
    ensures Pow256(4) == U32_RANGE && Pow256(8) == U64_RANGE
  {
    assert Pow256(1) == 0x100 && Pow256(2) == 0x1_0000 && Pow256(3) == 0x100_0000;
    assert Pow256(4) == 0x1_0000_0000 && Pow256(5) == 0x100_0000_0000;
    assert Pow256(6) == 0x1_0000_0000_0000 && Pow256(7) == 0x100_0000_0000_0000;
  }

  function U32Bytes(x: u32): (s: seq<byte>)
    ensures |s| == 4
  {
    ToLE(x, 4)
  }

  function U64Bytes(x: u64): (s: seq<byte>)
    ensures |s| == 8
  {
    ToLE(x, 8)
  }

  function GetU32(s: seq<byte>): (x: u32)
    requires |s| == 4
  {
    Widths();
    FromLE(s)
  }

  function GetU64(s: seq<byte>): (x: u64)
    requires |s| == 8
  {
    Widths();
    FromLE(s)
  }

  /** The first byte of a field counts least. */
  lemma LittleEndian32(s: seq<byte>)
    requires |s| == 4
    ensures var a: int, b: int, c: int, d: int := s[0], s[1], s[2], s[3];
      GetU32(s) == a + 0x100 * b + 0x1_0000 * c + 0x100_0000 * d
  {
    var rest := FromLE(s[4..]);
    assert s[1..][1..] == s[2..] && s[2..][1..] == s[3..] && s[3..][1..] == s[4..];
    assert FromLE(s) == s[0] + 0x100 * FromLE(s[1..]) && FromLE(s[1..]) == s[1] + 0x100 * FromLE(s[2..]);
    assert FromLE(s[2..]) == s[2] + 0x100 * FromLE(s[3..]) && FromLE(s[3..]) == s[3] + 0x100 * rest;
  }

  lemma LittleEndian64(s: seq<byte>)
    requires |s| == 8
    ensures GetU64(s) == GetU32(s[..4]) + 0x1_0000_0000 * GetU32(s[4..])
  {
    var low := s[..4];
    assert forall i :: 0 <= i <= 4 ==> s[i..][..4 - i] == low[i..];
    Shift(s, 0);
    Shift(s, 1);
    Shift(s, 2);
    Shift(s, 3);
    Shift(low, 0);
    Shift(low, 1);
    Shift(low, 2);
    Shift(low, 3);
    hide FromLE;
  }

  lemma Shift(s: seq<byte>, i: nat)
    requires i < |s|
    ensures FromLE(s[i..]) == s[i] + 0x100 * FromLE(s[i + 1..])
  {
    assert s[i..][1..] == s[i + 1..];
  }

  /** Reading a fixed-width field undoes writing it. */
  lemma GetPut32(x: u32)
    ensures GetU32(U32Bytes(x)) == x
  {
    Widths();
    FromToLE(x, 4);
  }

  /** Writing back what a field holds reproduces its bytes. */
  lemma PutGet32(s: seq<byte>)
    requires |s| == 4
    ensures U32Bytes(GetU32(s)) == s
  {
    ToFromLE(s);
  }

  lemma PutGet64(s: seq<byte>)
    requires |s| == 8
    ensures U64Bytes(GetU64(s)) == s
  {
    ToFromLE(s);
  }

  lemma GetPut64(x: u64)
    ensures GetU64(U64Bytes(x)) == x
  {
    Widths();
    FromToLE(x, 8);
  }
}

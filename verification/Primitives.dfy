/** Machine integers, byte strings and the fixed-width encodings the chain hashes. */
module Primitives {
  type Byte = b: int | 0 <= b < 256
  type Bytes = seq<Byte>

  const U32_MAX: int := 0xFFFF_FFFF
  const U64_MAX: int := 0xFFFF_FFFF_FFFF_FFFF

  type u32 = n: int | 0 <= n < 0x1_0000_0000
  type u64 = n: int | 0 <= n < 0x1_0000_0000_0000_0000

  /** 256-bit values: digests, transaction ids and x-only public keys.
      They are written out as 32 bytes, most significant first. */
  type U256 = n: int | 0 <= n < 0x1_0000000000000000_0000000000000000_0000000000000000_0000000000000000
  type Digest = U256
  type Address = U256
  type Txid = U256

  type Signature = s: Bytes | |s| == 64 witness seq(64, _ => 0)

  datatype Option<+T> = None | Some(value: T)
  datatype Result<+T, +E> = Ok(value: T) | Err(error: E)

  function SaturatingAdd(a: u64, b: u64): (r: u64)
    ensures a + b <= U64_MAX ==> r == a + b
    ensures a + b > U64_MAX ==> r == U64_MAX
  {
    if a + b <= U64_MAX then a + b else U64_MAX
  }

  function SaturatingSub(a: int, b: int): (r: int)
    ensures a >= b ==> r == a - b
    ensures a < b ==> r == 0
  {
    if a >= b then a - b else 0
  }

  // ---------- fixed-width integers ----------

  function Pow256(k: nat): (r: nat)
    ensures r >= 1
  {
    if k == 0 then 1 else 256 * Pow256(k - 1)
  }

  lemma {:induction false} Pow256Add(a: nat, b: nat)
    ensures Pow256(a + b) == Pow256(a) * Pow256(b)
  {
    if a > 0 {
      Pow256Add(a - 1, b);
      assert Pow256(a + b) == 256 * Pow256(a - 1 + b);
    }
  }

  lemma Pow256Values()
    ensures Pow256(4) == 0x1_0000_0000
    ensures Pow256(8) == 0x1_0000_0000_0000_0000
    ensures Pow256(32) == 0x1_0000000000000000_0000000000000000_0000000000000000_0000000000000000
  {
    Pow256Add(8, 8);
    Pow256Add(16, 16);
  }

  /** The `k` low-order bytes of `n`, most significant first. */
  function BE(n: nat, k: nat): (r: Bytes)
    ensures |r| == k
    decreases k, n
  {
    if k == 0 then [] else BE(n / 256, k - 1) + [n % 256]
  }

  /** The `k` low-order bytes of `n`, least significant first. */
  function LE(n: nat, k: nat): (r: Bytes)
    ensures |r| == k
    decreases k, n
  {
    if k == 0 then [] else [n % 256] + LE(n / 256, k - 1)
  }

  lemma {:induction false} BEInjective(x: nat, y: nat, k: nat)
    requires x < Pow256(k) && y < Pow256(k)
    requires BE(x, k) == BE(y, k)
    ensures x == y
  {
    if k > 0 {
      var p, q := BE(x / 256, k - 1), BE(y / 256, k - 1);
      assert BE(x, k)[..k - 1] == p && BE(y, k)[..k - 1] == q;
      assert BE(x, k)[k - 1] == x % 256 && BE(y, k)[k - 1] == y % 256;
      BEInjective(x / 256, y / 256, k - 1);
    }
  }

  lemma {:induction false} LEInjective(x: nat, y: nat, k: nat)
    requires x < Pow256(k) && y < Pow256(k)
    requires LE(x, k) == LE(y, k)
    ensures x == y
  {
    if k > 0 {
      assert LE(x, k)[1..] == LE(x / 256, k - 1) && LE(y, k)[1..] == LE(y / 256, k - 1);
      assert LE(x, k)[0] == x % 256 && LE(y, k)[0] == y % 256;
      LEInjective(x / 256, y / 256, k - 1);
    }
  }

  // ---------- what the bytes are worth ----------

  function ShiftRight(x: nat, k: nat): nat
    decreases k, x
  {
    if k == 0 then x else ShiftRight(x, k - 1) / 2
  }

  function Pow2(k: nat): (p: nat)
    ensures p > 0
  {
    if k == 0 then 1 else 2 * Pow2(k - 1)
  }

  lemma {:induction false} ShiftTwice(x: nat, j: nat, k: nat)
    ensures ShiftRight(ShiftRight(x, j), k) == ShiftRight(x, j + k)
  {
    if k > 0 {
      ShiftTwice(x, j, k - 1);
    }
  }

  lemma HalveQuotient(x: nat, p: nat)
    requires p > 0
    ensures x / p / 2 == x / (2 * p)
  {
    var q, r := x / p, x % p;
    var h, b := q / 2, q % 2;
    assert x == p * q + r;
    assert p * q == p * (2 * h) + p * b;
    assert p * (2 * h) == 2 * p * h;
    assert x == 2 * p * h + (p * b + r);
    assert 0 <= p * b + r < 2 * p by {
      if b == 0 {
        assert p * b == 0;
      } else {
        assert p * b == p;
      }
    }
    QuotientIs(x, 2 * p, h, p * b + r);
  }

  lemma QuotientIs(x: nat, d: nat, q: nat, r: nat)
    requires d > 0 && x == d * q + r && r < d
    ensures x / d == q
  {
    assert x == d * (x / d) + x % d;
    assert d * (x / d - q) == r - x % d;
    MultipleBeyond(d, x / d - q);
  }

  lemma MultipleBeyond(d: int, z: int)
    requires d > 0
    ensures z >= 1 ==> d * z >= d
    ensures z <= -1 ==> d * z <= -d
  {
    if z >= 1 {
      assert d * z == d * (z - 1) + d;
    }
    if z <= -1 {
      assert d * z == d * (z + 1) - d;
    }
  }

  /** Halving and parity of what is left after division by an even number. */
  lemma HalfOfRest(y: nat, w: nat)
    requires w > 0
    ensures y % (2 * w) / 2 == y / 2 % w
    ensures y % (2 * w) % 2 == y % 2
  {
    var q, r := y / (2 * w), y % (2 * w);
    assert y == 2 * w * q + r;
    assert 2 * w * q == 2 * (w * q);
    assert y / 2 == w * q + r / 2;
    QuotientIs(y / 2, w, q, r / 2);
    assert y / 2 == w * (y / 2 / w) + y / 2 % w;
  }

  lemma {:induction false} ShiftDivides(x: nat, k: nat)
    ensures ShiftRight(x, k) == x / Pow2(k)
  {
    if k > 0 {
      ShiftDivides(x, k - 1);
      HalveQuotient(x, Pow2(k - 1));
    }
  }

  lemma ShiftByte(x: nat)
    ensures ShiftRight(x, 8) == x / 256
  {
    assert ShiftRight(x, 0) == x;
    var s1, s2, s3, s4 := ShiftRight(x, 1), ShiftRight(x, 2), ShiftRight(x, 3), ShiftRight(x, 4);
    assert s1 == x / 2 && s2 == s1 / 2 && s3 == s2 / 2 && s4 == s3 / 2;
    var s5, s6, s7, s8 := ShiftRight(x, 5), ShiftRight(x, 6), ShiftRight(x, 7), ShiftRight(x, 8);
    assert s5 == s4 / 2 && s6 == s5 / 2 && s7 == s6 / 2 && s8 == s7 / 2;
  }

  /** Byte `i` of the big-endian form. */
  lemma {:induction false} ByteOfBE(n: nat, k: nat, i: nat)
    requires i < k
    ensures BE(n, k)[i] == ShiftRight(n, 8 * (k - 1 - i)) % 256
  {
    if i < k - 1 {
      ByteOfBE(n / 256, k - 1, i);
      ShiftByte(n);
      ShiftTwice(n, 8, 8 * (k - 2 - i));
      assert 8 + 8 * (k - 2 - i) == 8 * (k - 1 - i);
    }
  }

  /** The number a byte string stands for, most significant byte first. */
  function FromBE(bs: Bytes): nat {
    if bs == [] then 0 else 256 * FromBE(bs[..|bs| - 1]) + bs[|bs| - 1]
  }

  /** The number a byte string stands for, least significant byte first. */
  function FromLE(bs: Bytes): nat {
    if bs == [] then 0 else bs[0] + 256 * FromLE(bs[1..])
  }

  lemma {:induction false} BEReadsBack(n: nat, k: nat)
    requires n < Pow256(k)
    ensures FromBE(BE(n, k)) == n
  {
    if k > 0 {
      BEReadsBack(n / 256, k - 1);
      assert BE(n, k)[..k - 1] == BE(n / 256, k - 1);
    }
  }

  lemma {:induction false} LEReadsBack(n: nat, k: nat)
    requires n < Pow256(k)
    ensures FromLE(LE(n, k)) == n
  {
    if k > 0 {
      LEReadsBack(n / 256, k - 1);
      assert LE(n, k)[1..] == LE(n / 256, k - 1);
    }
  }

  lemma BE4Injective(x: u32, y: u32)
    requires BE(x, 4) == BE(y, 4)
    ensures x == y
  {
    Pow256Values();
    BEInjective(x, y, 4);
  }

  lemma BE8Injective(x: u64, y: u64)
    requires BE(x, 8) == BE(y, 8)
    ensures x == y
  {
    Pow256Values();
    BEInjective(x, y, 8);
  }

  lemma BE32Injective(x: U256, y: U256)
    requires BE(x, 32) == BE(y, 32)
    ensures x == y
  {
    Pow256Values();
    BEInjective(x, y, 32);
  }

  // ---------- hexadecimal text ----------

  function HexDigit(v: nat): (c: Byte)
    requires v < 16
    ensures 48 <= c <= 57 || 97 <= c <= 102
  {
    if v < 10 then 48 + v else 87 + v
  }

  /** Lower-case hexadecimal rendering, two characters a byte. */
  function Hex(bs: Bytes): (r: Bytes)
    ensures |r| == 2 * |bs|
  {
    if bs == [] then [] else [HexDigit(bs[0] / 16), HexDigit(bs[0] % 16)] + Hex(bs[1..])
  }

  lemma {:induction false} HexInjective(a: Bytes, b: Bytes)
    requires Hex(a) == Hex(b)
    ensures a == b
  {
    if a == [] {
      assert |Hex(b)| == 0;
    } else {
      assert |Hex(b)| == 2 * |a|;
      assert Hex(a)[0] == HexDigit(a[0] / 16) && Hex(b)[0] == HexDigit(b[0] / 16);
      assert Hex(a)[1] == HexDigit(a[0] % 16) && Hex(b)[1] == HexDigit(b[0] % 16);
      assert a[0] == b[0];
      assert Hex(a)[2..] == Hex(a[1..]) && Hex(b)[2..] == Hex(b[1..]);
      HexInjective(a[1..], b[1..]);
      assert a == [a[0]] + a[1..] && b == [b[0]] + b[1..];
    }
  }

  function DigitValue(c: Byte): (v: nat) {
    if '0' as int <= c <= '9' as int then c - '0' as int
    else if 'a' as int <= c <= 'f' as int then c - 'a' as int + 10
    else 0
  }

  /** Lower-case hexadecimal, high digit first: reading the digits gives the bytes back. */
  function Unhex(text: Bytes): (bs: Bytes) {
    if |text| < 2 then [] else [(16 * DigitValue(text[0]) + DigitValue(text[1])) % 256] + Unhex(text[2..])
  }

  lemma DigitReadsBack(v: nat)
    requires v < 16
    ensures DigitValue(HexDigit(v)) == v
  {
  }

  lemma {:induction false} HexReadsBack(bs: Bytes)
    ensures Unhex(Hex(bs)) == bs
  {
    hide HexDigit, DigitValue;
    if bs != [] {
      var text := Hex(bs);
      HexReadsBack(bs[1..]);
      DigitReadsBack(bs[0] / 16);
      DigitReadsBack(bs[0] % 16);
      assert text[0] == HexDigit(bs[0] / 16) && text[1] == HexDigit(bs[0] % 16);
      assert text[2..] == Hex(bs[1..]);
      assert bs == [bs[0]] + bs[1..];
    }
  }

  // ---------- concatenations of chunks ----------

  /** What a hasher has consumed after being fed `chunks` one after the other. */
  function Flatten(chunks: seq<Bytes>): (r: Bytes)
  {
    if chunks == [] then [] else chunks[0] + Flatten(chunks[1..])
  }

  /** Two chunk lists with the same concatenation agree on every leading chunk
      for as long as the chunk lengths agree. */
  lemma {:induction false} FlattenAgree(xs: seq<Bytes>, ys: seq<Bytes>, k: nat)
    requires k <= |xs| && k <= |ys|
    requires Flatten(xs) == Flatten(ys)
    requires forall i :: 0 <= i < k ==> |xs[i]| == |ys[i]|
    ensures forall i :: 0 <= i < k ==> xs[i] == ys[i]
    ensures Flatten(xs[k..]) == Flatten(ys[k..])
  {
    if k == 0 {
      assert xs[0..] == xs && ys[0..] == ys;
    } else {
      var n := |xs[0]|;
      assert Flatten(xs)[..n] == xs[0] && Flatten(ys)[..n] == ys[0];
      assert Flatten(xs)[n..] == Flatten(xs[1..]) && Flatten(ys)[n..] == Flatten(ys[1..]);
      FlattenAgree(xs[1..], ys[1..], k - 1);
      assert xs[1..][k - 1..] == xs[k..] && ys[1..][k - 1..] == ys[k..];
      forall i | 0 <= i < k
        ensures xs[i] == ys[i]
      {
        if i > 0 {
          assert xs[1..][i - 1] == ys[1..][i - 1];
        }
      }
    }
  }

  lemma FlattenLength(xs: seq<Bytes>, width: nat)
    requires forall x :: x in xs ==> |x| == width
    ensures xs != [] ==> |Flatten(xs)| >= width
  {
    if xs != [] {
      assert xs[0] in xs;
    }
  }

  /** Chunks of one positive width can be cut apart again. */
  lemma {:induction false} FlattenUniformInjective(xs: seq<Bytes>, ys: seq<Bytes>, width: nat)
    requires width > 0
    requires forall x :: x in xs ==> |x| == width
    requires forall y :: y in ys ==> |y| == width
    requires Flatten(xs) == Flatten(ys)
    ensures xs == ys
  {
    FlattenLength(xs, width);
    FlattenLength(ys, width);
    if xs != [] && ys != [] {
      assert xs[0] in xs && ys[0] in ys;
      FlattenAgree(xs, ys, 1);
      assert forall x :: x in xs[1..] ==> x in xs;
      assert forall y :: y in ys[1..] ==> y in ys;
      FlattenUniformInjective(xs[1..], ys[1..], width);
      assert xs == [xs[0]] + xs[1..] && ys == [ys[0]] + ys[1..];
    }
  }
}

/**
 * Fixed-width unsigned integers and their byte encodings.  Network headers are
 * big-endian (network byte order); the packed structures shared between the
 * XDP program and user space are laid out in the host's order, which is
 * little-endian on the machines the program targets.
 */
module Bytes {

  type byte = x: int | 0 <= x < 0x100
  type u16 = x: int | 0 <= x < 0x1_0000
  type u32 = x: int | 0 <= x < 0x1_0000_0000
  type u64 = x: int | 0 <= x < 0x1_0000_0000_0000_0000

  /** 256 to the power n: the number of values n bytes can hold. */
  function Pow256(n: nat): (r: nat)
    ensures r >= 1
  {
    if n == 0 then 1 else 256 * Pow256(n - 1)
  }

  /** The unsigned big-endian value of a byte string (most significant byte first). */
  function FromBE(s: seq<byte>): nat
  {
    if s == [] then 0 else FromBE(s[..|s| - 1]) * 256 + s[|s| - 1]
  }

  /** The n low-order bytes of x, most significant first. */
  function ToBE(x: nat, n: nat): (r: seq<byte>)
    ensures |r| == n
  {
    if n == 0 then [] else ToBE(x / 256, n - 1) + [x % 256]
  }

  /** The unsigned little-endian value of a byte string (least significant byte first). */
  function FromLE(s: seq<byte>): nat
  {
    if s == [] then 0 else s[0] + 256 * FromLE(s[1..])
  }

  /** The n low-order bytes of x, least significant first. */
  function ToLE(x: nat, n: nat): (r: seq<byte>)
    ensures |r| == n
  {
    if n == 0 then [] else [x % 256] + ToLE(x / 256, n - 1)
  }

  lemma {:induction false} FromBEBound(s: seq<byte>)
    ensures FromBE(s) < Pow256(|s|)
  {
    if s != [] {
      FromBEBound(s[..|s| - 1]);
    }
  }

  lemma {:induction false} FromLEBound(s: seq<byte>)
    ensures FromLE(s) < Pow256(|s|)
  {
    if s != [] {
      FromLEBound(s[1..]);
    }
  }

  /** Decoding what was encoded gives back the value modulo the width. */
  lemma {:induction false} BERoundTrip(x: nat, n: nat)
    ensures FromBE(ToBE(x, n)) == x % Pow256(n)
  {
    if n > 0 {
      var r := ToBE(x, n);
      assert r[..n - 1] == ToBE(x / 256, n - 1);
      BERoundTrip(x / 256, n - 1);
      DivMod256(x, Pow256(n - 1));
    }
  }

  lemma {:induction false} LERoundTrip(x: nat, n: nat)
    ensures FromLE(ToLE(x, n)) == x % Pow256(n)
  {
    if n > 0 {
      var r := ToLE(x, n);
      assert r[1..] == ToLE(x / 256, n - 1);
      LERoundTrip(x / 256, n - 1);
      DivMod256(x, Pow256(n - 1));
    }
  }

  /** (x / 256 mod p) * 256 + x mod 256 is x mod 256p. */
  lemma DivMod256(x: nat, p: nat)
    requires p >= 1
    ensures (x / 256) % p * 256 + x % 256 == x % (256 * p)
  {
    var q, r := x / 256, x % 256;
    var a, b := q / p, q % p;
    assert x == 256 * q + r;
    assert q == p * a + b;
    assert 256 * q == (256 * p) * a + 256 * b by {
      MulAssoc(256, p, a);
    }
    ModUnique(x, 256 * p, a, 256 * b + r);
  }

  lemma MulAssoc(x: int, y: int, z: int)
    ensures x * (y * z) == (x * y) * z
  {
  }

  /** Euclidean division is unique: x = m * a + c with 0 <= c < m determines both. */
  lemma ModUnique(x: int, m: int, a: int, c: int)
    requires m > 0 && 0 <= c < m && x == m * a + c
    ensures x % m == c && x / m == a
  {
    var q, r := x / m, x % m;
    assert x == m * q + r;
    assert m * (a - q) == r - c;
    if a - q >= 1 {
      MulMono(m, a - q);
      assert false;
    } else if a - q <= -1 {
      MulMono(m, q - a);
      assert false;
    }
  }

  lemma MulMono(m: int, k: int)
    requires m > 0 && k >= 1
    ensures m * k >= m
  {
  }

  /** Encoding what was decoded gives back the bytes. */
  lemma {:induction false} BEInverse(s: seq<byte>)
    ensures ToBE(FromBE(s), |s|) == s
  {
    if s != [] {
      var init, last := s[..|s| - 1], s[|s| - 1];
      BEInverse(init);
      var x := FromBE(init) * 256 + last;
      assert x / 256 == FromBE(init) && x % 256 == last;
      assert s == init + [last];
    }
  }

  lemma {:induction false} LEInverse(s: seq<byte>)
    ensures ToLE(FromLE(s), |s|) == s
  {
    if s != [] {
      LEInverse(s[1..]);
      var x := s[0] + 256 * FromLE(s[1..]);
      assert x / 256 == FromLE(s[1..]) && x % 256 == s[0];
      assert s == [s[0]] + s[1..];
    }
  }

  /** Two byte strings of one width with the same little-endian value are equal. */
  lemma LEInjective(a: seq<byte>, b: seq<byte>)
    requires |a| == |b|
    ensures FromLE(a) == FromLE(b) <==> a == b
  {
    if FromLE(a) == FromLE(b) {
      LEInverse(a);
      LEInverse(b);
    }
  }

  /** Two byte strings of one width with the same big-endian value are equal. */
  lemma BEInjective(a: seq<byte>, b: seq<byte>)
    requires |a| == |b|
    ensures FromBE(a) == FromBE(b) <==> a == b
  {
    if FromBE(a) == FromBE(b) {
      BEInverse(a);
      BEInverse(b);
    }
  }

  /** Rust's `u16::from_be` applied to the two bytes as they lie in memory. */
  function U16BE(s: seq<byte>): (r: u16)
    requires |s| == 2
    ensures r == FromBE(s)
  {
    assert FromBE(s[..1]) == s[0] by {
      assert s[..1][..0] == [];
    }
    assert FromBE(s) == FromBE(s[..1]) * 256 + s[1];
    (s[0] as int) * 256 + s[1]
  }

  /** Rust's `u32::from_be` applied to the four bytes as they lie in memory. */
  function U32BE(s: seq<byte>): (r: u32)
    requires |s| == 4
    ensures r == FromBE(s)
  {
    assert FromBE(s[..2]) == U16BE(s[..2]);
    assert FromBE(s[..3]) == FromBE(s[..2]) * 256 + s[2] by {
      assert s[..3][..2] == s[..2];
    }
    assert FromBE(s) == FromBE(s[..3]) * 256 + s[3] by {
      assert s[..3] == s[..|s| - 1];
    }
    (((s[0] as int) * 256 + s[1]) * 256 + s[2]) * 256 + s[3]
  }

  /** A four-byte load on a little-endian host, and `u32::from_le_bytes`. */
  function U32LE(s: seq<byte>): (r: u32)
    requires |s| == 4
    ensures r == FromLE(s)
  {
    assert FromLE(s[3..]) == s[3] by {
      assert s[3..][1..] == [];
    }
    assert FromLE(s[2..]) == s[2] + 256 * FromLE(s[3..]) by {
      assert s[2..][1..] == s[3..];
    }
    assert FromLE(s[1..]) == s[1] + 256 * FromLE(s[2..]) by {
      assert s[1..][1..] == s[2..];
    }
    (s[0] as int) + 256 * ((s[1] as int) + 256 * ((s[2] as int) + 256 * (s[3] as int)))
  }
}

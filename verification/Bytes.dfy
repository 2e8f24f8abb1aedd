/**
 Byte strings as big-endian numbers, in both directions.
 */
module Bytes {
  import opened Base

  function Pow(base: nat, e: nat): nat {
    if e == 0 then 1 else base * Pow(base, e - 1)
  }

  /** Big-endian value of a byte string. */
  function BigEndian(bytes: seq<byte>): nat {
    if bytes == [] then 0 else BigEndian(bytes[..|bytes| - 1]) * 256 + bytes[|bytes| - 1]
  }

  lemma MulAssoc(a: nat, b: nat, c: nat)
    ensures a * (b * c) == (a * b) * c
  {}

  lemma {:induction false} BigEndianUpper(bytes: seq<byte>)
    ensures BigEndian(bytes) < Pow(256, |bytes|)
  {
    if bytes != [] { BigEndianUpper(bytes[..|bytes| - 1]); }
  }

  lemma {:induction false} PowMono(base: nat, a: nat, b: nat)
    requires base > 0 && a <= b
    ensures Pow(base, a) <= Pow(base, b)
    decreases b
  {
    if a < b {
      PowMono(base, a, b - 1);
      MulGrows(base, Pow(base, b - 1));
    }
  }

  lemma MulGrows(base: nat, x: nat)
    requires base > 0
    ensures base * x >= x
  {}

  lemma {:induction false} PowAdd(base: nat, a: nat, b: nat)
    ensures Pow(base, a + b) == Pow(base, a) * Pow(base, b)
  {
    if a > 0 {
      PowAdd(base, a - 1, b);
      MulAssoc(base, Pow(base, a - 1), Pow(base, b));
    }
  }

  lemma {:induction false} BigEndianInjective(a: seq<byte>, b: seq<byte>)
    requires |a| == |b| && BigEndian(a) == BigEndian(b)
    ensures a == b
  {
    if a != [] {
      var x, y := a[|a| - 1], b[|b| - 1];
      BigEndianInjective(a[..|a| - 1], b[..|b| - 1]);
      assert a == a[..|a| - 1] + [x] && b == b[..|b| - 1] + [y];
    }
  }

  /** The first byte weighs most. */
  lemma {:induction false} BigEndianLead(b: byte, rest: seq<byte>)
    ensures BigEndian([b] + rest) == b * Pow(256, |rest|) + BigEndian(rest)
  {
    if rest == [] {
      assert [b] + rest == [b] && [b][..0] == [];
    } else {
      var init, x, p := rest[..|rest| - 1], rest[|rest| - 1], Pow(256, |rest| - 1);
      assert ([b] + rest)[..|rest|] == [b] + init;
      BigEndianLead(b, init);
      MulAssoc(b, 256, p);
      assert (b * p + BigEndian(init)) * 256 == b * (256 * p) + BigEndian(init) * 256;
    }
  }

  /** The `k`-byte big-endian form of a number. */
  function ToBytes(n: nat, k: nat): (bytes: seq<byte>)
    ensures |bytes| == k
  {
    if k == 0 then [] else ToBytes(n / 256, k - 1) + [n % 256]
  }

  /** Encoding then reading back gives the number, if it fits. */
  lemma {:induction false} FromTo(n: nat, k: nat)
    requires n < Pow(256, k)
    ensures BigEndian(ToBytes(n, k)) == n
  {
    if k > 0 {
      FromTo(n / 256, k - 1);
      assert ToBytes(n, k)[..k - 1] == ToBytes(n / 256, k - 1);
    }
  }

  /** Reading then encoding gives the bytes. */
  lemma ToFrom(bytes: seq<byte>)
    ensures ToBytes(BigEndian(bytes), |bytes|) == bytes
  {
    BigEndianUpper(bytes);
    FromTo(BigEndian(bytes), |bytes|);
    BigEndianInjective(ToBytes(BigEndian(bytes), |bytes|), bytes);
  }

  lemma U64Range()
    ensures Pow(256, 8) == U64_MAX + 1 && Pow(256, 2) == 65536
  {}
}

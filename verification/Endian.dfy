/** Fixed-width integers as bytes: `to_le_bytes`, `from_le_bytes` and their big-endian twins. */
module Endian {
  import opened ByteStrings

  newtype u16 = x: int | 0 <= x < 0x1_0000
  newtype u64 = x: int | 0 <= x < 0x1_0000_0000_0000_0000

  function Pow256(w: nat): (p: nat)
    ensures p >= 1
  {
    if w == 0 then 1 else 256 * Pow256(w - 1)
  }

  /** The low `w` bytes of `n`, least significant first. Higher bytes are cut off, as an `as` cast does. */
  function LeBytes(n: nat, w: nat): (b: Bytes)
    ensures |b| == w
  {
    if w == 0 then [] else [(n % 256) as byte] + LeBytes(n / 256, w - 1)
  }

  function LeValue(b: Bytes): nat {
    if b == [] then 0 else b[0] as nat + 256 * LeValue(b[1..])
  }

  function BeBytes(n: nat, w: nat): (b: Bytes)
    ensures |b| == w
  {
    if w == 0 then [] else BeBytes(n / 256, w - 1) + [(n % 256) as byte]
  }

  function BeValue(b: Bytes): nat {
    if b == [] then 0 else 256 * BeValue(b[..|b| - 1]) + b[|b| - 1] as nat
  }

  /** Reading back gives the number modulo the width. */
  lemma {:induction false} LeReadsBack(n: nat, w: nat)
    ensures LeValue(LeBytes(n, w)) == n % Pow256(w)
  {
    if w > 0 {
      LeReadsBack(n / 256, w - 1);
      assert LeBytes(n, w)[1..] == LeBytes(n / 256, w - 1);
      ModSplit(n, Pow256(w - 1));
    }
  }

  lemma {:induction false} BeReadsBack(n: nat, w: nat)
    ensures BeValue(BeBytes(n, w)) == n % Pow256(w)
  {
    if w > 0 {
      BeReadsBack(n / 256, w - 1);
      assert BeBytes(n, w)[..w - 1] == BeBytes(n / 256, w - 1);
      ModSplit(n, Pow256(w - 1));
    }
  }

  lemma ModSplit(n: nat, p: nat)
    requires p >= 1
    ensures n % (256 * p) == n % 256 + 256 * (n / 256 % p)
  {
    var q, r := n / 256, n % 256;
    var a, b := q / p, q % p;
    assert n == 256 * q + r && q == p * a + b;
    assert n == (256 * p) * a + (256 * b + r) by {
      assert 256 * (p * a) == (256 * p) * a;
    }
    assert 0 <= 256 * b + r < 256 * p;
    ModUnique(n, 256 * p, a, 256 * b + r);
  }

  lemma ModUnique(n: int, m: int, a: int, r: int)
    requires m >= 1 && 0 <= r < m && n == m * a + r
    ensures n % m == r
  {
    var d := n / m - a;
    assert n == m * (n / m) + n % m;
    assert m * d == r - n % m by {
      assert m * d == m * (n / m) - m * a;
    }
    assert d == 0 by {
      assert d >= 1 ==> m * d >= m;
      assert d <= -1 ==> m * d <= -m;
    }
  }

  lemma U32ReadsBack(n: nat)
    ensures LeValue(LeBytes(n, 4)) == n % 0x1_0000_0000
  {
    LeReadsBack(n, 4);
    assert Pow256(4) == 0x1_0000_0000;
  }

  lemma U16ReadsBack(n: nat)
    requires n < 0x1_0000
    ensures BeValue(BeBytes(n, 2)) == n
  {
    BeReadsBack(n, 2);
    assert Pow256(2) == 0x1_0000;
  }

  lemma U64ReadsBack(n: nat)
    requires n < 0x1_0000_0000_0000_0000
    ensures BeValue(BeBytes(n, 8)) == n
  {
    BeReadsBack(n, 8);
    assert Pow256(4) == 0x1_0000_0000;
    assert Pow256(8) == 0x1_0000_0000_0000_0000;
  }

  lemma U16InRange(b: Bytes)
    requires |b| == 2
    ensures BeValue(b) < 0x1_0000
  {
    BeWritesBack(b);
    assert Pow256(2) == 0x1_0000;
  }

  /** Every byte string of the width is the encoding of its value. */
  lemma {:induction false} LeWritesBack(b: Bytes)
    ensures LeBytes(LeValue(b), |b|) == b
  {
    if b != [] {
      LeWritesBack(b[1..]);
      assert b == [b[0]] + b[1..];
    }
  }

  lemma {:induction false} BeWritesBack(b: Bytes)
    ensures BeBytes(BeValue(b), |b|) == b && BeValue(b) < Pow256(|b|)
  {
    if b != [] {
      BeWritesBack(b[..|b| - 1]);
      assert b == b[..|b| - 1] + [b[|b| - 1]];
    }
  }

  method ToLe(n: nat, w: nat) returns (a: array<byte>)
    ensures fresh(a) && a[..] == LeBytes(n, w)
  {
    a := new byte[w];
    var m := n;
    for i := 0 to w
      invariant LeBytes(n, w) == a[..i] + LeBytes(m, w - i)
    {
      assert LeBytes(m, w - i)[1..] == LeBytes(m / 256, w - i - 1);
      a[i] := (m % 256) as byte;
      m := m / 256;
    }
  }

  method FromLe(a: array<byte>) returns (n: nat)
    ensures n == LeValue(a[..])
  {
    n := 0;
    for i := a.Length downto 0
      invariant n == LeValue(a[i..])
    {
      assert a[i..][1..] == a[i + 1..];
      n := a[i] as nat + 256 * n;
    }
    assert a[0..] == a[..];
  }

  method ToBe(n: nat, w: nat) returns (a: array<byte>)
    ensures fresh(a) && a[..] == BeBytes(n, w)
  {
    a := new byte[w];
    var m := n;
    for i := w downto 0
      invariant BeBytes(n, w) == BeBytes(m, i) + a[i..]
    {
      assert BeBytes(m, i + 1) == BeBytes(m / 256, i) + [(m % 256) as byte];
      a[i] := (m % 256) as byte;
      m := m / 256;
    }
  }

  method FromBe(a: array<byte>) returns (n: nat)
    ensures n == BeValue(a[..])
  {
    n := 0;
    for i := 0 to a.Length
      invariant n == BeValue(a[..i])
    {
      assert a[..i + 1][..i] == a[..i];
      n := 256 * n + a[i] as nat;
    }
    assert a[..a.Length] == a[..];
  }
}

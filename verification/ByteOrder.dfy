/** Byte strings, the order Pebble keeps its keys in, and the fixed-width number codecs. */
module ByteOrder {
  import PowersOfTwo

  type Byte = x: int | 0 <= x < 0x100
  type Bytes = seq<Byte>
  type U32 = x: int | 0 <= x < 0x1_0000_0000
  type U64 = x: int | 0 <= x < 0x1_0000_0000_0000_0000

  const MAX_U32: U32 := 0xFFFF_FFFF

  function Fill(b: Byte, n: nat): (r: Bytes)
    ensures |r| == n
  {
    seq(n, _ => b)
  }

  /** Block hashes and txids: 32 bytes. */
  type Hash = b: Bytes | |b| == 32 witness Fill(0, 32)

  const ZERO_HASH: Hash := Fill(0, 32)
  const MAX_HASH: Hash := Fill(0xFF, 32)

  // ---------- bytes.Compare ----------

  /** `bytes.Compare(a, b) < 0`. */
  predicate Lt(a: Bytes, b: Bytes) {
    b != [] && (a == [] || a[0] < b[0] || (a[0] == b[0] && Lt(a[1..], b[1..])))
  }

  lemma {:induction false} LtTotal(a: Bytes, b: Bytes)
    ensures Lt(a, b) || a == b || Lt(b, a)
  {
    if a != [] && b != [] && a[0] == b[0] {
      LtTotal(a[1..], b[1..]);
      assert a == [a[0]] + a[1..] && b == [b[0]] + b[1..];
    }
  }

  lemma {:induction false} LtAsymmetric(a: Bytes, b: Bytes)
    requires Lt(a, b)
    ensures !Lt(b, a) && a != b
  {
    if a != [] && a[0] == b[0] {
      LtAsymmetric(a[1..], b[1..]);
    }
  }

  lemma {:induction false} LtTransitive(a: Bytes, b: Bytes, c: Bytes)
    requires Lt(a, b) && Lt(b, c)
    ensures Lt(a, c)
  {
    if a != [] && a[0] == b[0] && b[0] == c[0] {
      LtTransitive(a[1..], b[1..], c[1..]);
    }
  }

  /** Strings that start with fields of equal width compare field by field. */
  lemma {:induction false} LtConcat(a: Bytes, b: Bytes, x: Bytes, y: Bytes)
    requires |a| == |b|
    ensures Lt(a + x, b + y) <==> Lt(a, b) || (a == b && Lt(x, y))
  {
    if a == [] {
      assert a + x == x && b + y == y;
    } else {
      assert (a + x)[1..] == a[1..] + x && (b + y)[1..] == b[1..] + y;
      assert a == [a[0]] + a[1..] && b == [b[0]] + b[1..];
      LtConcat(a[1..], b[1..], x, y);
    }
  }

  /** The all-0x00 string is least and the all-0xFF string greatest among strings of one width. */
  lemma {:induction false} LtExtremes(h: Bytes, n: nat)
    requires |h| == n
    ensures !Lt(h, Fill(0, n))
    ensures Lt(h, Fill(0xFF, n)) <==> h != Fill(0xFF, n)
  {
    if n > 0 {
      LtExtremes(h[1..], n - 1);
      assert h == [h[0]] + h[1..];
      assert Fill(0, n)[1..] == Fill(0, n - 1) && Fill(0xFF, n)[1..] == Fill(0xFF, n - 1);
      assert Fill(0xFF, n) == [0xFF] + Fill(0xFF, n - 1);
    } else {
      assert h == Fill(0xFF, 0);
    }
  }

  // ---------- binary.BigEndian / binary.LittleEndian ----------

  function BE32(u: U32): (b: Bytes)
    ensures |b| == 4
  {
    [u / 0x100_0000, u / 0x1_0000 % 0x100, u / 0x100 % 0x100, u % 0x100]
  }

  function FromBE32(b: Bytes): (u: U32)
    requires |b| == 4
  {
    var b0: int, b1: int, b2: int, b3: int := b[0], b[1], b[2], b[3];
    ((b0 * 0x100 + b1) * 0x100 + b2) * 0x100 + b3
  }

  lemma BE32RoundTrip(u: U32)
    ensures FromBE32(BE32(u)) == u
  {
    assert u / 0x1_0000 == u / 0x100 / 0x100;
    assert u / 0x100_0000 == u / 0x1_0000 / 0x100;
  }

  /** Big-endian byte order is numeric order. */
  lemma BE32Order(u: U32, v: U32)
    ensures Lt(BE32(u), BE32(v)) <==> u < v
  {
    var a, b := BE32(u), BE32(v);
    BE32RoundTrip(u);
    BE32RoundTrip(v);
    assert a[1..][1..] == a[2..] && b[1..][1..] == b[2..];
    assert a[2..][1..] == a[3..] && b[2..][1..] == b[3..];
    assert a[3..][1..] == [] && b[3..][1..] == [];
    assert Lt(a[3..], b[3..]) <==> a[3] < b[3];
    assert Lt(a[2..], b[2..]) <==> a[2] < b[2] || (a[2] == b[2] && a[3] < b[3]);
    assert Lt(a[1..], b[1..]) <==> a[1] < b[1] || (a[1] == b[1] && Lt(a[2..], b[2..]));
  }

  lemma BE32Extremes()
    ensures BE32(0) == Fill(0, 4) && BE32(MAX_U32) == Fill(0xFF, 4)
  {
  }

  function LE(u: nat, n: nat): (b: Bytes)
    ensures |b| == n
  {
    if n == 0 then [] else [u % 0x100] + LE(u / 0x100, n - 1)
  }

  function FromLE(b: Bytes): nat {
    if b == [] then 0 else b[0] + 0x100 * FromLE(b[1..])
  }

  function Pow256(n: nat): nat {
    if n == 0 then 1 else 0x100 * Pow256(n - 1)
  }

  lemma {:induction false} LERoundTrip(u: nat, n: nat)
    requires u < Pow256(n)
    ensures FromLE(LE(u, n)) == u
  {
    if n > 0 {
      LERoundTrip(u / 0x100, n - 1);
      assert LE(u, n)[1..] == LE(u / 0x100, n - 1);
    }
  }

  lemma {:induction false} FromLEBound(b: Bytes)
    ensures FromLE(b) < Pow256(|b|)
  {
    if b != [] {
      FromLEBound(b[1..]);
    }
  }

  /** `binary.LittleEndian.PutUint64` and `Uint64`. */
  function LE64(u: U64): (b: Bytes)
    ensures |b| == 8
  {
    LE(u, 8)
  }

  lemma Pow256Eight()
    ensures Pow256(8) == 0x1_0000_0000_0000_0000
  {
    assert Pow256(4) == 0x1_0000_0000;
    assert Pow256(6) == 0x1_0000_0000_0000;
  }

  function FromLE64(b: Bytes): (u: U64)
    requires |b| == 8
  {
    FromLEBound(b);
    Pow256Eight();
    FromLE(b)
  }

  lemma LE64RoundTrip(u: U64)
    ensures FromLE64(LE64(u)) == u
  {
    Pow256Eight();
    LERoundTrip(u, 8);
  }

  lemma DivTwice(u: nat, p: nat)
    requires p > 0
    ensures (u / 0x100) / p == u / (0x100 * p)
  {
    var a, q := u / 0x100, u / 0x100 / p;
    assert a == q * p + a % p && u == 0x100 * a + u % 0x100;
    assert 0x100 * (q * p) == q * (0x100 * p);
    PowersOfTwo.DivisionUnique(u, 0x100 * p, q, u - q * (0x100 * p));
  }

  /** Byte i of a little-endian number is its i-th digit in base 256, the lowest first. */
  lemma {:induction false} LEByte(u: nat, n: nat, i: nat)
    requires i < n
    ensures Pow256(i) > 0 && |LE(u, n)| == n && LE(u, n)[i] == u / Pow256(i) % 0x100
  {
    if i > 0 {
      LEByte(u / 0x100, n - 1, i - 1);
      DivTwice(u, Pow256(i - 1));
    }
  }
}

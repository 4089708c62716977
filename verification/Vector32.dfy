/** 32-byte vectors, the numbers read out of them, and byte order. */
module Vector32 {
  import opened Base

  /** The number an x86 load reads from these bytes. */
  function LittleEndian(b: seq<byte>): nat {
    if b == [] then 0 else b[0] + 0x100 * LittleEndian(b[1..])
  }

  function BigEndian(b: seq<byte>): nat {
    if b == [] then 0 else 0x100 * BigEndian(b[..|b| - 1]) + b[|b| - 1]
  }

  /** The bytes an x86 store of `n` bytes writes. */
  function ToBytes(x: nat, n: nat): (b: seq<byte>)
    ensures |b| == n
  {
    if n == 0 then [] else [x % 0x100] + ToBytes(x / 0x100, n - 1)
  }

  /** `__builtin_bswap32` and `__builtin_bswap64`, for four and eight bytes. */
  function ByteSwap(x: nat, n: nat): nat {
    BigEndian(ToBytes(x, n))
  }

  function Pow256(n: nat): (p: nat)
    ensures p > 0
  {
    if n == 0 then 1 else 0x100 * Pow256(n - 1)
  }

  lemma {:induction false} BytesRoundTrip(b: seq<byte>)
    ensures ToBytes(LittleEndian(b), |b|) == b
  {
    if b != [] {
      BytesRoundTrip(b[1..]);
    }
  }

  /** Swapping the bytes of what was loaded reads the same bytes big-endian. */
  lemma SwappedLoad(b: seq<byte>)
    ensures ByteSwap(LittleEndian(b), |b|) == BigEndian(b)
  {
    BytesRoundTrip(b);
  }

  lemma {:induction false} LittleEndianAppend(a: seq<byte>, b: seq<byte>)
    ensures LittleEndian(a + b) == LittleEndian(a) + Pow256(|a|) * LittleEndian(b)
  {
    if a == [] {
      assert a + b == b;
    } else {
      assert (a + b)[1..] == a[1..] + b;
      LittleEndianAppend(a[1..], b);
    }
  }

  lemma Distribute(p: nat, x: nat, y: nat, z: nat)
    ensures 0x100 * (p * x + y) + z == (0x100 * p) * x + (0x100 * y + z)
  {
  }

  lemma {:induction false} BigEndianAppend(a: seq<byte>, b: seq<byte>)
    ensures BigEndian(a + b) == Pow256(|b|) * BigEndian(a) + BigEndian(b)
  {
    if b == [] {
      assert a + b == a;
    } else {
      var n := |b| - 1;
      assert (a + b)[..|a| + n] == a + b[..n];
      BigEndianAppend(a, b[..n]);
      Distribute(Pow256(n), BigEndian(a), BigEndian(b[..n]), b[n]);
    }
  }

  function ToBigEndian(x: nat, n: nat): (b: seq<byte>)
    ensures |b| == n
  {
    if n == 0 then [] else ToBigEndian(x / 0x100, n - 1) + [x % 0x100]
  }

  lemma {:induction false} BigEndianRoundTrip(x: nat, n: nat)
    requires x < Pow256(n)
    ensures BigEndian(ToBigEndian(x, n)) == x
  {
    if n > 0 {
      BigEndianRoundTrip(x / 0x100, n - 1);
      assert ToBigEndian(x, n)[..n - 1] == ToBigEndian(x / 0x100, n - 1);
    }
  }

  lemma {:induction false} BigEndianBound(b: seq<byte>)
    ensures BigEndian(b) < Pow256(|b|)
  {
    if b != [] {
      BigEndianBound(b[..|b| - 1]);
    }
  }

  lemma {:induction false} LittleEndianBound(b: seq<byte>)
    ensures LittleEndian(b) < Pow256(|b|)
  {
    if b != [] {
      LittleEndianBound(b[1..]);
    }
  }

  /** The powers for the widths in use; `n` keeps the solver from unfolding. */
  lemma Widths(n: nat)
    ensures n == 4 ==> Pow256(n) == TWO32
    ensures n == 8 ==> Pow256(n) == TWO64
  {
    if n == 4 || n == 8 {
      assert Pow256(n) == 0x100000000 * Pow256(n - 4) by {
        assert Pow256(n) == 0x100 * Pow256(n - 1) == 0x10000 * Pow256(n - 2) == 0x1000000 * Pow256(n - 3);
      }
      if n == 8 {
        assert Pow256(n - 4) == 0x100 * Pow256(n - 5) == 0x10000 * Pow256(n - 6) == 0x1000000 * Pow256(n - 7);
      }
    }
  }

  /** The bytes of a 32-bit number in memory. */
  function Word(x: u32): (b: seq<byte>)
    ensures |b| == 4
  {
    var y := x / 0x100;
    var z := y / 0x100;
    [x % 0x100, y % 0x100, z % 0x100, z / 0x100]
  }

  lemma FourBytes(b: seq<byte>)
    requires |b| == 4
    ensures LittleEndian(b) == b[0] as int + 0x100 * b[1] as int + 0x10000 * b[2] as int + 0x1000000 * b[3] as int
  {
    var c, d, e := b[1..], b[2..], b[3..];
    assert c[1..] == d && d[1..] == e && e[1..] == [];
    assert LittleEndian(e) == b[3];
    assert LittleEndian(d) == b[2] as int + 0x100 * b[3] as int;
    assert LittleEndian(c) == b[1] as int + 0x100 * LittleEndian(d);
  }

  lemma OneByte(x: byte, m: nat)
    ensures (x + 0x100 * m) % 0x100 == x && (x + 0x100 * m) / 0x100 == m
  {
  }

  lemma SameWord(x: byte, y: byte, z: byte, w: byte, n: nat)
    requires n == x as int + 0x100 * y as int + 0x10000 * z as int + 0x1000000 * w as int
    ensures n < TWO32 && Word(n) == [x, y, z, w]
  {
    var k: nat := z as int + 0x100 * w as int;
    var m: nat := y as int + 0x100 * k;
    assert n == x as int + 0x100 * m;
    OneByte(x, m);
    OneByte(y, k);
    OneByte(z, w);
  }

  lemma WordValue(x: u32)
    ensures LittleEndian(Word(x)) == x
  {
    FourBytes(Word(x));
  }

  lemma WordOfBytes(b: seq<byte>)
    requires |b| == 4
    ensures LittleEndian(b) < TWO32 && Word(LittleEndian(b)) == b
  {
    FourBytes(b);
    SameWord(b[0], b[1], b[2], b[3], LittleEndian(b));
  }

  // ---------------------------------------------------------------- v32

  type v32 = d: seq<byte> | |d| == 32 witness seq(32, _ => 0)

  function GetWork32(d: v32): nat {
    ByteSwap(LittleEndian(d[..4]), 4)
  }

  function GetWork64(d: v32): nat {
    ByteSwap(LittleEndian(d[..8]), 8)
  }

  /** The 63-bit id. */
  function GetId(d: v32): nat {
    LittleEndian(d[..8]) % TWO63
  }

  /** Both work values are the leading bytes read big-endian, so the shorter is the upper half of the longer. */
  lemma WorkIsBigEndian(d: v32)
    ensures GetWork32(d) == BigEndian(d[..4]) < TWO32
    ensures GetWork64(d) == BigEndian(d[..8]) < TWO64
    ensures GetWork64(d) == GetWork32(d) * TWO32 + BigEndian(d[4..8]) && BigEndian(d[4..8]) < TWO32
  {
    SwappedLoad(d[..4]);
    SwappedLoad(d[..8]);
    BigEndianBound(d[..4]);
    BigEndianBound(d[4..8]);
    BigEndianBound(d[..8]);
    assert d[..8] == d[..4] + d[4..8];
    BigEndianAppend(d[..4], d[4..8]);
    Widths(|d[..4]|);
    Widths(|d[..8]|);
  }

  /** The id is never the value that marks a slot without one, and depends on the low half alone. */
  lemma IdIsOfTheLowHalf(d: v32)
    ensures GetId(d) < TWO63 && GetId(d) != TWO64 - 1
    ensures GetId(d) == LittleEndian(d[..16]) % 0x8000_0000_0000_0000
  {
    assert d[..16] == d[..8] + d[8..16];
    LittleEndianAppend(d[..8], d[8..16]);
    Widths(|d[..8]|);
    var x, y := LittleEndian(d[..8]), LittleEndian(d[8..16]);
    assert (x + TWO63 * (2 * y)) % TWO63 == x % TWO63;
  }

  /** The mutable vector. */
  class Vector {
    const data: array<byte>

    ghost predicate Valid() {
      data.Length == 32
    }

    constructor ()
      ensures Valid() && fresh(data)
    {
      data := new byte[32];
    }

    /** Copied in two halves of 16 bytes. */
    method Assign(o: Vector)
      requires Valid() && o.Valid()
      modifies data
      ensures data[..] == old(o.data[..])
    {
      var low, high := o.data[..16], o.data[16..];
      forall i | 0 <= i < 16 {
        data[i] := low[i];
      }
      forall i | 0 <= i < 16 {
        data[16 + i] := high[i];
      }
    }

    /** Equal when both halves are; the second is not looked at if the first differ. */
    method Equals(o: Vector) returns (same: bool)
      requires Valid() && o.Valid()
      ensures same <==> data[..] == o.data[..]
    {
      if data[..16] != o.data[..16] {
        assert data[..][..16] == data[..16] && o.data[..][..16] == o.data[..16];
        return false;
      }
      same := data[16..] == o.data[16..];
      assert data[..] == data[..16] + data[16..] && o.data[..] == o.data[..16] + o.data[16..];
      assert data[..][16..] == data[16..] && o.data[..][16..] == o.data[16..];
    }
  }
}

/** 256-bit keys under the XOR metric (src/network/key.go). Bit 0 is the most significant bit of byte 0. */
module Keys {

  const BYTES: nat := 32
  const BITS: nat := 256

  type Key = k: seq<bv8> | |k| == BYTES witness seq(BYTES, _ => 0)

  /** The byte with only bit `j` set, counting from the most significant. */
  function Mask(j: nat): bv8
    requires j < 8
  {
    match j
    case 0 => 0x80 case 1 => 0x40 case 2 => 0x20 case 3 => 0x10
    case 4 => 0x08 case 5 => 0x04 case 6 => 0x02 case 7 => 0x01
  }

  predicate ByteBit(b: bv8, j: nat)
    requires j < 8
  {
    b & Mask(j) != 0
  }

  predicate Bit(k: Key, i: nat)
    requires i < BITS
  {
    ByteBit(k[i / 8], i % 8)
  }

  function Xor(a: Key, b: Key): Key {
    seq(BYTES, i requires 0 <= i < BYTES => a[i] ^ b[i])
  }

  ghost predicate Agree(a: Key, b: Key, n: nat)
    requires n <= BITS
  {
    forall i :: 0 <= i < n ==> Bit(a, i) == Bit(b, i)
  }

  /** The number of leading bits two keys share: the index of the first bit in which they differ, or 256. */
  ghost function Shared(a: Key, b: Key): (p: nat)
    ensures p <= BITS && Agree(a, b, p)
    ensures p < BITS ==> Bit(a, p) != Bit(b, p)
  {
    SharedFrom(a, b, 0)
  }

  ghost function SharedFrom(a: Key, b: Key, i: nat): (p: nat)
    requires i <= BITS && Agree(a, b, i)
    ensures p <= BITS && Agree(a, b, p)
    ensures p < BITS ==> Bit(a, p) != Bit(b, p)
    decreases BITS - i
  {
    if i == BITS || Bit(a, i) != Bit(b, i) then i else SharedFrom(a, b, i + 1)
  }

  lemma SharedIs(a: Key, b: Key, p: nat)
    requires p <= BITS && Agree(a, b, p)
    requires p < BITS ==> Bit(a, p) != Bit(b, p)
    ensures Shared(a, b) == p
  {
  }

  lemma SharedSymmetric(a: Key, b: Key)
    ensures Shared(a, b) == Shared(b, a)
  {
    SharedIs(b, a, Shared(a, b));
  }

  // ---------------------------------------------------------------- bytes

  lemma ByteXor(b: bv8, c: bv8, j: nat)
    requires j < 8
    ensures ByteBit(b ^ c, j) == (ByteBit(b, j) != ByteBit(c, j))
  {
    var m := Mask(j);
    assert (b ^ c) & m == (b & m) ^ (c & m);
    MaskedIsBinary(b, j);
    MaskedIsBinary(c, j);
  }

  lemma MaskedIsBinary(b: bv8, j: nat)
    requires j < 8
    ensures b & Mask(j) == 0 || b & Mask(j) == Mask(j)
    ensures Mask(j) != 0
  {
  }

  /** The byte's leading zero bits; 8 for the zero byte. */
  function Lead(b: bv8): (n: nat)
    ensures n <= 8 && (n == 8 <==> b == 0)
    ensures forall j :: 0 <= j < n ==> !ByteBit(b, j)
    ensures n < 8 ==> ByteBit(b, n)
  {
    if b & 0x80 != 0 then 0 else if b & 0x40 != 0 then 1 else if b & 0x20 != 0 then 2 else if b & 0x10 != 0 then 3
    else if b & 0x08 != 0 then 4 else if b & 0x04 != 0 then 5 else if b & 0x02 != 0 then 6 else if b & 0x01 != 0 then 7
    else 8
  }

  /** Of two different bytes the one with the first differing bit set is the larger. */
  lemma ByteOrder(b: bv8, c: bv8)
    requires b != c
    ensures Lead(b ^ c) < 8
    ensures b < c <==> ByteBit(c, Lead(b ^ c))
  {
    assert b ^ c != 0;
  }

  /** The first bit in which two different bytes differ. */
  lemma ByteShares(b: bv8, c: bv8) returns (n: nat)
    requires b != c
    ensures n < 8 && ByteBit(b, n) != ByteBit(c, n)
    ensures forall j :: 0 <= j < n ==> ByteBit(b, j) == ByteBit(c, j)
    ensures b < c <==> ByteBit(c, n)
  {
    ByteOrder(b, c);
    n := Lead(b ^ c);
    forall j | 0 <= j <= n ensures ByteBit(b ^ c, j) == (ByteBit(b, j) != ByteBit(c, j)) { ByteXor(b, c, j); }
  }

  // ---------------------------------------------------------------- keys

  lemma BitOf(k: Key, m: nat, j: nat)
    requires m < BYTES && j < 8
    ensures Bit(k, 8 * m + j) == ByteBit(k[m], j)
  {
    assert (8 * m + j) / 8 == m && (8 * m + j) % 8 == j;
  }

  lemma XorBit(a: Key, b: Key, i: nat)
    requires i < BITS
    ensures Bit(Xor(a, b), i) == (Bit(a, i) != Bit(b, i))
  {
    ByteXor(a[i / 8], b[i / 8], i % 8);
  }

  /** Keys that differ first in byte `m` share the bits before it and the leading equal bits of that byte. */
  lemma SharedBytes(a: Key, b: Key, m: nat)
    requires m < BYTES && a[..m] == b[..m] && a[m] != b[m]
    ensures Shared(a, b) < BITS
    ensures a[m] < b[m] <==> Bit(b, Shared(a, b))
  {
    var n := ByteShares(a[m], b[m]);
    SharedUpTo(a, b, m, n);
    BitOf(b, m, n);
  }

  lemma EarlierBit(a: Key, b: Key, m: nat, i: nat)
    requires i < 8 * m && m < BYTES && a[..m] == b[..m]
    ensures Bit(a, i) == Bit(b, i)
  {
    assert a[..m][i / 8] == b[..m][i / 8];
  }

  lemma SharedUpTo(a: Key, b: Key, m: nat, n: nat)
    requires m < BYTES && a[..m] == b[..m] && n < 8
    requires forall j :: 0 <= j < n ==> ByteBit(a[m], j) == ByteBit(b[m], j)
    requires ByteBit(a[m], n) != ByteBit(b[m], n)
    ensures Shared(a, b) == 8 * m + n
  {
    forall i | 0 <= i < 8 * m + n ensures Bit(a, i) == Bit(b, i) {
      if i < 8 * m {
        EarlierBit(a, b, m, i);
      } else {
        BitOf(a, m, i - 8 * m);
        BitOf(b, m, i - 8 * m);
      }
    }
    BitOf(a, m, n);
    BitOf(b, m, n);
    SharedIs(a, b, 8 * m + n);
  }

  /** Bits determine the key. */
  lemma {:induction false} SharedAll(a: Key, b: Key)
    ensures Shared(a, b) == BITS <==> a == b
  {
    if a == b {
      SharedIs(a, b, BITS);
    } else {
      var m := FirstByte(a, b, 0);
      SharedBytes(a, b, m);
    }
  }

  lemma FirstByte(a: Key, b: Key, i: nat) returns (m: nat)
    requires i <= BYTES && a[..i] == b[..i] && a != b
    ensures m < BYTES && a[..m] == b[..m] && a[m] != b[m]
    decreases BYTES - i
  {
    assert a[..BYTES] == a && b[..BYTES] == b;
    if i < BYTES && a[i] == b[i] {
      assert a[..i + 1] == a[..i] + [a[i]] && b[..i + 1] == b[..i] + [b[i]];
      m := FirstByte(a, b, i + 1);
    } else {
      m := i;
    }
  }

  /** The byte-wise comparison that `Less` makes. */
  predicate Below(a: Key, b: Key) {
    BelowFrom(a, b, 0)
  }

  predicate BelowFrom(a: Key, b: Key, i: nat)
    requires i <= BYTES
    decreases BYTES - i
  {
    i < BYTES && (a[i] < b[i] || (a[i] == b[i] && BelowFrom(a, b, i + 1)))
  }

  lemma {:induction false} BelowAt(a: Key, b: Key, i: nat, m: nat)
    requires i <= m < BYTES && a[..m] == b[..m] && a[m] != b[m]
    ensures BelowFrom(a, b, i) <==> a[m] < b[m]
    decreases m - i
  {
    if i < m {
      assert a[..m][i] == b[..m][i];
      BelowAt(a, b, i + 1, m);
    }
  }

  lemma {:induction false} BelowEqual(a: Key, i: nat)
    requires i <= BYTES
    ensures !BelowFrom(a, a, i)
    decreases BYTES - i
  {
    if i < BYTES { BelowEqual(a, i + 1); }
  }

  /** Byte order is bit order: the first differing bit decides. */
  lemma BelowByBit(a: Key, b: Key)
    ensures Below(a, b) <==> Shared(a, b) < BITS && Bit(b, Shared(a, b))
  {
    SharedAll(a, b);
    if a == b {
      BelowEqual(a, 0);
    } else {
      var m := FirstByte(a, b, 0);
      SharedBytes(a, b, m);
      BelowAt(a, b, 0, m);
    }
  }

  // ---------------------------------------------------------------- the XOR metric

  /** `x` is strictly nearer to `target` than `y`, as sortByDistance compares. */
  predicate Closer(x: Key, y: Key, target: Key) {
    Below(Xor(x, target), Xor(y, target))
  }

  /** XOR with a common key keeps the first difference. */
  lemma XorShared(x: Key, y: Key, t: Key)
    ensures Shared(Xor(x, t), Xor(y, t)) == Shared(x, y)
  {
    var p := Shared(x, y);
    forall i | 0 <= i < p ensures Bit(Xor(x, t), i) == Bit(Xor(y, t), i) { XorBit(x, t, i); XorBit(y, t, i); }
    if p < BITS { XorBit(x, t, p); XorBit(y, t, p); }
    SharedIs(Xor(x, t), Xor(y, t), p);
  }

  /** Of two different keys the nearer one is the one that agrees with the target where they first differ. */
  lemma CloserByBit(x: Key, y: Key, t: Key)
    ensures Closer(x, y, t) <==> Shared(x, y) < BITS && Bit(y, Shared(x, y)) != Bit(t, Shared(x, y))
  {
    XorShared(x, y, t);
    BelowByBit(Xor(x, t), Xor(y, t));
    if Shared(x, y) < BITS { XorBit(y, t, Shared(x, y)); }
  }

  lemma CloserIrreflexive(x: Key, t: Key)
    ensures !Closer(x, x, t)
  {
    CloserByBit(x, x, t);
    SharedAll(x, x);
  }

  lemma CloserTotal(x: Key, y: Key, t: Key)
    requires x != y
    ensures Closer(x, y, t) <==> !Closer(y, x, t)
  {
    CloserByBit(x, y, t);
    CloserByBit(y, x, t);
    SharedAll(x, y);
    SharedSymmetric(x, y);
  }

  lemma CloserTransitive(x: Key, y: Key, z: Key, t: Key)
    requires Closer(x, y, t) && Closer(y, z, t)
    ensures Closer(x, z, t)
  {
    CloserByBit(x, y, t);
    CloserByBit(y, z, t);
    CloserByBit(x, z, t);
    var p, q := Shared(x, y), Shared(y, z);
    SharedIs(x, z, if p < q then p else q);
  }

  /** A longer common prefix with the target means nearer. */
  lemma LongerPrefixCloser(x: Key, y: Key, t: Key)
    requires Shared(x, t) > Shared(y, t)
    ensures Closer(x, y, t)
  {
    SharedIs(x, y, Shared(y, t));
    CloserByBit(x, y, t);
  }

  // ---------------------------------------------------------------- operations

  method IsEmpty(k: Key) returns (empty: bool)
    ensures empty <==> k == seq(BYTES, _ => 0)
  {
    for i := 0 to BYTES
      invariant forall j :: 0 <= j < i ==> k[j] == 0
    {
      if k[i] != 0 { return false; }
    }
    return true;
  }

  method Less(k: Key, other: Key) returns (less: bool)
    ensures less <==> Below(k, other)
    ensures less <==> Shared(k, other) < BITS && Bit(other, Shared(k, other))
  {
    BelowByBit(k, other);
    for i := 0 to BYTES
      invariant Below(k, other) <==> BelowFrom(k, other, i)
    {
      if k[i] < other[i] { return true; } else if k[i] > other[i] { return false; }
    }
    return false;
  }

  ghost predicate ZeroUpTo(k: Key, n: nat)
    requires n <= BITS
  {
    forall i :: 0 <= i < n ==> !Bit(k, i)
  }

  /** A byte is zero exactly if its eight bits are. */
  lemma ZeroByte(k: Key, n: nat)
    requires n < BYTES && ZeroUpTo(k, 8 * n)
    ensures ZeroUpTo(k, 8 * n + 8) <==> k[n] == 0
  {
    var lead := Lead(k[n]);
    if lead < 8 {
      BitOf(k, n, lead);
    } else {
      forall i | 8 * n <= i < 8 * n + 8 ensures !Bit(k, i) { BitOf(k, n, i - 8 * n); }
    }
  }

  method LeadingZeroBits(k: Key) returns (count: nat)
    ensures count <= BITS && ZeroUpTo(k, count)
    ensures count < BITS ==> Bit(k, count)
  {
    count := 0;
    for n := 0 to BYTES
      invariant count == 8 * n && ZeroUpTo(k, count)
    {
      ZeroByte(k, n);
      if k[n] == 0 {
        count := count + 8;
        continue;
      }
      var i := 7;
      while i >= 0
        invariant -1 <= i <= 7 && count == 8 * n + 7 - i && ZeroUpTo(k, count)
      {
        BitOf(k, n, 7 - i);
        if k[n] & Mask(7 - i) == 0 {
          count := count + 1;
        } else {
          break;
        }
        i := i - 1;
      }
      return;
    }
  }

  method Distance(k: array<bv8>, a: Key, b: Key)
    requires k.Length == BYTES
    modifies k
    ensures k[..] == Xor(a, b)
  {
    for i := 0 to BYTES
      invariant forall j :: 0 <= j < i ==> k[j] == a[j] ^ b[j]
    {
      k[i] := a[i] ^ b[i];
    }
  }

  /** The leading zeros of the XOR are the leading bits the keys share. */
  method CommonPrefixLength(k: Key, other: Key) returns (length: nat)
    ensures length == Shared(k, other)
  {
    var r := new bv8[BYTES](_ => 0);
    Distance(r, k, other);
    length := LeadingZeroBits(r[..]);
    forall i | 0 <= i < BITS ensures Bit(Xor(k, other), i) == (Bit(k, i) != Bit(other, i)) { XorBit(k, other, i); }
    SharedIs(k, other, length);
  }
}

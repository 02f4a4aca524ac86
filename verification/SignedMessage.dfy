/** The wire form of signed consensus messages (src/consensus/serialize.go). */
module SignedMessage {
  import opened Basics

  type byte = x: int | 0 <= x < 256

  const U32: nat := 0x1_0000_0000
  const U248: nat := 0x1_00000000_00000000_00000000_00000000_00000000_00000000_00000000_000000
  const U256: nat := 0x1_00000000_00000000_00000000_00000000_00000000_00000000_00000000_00000000

  type uint256 = x: nat | x < U256

  /** `root` is None for a missing Merkle root node or a node without a hash. */
  datatype Message = Message(
    signature: seq<byte>, timestamp: seq<byte>, nonce: seq<byte>, root: Option<uint256>,
    commitment: seq<byte>, data: seq<byte>)

  // ---------------------------------------------------------------- big-endian numbers

  function Number(b: seq<byte>): nat {
    if b == [] then 0 else 256 * Number(b[..|b| - 1]) + b[|b| - 1]
  }

  /** Minimal big-endian bytes; none for zero. */
  function Bytes(v: nat): seq<byte> {
    if v == 0 then [] else Bytes(v / 256) + [v % 256]
  }

  function Zeros(n: nat): (z: seq<byte>)
    ensures |z| == n
  {
    seq(n, _ => 0)
  }

  /** `v` followed by `n` zero bytes. */
  function Scale(v: nat, n: nat): nat {
    if n == 0 then v else 256 * Scale(v, n - 1)
  }

  lemma {:induction false} NumberOfBytes(v: nat)
    ensures Number(Bytes(v)) == v
  {
    if v > 0 {
      NumberOfBytes(v / 256);
      assert Bytes(v)[..|Bytes(v)| - 1] == Bytes(v / 256);
    }
  }

  lemma {:induction false} NumberPadded(b: seq<byte>, n: nat)
    ensures Number(b + Zeros(n)) == Scale(Number(b), n)
  {
    if n == 0 {
      assert b + Zeros(0) == b;
    } else {
      NumberPadded(b, n - 1);
      assert (b + Zeros(n))[..|b| + n - 1] == b + Zeros(n - 1);
    }
  }

  lemma {:induction false} ScaleGrows(v: nat, n: nat)
    ensures Scale(v, n) >= v && (Scale(v, n) == v <==> v == 0 || n == 0)
  {
    if n > 0 { ScaleGrows(v, n - 1); }
  }

  lemma {:induction false} BytesLength(v: nat, n: nat)
    ensures |Bytes(v)| <= n <==> v < Scale(1, n)
  {
    if v == 0 {
      ScaleGrows(1, n);
    } else if n > 0 {
      BytesLength(v / 256, n - 1);
    }
  }

  lemma Powers()
    ensures Scale(1, 31) == U248 && Scale(1, 32) == U256
  {
    assert Scale(1, 8) == 0x1_00000000_00000000;
    assert Scale(1, 16) == 0x1_00000000_00000000_00000000_00000000;
    assert Scale(1, 24) == 0x1_00000000_00000000_00000000_00000000_00000000_00000000;
  }

  // ---------------------------------------------------------------- encoding

  /** A length cut to 32 bits, big-endian. */
  function Header(n: nat): (h: seq<byte>)
    ensures |h| == 4
  {
    var m := n % U32;
    [m / 0x1000000, m / 0x10000 % 256, m / 0x100 % 256, m % 256]
  }

  function Prefixed(b: seq<byte>): seq<byte> {
    Header(|b|) + b
  }

  /** The root's bytes are left-aligned: a shorter number is filled with zeros on the right. */
  function RootBytes(root: Option<uint256>): seq<byte> {
    if root.None? then Zeros(32)
    else
      var b := Bytes(root.value);
      if |b| < 32 then b + Zeros(32 - |b|) else b[..32]
  }

  function Encode(m: Message): seq<byte> {
    Prefixed(m.signature) + Prefixed(m.timestamp) + Prefixed(m.nonce) + RootBytes(m.root)
      + Prefixed(m.commitment) + Prefixed(m.data)
  }

  method Serialize(m: Message) returns (buf: seq<byte>)
    ensures buf == Encode(m)
  {
    buf := [];
    buf := buf + Header(|m.signature|);
    buf := buf + m.signature;
    assert buf == Prefixed(m.signature);
    buf := buf + Header(|m.timestamp|);
    buf := buf + m.timestamp;
    buf := buf + Header(|m.nonce|);
    buf := buf + m.nonce;
    ghost var front := Prefixed(m.signature) + Prefixed(m.timestamp) + Prefixed(m.nonce);
    assert buf == front;
    if m.root.Some? {
      var rootBytes := Bytes(m.root.value);
      if |rootBytes| < 32 {
        var padded := rootBytes + Zeros(32 - |rootBytes|);
        buf := buf + padded;
      } else {
        buf := buf + rootBytes[..32];
      }
    } else {
      buf := buf + Zeros(32);
    }
    front := front + RootBytes(m.root);
    assert buf == front;
    buf := buf + Header(|m.commitment|);
    buf := buf + m.commitment;
    buf := buf + Header(|m.data|);
    buf := buf + m.data;
    assert buf == front + Prefixed(m.commitment) + Prefixed(m.data);
  }

  // ---------------------------------------------------------------- decoding

  function Drop(s: seq<byte>, n: nat): seq<byte> {
    if n <= |s| then s[n..] else []
  }

  /** A buffer of `n` zero bytes after reading into it what there is. */
  function Fill(s: seq<byte>, n: nat): (b: seq<byte>)
    ensures |b| == n
  {
    if n <= |s| then s[..n] else s + Zeros(n - |s|)
  }

  /** A read at the end of the input fails, even one of no bytes; a short read does not. */
  function ReadSome(s: seq<byte>, n: nat): Option<(seq<byte>, seq<byte>)> {
    if s == [] then None else Some((Fill(s, n), Drop(s, n)))
  }

  function ReadLength(s: seq<byte>): Option<(nat, seq<byte>)> {
    if |s| < 4 then None else Some((Number(s[..4]), s[4..]))
  }

  function ReadField(s: seq<byte>): Option<(seq<byte>, seq<byte>)> {
    var n :- ReadLength(s);
    ReadSome(n.1, n.0)
  }

  function DecodeFields(s: seq<byte>): Option<Message> {
    var signature :- ReadField(s);
    var timestamp :- ReadField(signature.1);
    var nonce :- ReadField(timestamp.1);
    var root :- ReadSome(nonce.1, 32);
    var commitment :- ReadField(root.1);
    var body :- ReadField(commitment.1);
    NumberBound(root.0);
    Some(Message(signature.0, timestamp.0, nonce.0, Some(Number(root.0)), commitment.0, body.0))
  }

  /** Inputs below 16 bytes are refused outright. */
  function Decode(data: seq<byte>): Option<Message> {
    if |data| < 16 then None else DecodeFields(data)
  }

  lemma {:induction false} NumberBelow(b: seq<byte>)
    ensures Number(b) < Scale(1, |b|)
  {
    if b != [] { NumberBelow(b[..|b| - 1]); }
  }

  lemma NumberBound(b: seq<byte>)
    requires |b| == 32
    ensures Number(b) < U256
  {
    NumberBelow(b);
    Powers();
  }

  class Reader {
    var rest: seq<byte>

    constructor (data: seq<byte>)
      ensures rest == data
    {
      rest := data;
    }

    method ReadUint32() returns (r: Option<nat>)
      modifies this
      ensures r.None? <==> ReadLength(old(rest)).None?
      ensures r.Some? ==> ReadLength(old(rest)) == Some((r.value, rest))
    {
      if |rest| < 4 {
        rest := [];
        return None;
      }
      var four := rest[..4];
      rest := rest[4..];
      return Some(Number(four));
    }

    method Read(n: nat) returns (r: Option<seq<byte>>)
      modifies this
      ensures r.None? <==> ReadSome(old(rest), n).None?
      ensures r.Some? ==> ReadSome(old(rest), n) == Some((r.value, rest))
    {
      if rest == [] { return None; }
      var b := Fill(rest, n);
      rest := Drop(rest, n);
      return Some(b);
    }

    method ReadPrefixed() returns (r: Option<seq<byte>>)
      modifies this
      ensures r.None? <==> ReadField(old(rest)).None?
      ensures r.Some? ==> ReadField(old(rest)) == Some((r.value, rest))
    {
      var n :- ReadUint32();
      r := Read(n);
    }
  }

  method Deserialize(data: seq<byte>) returns (r: Option<Message>)
    ensures r == Decode(data)
  {
    if |data| < 16 { return None; }
    var buf := new Reader(data);
    r := ReadMessage(buf);
  }

  method ReadMessage(buf: Reader) returns (r: Option<Message>)
    modifies buf
    ensures r == DecodeFields(old(buf.rest))
  {
    var signature :- buf.ReadPrefixed();
    var timestamp :- buf.ReadPrefixed();
    var nonce :- buf.ReadPrefixed();
    var merkleBytes :- buf.Read(32);
    NumberBound(merkleBytes);
    var root := Some(Number(merkleBytes));
    var commitment :- buf.ReadPrefixed();
    var body :- buf.ReadPrefixed();
    return Some(Message(signature, timestamp, nonce, root, commitment, body));
  }

  // ---------------------------------------------------------------- round trip

  lemma NumberMore(b: seq<byte>, x: byte)
    ensures Number(b + [x]) == 256 * Number(b) + x
  {
    assert (b + [x])[..|b|] == b;
  }

  lemma NumberOfFour(a: byte, b: byte, c: byte, d: byte)
    ensures Number([a, b, c, d]) == 0x1000000 * a + 0x10000 * b + 0x100 * c + d
  {
    NumberMore([], a);
    NumberMore([a], b);
    NumberMore([a, b], c);
    NumberMore([a, b, c], d);
    assert [] + [a] == [a] && [a] + [b] == [a, b] && [a, b] + [c] == [a, b, c] && [a, b, c] + [d] == [a, b, c, d];
  }

  lemma FourDigits(n: nat)
    ensures n == 0x1000000 * (n / 0x1000000) + 0x10000 * (n / 0x10000 % 256) + 0x100 * (n / 0x100 % 256) + n % 256
  {
    var q := n / 0x100;
    assert n / 0x10000 == q / 0x100;
    assert n / 0x1000000 == q / 0x100 / 0x100;
  }

  lemma HeaderRoundTrip(n: nat)
    requires n < U32
    ensures Number(Header(n)) == n
  {
    assert n % U32 == n;
    NumberOfFour(n / 0x1000000, n / 0x10000 % 256, n / 0x100 % 256, n % 256);
    FourDigits(n);
  }

  /** A field is read back with the rest of the input, unless nothing at all follows its header. */
  lemma FieldRoundTrip(b: seq<byte>, tail: seq<byte>)
    requires |b| < U32
    ensures ReadField(Prefixed(b) + tail) == if b + tail == [] then None else Some((b, tail))
  {
    var s := Prefixed(b) + tail;
    assert s[..4] == Header(|b|) && s[4..] == b + tail;
    HeaderRoundTrip(|b|);
    assert (b + tail)[..|b|] == b && (b + tail)[|b|..] == tail;
  }

  function RootValue(root: Option<uint256>): uint256 {
    if root.Some? then root.value else 0
  }

  /** What a root is read back as: its significant bytes moved to the top. */
  function Shifted(v: uint256): nat {
    if |Bytes(v)| < 32 then Scale(v, 32 - |Bytes(v)|) else v
  }

  lemma RootRoundTrip(root: Option<uint256>)
    ensures |RootBytes(root)| == 32
    ensures Number(RootBytes(root)) == Shifted(RootValue(root))
  {
    var v := RootValue(root);
    Powers();
    BytesLength(v, 32);
    NumberOfBytes(v);
    NumberPadded(Bytes(v), 32 - |Bytes(v)|);
    assert Bytes(v)[..|Bytes(v)|] == Bytes(v);
    if root.None? {
      assert Bytes(0) + Zeros(32) == Zeros(32);
    }
  }

  lemma ShiftedIsSame(v: uint256)
    ensures Shifted(v) == v <==> v == 0 || v >= U248
  {
    Powers();
    BytesLength(v, 31);
    BytesLength(v, 32);
    ScaleGrows(v, if |Bytes(v)| < 32 then 32 - |Bytes(v)| else 0);
  }

  predicate ShortFields(m: Message) {
    && |m.signature| < U32 && |m.timestamp| < U32 && |m.nonce| < U32
    && |m.commitment| < U32 && |m.data| < U32
  }

  /** What follows the first, the second and the third field, and the root. */
  function AfterRoot(m: Message): seq<byte> { Prefixed(m.commitment) + Prefixed(m.data) }
  function AfterNonce(m: Message): seq<byte> { RootBytes(m.root) + AfterRoot(m) }
  function AfterTimestamp(m: Message): seq<byte> { Prefixed(m.nonce) + AfterNonce(m) }
  function AfterSignature(m: Message): seq<byte> { Prefixed(m.timestamp) + AfterTimestamp(m) }

  lemma EncodeSplit(m: Message)
    ensures Encode(m) == Prefixed(m.signature) + AfterSignature(m)
  {
    assert AfterSignature(m)
        == Prefixed(m.timestamp) + Prefixed(m.nonce) + RootBytes(m.root) + Prefixed(m.commitment) + Prefixed(m.data);
  }

  lemma FrontReads(m: Message)
    requires ShortFields(m)
    ensures ReadField(Encode(m)) == Some((m.signature, AfterSignature(m)))
    ensures ReadField(AfterSignature(m)) == Some((m.timestamp, AfterTimestamp(m)))
    ensures ReadField(AfterTimestamp(m)) == Some((m.nonce, AfterNonce(m)))
  {
    EncodeSplit(m);
    FieldRoundTrip(m.signature, AfterSignature(m));
    FieldRoundTrip(m.timestamp, AfterTimestamp(m));
    RootRoundTrip(m.root);
    FieldRoundTrip(m.nonce, AfterNonce(m));
  }

  lemma BackReads(m: Message)
    requires ShortFields(m)
    ensures ReadSome(AfterNonce(m), 32) == Some((RootBytes(m.root), AfterRoot(m)))
    ensures ReadField(AfterRoot(m)) == Some((m.commitment, Prefixed(m.data)))
    ensures ReadField(Prefixed(m.data)) == if m.data == [] then None else Some((m.data, []))
  {
    RootRoundTrip(m.root);
    assert AfterNonce(m)[..32] == RootBytes(m.root) && AfterNonce(m)[32..] == AfterRoot(m);
    FieldRoundTrip(m.commitment, Prefixed(m.data));
    assert Prefixed(m.data) + [] == Prefixed(m.data) && m.data + [] == m.data;
    FieldRoundTrip(m.data, []);
  }

  /** Decoding as a chain of reads. */
  lemma DecodeChain(m: Message, s0: seq<byte>, s1: seq<byte>, s2: seq<byte>, s3: seq<byte>, s4: seq<byte>, s5: seq<byte>,
                    root: seq<byte>)
    requires ReadField(s0) == Some((m.signature, s1)) && ReadField(s1) == Some((m.timestamp, s2))
    requires ReadField(s2) == Some((m.nonce, s3)) && ReadSome(s3, 32) == Some((root, s4))
    requires ReadField(s4) == Some((m.commitment, s5))
    requires ReadField(s5) == if m.data == [] then None else Some((m.data, []))
    requires |root| == 32 && m.root.Some? && Number(root) == m.root.value
    ensures DecodeFields(s0) == if m.data == [] then None else Some(m)
  {
  }

  /** What a message with short fields is read back as: refused without data, because the final read meets the end of
      the input, and otherwise itself but for the root. */
  lemma ReadBack(m: Message) returns (v: uint256)
    requires ShortFields(m)
    ensures v == Shifted(RootValue(m.root))
    ensures Decode(Encode(m)) == if m.data == [] then None else Some(m.(root := Some(v)))
  {
    RootRoundTrip(m.root);
    NumberBound(RootBytes(m.root));
    v := Number(RootBytes(m.root));
    ReadBackAs(m, v);
  }

  lemma ReadBackAs(m: Message, v: uint256)
    requires ShortFields(m) && |RootBytes(m.root)| == 32 && v == Number(RootBytes(m.root))
    ensures Decode(Encode(m)) == if m.data == [] then None else Some(m.(root := Some(v)))
  {
    FrontReads(m);
    BackReads(m);
    DecodeChain(m.(root := Some(v)), Encode(m), AfterSignature(m), AfterTimestamp(m), AfterNonce(m), AfterRoot(m),
                Prefixed(m.data), RootBytes(m.root));
    LongEnough(m);
  }

  lemma LongEnough(m: Message)
    ensures |Encode(m)| >= 16
  {
    RootRoundTrip(m.root);
  }

  lemma HeaderBound(s: seq<byte>)
    requires |s| == 4
    ensures Number(s) < U32
  {
    NumberBelow(s);
    assert Scale(1, 4) == U32;
  }

  lemma FieldShort(s: seq<byte>)
    ensures ReadField(s).Some? ==> |ReadField(s).value.0| < U32
  {
    if |s| >= 4 { HeaderBound(s[..4]); }
  }

  /** No decoded field reaches 2^32 bytes, so a longer one cannot survive. */
  lemma DecodedShort(data: seq<byte>)
    ensures Decode(data).Some? ==> ShortFields(Decode(data).value)
  {
    if Decode(data).Some? {
      var signature := ReadField(data).value;
      var timestamp := ReadField(signature.1).value;
      var nonce := ReadField(timestamp.1).value;
      var root := ReadSome(nonce.1, 32).value;
      var commitment := ReadField(root.1).value;
      FieldShort(data);
      FieldShort(signature.1);
      FieldShort(timestamp.1);
      FieldShort(root.1);
      FieldShort(commitment.1);
    }
  }

  /** Property, exactly: a message is read back as it was, a missing root as zero, if and only if its fields are
      shorter than 2^32 bytes, its data is not empty, and its root is zero, missing or has a non-zero top byte. */
  lemma RoundTrip(m: Message)
    ensures Decode(Encode(m)) == Some(m.(root := Some(RootValue(m.root))))
       <==> ShortFields(m) && m.data != [] && (RootValue(m.root) == 0 || RootValue(m.root) >= U248)
  {
    DecodedShort(Encode(m));
    ShiftedIsSame(RootValue(m.root));
    if ShortFields(m) { var v := ReadBack(m); }
  }

  // ---------------------------------------------------------------- the form on the wire

  /** Lengths are written in four bytes, highest first. */
  lemma HeaderForm(a: byte, b: byte, c: byte, d: byte)
    ensures Header(0x1000000 * a + 0x10000 * b + 0x100 * c + d) == [a, b, c, d]
  {
    var n := 0x1000000 * a + 0x10000 * b + 0x100 * c + d;
    assert n % U32 == n;
    assert n / 0x100 == 0x10000 * a + 0x100 * b + c && n / 0x10000 == 0x100 * a + b && n / 0x1000000 == a;
  }

  /** The fields follow each other in this order. */
  lemma WireForm(s: byte, t: byte, n: byte, c: byte, d: byte)
    ensures Encode(Message([s], [t], [n], None, [c], [d]))
         == [0, 0, 0, 1, s] + [0, 0, 0, 1, t] + [0, 0, 0, 1, n] + Zeros(32) + [0, 0, 0, 1, c] + [0, 0, 0, 1, d]
  {
    HeaderForm(0, 0, 0, 1);
    assert Prefixed([s]) == [0, 0, 0, 1, s] && Prefixed([t]) == [0, 0, 0, 1, t] && Prefixed([n]) == [0, 0, 0, 1, n];
    assert Prefixed([c]) == [0, 0, 0, 1, c] && Prefixed([d]) == [0, 0, 0, 1, d];
  }

  // ---------------------------------------------------------------- truncated input

  function Cut(s: seq<byte>, n: nat): seq<byte> {
    if n < |s| then s[..n] else s
  }

  /** The rest of the input after a field, when only `n` bytes of field and rest have arrived. */
  lemma CutField(b: seq<byte>, tail: seq<byte>, n: nat)
    requires |b| < U32
    ensures n <= 4 ==> ReadField(Cut(Prefixed(b) + tail, n)).None? || Cut(Prefixed(b) + tail, n) == Prefixed(b) + tail
    ensures 4 < n < 4 + |b| ==> ReadField(Cut(Prefixed(b) + tail, n)) == Some((b[..n - 4] + Zeros(4 + |b| - n), []))
    ensures n >= 4 + |b| && n > 4 ==>
              ReadField(Cut(Prefixed(b) + tail, n)) == if b + tail == [] then None else Some((b, Cut(tail, n - 4 - |b|)))
  {
    var s := Cut(Prefixed(b) + tail, n);
    HeaderRoundTrip(|b|);
    if n >= 4 {
      assert s[..4] == Header(|b|);
      if n < 4 + |b| {
        assert s == Header(|b|) + b[..n - 4];
        assert s[4..] == b[..n - 4];
      } else {
        assert s == Prefixed(b) + Cut(tail, n - 4 - |b|);
        FieldRoundTrip(b, Cut(tail, n - 4 - |b|));
      }
    }
  }

  /** What is left after a field, or None if it cannot be read. */
  function Rest(s: seq<byte>): Option<seq<byte>> {
    var field :- ReadField(s);
    Some(field.1)
  }

  function RestOfRoot(s: seq<byte>): Option<seq<byte>> {
    var root :- ReadSome(s, 32);
    Some(root.1)
  }

  /** Whether the last field, the last two, and so on, can be read. */
  predicate ReadsData(s: seq<byte>) { Rest(s).Some? }
  predicate ReadsCommitment(s: seq<byte>) { Rest(s).Some? && ReadsData(Rest(s).value) }
  predicate ReadsRoot(s: seq<byte>) { RestOfRoot(s).Some? && ReadsCommitment(RestOfRoot(s).value) }
  predicate ReadsNonce(s: seq<byte>) { Rest(s).Some? && ReadsRoot(Rest(s).value) }
  predicate ReadsTimestamp(s: seq<byte>) { Rest(s).Some? && ReadsNonce(Rest(s).value) }
  predicate ReadsAll(s: seq<byte>) { Rest(s).Some? && ReadsTimestamp(Rest(s).value) }

  lemma DecodesIfRead(s: seq<byte>)
    ensures DecodeFields(s).Some? <==> ReadsAll(s)
  {
  }

  lemma NothingLeft()
    ensures !ReadsData([]) && !ReadsCommitment([]) && !ReadsRoot([]) && !ReadsNonce([]) && !ReadsTimestamp([])
  {
  }

  /** A cut in a field leaves nothing behind it; a cut further back is passed on. */
  lemma CutRest(b: seq<byte>, tail: seq<byte>, n: nat)
    requires |b| < U32 && tail != [] && n < 4 + |b| + |tail|
    ensures var rest := Rest(Cut(Prefixed(b) + tail, n));
            if n > 4 + |b| then rest == Some(Cut(tail, n - 4 - |b|)) else rest == None || rest == Some([])
  {
    CutField(b, tail, n);
  }

  lemma CutReadsData(m: Message, n: nat)
    requires ShortFields(m) && n < 4 + |m.data|
    ensures ReadsData(Cut(Prefixed(m.data), n)) <==> n > 4
  {
    assert Prefixed(m.data) + [] == Prefixed(m.data);
    CutField(m.data, [], n);
  }

  lemma CutReadsCommitment(m: Message, n: nat)
    requires ShortFields(m) && n < |AfterRoot(m)|
    ensures ReadsCommitment(Cut(AfterRoot(m), n)) <==> n > |AfterRoot(m)| - |m.data|
  {
    NothingLeft();
    CutRest(m.commitment, Prefixed(m.data), n);
    if n > 4 + |m.commitment| { CutReadsData(m, n - 4 - |m.commitment|); }
  }

  lemma CutRoot(root: seq<byte>, tail: seq<byte>, n: nat)
    requires |root| == 32 && n < 32 + |tail|
    ensures var rest := RestOfRoot(Cut(root + tail, n));
            if n > 32 then rest == Some(Cut(tail, n - 32)) else rest == None || rest == Some([])
  {
    var s := Cut(root + tail, n);
    if n > 32 { assert s[32..] == Cut(tail, n - 32); }
    if n == 32 { assert s[32..] == []; }
  }

  lemma CutReadsRoot(m: Message, n: nat)
    requires ShortFields(m) && n < |AfterNonce(m)|
    ensures ReadsRoot(Cut(AfterNonce(m), n)) <==> n > |AfterNonce(m)| - |m.data|
  {
    NothingLeft();
    RootRoundTrip(m.root);
    CutRoot(RootBytes(m.root), AfterRoot(m), n);
    if n > 32 { CutReadsCommitment(m, n - 32); }
  }

  lemma CutReadsNonce(m: Message, n: nat)
    requires ShortFields(m) && n < |AfterTimestamp(m)|
    ensures ReadsNonce(Cut(AfterTimestamp(m), n)) <==> n > |AfterTimestamp(m)| - |m.data|
  {
    NothingLeft();
    RootRoundTrip(m.root);
    CutRest(m.nonce, AfterNonce(m), n);
    if n > 4 + |m.nonce| { CutReadsRoot(m, n - 4 - |m.nonce|); }
  }

  lemma CutReadsTimestamp(m: Message, n: nat)
    requires ShortFields(m) && n < |AfterSignature(m)|
    ensures ReadsTimestamp(Cut(AfterSignature(m), n)) <==> n > |AfterSignature(m)| - |m.data|
  {
    NothingLeft();
    CutRest(m.timestamp, AfterTimestamp(m), n);
    if n > 4 + |m.timestamp| { CutReadsNonce(m, n - 4 - |m.timestamp|); }
  }

  lemma NoTimestampLeft()
    ensures !ReadsTimestamp([])
  {
  }

  lemma CutReadsAll(m: Message, n: nat)
    requires ShortFields(m) && n < 4 + |m.signature| + |AfterSignature(m)|
    ensures ReadsAll(Cut(Prefixed(m.signature) + AfterSignature(m), n))
       <==> n > 4 + |m.signature| + |AfterSignature(m)| - |m.data|
  {
    DataIsLast(m);
    if n > 4 + |m.signature| { CutReadsTimestamp(m, n - 4 - |m.signature|); }
    CutFront(m.signature, AfterSignature(m), n, |m.data|);
  }

  lemma DataIsLast(m: Message)
    ensures |AfterSignature(m)| > |m.data|
  {
  }

  lemma CutFront(b: seq<byte>, tail: seq<byte>, n: nat, last: nat)
    requires |b| < U32 && last < |tail| && n < 4 + |b| + |tail|
    requires n > 4 + |b| ==> (ReadsTimestamp(Cut(tail, n - 4 - |b|)) <==> n - 4 - |b| > |tail| - last)
    ensures ReadsAll(Cut(Prefixed(b) + tail, n)) <==> n > 4 + |b| + |tail| - last
  {
    NoTimestampLeft();
    CutRest(b, tail, n);
  }

  /** Property: of a message with short fields, a truncated copy is still accepted if and only if at least one byte of the
      data has arrived. */
  lemma TruncatedExactly(m: Message, n: nat)
    requires ShortFields(m) && n < |Encode(m)|
    ensures Decode(Encode(m)[..n]).Some? <==> n > |Encode(m)| - |m.data|
  {
    EncodeSplit(m);
    CutReadsAll(m, n);
    assert Encode(m)[..n] == Cut(Prefixed(m.signature) + AfterSignature(m), n);
    DecodesIfRead(Encode(m)[..n]);
    LongHead(m);
  }

  lemma LongHead(m: Message)
    ensures |Encode(m)| - |m.data| >= 16
  {
    RootRoundTrip(m.root);
  }

  lemma TruncatedData(data: seq<byte>, k: nat)
    requires |data| < U32 && 0 < k < |data|
    ensures ReadField(Header(|data|) + data[..k]) == Some((data[..k] + Zeros(|data| - k), []))
  {
    assert Prefixed(data) + [] == Prefixed(data);
    assert Cut(Prefixed(data) + [], 4 + k) == Header(|data|) + data[..k];
    CutField(data, [], 4 + k);
  }

  lemma TruncatedForm(m: Message, k: nat)
    requires 0 < k < |m.data|
    ensures Encode(m)[..|Encode(m)| - |m.data| + k]
         == Prefixed(m.signature) + (Prefixed(m.timestamp) + (Prefixed(m.nonce) + (RootBytes(m.root)
              + (Prefixed(m.commitment) + (Header(|m.data|) + m.data[..k])))))
  {
    var front := Prefixed(m.signature) + Prefixed(m.timestamp) + Prefixed(m.nonce) + RootBytes(m.root) + Prefixed(m.commitment);
    assert Encode(m) == front + (Header(|m.data|) + m.data);
    assert (Header(|m.data|) + m.data)[..4 + k] == Header(|m.data|) + m.data[..k];
  }

  /** Property: such a copy is read as the message with the missing bytes of the data replaced by zeros. */
  lemma TruncatedValue(m: Message, k: nat, v: uint256, m': Message)
    requires ShortFields(m) && 0 < k < |m.data| && v == Shifted(RootValue(m.root))
    requires m' == m.(root := Some(v), data := m.data[..k] + Zeros(|m.data| - k))
    ensures Decode(Encode(m)[..|Encode(m)| - |m.data| + k]) == Some(m')
  {
    TruncatedForm(m, k);
    LongHead(m);
    RootRoundTrip(m.root);
    TruncatedData(m.data, k);
    FilledUp(m, m', RootBytes(m.root), Header(|m.data|) + m.data[..k]);
  }

  lemma FilledUp(m: Message, m': Message, root: seq<byte>, s5: seq<byte>)
    requires ShortFields(m) && m' == m.(root := m'.root, data := m'.data) && m'.data != []
    requires |root| == 32 && m'.root.Some? && Number(root) == m'.root.value
    requires s5 != [] && ReadField(s5) == Some((m'.data, []))
    ensures DecodeFields(Prefixed(m.signature) + (Prefixed(m.timestamp) + (Prefixed(m.nonce) + (root
              + (Prefixed(m.commitment) + s5))))) == Some(m')
  {
    var s4 := Prefixed(m.commitment) + s5;
    var s3 := root + s4;
    var s2 := Prefixed(m.nonce) + s3;
    var s1 := Prefixed(m.timestamp) + s2;
    ThreeReads(m, s1, s2, s3);
    FieldRoundTrip(m.commitment, s5);
    assert s3[..32] == root && s3[32..] == s4;
    DecodeChain(m', Prefixed(m.signature) + s1, s1, s2, s3, s4, s5, root);
  }

  lemma ThreeReads(m: Message, s1: seq<byte>, s2: seq<byte>, s3: seq<byte>)
    requires ShortFields(m) && s3 != [] && s2 == Prefixed(m.nonce) + s3 && s1 == Prefixed(m.timestamp) + s2
    ensures ReadField(Prefixed(m.signature) + s1) == Some((m.signature, s1))
    ensures ReadField(s1) == Some((m.timestamp, s2)) && ReadField(s2) == Some((m.nonce, s3))
  {
    FieldRoundTrip(m.signature, s1);
    FieldRoundTrip(m.timestamp, s2);
    FieldRoundTrip(m.nonce, s3);
  }
}

/** Decimal numbers and the stored form of an account record (src/core/state_db.go). */
module Records {
  import opened Basics

  datatype Account = Account(balance: int, nonce: uint64)

  const DIGITS := "0123456789"

  // ---------------------------------------------------------------- decimal numbers

  function Decimal(n: nat): (s: string)
    ensures s != [] && AllDigits(s)
  {
    if n < 10 then [DIGITS[n]] else Decimal(n / 10) + [DIGITS[n % 10]]
  }

  /** big.Int.String. */
  function Signed(i: int): string {
    if i < 0 then "-" + Decimal(-i) else Decimal(i)
  }

  predicate IsDigit(c: char) {
    '0' <= c <= '9'
  }

  predicate AllDigits(s: string) {
    forall i :: 0 <= i < |s| ==> IsDigit(s[i])
  }

  function Value(s: string): nat
    requires AllDigits(s)
  {
    if s == [] then 0 else Value(s[..|s| - 1]) * 10 + (s[|s| - 1] as int - '0' as int)
  }

  function ParseNat(s: string): Option<nat> {
    if s != [] && AllDigits(s) then Some(Value(s)) else None
  }

  /** big.Int.SetString in base ten: an optional sign and digits. */
  function ParseInt(s: string): Option<int> {
    if s != [] && s[0] == '-' then
      match ParseNat(s[1..]) case Some(n) => var m: int := n; Some(-m) case None => None
    else if s != [] && s[0] == '+' then
      match ParseNat(s[1..]) case Some(n) => Some(n) case None => None
    else
      match ParseNat(s) case Some(n) => Some(n) case None => None
  }

  lemma {:induction false} DecimalValue(n: nat)
    ensures Value(Decimal(n)) == n
  {
    if n >= 10 {
      DecimalValue(n / 10);
      assert Decimal(n)[..|Decimal(n)| - 1] == Decimal(n / 10);
    } else {
      assert Decimal(n)[..0] == [];
    }
  }

  lemma DecimalRoundTrip(n: nat)
    ensures ParseNat(Decimal(n)) == Some(n)
    ensures Decimal(n)[0] != '-' && Decimal(n)[0] != '+'
  {
    DecimalValue(n);
    assert IsDigit(Decimal(n)[0]);
  }

  lemma SignedRoundTrip(i: int)
    ensures ParseInt(Signed(i)) == Some(i)
  {
    var digits := Decimal(if i < 0 then -i else i);
    DecimalRoundTrip(if i < 0 then -i else i);
    assert i < 0 ==> Signed(i) == ['-'] + digits && Signed(i)[1..] == digits;
  }

  /** Signed numbers are written with digits and a minus sign only. */
  lemma SignedCharacters(i: int)
    ensures Signed(i) != [] && forall k :: 0 <= k < |Signed(i)| ==> Signed(i)[k] == '-' || IsDigit(Signed(i)[k])
  {
  }

  // ---------------------------------------------------------------- account records

  const OPENING := "{\"balance\":\""
  const MIDDLE := "\",\"nonce\":"

  /** json.Marshal of an accountRecord. */
  function Encode(a: Account): string {
    OPENING + Signed(a.balance) + MIDDLE + Decimal(a.nonce) + "}"
  }

  /** Position of the first double quote, or the length if there is none. */
  function QuoteIndex(s: string): (i: nat)
    ensures i <= |s| && (i < |s| ==> s[i] == '"')
    ensures forall k :: 0 <= k < i ==> s[k] != '"'
  {
    if s == [] || s[0] == '"' then 0 else 1 + QuoteIndex(s[1..])
  }

  /** The record behind stored bytes; unreadable records give None, an unreadable balance counts as zero. */
  function Decode(s: string): Option<Account> {
    if !(OPENING <= s) then None
    else
      var rest := s[|OPENING|..];
      var i := QuoteIndex(rest);
      var tail := rest[i..];
      if !(MIDDLE <= tail) || tail[|tail| - 1] != '}' || |tail| == |MIDDLE| then None
      else
        var balance := match ParseInt(rest[..i]) case Some(b) => b case None => 0;
        match ParseNat(tail[|MIDDLE|..|tail| - 1])
        case Some(nonce) => if nonce < U64 then Some(Account(balance, nonce)) else None
        case None => None
  }

  lemma EncodeRoundTrip(a: Account)
    ensures Decode(Encode(a)) == Some(a)
  {
    var s := Encode(a);
    var rest := s[|OPENING|..];
    assert s == OPENING + (Signed(a.balance) + MIDDLE + Decimal(a.nonce) + "}");
    assert rest == Signed(a.balance) + (MIDDLE + Decimal(a.nonce) + "}");
    SignedCharacters(a.balance);
    var i := QuoteIndex(rest);
    assert rest[|Signed(a.balance)|] == '"';
    assert i == |Signed(a.balance)|;
    assert rest[..i] == Signed(a.balance);
    assert rest[i..] == MIDDLE + (Decimal(a.nonce) + "}");
    assert rest[i..][|MIDDLE|..|rest[i..]| - 1] == Decimal(a.nonce);
    SignedRoundTrip(a.balance);
    DecimalValue(a.nonce);
  }

  /** A record has one opening brace, its first character. */
  lemma OneBrace(a: Account, k: nat)
    requires 0 < k < |Encode(a)|
    ensures Encode(a)[0] == '{' && Encode(a)[k] != '{'
  {
    SignedCharacters(a.balance);
    var s := Encode(a);
    var p, q := |OPENING|, |OPENING| + |Signed(a.balance)|;
    if p <= k < q { assert s[k] == Signed(a.balance)[k - p]; }
    else if k >= q + |MIDDLE| && k < |s| - 1 { assert s[k] == Decimal(a.nonce)[k - q - |MIDDLE|]; }
    else if q <= k < q + |MIDDLE| { assert s[k] == MIDDLE[k - q]; }
  }

  /** Property: a key followed by a record can be read in one way only, whatever characters the keys contain. */
  lemma LeafDecodesUniquely(k1: string, a1: Account, k2: string, a2: Account)
    requires k1 + Encode(a1) == k2 + Encode(a2)
    ensures k1 == k2 && a1 == a2
  {
    var s := k1 + Encode(a1);
    assert Encode(a1) != [] && Encode(a2) != [];
    assert s[|k1|] == Encode(a1)[0] && s[|k2|] == Encode(a2)[0];
    assert |k1| >= |k2| by {
      if |k1| < |k2| { OneBrace(a1, |k2| - |k1|); }
    }
    assert |k2| >= |k1| by {
      if |k2| < |k1| { OneBrace(a2, |k1| - |k2|); }
    }
    assert k1 == s[..|k1|] && k2 == s[..|k2|];
    assert Encode(a1) == s[|k1|..] && Encode(a2) == s[|k2|..];
    EncodeRoundTrip(a1);
    EncodeRoundTrip(a2);
  }

  /** The stored form, spelled out. */
  lemma RecordForm(a: Account)
    ensures Encode(a) == "{\"balance\":\"" + Signed(a.balance) + "\",\"nonce\":" + Decimal(a.nonce) + "}"
    ensures Signed(-120) == "-120" && Decimal(0) == "0" && Decimal(307) == "307"
  {
    assert Decimal(12) == Decimal(1) + "2" && Decimal(120) == Decimal(12) + "0";
    assert Decimal(30) == Decimal(3) + "0" && Decimal(307) == Decimal(30) + "7";
  }
}

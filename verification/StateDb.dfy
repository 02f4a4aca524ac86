/** The write-back account cache over a key-value store (src/core/state_db.go). */
module StateDb {
  import opened Basics
  import opened Ordering
  import opened Records
  import opened Merkle
  import opened Accounts

  const ACCOUNT_PREFIX := "acct:"
  const SUPPLY_KEY := "supply:total"
  const PUBKEY_PREFIX := "pubkey:"

  // ---------------------------------------------------------------- what the store holds

  predicate IsAccountKey(key: string) {
    ACCOUNT_PREFIX <= key
  }

  function AddressOf(key: string): string
    requires IsAccountKey(key)
  {
    key[|ACCOUNT_PREFIX|..]
  }

  function AccountKey(address: string): (key: string)
    ensures IsAccountKey(key) && AddressOf(key) == address
    ensures key != SUPPLY_KEY
  {
    assert SUPPLY_KEY[0] == 's';
    ACCOUNT_PREFIX + address
  }

  lemma KeyOfAddress(key: string)
    requires IsAccountKey(key)
    ensures AccountKey(AddressOf(key)) == key
  {
  }

  /** The addresses with a stored record. */
  function Addresses(data: map<string, string>): set<string> {
    set key | key in data && IsAccountKey(key) :: AddressOf(key)
  }

  lemma AddressIn(data: map<string, string>, address: string)
    ensures address in Addresses(data) <==> AccountKey(address) in data
  {
    if address in Addresses(data) {
      var key :| key in data && IsAccountKey(key) && AddressOf(key) == address;
      KeyOfAddress(key);
    }
  }

  /** The entry load builds for an address: missing, empty or unreadable values count as a new account. */
  function StoredAt(data: map<string, string>, address: string): Account {
    var key := AccountKey(address);
    if key in data then match Decode(data[key]) case Some(a) => a case None => ZERO else ZERO
  }

  function StoredAccounts(data: map<string, string>): map<string, Account> {
    map address | address in Addresses(data) :: StoredAt(data, address)
  }

  function StoredSupply(data: map<string, string>): int {
    if SUPPLY_KEY in data then match ParseInt(data[SUPPLY_KEY]) case Some(n) => n case None => 0 else 0
  }

  /** The ledger a fresh StateDB sees. */
  function Durable(data: map<string, string>): Ledger {
    Ledger(StoredAccounts(data), StoredSupply(data))
  }

  /** What an address reads from the store: the record under its key, or a new account if there is none to be read. */
  lemma ReadExactly(data: map<string, string>, address: string, a: Account)
    ensures "acct:" + address in data && data["acct:" + address] == Encode(a) ==> StoredAt(data, address) == a
    ensures "acct:" + address !in data || Decode(data["acct:" + address]).None? ==> StoredAt(data, address) == Account(0, 0)
    ensures "supply:total" !in data ==> Durable(data).supply == 0
  {
    EncodeRoundTrip(a);
  }

  /** `b` is what Commit writes for a dirty table: one record per dirty account, and the supply. */
  ghost predicate IsBatch(b: map<string, string>, pending: map<string, Account>, supply: int) {
    && (forall key :: key in b <==> key == SUPPLY_KEY || (IsAccountKey(key) && AddressOf(key) in pending))
    && (forall key :: key in b && key != SUPPLY_KEY ==> b[key] == Encode(pending[AddressOf(key)]))
    && b[SUPPLY_KEY] == Signed(supply)
  }

  lemma FlushAt(data: map<string, string>, b: map<string, string>, pending: map<string, Account>, supply: int, a: string)
    requires IsBatch(b, pending, supply)
    ensures a in Addresses(data + b) <==> a in Addresses(data) || a in pending
    ensures StoredAt(data + b, a) == if a in pending then pending[a] else StoredAt(data, a)
  {
    AddressIn(data, a);
    AddressIn(data + b, a);
    if a in pending { EncodeRoundTrip(pending[a]); }
  }

  /** The stored table is determined by what each address reads. */
  lemma TableIs(data: map<string, string>, table: map<string, Account>)
    requires forall a :: a in Addresses(data) <==> a in table
    requires forall a :: a in table ==> StoredAt(data, a) == table[a]
    ensures StoredAccounts(data) == table
  {
  }

  /** Flushing makes the cached ledger durable. */
  lemma FlushIsDurable(data: map<string, string>, b: map<string, string>, pending: map<string, Account>, supply: int)
    requires IsBatch(b, pending, supply)
    ensures Durable(data + b) == Ledger(StoredAccounts(data) + pending, supply)
  {
    SignedRoundTrip(supply);
    var table := StoredAccounts(data) + pending;
    forall a ensures a in Addresses(data + b) <==> a in table { FlushAt(data, b, pending, supply, a); }
    forall a | a in table ensures StoredAt(data + b, a) == table[a] { FlushAt(data, b, pending, supply, a); }
    TableIs(data + b, table);
  }

  /** A value written outside the account and supply keys does not show in the ledger. */
  lemma OtherKeysInvisible(data: map<string, string>, key: string, value: string)
    requires !IsAccountKey(key) && key != SUPPLY_KEY
    ensures Durable(data[key := value]) == Durable(data)
  {
    forall a
      ensures a in Addresses(data[key := value]) <==> a in Addresses(data)
      ensures StoredAt(data[key := value], a) == StoredAt(data, a)
    {
      AddressIn(data, a);
      AddressIn(data[key := value], a);
    }
    assert StoredAccounts(data[key := value]) == StoredAccounts(data);
  }

  // ---------------------------------------------------------------- the state root

  function Leaf(key: string, value: string): Digest {
    OfData(key + value)
  }

  function Leaves(keys: seq<string>, data: map<string, string>): (r: seq<Digest>)
    requires forall i :: 0 <= i < |keys| ==> keys[i] in data
    ensures |r| == |keys| && forall i :: 0 <= i < |keys| ==> r[i] == Leaf(keys[i], data[keys[i]])
  {
    seq(|keys|, i requires 0 <= i < |keys| => Leaf(keys[i], data[keys[i]]))
  }

  ghost function AccountKeys(data: map<string, string>): (keys: seq<string>)
    ensures forall key :: key in keys <==> key in data && IsAccountKey(key)
    ensures Ascending(Before, keys)
    ensures forall i :: 0 <= i < |keys| ==> keys[i] in data && IsAccountKey(keys[i])
  {
    Ordered(set key | key in data && IsAccountKey(key))
  }

  function RootOf(leaves: seq<Digest>): Digest {
    if leaves == [] then OfData("empty-state") else Root(leaves)
  }

  ghost function StateRoot(data: map<string, string>): Digest {
    RootOf(Leaves(AccountKeys(data), data))
  }

  /** Every stored account is a record that Commit wrote. */
  ghost predicate Canonical(data: map<string, string>) {
    forall key :: key in data && IsAccountKey(key) ==> exists a :: data[key] == Encode(a)
  }

  /** Only records that a commit writes are added. */
  ghost predicate KeepsCanonical(before: map<string, string>, after: map<string, string>) {
    Canonical(before) ==> Canonical(after)
  }

  lemma CommitKeepsCanonical(data: map<string, string>, b: map<string, string>, pending: map<string, Account>, supply: int)
    requires Canonical(data) && IsBatch(b, pending, supply)
    ensures Canonical(data + b)
  {
    forall key | key in data + b && IsAccountKey(key) ensures exists a :: (data + b)[key] == Encode(a) {
      if key in b {
        KeyOfAddress(key);
        assert b[key] == Encode(pending[AddressOf(key)]);
      }
    }
  }

  lemma EqualLeaves(d1: map<string, string>, k1: string, d2: map<string, string>, k2: string)
    requires Canonical(d1) && Canonical(d2) && IsAccountKey(k1) && IsAccountKey(k2) && k1 in d1 && k2 in d2
    requires Leaf(k1, d1[k1]) == Leaf(k2, d2[k2])
    ensures k1 == k2 && d1[k1] == d2[k2]
  {
    var a1 :| d1[k1] == Encode(a1);
    var a2 :| d2[k2] == Encode(a2);
    LeafDecodesUniquely(k1, a1, k2, a2);
  }

  lemma LeavesDistinct(data: map<string, string>)
    requires Canonical(data)
    ensures Distinct(Leaves(AccountKeys(data), data))
  {
    var keys := AccountKeys(data);
    AscendingDistinct(keys);
    forall i, j | 0 <= i < j < |keys| ensures Leaf(keys[i], data[keys[i]]) != Leaf(keys[j], data[keys[j]]) {
      assert keys[i] in keys && keys[j] in keys;
      if Leaf(keys[i], data[keys[i]]) == Leaf(keys[j], data[keys[j]]) {
        EqualLeaves(data, keys[i], data, keys[j]);
      }
    }
  }

  /** Property: equal state roots mean equal account tables, for any number of accounts on either side. */
  lemma RootDeterminesAccounts(d1: map<string, string>, d2: map<string, string>)
    requires Canonical(d1) && Canonical(d2) && StateRoot(d1) == StateRoot(d2)
    ensures StoredAccounts(d1) == StoredAccounts(d2)
  {
    LeavesDistinct(d1);
    LeavesDistinct(d2);
    RootOfInjective(Leaves(AccountKeys(d1), d1), Leaves(AccountKeys(d2), d2));
    SameEntries(d1, AccountKeys(d1), d2, AccountKeys(d2));
    var table := StoredAccounts(d2);
    forall a ensures a in Addresses(d1) <==> a in table { SameAccount(d1, d2, a); }
    forall a | a in table ensures StoredAt(d1, a) == table[a] { SameAccount(d1, d2, a); }
    TableIs(d1, table);
  }

  lemma SameAccount(d1: map<string, string>, d2: map<string, string>, a: string)
    requires AccountKeys(d1) == AccountKeys(d2)
    requires forall i :: 0 <= i < |AccountKeys(d1)| ==> d1[AccountKeys(d1)[i]] == d2[AccountKeys(d1)[i]]
    ensures a in Addresses(d1) <==> a in Addresses(d2)
    ensures StoredAt(d1, a) == StoredAt(d2, a)
  {
    AddressIn(d1, a);
    AddressIn(d2, a);
    var key := AccountKey(a);
    assert key in d1 <==> key in AccountKeys(d1);
    assert key in d2 <==> key in AccountKeys(d2);
  }

  /** Equal leaf lists come from equal key lists with equal values. */
  lemma SameEntries(d1: map<string, string>, k1: seq<string>, d2: map<string, string>, k2: seq<string>)
    requires Canonical(d1) && Canonical(d2)
    requires forall i :: 0 <= i < |k1| ==> k1[i] in d1 && IsAccountKey(k1[i])
    requires forall i :: 0 <= i < |k2| ==> k2[i] in d2 && IsAccountKey(k2[i])
    requires Leaves(k1, d1) == Leaves(k2, d2)
    ensures k1 == k2 && forall i :: 0 <= i < |k1| ==> d1[k1[i]] == d2[k1[i]]
  {
    assert |Leaves(k1, d1)| == |Leaves(k2, d2)|;
    forall i | 0 <= i < |k1| ensures k1[i] == k2[i] && d1[k1[i]] == d2[k2[i]] {
      assert Leaves(k1, d1)[i] == Leaves(k2, d2)[i];
      EqualLeaves(d1, k1[i], d2, k2[i]);
    }
  }

  lemma RootOfInjective(l1: seq<Digest>, l2: seq<Digest>)
    requires Distinct(l1) && Distinct(l2) && RootOf(l1) == RootOf(l2)
    ensures l1 == l2
  {
    if l1 != [] { FoldShape(HashEach(l1)); }
    if l2 != [] { FoldShape(HashEach(l2)); }
    if l1 != [] && l2 != [] { RootInjective(l1, l2); }
  }

  // ---------------------------------------------------------------- the root of a plain table

  ghost predicate SameRecords(d1: map<string, string>, d2: map<string, string>) {
    forall key | IsAccountKey(key) :: (key in d1 <==> key in d2) && (key in d1 ==> d1[key] == d2[key])
  }

  lemma SameRecordsSameRoot(d1: map<string, string>, d2: map<string, string>)
    requires SameRecords(d1, d2)
    ensures StateRoot(d1) == StateRoot(d2)
  {
    var keys := AccountKeys(d1);
    BeforeIsStrictOrder();
    AscendingUnique(Before, keys, AccountKeys(d2));
    assert Leaves(keys, d1) == Leaves(keys, d2);
  }

  /** The records that a commit stores for a table. */
  ghost function RecordsOf(accounts: map<string, Account>): (d: map<string, string>)
    ensures Canonical(d)
    ensures forall key :: key in d <==> IsAccountKey(key) && AddressOf(key) in accounts
  {
    forall key | IsAccountKey(key) ensures AccountKey(AddressOf(key)) == key { KeyOfAddress(key); }
    var keys := set a | a in accounts :: AccountKey(a);
    map key | key in keys :: Encode(accounts[AddressOf(key)])
  }

  /** The state root as a function of the plain table alone. */
  ghost function TableRoot(accounts: map<string, Account>): Digest {
    StateRoot(RecordsOf(accounts))
  }

  lemma StoredRecord(data: map<string, string>, key: string)
    requires Canonical(data) && key in data && IsAccountKey(key)
    ensures AddressOf(key) in StoredAccounts(data) && data[key] == Encode(StoredAccounts(data)[AddressOf(key)])
  {
    var a :| data[key] == Encode(a);
    EncodeRoundTrip(a);
    KeyOfAddress(key);
    AddressIn(data, AddressOf(key));
  }

  /** The root of a canonical store is the root of its table. */
  lemma RootOfTable(data: map<string, string>)
    requires Canonical(data)
    ensures StateRoot(data) == TableRoot(StoredAccounts(data))
  {
    var records := RecordsOf(StoredAccounts(data));
    forall key | IsAccountKey(key) ensures (key in data <==> key in records) && (key in data ==> data[key] == records[key]) {
      KeyOfAddress(key);
      AddressIn(data, AddressOf(key));
      if key in data { StoredRecord(data, key); }
    }
    SameRecordsSameRoot(data, records);
  }

  /** Property: equal account tables have equal state roots, whatever else the stores hold. */
  lemma AccountsDetermineRoot(d1: map<string, string>, d2: map<string, string>)
    requires Canonical(d1) && Canonical(d2) && StoredAccounts(d1) == StoredAccounts(d2)
    ensures StateRoot(d1) == StateRoot(d2)
  {
    RootOfTable(d1);
    RootOfTable(d2);
  }

  lemma StoredRecordsOf(accounts: map<string, Account>)
    ensures StoredAccounts(RecordsOf(accounts)) == accounts
  {
    var d := RecordsOf(accounts);
    forall a
      ensures a in Addresses(d) <==> a in accounts
      ensures a in accounts ==> StoredAt(d, a) == accounts[a]
    {
      AddressIn(d, a);
      if a in accounts { EncodeRoundTrip(accounts[a]); }
    }
    TableIs(d, accounts);
  }

  /** Property: state roots tell tables apart, and nothing else. */
  lemma TableRootExact(t1: map<string, Account>, t2: map<string, Account>)
    ensures TableRoot(t1) == TableRoot(t2) <==> t1 == t2
  {
    if TableRoot(t1) == TableRoot(t2) {
      RootDeterminesAccounts(RecordsOf(t1), RecordsOf(t2));
      StoredRecordsOf(t1);
      StoredRecordsOf(t2);
    }
  }

  // ---------------------------------------------------------------- the cache

  /** The key-value store, shared by every StateDB opened on it; `ledger` is what its accounts and supply say. */
  class Store {
    var data: map<string, string>
    ghost var ledger: Ledger

    ghost predicate Valid() reads this {
      ledger == Durable(data)
    }

    constructor ()
      ensures Valid() && data == map[] && ledger == Ledger(map[], 0) && Canonical(data)
    {
      data, ledger := map[], Ledger(map[], 0);
      new;
      assert Durable(data) == Ledger(map[], 0);
    }

    /** PutBatch: all entries or none. */
    method PutBatch(b: map<string, string>, ghost pending: map<string, Account>, ghost supply: int)
      requires Valid() && IsBatch(b, pending, supply)
      modifies this
      ensures Valid() && data == old(data) + b && ledger == Ledger(old(ledger).accounts + pending, supply)
      ensures KeepsCanonical(old(data), data)
    {
      FlushIsDurable(data, b, pending, supply);
      if Canonical(data) { CommitKeepsCanonical(data, b, pending, supply); }
      data := data + b;
      ledger := Durable(data);
    }

    /** Public keys live beside the accounts. */
    method PutPublicKey(address: string, key: string)
      requires Valid()
      modifies this
      ensures Valid() && ledger == old(ledger) && data == old(data)[PublicKeyName(address) := key]
      ensures KeepsCanonical(old(data), data)
    {
      OtherKeysInvisible(data, PublicKeyName(address), key);
      data := data[PublicKeyName(address) := key];
    }
  }

  function PublicKeyName(address: string): (key: string)
    ensures !IsAccountKey(key) && key != SUPPLY_KEY
  {
    assert PUBKEY_PREFIX[0] == 'p' && ACCOUNT_PREFIX[0] == 'a' && SUPPLY_KEY[0] == 's';
    PUBKEY_PREFIX + address
  }

  lemma NothingPending(accounts: map<string, Account>)
    ensures accounts + map[] == accounts
  {
  }

  class StateDB {
    const db: Store
    var pending: map<string, Account>
    var totalSupply: int

    constructor (db: Store)
      requires db.Valid()
      ensures this.db == db && pending == map[] && View() == db.ledger
    {
      this.db, pending, totalSupply := db, map[], 0;
      new;
      if SUPPLY_KEY in db.data && |db.data[SUPPLY_KEY]| > 0 {
        match ParseInt(db.data[SUPPLY_KEY])
        case Some(n) => totalSupply := n;
        case None =>
      }
      NothingPending(db.ledger.accounts);
    }

    /** The table the cache stands for: dirty entries over stored ones. */
    ghost function View(): Ledger reads this, db {
      Ledger(db.ledger.accounts + pending, totalSupply)
    }

    method Load(address: string) returns (a: Account)
      requires db.Valid()
      ensures a == Get(View(), address)
    {
      if address in pending { return pending[address]; }
      AddressIn(db.data, address);
      var key := AccountKey(address);
      if key !in db.data || |db.data[key]| == 0 { return ZERO; }
      match Decode(db.data[key])
      case Some(stored) => return stored;
      case None => return ZERO;
    }

    /** A write to the entry that dirty hands out. */
    method Write(address: string, a: Account)
      modifies this`pending
      ensures View() == Put(old(View()), address, a)
    {
      pending := pending[address := a];
      assert db.ledger.accounts + pending == (db.ledger.accounts + old(pending))[address := a];
    }

    method GetBalance(address: string) returns (balance: int)
      requires db.Valid()
      ensures balance == Get(View(), address).balance
    {
      var a := Load(address);
      balance := a.balance;
    }

    method GetNonce(address: string) returns (nonce: uint64)
      requires db.Valid()
      ensures nonce == Get(View(), address).nonce
    {
      var a := Load(address);
      nonce := a.nonce;
    }

    method SetBalance(address: string, amount: int)
      requires db.Valid()
      modifies this`pending
      ensures View() == Accounts.SetBalance(old(View()), address, amount)
    {
      var a := Load(address);
      Write(address, a.(balance := amount));
    }

    method AddBalance(address: string, amount: int)
      requires db.Valid()
      modifies this`pending
      ensures View() == Accounts.AddBalance(old(View()), address, amount)
    {
      if amount <= 0 { return; }
      var a := Load(address);
      Write(address, a.(balance := a.balance + amount));
    }

    method SubBalance(address: string, amount: int) returns (ok: bool)
      requires db.Valid()
      modifies this`pending
      ensures (View(), ok) == Accounts.SubBalance(old(View()), address, amount)
    {
      if amount <= 0 { return true; }
      var a := Load(address);
      if a.balance < amount {
        Write(address, a);
        return false;
      }
      Write(address, a.(balance := a.balance - amount));
      return true;
    }

    method IncrementNonce(address: string)
      requires db.Valid()
      modifies this`pending
      ensures View() == Accounts.IncrementNonce(old(View()), address)
    {
      var a := Load(address);
      Write(address, a.(nonce := (a.nonce + 1) % U64));
    }

    method SetNonce(address: string, nonce: uint64)
      requires db.Valid()
      modifies this`pending
      ensures View() == Accounts.SetNonce(old(View()), address, nonce)
    {
      var a := Load(address);
      Write(address, a.(nonce := nonce));
    }

    method IncrementTotalSupply(amount: int)
      modifies this`totalSupply
      ensures View() == AddSupply(old(View()), amount)
    {
      totalSupply := totalSupply + amount;
    }

    method DecrementTotalSupply(amount: int)
      modifies this`totalSupply
      ensures View() == AddSupply(old(View()), -amount)
    {
      totalSupply := totalSupply - amount;
    }

    /** Writes straight to the store, once per address, and never touches the ledger. */
    method RegisterPublicKey(address: string, key: string)
      requires db.Valid()
      modifies db
      ensures db.Valid() && db.ledger == old(db.ledger) && View() == old(View())
      ensures db.data == if key == "" || address == "" || PublicKeyName(address) in old(db.data) then old(db.data)
                         else old(db.data)[PublicKeyName(address) := key]
      ensures KeepsCanonical(old(db.data), db.data)
    {
      if key == "" || address == "" { return; }
      if PublicKeyName(address) in db.data { return; }
      db.PutPublicKey(address, key);
    }

    /** Flushes the dirty table and the supply in one atomic write and returns the state root; a failed write
        changes nothing. */
    method Commit(ioOk: bool) returns (root: Option<Digest>)
      requires db.Valid()
      modifies this`pending, db
      ensures db.Valid() && View() == old(View())
      ensures root.Some? <==> ioOk
      ensures !ioOk ==> db.data == old(db.data) && db.ledger == old(db.ledger) && pending == old(pending)
      ensures ioOk ==> pending == map[] && db.ledger == old(View()) && root == Some(StateRoot(db.data))
      ensures KeepsCanonical(old(db.data), db.data)
      ensures old(Canonical(db.data)) && ioOk ==> root == Some(TableRoot(db.ledger.accounts))
    {
      var ok := Flush(ioOk);
      if !ok { return None; }
      var stateRoot := ComputeStateRoot();
      if Canonical(db.data) { RootOfTable(db.data); }
      root := Some(stateRoot);
    }

    /** The write half of Commit. */
    method Flush(ioOk: bool) returns (ok: bool)
      requires db.Valid()
      modifies this`pending, db
      ensures db.Valid() && ok == ioOk
      ensures !ok ==> db.data == old(db.data) && db.ledger == old(db.ledger) && pending == old(pending)
      ensures ok ==> pending == map[] && db.ledger == old(View()) == View()
      ensures KeepsCanonical(old(db.data), db.data)
    {
      var batch := BuildBatch();
      if !ioOk { return false; }
      db.PutBatch(batch, pending, totalSupply);
      pending := map[];
      NothingPending(db.ledger.accounts);
      return true;
    }

    /** The marshalling loop of Commit. */
    method BuildBatch() returns (batch: map<string, string>)
      ensures IsBatch(batch, pending, totalSupply)
    {
      batch := map[];
      var rest := pending.Keys;
      while rest != {}
        invariant rest <= pending.Keys
        invariant forall key ::
          key in batch <==> IsAccountKey(key) && AddressOf(key) in pending && AddressOf(key) !in rest
        invariant forall key :: key in batch ==> batch[key] == Encode(pending[AddressOf(key)])
        decreases rest
      {
        var address :| address in rest;
        forall key | IsAccountKey(key) && AddressOf(key) == address ensures key == AccountKey(address) { KeyOfAddress(key); }
        rest := rest - {address};
        batch := batch[AccountKey(address) := Encode(pending[address])];
      }
      batch := batch[SUPPLY_KEY := Signed(totalSupply)];
      assert SUPPLY_KEY[0] != ACCOUNT_PREFIX[0];
    }

    method ComputeStateRoot() returns (root: Digest)
      ensures root == StateRoot(db.data)
    {
      var keys := ListAccountKeys();
      var leaves := HashRecords(keys);
      if |keys| == 0 { return OfData("empty-state"); }
      root := MerkleRootFromLeaves(leaves);
    }

    method HashRecords(keys: seq<string>) returns (leaves: seq<Digest>)
      requires forall i :: 0 <= i < |keys| ==> keys[i] in db.data
      ensures leaves == Leaves(keys, db.data)
    {
      leaves := [];
      for i := 0 to |keys|
        invariant |leaves| == i && forall j :: 0 <= j < i ==> leaves[j] == Leaf(keys[j], db.data[keys[j]])
      {
        leaves := leaves + [Leaf(keys[i], db.data[keys[i]])];
      }
    }

    /** The prefix scan followed by the sort. */
    method ListAccountKeys() returns (keys: seq<string>)
      ensures keys == AccountKeys(db.data)
    {
      keys := [];
      var rest := db.data.Keys;
      while rest != {}
        invariant rest <= db.data.Keys && Ascending(Before, keys)
        invariant forall key :: key in keys <==> key in db.data && key !in rest && IsAccountKey(key)
        decreases rest
      {
        var key :| key in rest;
        rest := rest - {key};
        if IsAccountKey(key) {
          OrderedInsert(keys, key);
          keys := Insert(Before, keys, key);
        }
      }
      BeforeIsStrictOrder();
      AscendingUnique(Before, keys, AccountKeys(db.data));
    }
  }
}

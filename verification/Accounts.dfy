/** The plain account table that the cached store stands for: a total map from addresses to accounts, kept as the
    finite map of the addresses ever written, and the tracked supply. */
module Accounts {
  import opened Basics
  import opened Records

  const ZERO := Account(0, 0)

  datatype Ledger = Ledger(accounts: map<string, Account>, supply: int)

  function Get(l: Ledger, address: string): Account {
    if address in l.accounts then l.accounts[address] else ZERO
  }

  function Put(l: Ledger, address: string, a: Account): Ledger {
    l.(accounts := l.accounts[address := a])
  }

  function SetBalance(l: Ledger, address: string, amount: int): Ledger {
    Put(l, address, Get(l, address).(balance := amount))
  }

  function AddBalance(l: Ledger, address: string, amount: int): Ledger {
    if amount <= 0 then l else SetBalance(l, address, Get(l, address).balance + amount)
  }

  /** A refused withdrawal still leaves an entry for the address. */
  function SubBalance(l: Ledger, address: string, amount: int): (Ledger, bool) {
    if amount <= 0 then (l, true)
    else if Get(l, address).balance < amount then (Put(l, address, Get(l, address)), false)
    else (SetBalance(l, address, Get(l, address).balance - amount), true)
  }

  function SetNonce(l: Ledger, address: string, nonce: uint64): Ledger {
    Put(l, address, Get(l, address).(nonce := nonce))
  }

  /** Nonces are 64-bit counters. */
  function IncrementNonce(l: Ledger, address: string): Ledger {
    SetNonce(l, address, (Get(l, address).nonce + 1) % U64)
  }

  function AddSupply(l: Ledger, amount: int): Ledger {
    l.(supply := l.supply + amount)
  }

  /** What each write leaves to be read, at every address: just what it is meant to change. */
  lemma WritesExactly(l: Ledger, a: string, x: string, amount: int, nonce: uint64)
    ensures Get(SetBalance(l, a, amount), x) == if x == a then Account(amount, Get(l, x).nonce) else Get(l, x)
    ensures Get(SetNonce(l, a, nonce), x) == if x == a then Account(Get(l, x).balance, nonce) else Get(l, x)
    ensures Get(AddBalance(l, a, amount), x).balance
         == Get(l, x).balance + (if x == a && amount > 0 then amount else 0)
    ensures SubBalance(l, a, amount).1 <==> amount <= 0 || Get(l, a).balance >= amount
    ensures Get(SubBalance(l, a, amount).0, x).balance
         == Get(l, x).balance - (if x == a && 0 < amount <= Get(l, a).balance then amount else 0)
    ensures Get(IncrementNonce(l, a), x)
         == if x == a then Account(Get(l, x).balance, (Get(l, x).nonce + 1) % U64) else Get(l, x)
  {
  }
}

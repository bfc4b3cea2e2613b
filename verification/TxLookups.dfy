/** txLookup of core/tx_pool.go and txNoncer of core/tx_noncer.go. */
module TxLookups {
  import opened Transactions

  /** A table files every transaction under its own hash. */
  ghost predicate Filed(m: map<TxHash, Tx>) {
    forall h :: h in m ==> m[h] == h.preimage
  }

  function OfSenders(m: map<TxHash, Tx>, accounts: set<Address>): map<TxHash, Tx> {
    map h | h in m && m[h].sender in accounts :: m[h]
  }

  function NotOfSenders(m: map<TxHash, Tx>, accounts: set<Address>): map<TxHash, Tx> {
    map h | h in m && m[h].sender !in accounts :: m[h]
  }

  class TxLookup {
    var slots: int
    var locals: map<TxHash, Tx>
    var remotes: map<TxHash, Tx>

    /** Both tables are well filed and disjoint, and the slot counter is the slots they hold. */
    ghost predicate Valid()
      reads this
    {
      && Filed(locals) && Filed(remotes) && locals.Keys !! remotes.Keys
      && slots == SlotSum(locals) + SlotSum(remotes)
    }

    constructor ()
      ensures Valid() && locals == map[] && remotes == map[] && slots == 0
    {
      slots, locals, remotes := 0, map[], map[];
    }

    /** The hashes of all transactions, local and remote. */
    ghost function Known(): set<TxHash>
      reads this
    {
      locals.Keys + remotes.Keys
    }

    predicate Has(hash: TxHash)
      reads this
    {
      hash in locals || hash in remotes
    }

    /** Get returns the transaction of a known hash. */
    function Get(hash: TxHash): (tx: Option<Tx>)
      reads this
      ensures tx.Some? <==> Has(hash)
      ensures Valid() && tx.Some? ==> tx.value == hash.preimage
    {
      if hash in locals then Some(locals[hash])
      else if hash in remotes then Some(remotes[hash])
      else None
    }

    /** Add counts the slots and files the transaction; the tables stay sound if it was not known. */
    method Add(tx: Tx, local: bool)
      requires Valid()
      modifies this
      ensures locals == if local then old(locals)[HashOf(tx) := tx] else old(locals)
      ensures remotes == if local then old(remotes) else old(remotes)[HashOf(tx) := tx]
      ensures slots == old(slots) + NumSlots(tx) && Known() == old(Known()) + {HashOf(tx)}
      ensures !old(Has(HashOf(tx))) ==> Valid()
    {
      hide SlotSum, NumSlots;
      slots := slots + NumSlots(tx);
      if !Has(HashOf(tx)) {
        SlotSumWith(locals, HashOf(tx), tx);
        SlotSumWith(remotes, HashOf(tx), tx);
      }
      if local {
        locals := locals[HashOf(tx) := tx];
      } else {
        remotes := remotes[HashOf(tx) := tx];
      }
    }

    /** Remove forgets a transaction and its slots; an unknown hash changes nothing. */
    method Remove(hash: TxHash)
      requires Valid()
      modifies this
      ensures Valid()
      ensures locals == old(locals) - {hash} && remotes == old(remotes) - {hash}
      ensures Known() == old(Known()) - {hash}
      ensures slots == old(slots) - if old(Has(hash)) then NumSlots(hash.preimage) else 0
    {
      hide SlotSum, NumSlots;
      var found := Get(hash);
      assert hash !in locals ==> locals - {hash} == locals;
      assert hash !in remotes ==> remotes - {hash} == remotes;
      if found.None? {
        return;
      }
      if hash in locals {
        SlotSumWithout(locals, hash);
      } else {
        SlotSumWithout(remotes, hash);
      }
      slots := slots - NumSlots(found.value);
      locals, remotes := locals - {hash}, remotes - {hash};
    }

    /** RemoteToLocals moves the remote transactions of the given senders to the local table. */
    method RemoteToLocals(accounts: set<Address>) returns (migrated: nat)
      requires Valid()
      modifies this
      ensures Valid() && slots == old(slots) && Known() == old(Known())
      ensures remotes == NotOfSenders(old(remotes), accounts)
      ensures locals == old(locals) + OfSenders(old(remotes), accounts)
      ensures migrated == |OfSenders(old(remotes), accounts)|
    {
      hide Migrating, SlotSum, Filed;
      migrated := 0;
      ghost var l0, r0 := locals, remotes;
      var todo := remotes.Keys;
      MigrateStart(l0, r0, accounts);
      while todo != {}
        invariant slots == old(slots) && Migrating(l0, r0, accounts, todo, locals, remotes, migrated)
        decreases |todo|
      {
        var hash :| hash in todo;
        MigrateStep(l0, r0, accounts, todo, locals, remotes, migrated, hash);
        todo := todo - {hash};
        if remotes[hash].sender in accounts {
          locals, remotes := locals[hash := remotes[hash]], remotes - {hash};
          migrated := migrated + 1;
        }
      }
      MigrateDone(l0, r0, accounts, locals, remotes, migrated);
    }
  }

  /** The remote transactions of the senders outside `todo`. */
  function Moved(r0: map<TxHash, Tx>, accounts: set<Address>, todo: set<TxHash>): map<TxHash, Tx> {
    map h | h in r0 && h !in todo && r0[h].sender in accounts :: r0[h]
  }

  /** RemoteToLocals has looked at everything outside `todo`. */
  ghost predicate Migrating(l0: map<TxHash, Tx>, r0: map<TxHash, Tx>, accounts: set<Address>, todo: set<TxHash>,
                            locals: map<TxHash, Tx>, remotes: map<TxHash, Tx>, migrated: nat) {
    && l0.Keys !! r0.Keys && todo <= remotes.Keys
    && locals == l0 + Moved(r0, accounts, todo)
    && remotes == r0 - Moved(r0, accounts, todo).Keys
    && migrated == |Moved(r0, accounts, todo)|
    && SlotSum(locals) + SlotSum(remotes) == SlotSum(l0) + SlotSum(r0)
  }

  lemma MigrateStart(l0: map<TxHash, Tx>, r0: map<TxHash, Tx>, accounts: set<Address>)
    requires l0.Keys !! r0.Keys
    ensures Migrating(l0, r0, accounts, r0.Keys, l0, r0, 0)
  {
    assert Moved(r0, accounts, r0.Keys) == map[];
    assert l0 + map[] == l0 && r0 - {} == r0;
  }

  lemma MovedStep(r0: map<TxHash, Tx>, accounts: set<Address>, todo: set<TxHash>, h: TxHash)
    requires h in todo && h in r0
    ensures h !in Moved(r0, accounts, todo)
    ensures r0[h].sender in accounts ==> Moved(r0, accounts, todo - {h}) == Moved(r0, accounts, todo)[h := r0[h]]
    ensures r0[h].sender !in accounts ==> Moved(r0, accounts, todo - {h}) == Moved(r0, accounts, todo)
  {
  }

  lemma MovedAll(r0: map<TxHash, Tx>, accounts: set<Address>)
    ensures Moved(r0, accounts, {}) == OfSenders(r0, accounts)
    ensures r0 - OfSenders(r0, accounts).Keys == NotOfSenders(r0, accounts)
    ensures OfSenders(r0, accounts).Keys <= r0.Keys
    ensures Filed(r0) ==> Filed(OfSenders(r0, accounts)) && Filed(NotOfSenders(r0, accounts))
  {
  }

  lemma PlusUpdate<K, V>(a: map<K, V>, b: map<K, V>, k: K, v: V)
    ensures a + b[k := v] == (a + b)[k := v]
  {
  }

  lemma MinusUpdate<K, V>(a: map<K, V>, b: map<K, V>, k: K, v: V)
    ensures a - b[k := v].Keys == a - b.Keys - {k}
    ensures k !in b ==> |b[k := v]| == |b| + 1
  {
    if k !in b {
      assert b[k := v].Keys == b.Keys + {k};
    }
  }

  lemma MigrateStep(l0: map<TxHash, Tx>, r0: map<TxHash, Tx>, accounts: set<Address>, todo: set<TxHash>,
                    locals: map<TxHash, Tx>, remotes: map<TxHash, Tx>, migrated: nat, h: TxHash)
    requires Migrating(l0, r0, accounts, todo, locals, remotes, migrated) && h in todo
    ensures h in remotes && h in r0 && remotes[h] == r0[h]
    ensures r0[h].sender in accounts ==>
              Migrating(l0, r0, accounts, todo - {h}, locals[h := r0[h]], remotes - {h}, migrated + 1)
    ensures r0[h].sender !in accounts ==>
              Migrating(l0, r0, accounts, todo - {h}, locals, remotes, migrated)
  {
    hide SlotSum, Moved;
    MovedStep(r0, accounts, todo, h);
    if r0[h].sender in accounts {
      MigrateMove(l0, r0, accounts, todo, locals, remotes, migrated, h);
    }
  }

  lemma MigrateMove(l0: map<TxHash, Tx>, r0: map<TxHash, Tx>, accounts: set<Address>, todo: set<TxHash>,
                    locals: map<TxHash, Tx>, remotes: map<TxHash, Tx>, migrated: nat, h: TxHash)
    requires Migrating(l0, r0, accounts, todo, locals, remotes, migrated) && h in todo && h in r0 && h in remotes
    requires remotes[h] == r0[h]
    requires h !in Moved(r0, accounts, todo) && Moved(r0, accounts, todo - {h}) == Moved(r0, accounts, todo)[h := r0[h]]
    ensures Migrating(l0, r0, accounts, todo - {h}, locals[h := r0[h]], remotes - {h}, migrated + 1)
  {
    hide SlotSum, Moved;
    var moved := Moved(r0, accounts, todo);
    PlusUpdate(l0, moved, h, r0[h]);
    MinusUpdate(r0, moved, h, r0[h]);
    assert h !in locals;
    SlotSumWith(locals, h, r0[h]);
    SlotSumWithout(remotes, h);
  }

  lemma MigrateDone(l0: map<TxHash, Tx>, r0: map<TxHash, Tx>, accounts: set<Address>,
                    locals: map<TxHash, Tx>, remotes: map<TxHash, Tx>, migrated: nat)
    requires Migrating(l0, r0, accounts, {}, locals, remotes, migrated) && Filed(l0) && Filed(r0)
    ensures Filed(locals) && Filed(remotes) && locals.Keys !! remotes.Keys
    ensures SlotSum(locals) + SlotSum(remotes) == SlotSum(l0) + SlotSum(r0)
    ensures remotes == NotOfSenders(r0, accounts) && locals == l0 + OfSenders(r0, accounts)
    ensures migrated == |OfSenders(r0, accounts)| && locals.Keys + remotes.Keys == l0.Keys + r0.Keys
  {
    hide SlotSum, Moved, OfSenders, NotOfSenders, Filed;
    MovedAll(r0, accounts);
    FiledPlus(l0, OfSenders(r0, accounts));
    MoveKeys(l0, r0, OfSenders(r0, accounts));
  }

  lemma FiledPlus(a: map<TxHash, Tx>, b: map<TxHash, Tx>)
    requires Filed(a) && Filed(b)
    ensures Filed(a + b)
  {
  }

  lemma MoveKeys<K, V>(a: map<K, V>, r: map<K, V>, m: map<K, V>)
    requires a.Keys !! r.Keys && m.Keys <= r.Keys
    ensures (a + m).Keys !! (r - m.Keys).Keys && (a + m).Keys + (r - m.Keys).Keys == a.Keys + r.Keys
  {
  }
}

module TxNoncers {
  import opened Transactions

  /** Virtual nonces over a state: an account without one has its state nonce. */
  class TxNoncer {
    var nonces: map<Address, nat>
    const fallback: Address -> nat

    function Nonce(addr: Address): nat
      reads this
    {
      if addr in nonces then nonces[addr] else fallback(addr)
    }

    constructor (state: Address -> nat)
      ensures fallback == state && nonces == map[]
    {
      fallback, nonces := state, map[];
    }

    /** Get returns the virtual nonce; filling the table on a read changes no virtual nonce. */
    method Get(addr: Address) returns (nonce: nat)
      modifies this
      ensures nonce == old(Nonce(addr)) && forall a :: Nonce(a) == old(Nonce(a))
    {
      if addr !in nonces {
        nonces := nonces[addr := fallback(addr)];
      }
      nonce := nonces[addr];
    }

    method Set(addr: Address, nonce: nat)
      modifies this
      ensures forall a :: Nonce(a) == if a == addr then nonce else old(Nonce(a))
    {
      nonces := nonces[addr := nonce];
    }

    /** SetIfLower lowers the virtual nonce to the given one, and never raises it. */
    method SetIfLower(addr: Address, nonce: nat)
      modifies this
      ensures forall a :: Nonce(a) == if a == addr && nonce < old(Nonce(a)) then nonce else old(Nonce(a))
    {
      if addr !in nonces {
        nonces := nonces[addr := fallback(addr)];
      }
      if nonces[addr] <= nonce {
        return;
      }
      nonces := nonces[addr := nonce];
    }

    method SetAll(all: map<Address, nat>)
      modifies this
      ensures forall a :: Nonce(a) == if a in all then all[a] else fallback(a)
    {
      nonces := all;
    }
  }
}

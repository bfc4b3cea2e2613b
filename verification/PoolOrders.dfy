/** What the pool's operations keep of an account's order, and what a reset that lowers its state nonce leaves of it. */
module PoolOrders {
  import opened Transactions
  import opened NonceMaps
  import opened ListValues
  import opened PoolInvariants

  /** The nonces of m run from `from` without a gap. */
  ghost predicate Unbroken(m: NonceMap, from: nat) {
    exists hi: nat :: IsInterval(m, from, hi)
  }

  /** Between two tables, accounts in order stay in order, a pending list without a gap from a nonce that is not above
      the state nonce stays so, and no virtual nonce rises. Pending nonces without a gap stay so from whatever nonce
      they start, and the virtual nonce keeps its place if it is not above. */
  ghost predicate OrderKept(nonce: Address -> nat, p: Lists, q: Lists, nexts: imap<Address, nat>,
                            p': Lists, q': Lists, nexts': imap<Address, nat>) {
    && (forall a: Address :: a in nexts && a in nexts' && nexts'[a] <= nexts[a])
    && (forall a: Address :: InOrder(Items(p, a), Items(q, a), nonce(a), nexts[a]) ==>
          InOrder(Items(p', a), Items(q', a), nonce(a), nexts'[a]))
    && (forall a: Address, from: nat :: from <= nonce(a) && Gapless(Items(p, a), Items(q, a), from) ==>
          Gapless(Items(p', a), Items(q', a), from))
    && (forall a: Address, from: nat :: Unbroken(Items(p, a), from) && nexts[a] <= from ==>
          Unbroken(Items(p', a), from) && nexts'[a] == nexts[a])
  }

  lemma OrderStays(nonce: Address -> nat, p: Lists, q: Lists, nexts: imap<Address, nat>)
    requires forall a: Address :: a in nexts
    ensures OrderKept(nonce, p, q, nexts, p, q, nexts)
  {
    hide Items, InOrder, Gapless, Unbroken;
  }

  lemma OrderKeptTwice(nonce: Address -> nat, p: Lists, q: Lists, nexts: imap<Address,
                       nat>, p1: Lists, q1: Lists, nexts1: imap<Address, nat>,
                       p2: Lists, q2: Lists, nexts2: imap<Address, nat>)
    requires OrderKept(nonce, p, q, nexts, p1, q1, nexts1) && OrderKept(nonce, p1, q1, nexts1, p2, q2, nexts2)
    ensures OrderKept(nonce, p, q, nexts, p2, q2, nexts2)
  {
    hide Items, InOrder, Gapless, Unbroken;
  }

  /** Where every order is kept and no virtual nonce moves, OrderKept holds. */
  lemma KeptAlike(nonce: Address -> nat, p: Lists, q: Lists, p': Lists, q': Lists, nexts: imap<Address, nat>)
    requires forall a: Address :: a in nexts
    requires forall a: Address, from: nat, next :: from <= nonce(a) && InOrder(Items(p, a), Items(q, a), from, next) ==>
               InOrder(Items(p', a), Items(q', a), from, next)
    requires forall a: Address, from :: Unbroken(Items(p, a), from) ==> Unbroken(Items(p', a), from)
    ensures OrderKept(nonce, p, q, nexts, p', q', nexts)
  {
    hide Items, InOrder, Unbroken;
  }

  /** The virtual nonces a new chain head starts with: its state nonces. */
  ghost function StateNonces(nonce: Address -> nat): (r: imap<Address, nat>)
    ensures forall a: Address :: a in r && r[a] == nonce(a)
  {
    imap a: Address | true :: nonce(a)
  }

  /** What a new head leaves of an account that was in order from nonce `was`. */
  lemma KeptFromHead(nonce: Address -> nat, p: Lists, q: Lists, p': Lists, q': Lists, nexts: imap<Address,
                     nat>, a: Address, was: nat, next: nat)
    requires OrderKept(nonce, p, q, StateNonces(nonce), p', q', nexts) && InOrder(Items(p, a), Items(q, a), was, next)
    ensures nexts[a] <= nonce(a) && (was <= nonce(a) ==> Gapless(Items(p', a), Items(q', a), was))
    ensures was > nonce(a) ==> Unbroken(Items(p', a), was) && nexts[a] == nonce(a)
  {
    hide Items, InOrder, Gapless, Unbroken;
    OrderedIsGapless(Items(p, a), Items(q, a), was, next);
    OrderedIsUnbroken(Items(p, a), Items(q, a), was, next);
  }

  lemma OrderedIsUnbroken(pending: NonceMap, queue: NonceMap, state: nat, next: nat)
    requires InOrder(pending, queue, state, next)
    ensures Unbroken(pending, state)
  {
  }

  lemma ReplaceUnbroken(m: NonceMap, from: nat, tx: Tx)
    requires Unbroken(m, from) && tx.nonce in m
    ensures Unbroken(m[tx.nonce := tx], from)
  {
    var hi: nat :| IsInterval(m, from, hi);
    assert IsInterval(m[tx.nonce := tx], from, hi);
  }

  /** removeTx cuts the pending nonces at the one removed, which is not below their first. */
  lemma RemovalUnbroken(p: Lists, q: Lists, p': Lists, q': Lists, hash: TxHash, known: bool, a: Address, from: nat)
    requires Removal(p, q, p', q', hash, known) && Unbroken(Items(p, a), from)
    ensures Unbroken(Items(p', a), from)
    ensures a == hash.preimage.sender && Holds(p, hash.preimage) ==> hash.preimage.nonce >= from
  {
    var hi: nat :| IsInterval(Items(p, a), from, hi);
    if a == hash.preimage.sender && known && Holds(p, hash.preimage) {
      assert IsInterval(Items(p', a), from, hash.preimage.nonce);
    } else {
      assert Items(p', a) == Items(p, a);
    }
  }

  /** removeTx keeps the order of every account; the virtual nonce falls to that of a pending one removed. */
  lemma RemovalKept(nonce: Address -> nat, p: Lists, q: Lists, nexts: imap<Address,
                    nat>, p': Lists, q': Lists, nexts': imap<Address, nat>,
                    hash: TxHash, known: bool)
    requires Removal(p, q, p', q', hash, known) && forall a: Address :: a in nexts && a in nexts'
    requires forall a: Address :: nexts'[a] == if a == hash.preimage.sender && known && Holds(p, hash.preimage)
                                                 && hash.preimage.nonce < nexts[a]
                                              then hash.preimage.nonce else nexts[a]
    ensures OrderKept(nonce, p, q, nexts, p', q', nexts')
  {
    hide Removal, Items, InOrder, Gapless, Unbroken, Holds;
    forall a: Address | InOrder(Items(p, a), Items(q, a), nonce(a), nexts[a])
      ensures InOrder(Items(p', a), Items(q', a), nonce(a), nexts'[a])
    {
      RemovalOrder(p, q, p', q', hash, known, a, nonce(a), nexts[a]);
    }
    forall a: Address, from: nat | Gapless(Items(p, a), Items(q, a), from)
      ensures Gapless(Items(p', a), Items(q', a), from)
    {
      RemovalGapless(p, q, p', q', hash, known, a, from);
    }
    forall a: Address, from: nat | Unbroken(Items(p, a), from) && nexts[a] <= from
      ensures Unbroken(Items(p', a), from) && nexts'[a] == nexts[a]
    {
      RemovalUnbroken(p, q, p', q', hash, known, a, from);
    }
  }

  /** The transactions promotion finds for an account. */
  function Found(q: Lists, a: Address, state: nat, balance: int, maxGas: nat): NonceMap {
    if a in q then Ripe(Usable(q[a], state, balance, maxGas).items, state) else map[]
  }

  /** What was pending from nonce `was` on goes with the transactions found below it: there is nothing on one of the
      two sides, or they meet, or the first one pending cannot be paid any more. */
  predicate Fits(pending: NonceMap, found: NonceMap, was: nat, balance: int, maxGas: nat) {
    || pending == map[] || found == map[] || (was > 0 && was - 1 in found)
    || (was in pending && TooCostly(balance, maxGas)(pending[was]))
  }

  /** What promotion finds is payable and runs from the state nonce to some end, below which nothing stays queued. */
  ghost predicate FoundRun(found: NonceMap, queue: NonceMap, state: nat, end: nat, balance: int, maxGas: nat) {
    && IsInterval(found, state, end) && (forall n :: n in queue ==> n >= end)
    && (forall n :: n in found ==> !TooCostly(balance, maxGas)(found[n]))
  }

  lemma PromotionFinds(p: Lists, q: Lists, p': Lists, q': Lists, a: Address,
                       state: nat, balance: int, maxGas: nat, cap: Option<nat>, next: nat) returns (end: nat)
    requires AccountPromoted(p, q, p', q', a, state, balance, maxGas, state, cap, next) && (a in q ==> Sound(q[a]))
    ensures Items(p', a) == Items(p, a) + Found(q, a, state, balance, maxGas)
    ensures FoundRun(Found(q, a, state, balance, maxGas), Items(q', a), state, end, balance, maxGas)
    ensures forall n :: n in Found(q, a, state, balance, maxGas) ==> n in Items(q, a)
  {
    if a in q {
      hide Usable, Capped, NextAfter, IsInterval;
      var u := Usable(q[a], state, balance, maxGas).items;
      UsableSubset(q[a], state, balance, maxGas);
      UsablePays(q[a], state, balance, maxGas);
      CappedSubset(Unripe(u, state), cap);
      end := if HasRipe(u, state) then next else state;
      RunFound(u, state, next);
    } else {
      end := state;
      assert Items(p, a) + map[] == Items(p, a);
    }
  }

  lemma RunFound(u: NonceMap, state: nat, next: nat)
    requires (forall n :: n in u ==> n >= state) && NextAfter(Ripe(u, state), state, next)
    ensures IsInterval(Ripe(u, state), state, if HasRipe(u, state) then next else state)
    ensures forall n :: n in Unripe(u, state) ==> n >= if HasRipe(u, state) then next else state
  {
    if HasRipe(u, state) {
      RipeRun(u, state, next);
    }
  }

  lemma UsablePays(l: ListValue, state: nat, balance: int, maxGas: nat)
    requires Sound(l)
    ensures forall n :: n in Usable(l, state, balance, maxGas).items ==>
              !TooCostly(balance, maxGas)(Usable(l, state, balance, maxGas).items[n])
  {
    FilteredIs(l.(items := From(l.items, state)), balance, maxGas);
  }

  /** Demotion of a strict list that holds what was pending and, below it, what was found. */
  lemma DemotionFits(p: Lists, q: Lists, p': Lists, q': Lists, a: Address, pending: NonceMap, found: NonceMap, was: nat,
                     end: nat,
                     state: nat, balance: int, maxGas: nat)
    requires AccountDemoted(p, q, p', q', a, state, balance, maxGas) && (a in p ==> ListOk(p[a], a, true))
    requires state < was && Unbroken(pending, was) && pending.Keys !! found.Keys && Items(p, a) == pending + found
    requires FoundRun(found, Items(q, a), state, end, balance, maxGas) && Items(p, a).Keys !! Items(q, a).Keys
    ensures Gapless(Items(p', a), Items(q', a), state) <==> Fits(pending, found, was, balance, maxGas)
  {
    hide Gapless, AccountDemoted, ListOk, TooCostly;
    var hi: nat :| IsInterval(pending, was, hi);
    assert From(Items(p, a), state) == Items(p, a);
    if pending == map[] {
      NothingFrom(pending, was, hi);
      InOrderDemoted(p, q, p', q', a, state, end, balance, maxGas);
    } else if was - 1 in found {
      MeetAt(pending, found, was, hi, state, end);
      InOrderDemoted(p, q, p', q', a, state, hi, balance, maxGas);
    } else {
      assert was in pending;
      StrictDemotion(p, q, p', q', a, state, balance, maxGas);
      hide FoundRun;
      DemotedApart(p[a], Items(q, a), pending, found, was, hi, end, state, balance, maxGas, Items(p', a), Items(q', a));
    }
  }

  lemma InOrderDemoted(p: Lists, q: Lists, p': Lists, q': Lists, a: Address, state: nat, end: nat, balance: int,
                       maxGas: nat)
    requires AccountDemoted(p, q, p', q', a, state, balance, maxGas) && (a in p ==> ListOk(p[a], a, true))
    requires InOrder(Items(p, a), Items(q, a), state, end) && From(Items(p, a), state) == Items(p, a)
    ensures Gapless(Items(p', a), Items(q', a), state)
  {
    hide AccountDemoted, ListOk, From;
    ResetDemotion(p, q, p', q', a, state, balance, maxGas);
  }

  lemma NothingFrom(pending: NonceMap, was: nat, hi: nat)
    requires IsInterval(pending, was, hi) && pending == map[]
    ensures was == hi
  {
    assert was < hi ==> was in pending;
  }

  lemma MeetAt(pending: NonceMap, found: NonceMap, was: nat, hi: nat, state: nat, end: nat)
    requires IsInterval(pending, was, hi) && pending != map[] && IsInterval(found, state, end)
    requires pending.Keys !! found.Keys
    requires was > 0 && was - 1 in found
    ensures IsInterval(pending + found, state, hi) && end == was
  {
    assert was in pending;
  }

  /** Demotion, by what a full scan of the list would find. */
  ghost predicate Scanned(l: ListValue, queue: NonceMap, state: nat, balance: int, maxGas: nat, pending': NonceMap,
                          queue': NonceMap) {
    var kept := Payable(l, balance, maxGas);
    && pending' == (if Gapped(kept, state) then map[] else kept)
    && queue' == queue + Invalids(l, balance, maxGas) + (if Gapped(kept, state) then kept else map[])
  }

  lemma StrictDemotion(p: Lists, q: Lists, p': Lists, q': Lists, a: Address, state: nat, balance: int, maxGas: nat)
    requires a in p && ListOk(p[a], a, true) && From(p[a].items, state) == p[a].items
    requires AccountDemoted(p, q, p', q', a, state, balance, maxGas)
    ensures p[a].strict && Scanned(p[a], Items(q, a), state, balance, maxGas, Items(p', a), Items(q', a))
  {
    hide Payable, Invalids;
    assert p[a].(items := From(p[a].items, state)) == p[a];
    FilteredIs(p[a], balance, maxGas);
  }

  /** What was pending and what was found do not meet. */
  lemma DemotedApart(l: ListValue, queue: NonceMap, pending: NonceMap, found: NonceMap, was: nat, hi: nat, end: nat,
                     state: nat, balance: int, maxGas: nat, pending': NonceMap, queue': NonceMap)
    requires Scanned(l, queue, state, balance, maxGas, pending', queue') && l.strict && l.items == pending + found
    requires state <= end <= was < hi && IsInterval(pending, was, hi) && (was > 0 && was - 1 !in found)
    requires FoundRun(found, queue, state, end, balance, maxGas) && state < was
    ensures Gapless(pending', queue', state) <==> found == map[] || TooCostly(balance, maxGas)(pending[was])
  {
    var kept := Payable(l, balance, maxGas);
    assert was in l.items && l.items[was] == pending[was];
    if found == map[] {
      assert state < end ==> state in found;
      assert state !in kept;
      assert InOrder(pending', queue', state, state);
    } else {
      assert state in found && end < was;
      FoundStays(l, pending, found, was, end, state, balance, maxGas);
      if TooCostly(balance, maxGas)(pending[was]) {
        assert InOrder(pending', queue', state, end);
      } else {
        GapBelow(pending', queue', state, end, was);
      }
    }
  }

  lemma FoundStays(l: ListValue, pending: NonceMap, found: NonceMap, was: nat, end: nat, state: nat, balance: int,
                   maxGas: nat)
    requires l.strict && l.items == pending + found && state < end < was && was in pending
    requires forall n :: n in pending ==> n >= was
    requires IsInterval(found, state, end) && (forall n :: n in found ==> !TooCostly(balance, maxGas)(found[n]))
    ensures state in Payable(l, balance, maxGas) && end !in Payable(l, balance, maxGas)
    ensures TooCostly(balance, maxGas)(pending[was]) ==>
              && IsInterval(Payable(l, balance, maxGas), state, end)
              && forall n :: n in Invalids(l, balance, maxGas) ==> n >= end
    ensures !TooCostly(balance, maxGas)(pending[was]) ==> was in Payable(l, balance, maxGas)
  {
    var bad := Unpayable(l, balance, maxGas);
    assert forall n :: n in bad ==> n >= was;
    assert TooCostly(balance, maxGas)(pending[was]) <==> was in bad;
    if was in bad {
      forall n | n in l.items && n > was && n !in bad ensures n in Invalids(l, balance, maxGas) {
        assert Orphaned(l, balance, maxGas, n);
      }
    }
  }

  /** A reset that lowers the state nonce of an account, with its virtual nonce at the new one: promotion and demotion
      leave it in order if and only if what was pending fits what comes back. */
  lemma LoweredNonce(p: Lists, q: Lists, p1: Lists, q1: Lists, p2: Lists, q2: Lists, a: Address, was: nat,
                     state: nat, balance: int, maxGas: nat, cap: Option<nat>, next: nat)
    requires AccountPromoted(p, q, p1, q1, a, state, balance, maxGas, state, cap, next)
    requires AccountDemoted(p1, q1, p2, q2, a, state, balance, maxGas)
    requires a in q ==> Sound(q[a])
    requires a in p1 ==> ListOk(p1[a], a, true)
    requires state < was && Unbroken(Items(p, a), was)
    requires Items(p, a).Keys !! Items(q, a).Keys && Items(p1, a).Keys !! Items(q1, a).Keys
    ensures Gapless(Items(p2, a), Items(q2, a), state) <==>
            Fits(Items(p, a), Found(q, a, state, balance, maxGas), was, balance, maxGas)
  {
    hide AccountPromoted, AccountDemoted, Gapless, Found, FoundRun, Fits, Unbroken, ListOk;
    var end := PromotionFinds(p, q, p1, q1, a, state, balance, maxGas, cap, next);
    DemotionFits(p1, q1, p2, q2, a, Items(p, a), Found(q, a, state, balance, maxGas), was, end, state, balance, maxGas);
  }

  /** A reset that lowers the state nonce can leave a gap: demotion looks at the first pending nonce alone. Here
      nonces 5 and 6 are pending, the state nonce falls to 3, and only transaction 3 comes back. */
  lemma LoweredNonceGap(a: Address, t3: Tx, t5: Tx, t6: Tx, balance: int, maxGas: nat)
    requires t3.nonce == 3 && t5.nonce == 5 && t6.nonce == 6 && t3.sender == t5.sender == t6.sender == a
    requires forall t :: t in [t3, t5, t6] ==> Cost(t) <= balance && t.gas <= maxGas
    ensures exists p, q, p', q', p'', q'' ::
              && InOrder(Items(p, a), map[], 5, 7) && Items(q, a) == map[3 := t3]
              && AccountPromoted(p, q, p', q', a, 3, balance, maxGas, 3, None, 4)
              && AccountDemoted(p', q', p'', q'', a, 3, balance, maxGas)
              && !Gapless(Items(p'', a), Items(q'', a), 3)
  {
    var l := ListValue(true, map[5 := t5, 6 := t6], balance, maxGas);
    var m := ListValue(false, map[3 := t3], balance, maxGas);
    var l' := l.(items := map[3 := t3, 5 := t5, 6 := t6]);
    var p, q, p', q': Lists := map[a := l], map[a := m], map[a := l'], map[];
    assert l.items + map[3 := t3] == l'.items;
    OnePromoted(p, q, p', q', a, m, t3, balance, maxGas);
    NoneAffected(p', q', a, 3, balance, maxGas);
    GapBelow(l'.items, map[], 3, 4, 6);
    hide AccountPromoted, AccountDemoted, Gapless;
    assert InOrder(Items(p, a), map[], 5, 7) && Items(q, a) == map[3 := t3];
  }

  lemma OnePromoted(p: Lists, q: Lists, p': Lists, q': Lists, a: Address, m: ListValue, tx: Tx, balance: int,
                    maxGas: nat)
    requires m == ListValue(false, map[tx.nonce := tx], balance, maxGas) && a in q && q[a] == m
    requires Items(p', a) == Items(p, a) + map[tx.nonce := tx] && Items(q', a) == map[]
    ensures AccountPromoted(p, q, p', q', a, tx.nonce, balance, maxGas, tx.nonce, None, tx.nonce + 1)
  {
    var u := Usable(m, tx.nonce, balance, maxGas).items;
    assert u == map[tx.nonce := tx];
    assert InRun(u, tx.nonce) && Run(u) == u && AfterRun(u) == map[];
    assert HasRipe(u, tx.nonce);
  }

  lemma NoneAffected(p: Lists, q: Lists, a: Address, state: nat, balance: int, maxGas: nat)
    requires a in p && p[a].costcap == balance && p[a].gascap == maxGas && state in p[a].items
    requires forall n :: n in p[a].items ==> n >= state
    ensures AccountDemoted(p, q, p, q, a, state, balance, maxGas)
  {
    assert From(p[a].items, state) == p[a].items;
  }

  lemma GapBelow(pending: NonceMap, queue: NonceMap, state: nat, gap: nat, n: nat)
    requires state <= gap < n && gap !in pending && n in pending
    ensures !Gapless(pending, queue, state)
  {
  }
}

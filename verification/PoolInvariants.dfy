/** What every operation of the transaction pool keeps, as predicates over its tables. */
module PoolInvariants {
  import opened Transactions
  import opened NonceMaps
  import opened ListValues

  /** Lists by account: pool.pending and pool.queue. */
  type Lists = map<Address, ListValue>

  /** An account's transactions; an account without a list has none. */
  function Items(m: Lists, a: Address): NonceMap {
    if a in m then m[a].items else map[]
  }

  /** An account's list, or the new one that is created for it on demand. */
  function ListOf(m: Lists, a: Address, strict: bool): ListValue {
    if a in m then m[a] else NewList(strict)
  }

  predicate Holds(m: Lists, tx: Tx) {
    tx.nonce in Items(m, tx.sender) && Items(m, tx.sender)[tx.nonce] == tx
  }

  /** A stored list: not empty, sound, and of its own account only. */
  ghost predicate ListOk(l: ListValue, a: Address, strict: bool) {
    && l.strict == strict && l.items != map[] && Sound(l)
    && (forall n :: n in l.items ==> l.items[n].sender == a)
  }

  ghost predicate ListsOk(m: Lists, strict: bool) {
    forall a :: a in m ==> ListOk(m[a], a, strict)
  }

  /** No nonce of an account is both pending and queued. */
  ghost predicate Disjoint(pending: Lists, queue: Lists) {
    forall a, n :: n in Items(pending, a) ==> n !in Items(queue, a)
  }

  /** The known hashes are exactly those of the pending and queued transactions. */
  ghost predicate Exact(pending: Lists, queue: Lists, known: set<TxHash>) {
    forall h :: h in known <==> Holds(pending, h.preimage) || Holds(queue, h.preimage)
  }

  ghost predicate PoolInv(pending: Lists, queue: Lists, known: set<TxHash>) {
    && ListsOk(pending, true) && ListsOk(queue, false)
    && Disjoint(pending, queue)
    && Exact(pending, queue, known)
  }

  /** The pending nonces are [state nonce, next) and the queued ones are not below. */
  ghost predicate InOrder(pending: NonceMap, queue: NonceMap, state: nat, next: nat) {
    && IsInterval(pending, state, next)
    && (forall n :: n in queue ==> n >= next)
  }

  /** Two tables agree on every account but a. */
  ghost predicate SameBut(m: Lists, m': Lists, a: Address) {
    forall x :: x != a ==> (x in m <==> x in m') && (x in m ==> m[x] == m'[x])
  }

  /** A change to one account keeps the invariant when that account's new lists do, and when
      the known hashes of that account are exactly the ones it still holds. */
  lemma AccountUpdate(p: Lists, q: Lists, known: set<TxHash>, p': Lists, q': Lists, known': set<TxHash>, a: Address)
    requires PoolInv(p, q, known) && SameBut(p, p', a) && SameBut(q, q', a)
    requires a in p' ==> ListOk(p'[a], a, true)
    requires a in q' ==> ListOk(q'[a], a, false)
    requires forall n :: n in Items(p', a) ==> n !in Items(q', a)
    requires forall h: TxHash :: h.preimage.sender != a ==> (h in known' <==> h in known)
    requires forall h: TxHash :: h.preimage.sender == a ==>
               (h in known' <==> Holds(p', h.preimage) || Holds(q', h.preimage))
    ensures PoolInv(p', q', known')
  {
    forall x | x in p' ensures ListOk(p'[x], x, true) {
      assert x != a ==> x in p && p[x] == p'[x];
    }
    forall x | x in q' ensures ListOk(q'[x], x, false) {
      assert x != a ==> x in q && q[x] == q'[x];
    }
    forall x, n | n in Items(p', x) ensures n !in Items(q', x) {
      assert x != a ==> Items(p', x) == Items(p, x) && Items(q', x) == Items(q, x);
    }
    forall h ensures h in known' <==> Holds(p', h.preimage) || Holds(q', h.preimage) {
      var x := h.preimage.sender;
      assert x != a ==> Items(p', x) == Items(p, x) && Items(q', x) == Items(q, x);
    }
  }

  /** The account-local content of the invariant. */
  lemma AccountFacts(p: Lists, q: Lists, known: set<TxHash>, a: Address)
    requires PoolInv(p, q, known)
    ensures a in p ==> ListOk(p[a], a, true)
    ensures a in q ==> ListOk(q[a], a, false) && q[a].items == Items(q, a)
    ensures Items(p, a).Keys !! Items(q, a).Keys
    ensures Keyed(Items(p, a)) && Keyed(Items(q, a))
    ensures forall n :: n in Items(p, a) ==> Items(p, a)[n].sender == a && Items(p, a)[n].nonce == n
    ensures forall n :: n in Items(q, a) ==> Items(q, a)[n].sender == a && Items(q, a)[n].nonce == n
    ensures forall n :: n in Items(p, a) ==> n !in Items(q, a)
    ensures forall h: TxHash :: h.preimage.sender == a ==>
              (h in known <==> Holds(p, h.preimage) || Holds(q, h.preimage))
  {
  }

  /** A table after some transactions of account a were added to it. */
  ghost predicate Grown(q: Lists, q': Lists, a: Address, added: NonceMap, strict: bool) {
    && SameBut(q, q', a) && Items(q', a) == Items(q, a) + added
    && (a in q' ==> ListOk(q'[a], a, strict))
  }

  lemma GrowNone(q: Lists, a: Address, strict: bool)
    requires a in q ==> ListOk(q[a], a, strict)
    ensures Grown(q, q, a, map[], strict)
  {
    assert Items(q, a) + map[] == Items(q, a);
  }

  lemma GrowStep(q: Lists, q': Lists, a: Address, added: NonceMap, tx: Tx, strict: bool)
    requires Grown(q, q', a, added, strict) && tx.sender == a
    ensures Grown(q, q'[a := Added(ListOf(q', a, strict), tx)], a, added[tx.nonce := tx], strict)
  {
    hide Sound;
    var l := ListOf(q', a, strict);
    NewSound(strict);
    ListSound(q', a, strict);
    AddedSound(l, tx);
    assert Items(q, a) + added[tx.nonce := tx] == (Items(q, a) + added)[tx.nonce := tx];
    assert tx.nonce in Added(l, tx).items;
  }

  lemma NewSound(strict: bool)
    ensures Sound(NewList(strict))
  {
  }

  lemma ListSound(m: Lists, a: Address, strict: bool)
    requires a in m ==> ListOk(m[a], a, strict)
    ensures Sound(ListOf(m, a, strict)) && ListOf(m, a, strict).items == Items(m, a)
    ensures ListOf(m, a, strict).strict == strict
  {
  }

  lemma StillAbsent(q: Lists, q': Lists, a: Address, added: NonceMap, tx: Tx, strict: bool)
    requires Grown(q, q', a, added, strict) && tx.sender == a && tx.nonce !in Items(q, a) && tx.nonce !in added
    ensures tx.nonce !in Items(q', a) && tx.nonce !in ListOf(q', a, strict).items
  {
  }

  /** The table with account a's list set, or its entry deleted when the list is empty. */
  function SetList(m: Lists, a: Address, l: ListValue): Lists {
    if l.items == map[] then m - {a} else m[a := l]
  }

  lemma SetListFacts(m: Lists, a: Address, l: ListValue, strict: bool)
    requires l.strict == strict && Sound(l) && forall n :: n in l.items ==> l.items[n].sender == a
    ensures SameBut(m, SetList(m, a, l), a) && Items(SetList(m, a, l), a) == l.items
    ensures a in SetList(m, a, l) ==> ListOk(SetList(m, a, l)[a], a, strict)
  {
  }

  /** Remove on a sound strict list keeps what comes before, and hands back what follows. */
  lemma RemoveIs(l: ListValue, n: nat)
    requires l.strict && Sound(l) && n in l.items
    ensures l.items - {n} - Followers(l, n).Keys == Before(l.items, n) && Followers(l, n) == From(l.items, n + 1)
    ensures Sound(l.(items := Before(l.items, n)))
  {
  }

  /** Taking a pending transaction out of the pool, its followers going to the queue. */
  lemma RemovePendingInv(p: Lists, q: Lists, known: set<TxHash>, p': Lists, q': Lists, tx: Tx)
    requires PoolInv(p, q, known) && Holds(p, tx)
    requires SameBut(p, p', tx.sender) && Items(p', tx.sender) == Before(Items(p, tx.sender), tx.nonce)
    requires tx.sender in p' ==> ListOk(p'[tx.sender], tx.sender, true)
    requires Grown(q, q', tx.sender, From(Items(p, tx.sender), tx.nonce + 1), false)
    ensures PoolInv(p', q', known - {HashOf(tx)}) && Removal(p, q, p', q', HashOf(tx), true)
  {
    hide Sound, PoolInv, ListOk;
    AccountFacts(p, q, known, tx.sender);
    AccountUpdate(p, q, known, p', q', known - {HashOf(tx)}, tx.sender);
  }

  /** Taking a queued transaction out of the pool. */
  lemma RemoveQueuedInv(p: Lists, q: Lists, known: set<TxHash>, q': Lists, tx: Tx)
    requires PoolInv(p, q, known) && Holds(q, tx)
    requires SameBut(q, q', tx.sender) && Items(q', tx.sender) == Items(q, tx.sender) - {tx.nonce}
    requires tx.sender in q' ==> ListOk(q'[tx.sender], tx.sender, false)
    ensures PoolInv(p, q', known - {HashOf(tx)}) && Removal(p, q, p, q', HashOf(tx), true)
  {
    hide Sound, PoolInv, ListOk;
    AccountFacts(p, q, known, tx.sender);
    AccountUpdate(p, q, known, p, q', known - {HashOf(tx)}, tx.sender);
  }

  /** What removeTx does to the lists: `known` says whether the lookup knew the hash. */
  ghost predicate Removal(p: Lists, q: Lists, p': Lists, q': Lists, hash: TxHash, known: bool) {
    var tx := hash.preimage;
    && SameBut(p, p', tx.sender) && SameBut(q, q', tx.sender)
    && (!known ==> p' == p && q' == q)
    && (known && Holds(p, tx) ==>
          && Items(p', tx.sender) == Before(Items(p, tx.sender), tx.nonce)
          && Items(q', tx.sender) == Items(q, tx.sender) + From(Items(p, tx.sender), tx.nonce + 1))
    && (known && !Holds(p, tx) ==> p' == p && Items(q', tx.sender) == Items(q, tx.sender) - {tx.nonce})
  }

  lemma NothingRemoved(p: Lists, q: Lists, hash: TxHash)
    ensures Removal(p, q, p, q, hash, false)
  {
  }

  lemma ListParts(l: ListValue, a: Address, strict: bool)
    requires ListOk(l, a, strict)
    ensures l.strict == strict && Sound(l) && Keyed(l.items) && forall n :: n in l.items ==> l.items[n].sender == a
  {
  }

  /** Storing what is left of a list. */
  lemma SetListOf(m: Lists, a: Address, l: ListValue, l': ListValue)
    requires ListOk(l, a, l.strict) && l'.strict == l.strict && l'.costcap == l.costcap && l'.gascap == l.gascap
    requires forall n :: n in l'.items ==> n in l.items && l'.items[n] == l.items[n]
    ensures SameBut(m, SetList(m, a, l'), a) && Items(SetList(m, a, l'), a) == l'.items
    ensures a in SetList(m, a, l') ==> ListOk(SetList(m, a, l')[a], a, l.strict)
  {
  }

  lemma FollowersFree(l: ListValue, q: NonceMap, n: nat, a: Address)
    requires ListOk(l, a, true) && n in l.items && l.items.Keys !! q.Keys
    ensures Keyed(Followers(l, n)) && Followers(l, n).Keys !! q.Keys
    ensures forall k :: k in Followers(l, n) ==> Followers(l, n)[k].sender == a
  {
  }

  /** removeTx keeps an account's nonces in order; the virtual nonce falls to that of a pending one removed. */
  lemma RemovalOrder(p: Lists, q: Lists, p': Lists, q': Lists, hash: TxHash, known: bool, a: Address, state: nat,
                     next: nat)
    requires Removal(p, q, p', q', hash, known) && InOrder(Items(p, a), Items(q, a), state, next)
    ensures InOrder(Items(p', a), Items(q', a), state,
                    if a == hash.preimage.sender && known && Holds(p, hash.preimage) && hash.preimage.nonce < next
                    then hash.preimage.nonce else next)
  {
  }

  /** What promoteExecutables keeps of a queue list before promotion: neither too old nor unpayable. */
  function Usable(l: ListValue, state: nat, balance: int, maxGas: nat): ListValue {
    Filtered(l.(items := From(l.items, state)), balance, maxGas)
  }

  function Capped(m: NonceMap, cap: Option<nat>): NonceMap {
    if cap.Some? then Lowest(m, cap.value) else m
  }

  /** What promoteExecutables does to one account: the consecutive run at the front of its usable
      queue becomes pending, and the rest stays queued up to the cap. */
  ghost predicate Promotion(p: Lists, q: Lists, p': Lists, q': Lists, a: Address,
                            state: nat, balance: int, maxGas: nat, start: nat, cap: Option<nat>) {
    && SameBut(p, p', a) && SameBut(q, q', a)
    && (a !in q ==> p' == p && q' == q)
    && (a in q ==>
          var u := Usable(q[a], state, balance, maxGas).items;
          Items(p', a) == Items(p, a) + Ripe(u, start) && Items(q', a) == Capped(Unripe(u, start), cap))
  }

  /** What promoteExecutables does to one account, and to its virtual nonce. */
  ghost predicate AccountPromoted(p: Lists, q: Lists, p': Lists, q': Lists, a: Address,
                                  state: nat, balance: int, maxGas: nat, start: nat, cap: Option<nat>, next: nat) {
    if a !in q then SameAt(p, p', a) && SameAt(q, q', a) && next == start
    else
      var u := Usable(q[a], state, balance, maxGas).items;
      && Items(p', a) == Items(p, a) + Ripe(u, start)
      && Items(q', a) == Capped(Unripe(u, start), cap)
      && NextAfter(Ripe(u, start), start, next)
  }

  /** Two tables agree on account a. */
  ghost predicate SameAt(m: Lists, m': Lists, a: Address) {
    (a in m <==> a in m') && (a in m ==> m[a] == m'[a])
  }

  predicate InMap(m: NonceMap, tx: Tx) {
    tx.nonce in m && m[tx.nonce] == tx
  }

  /** The virtual nonce after promoting `ready`: one past its last nonce. */
  ghost predicate NextAfter(ready: NonceMap, next: nat, next': nat) {
    && (ready == map[] ==> next' == next)
    && (ready != map[] ==> next' > 0 && next' - 1 in ready && forall n :: n in ready ==> n < next')
  }

  /** Promotion keeps an account's nonces in order, and loses nothing to the state nonce. */
  lemma PromotionOrder(p: Lists, q: Lists, p': Lists, q': Lists, a: Address,
                       state: nat, balance: int, maxGas: nat, next: nat, cap: Option<nat>, next': nat)
    requires AccountPromoted(p, q, p', q', a, state, balance, maxGas, next, cap, next')
    requires InOrder(Items(p, a), Items(q, a), state, next) && (a in q ==> Sound(q[a]))
    ensures InOrder(Items(p', a), Items(q', a), state, next')
  {
    if a in q {
      hide Usable, Ripe, Unripe, Capped, NextAfter, IsInterval;
      var u := Usable(q[a], state, balance, maxGas).items;
      UsableSubset(q[a], state, balance, maxGas);
      CappedSubset(Unripe(u, next), cap);
      PromotedItems(Items(p, a), u, Capped(Unripe(u, next), cap), state, next, next');
    }
  }

  lemma PromotedItems(pending: NonceMap, u: NonceMap, kept: NonceMap, state: nat, next: nat, next': nat)
    requires IsInterval(pending, state, next) && (forall n :: n in u ==> n >= next)
    requires NextAfter(Ripe(u, next), next, next') && (forall n :: n in kept ==> n in Unripe(u, next))
    ensures InOrder(pending + Ripe(u, next), kept, state, next')
  {
    hide Run, AfterRun;
    if HasRipe(u, next) {
      RipeRun(u, next, next');
    } else {
      assert pending + map[] == pending;
    }
  }

  lemma CappedSubset(m: NonceMap, cap: Option<nat>)
    ensures forall n :: n in Capped(m, cap) ==> n in m && Capped(m, cap)[n] == m[n]
  {
  }

  lemma UsableSubset(l: ListValue, state: nat, balance: int, maxGas: nat)
    requires Sound(l)
    ensures Sound(Usable(l, state, balance, maxGas)) && Usable(l, state, balance, maxGas).strict == l.strict
    ensures forall n :: n in Usable(l, state, balance, maxGas).items ==>
              n in l.items && n >= state && l.items[n] == Usable(l, state, balance, maxGas).items[n]
  {
    FilteredIs(l.(items := From(l.items, state)), balance, maxGas);
  }

  /** When nothing lies below start, the run promoted is [start, next') and what is left lies above. */
  lemma RipeRun(u: NonceMap, start: nat, next': nat)
    requires HasRipe(u, start) && (forall n :: n in u ==> n >= start) && NextAfter(Run(u), start, next')
    ensures IsInterval(Run(u), start, next') && forall n :: n in AfterRun(u) ==> n >= next'
  {
    assert InRun(u, start);
    assert start in Run(u);
    assert InRun(u, (next' - 1) as nat);
    forall n | start <= n < next' ensures InRun(u, n) {
    }
    forall n | n in AfterRun(u) ensures n >= next' {
    }
  }

  /** The transactions promoteExecutables drops from a queue list. */
  ghost predicate IsDropped(l: ListValue, state: nat, balance: int, maxGas: nat, start: nat, cap: Option<nat>, n: nat) {
    var u := Usable(l, state, balance, maxGas).items;
    n in l.items && n !in Ripe(u, start) && n !in Capped(Unripe(u, start), cap)
  }

  /** Promotion of one account keeps the invariant when the lookup forgets exactly the dropped transactions. */
  lemma PromotionInv(p: Lists, q: Lists, known: set<TxHash>, p': Lists, q': Lists, known': set<TxHash>, a: Address,
                     state: nat, balance: int, maxGas: nat, start: nat, cap: Option<nat>)
    requires PoolInv(p, q, known) && a in q && Promotion(p, q, p', q', a, state, balance, maxGas, start, cap)
    requires a in p' ==> ListOk(p'[a], a, true)
    requires a in q' ==> ListOk(q'[a], a, false)
    requires forall h :: h in known' <==>
               h in known && !(Holds(q, h.preimage) && h.preimage.sender == a
                               && IsDropped(q[a], state, balance, maxGas, start, cap, h.preimage.nonce))
    ensures PoolInv(p', q', known')
  {
    hide PoolInv, Sound, ListOk, Usable, Ripe, Unripe, Capped;
    AccountFacts(p, q, known, a);
    var u := Usable(q[a], state, balance, maxGas).items;
    QueueParts(q[a], a, state, balance, maxGas, start, cap);
    AccountUpdate(p, q, known, p', q', known', a);
  }

  lemma QueueParts(l: ListValue, a: Address, state: nat, balance: int, maxGas: nat, start: nat, cap: Option<nat>)
    requires ListOk(l, a, false)
    ensures var u := Usable(l, state, balance, maxGas).items;
            && (forall n :: n in Ripe(u, start) ==> n in l.items && Ripe(u, start)[n] == l.items[n])
            && (forall n :: n in Capped(Unripe(u, start), cap) ==>
                  n in l.items && Capped(Unripe(u, start), cap)[n] == l.items[n] && n !in Ripe(u, start))
  {
    hide Usable;
    UsableSubset(l, state, balance, maxGas);
    CappedSubset(Unripe(Usable(l, state, balance, maxGas).items, start), cap);
  }

  lemma LastIsNext(s: seq<Tx>, ready: NonceMap, next: nat, next': nat)
    requires IsFlat(s, ready) && next' == if |s| == 0 then next else s[|s| - 1].nonce + 1
    ensures NextAfter(ready, next, next')
  {
    if |s| == 0 {
      assert ready == map[];
    } else {
      forall n | n in ready ensures n < next' {
        var j := IndexIn(s, ready, n);
      }
    }
  }

  /** What the cap takes out of a queue list. */
  function Excess(m: NonceMap, cap: Option<nat>): NonceMap {
    if cap.Some? then Highest(m, cap.value) else map[]
  }

  lemma InHashSet(m: NonceMap, l: NonceMap, tx: Tx)
    requires Keyed(l) && forall n :: n in m ==> n in l && m[n] == l[n]
    ensures HashOf(tx) in HashSet(m) <==> tx.nonce in m && l[tx.nonce] == tx
  {
    if tx.nonce in m && l[tx.nonce] == tx {
      assert HashOf(m[tx.nonce]) == HashOf(tx);
    }
  }

  /** The three groups promoteExecutables drops: too old, unpayable, and over the cap. */
  lemma DropGroups(l: ListValue, a: Address, state: nat, balance: int, maxGas: nat, start: nat, cap: Option<nat>,
                   n: nat)
    requires ListOk(l, a, false)
    ensures var l1 := l.(items := From(l.items, state));
            var u := Usable(l, state, balance, maxGas).items;
            && (n in Before(l.items, state) ==> n in l.items && Before(l.items, state)[n] == l.items[n])
            && (n in FilterDrops(l1, balance, maxGas) ==>
                  n in l.items && FilterDrops(l1, balance, maxGas)[n] == l.items[n])
            && (n in Excess(Unripe(u, start), cap) ==> n in l.items && Excess(Unripe(u, start), cap)[n] == l.items[n])
            && (IsDropped(l, state, balance, maxGas, start, cap, n) <==>
                  n in Before(l.items, state) || n in FilterDrops(l1, balance, maxGas)
                  || n in Excess(Unripe(u, start), cap))
  {
    hide Rank, Usable, FilterDrops, Unripe, Ripe, Capped, Excess, Sound, Keyed;
    var u := Usable(l, state, balance, maxGas).items;
    FilterGroups(l, a, state, balance, maxGas, n);
    ExcessGroups(u, start, cap, n);
  }

  /** Of what is not too old, Filter drops some and keeps the others. */
  lemma FilterGroups(l: ListValue, a: Address, state: nat, balance: int, maxGas: nat, n: nat)
    requires ListOk(l, a, false)
    ensures var l1 := l.(items := From(l.items, state));
            var d, u := FilterDrops(l1, balance, maxGas), Usable(l, state, balance, maxGas).items;
            && (n in d ==> n in l.items && d[n] == l.items[n]) && (n in u ==> n in l.items && u[n] == l.items[n])
            && (n in l.items ==> (n in d || n in u <==> n >= state) && !(n in d && n in u))
  {
    var l1 := l.(items := From(l.items, state));
    StaysSound(l, l1.items);
    FilteredIs(l1, balance, maxGas);
    FilterPartition(l1, balance, maxGas);
    UsableSubset(l, state, balance, maxGas);
  }

  /** Of what is usable, some is promoted, some capped, and the rest stays. */
  lemma ExcessGroups(u: NonceMap, start: nat, cap: Option<nat>, n: nat)
    ensures var e := Excess(Unripe(u, start), cap);
            && (n in e ==> n in u && e[n] == u[n])
            && (n in Ripe(u, start) || n in Capped(Unripe(u, start), cap) ==> n in u)
            && (n in u ==> (n in e <==> n !in Ripe(u, start) && n !in Capped(Unripe(u, start), cap)))
  {
  }

  lemma Forgotten(p: Lists, q: Lists, known: set<TxHash>, known': set<TxHash>, a: Address,
                  state: nat, balance: int, maxGas: nat, start: nat, cap: Option<nat>)
    requires PoolInv(p, q, known) && a in q
    requires known' == known - HashSet(Before(q[a].items, state))
                       - HashSet(FilterDrops(q[a].(items := From(q[a].items, state)), balance, maxGas))
                       - HashSet(Excess(Unripe(Usable(q[a], state, balance, maxGas).items, start), cap))
    ensures forall h :: h in known' <==>
              h in known && !(Holds(q, h.preimage) && h.preimage.sender == a
                              && IsDropped(q[a], state, balance, maxGas, start, cap, h.preimage.nonce))
  {
    hide PoolInv, HashSet, Before, FilterDrops, Excess, Unripe, Usable, IsDropped;
    AccountFacts(p, q, known, a);
    var l := q[a];
    forall h ensures h in known' <==>
              h in known && !(Holds(q, h.preimage) && h.preimage.sender == a
                              && IsDropped(l, state, balance, maxGas, start, cap, h.preimage.nonce)) {
      DroppedHash(l, a, state, balance, maxGas, start, cap, h.preimage);
    }
  }

  lemma DroppedHash(l: ListValue, a: Address, state: nat, balance: int, maxGas: nat, start: nat, cap: Option<nat>,
                    tx: Tx)
    requires ListOk(l, a, false)
    ensures HashOf(tx) in HashSet(Before(l.items, state))
              || HashOf(tx) in HashSet(FilterDrops(l.(items := From(l.items, state)), balance, maxGas))
              || HashOf(tx) in HashSet(Excess(Unripe(Usable(l, state, balance, maxGas).items, start), cap))
            <==> tx.nonce in l.items && l.items[tx.nonce] == tx && tx.sender == a
                 && IsDropped(l, state, balance, maxGas, start, cap, tx.nonce)
  {
    hide HashSet, Before, FilterDrops, Excess, Unripe, Usable, IsDropped;
    var f, d := Before(l.items, state), FilterDrops(l.(items := From(l.items, state)), balance, maxGas);
    var c := Excess(Unripe(Usable(l, state, balance, maxGas).items, start), cap);
    forall n ensures (n in f ==> n in l.items && f[n] == l.items[n]) && (n in d ==> n in l.items && d[n] == l.items[n])
                  && (n in c ==> n in l.items && c[n] == l.items[n]) {
      DropGroups(l, a, state, balance, maxGas, start, cap, n);
    }
    DropGroups(l, a, state, balance, maxGas, start, cap, tx.nonce);
    InHashSet(f, l.items, tx);
    InHashSet(d, l.items, tx);
    InHashSet(c, l.items, tx);
  }

  /** The groups promoteExecutables handles are keyed and of account a; the ready ones are not pending. */
  lemma PromoteParts(l: ListValue, a: Address, state: nat, balance: int, maxGas: nat, start: nat, cap: Option<nat>,
                     pending: NonceMap)
    requires ListOk(l, a, false) && pending.Keys !! l.items.Keys
    ensures Keyed(Before(l.items, state)) && Keyed(FilterDrops(l.(items := From(l.items, state)), balance, maxGas))
    ensures var u := Usable(l, state, balance, maxGas).items;
            && Keyed(Ripe(u, start)) && Ripe(u, start).Keys !! pending.Keys
            && (forall n :: n in Ripe(u, start) ==> Ripe(u, start)[n].sender == a)
            && Keyed(Excess(Unripe(u, start), cap))
  {
    hide Usable;
    UsableSubset(l, state, balance, maxGas);
  }

  /** The last step of promoteExecutables on an account: the invariant is back. */
  lemma Promoted(p: Lists, q: Lists, known: set<TxHash>, p': Lists, q': Lists, known': set<TxHash>, a: Address,
                 state: nat, balance: int, maxGas: nat, start: nat, cap: Option<nat>)
    requires PoolInv(p, q, known) && a in q
    requires Grown(p, p', a, Ripe(Usable(q[a], state, balance, maxGas).items, start), true)
    requires var u := Usable(q[a], state, balance, maxGas);
             q' == SetList(q, a, u.(items := Capped(Unripe(u.items, start), cap)))
    requires known' == known - HashSet(Before(q[a].items, state))
                       - HashSet(FilterDrops(q[a].(items := From(q[a].items, state)), balance, maxGas))
                       - HashSet(Excess(Unripe(Usable(q[a], state, balance, maxGas).items, start), cap))
    ensures PoolInv(p', q', known') && Promotion(p, q, p', q', a, state, balance, maxGas, start, cap)
  {
    hide PoolInv, HashSet, Before, FilterDrops, Excess, Unripe, Usable, IsDropped, Ripe, Capped, ListOk;
    AccountFacts(p, q, known, a);
    KeptQueue(q, a, state, balance, maxGas, start, cap);
    Forgotten(p, q, known, known', a, state, balance, maxGas, start, cap);
    PromotionInv(p, q, known, p', q', known', a, state, balance, maxGas, start, cap);
  }

  lemma KeptQueue(q: Lists, a: Address, state: nat, balance: int, maxGas: nat, start: nat, cap: Option<nat>)
    requires a in q && ListOk(q[a], a, false)
    ensures var u := Usable(q[a], state, balance, maxGas);
            var q' := SetList(q, a, u.(items := Capped(Unripe(u.items, start), cap)));
            && SameBut(q, q', a) && Items(q', a) == Capped(Unripe(u.items, start), cap)
            && (a in q' ==> ListOk(q'[a], a, false))
  {
    hide Usable, Lowest;
    var u := Usable(q[a], state, balance, maxGas);
    UsableSubset(q[a], state, balance, maxGas);
    CappedSubset(Unripe(u.items, start), cap);
    var l := u.(items := Capped(Unripe(u.items, start), cap));
    StaysSound(u, l.items);
    SetListFacts(q, a, l, false);
  }

  /** A promotion of account a leaves other accounts alone. */
  lemma PromotionFrame(p: Lists, q: Lists, p1: Lists, q1: Lists, p2: Lists, q2: Lists, a: Address, x: Address,
                       state: nat, balance: int, maxGas: nat, start: nat, cap: Option<nat>, next: nat)
    requires x != a && SameBut(p1, p2, a) && SameBut(q1, q2, a)
    requires AccountPromoted(p, q, p1, q1, x, state, balance, maxGas, start, cap, next)
    ensures AccountPromoted(p, q, p2, q2, x, state, balance, maxGas, start, cap, next)
  {
  }

  /** A promotion of account a, starting from lists that are still the original ones. */
  lemma PromotionFresh(p: Lists, q: Lists, p1: Lists, q1: Lists, p2: Lists, q2: Lists, a: Address,
                       state: nat, balance: int, maxGas: nat, start: nat, cap: Option<nat>, next: nat)
    requires SameAt(p, p1, a) && SameAt(q, q1, a)
    requires Promotion(p1, q1, p2, q2, a, state, balance, maxGas, start, cap)
    requires if a in q1 then NextAfter(Ripe(Usable(q1[a], state, balance, maxGas).items, start), start, next)
             else next == start
    ensures AccountPromoted(p, q, p2, q2, a, state, balance, maxGas, start, cap, next)
    ensures SameBut(p1, p2, a) && SameBut(q1, q2, a)
  {
  }

  lemma NotQueued(p: Lists, q: Lists, p': Lists, q': Lists, a: Address,
                  state: nat, balance: int, maxGas: nat, start: nat, cap: Option<nat>)
    requires a !in q' && SameAt(p, p', a) && SameAt(q, q', a)
    ensures AccountPromoted(p, q, p', q', a, state, balance, maxGas, start, cap, start)
  {
  }

  /** demoteUnexecutables finds a gap in front: something is left, but not the state nonce. */
  predicate Gapped(kept: NonceMap, state: nat) {
    kept != map[] && state !in kept
  }

  /** What demoteUnexecutables does to an account: too old and unpayable transactions go, what follows
      an unpayable one is queued again, and so is everything if the state nonce is missing. */
  ghost predicate Demotion(p: Lists, q: Lists, p': Lists, q': Lists, a: Address, state: nat, balance: int, maxGas: nat)
    requires a in p
  {
    var l := p[a].(items := From(p[a].items, state));
    var kept := Usable(p[a], state, balance, maxGas).items;
    && SameBut(p, p', a) && SameBut(q, q', a)
    && Items(p', a) == (if Gapped(kept, state) then map[] else kept)
    && Items(q', a) == Items(q, a) + FilterInvalids(l, balance, maxGas) + (if Gapped(kept, state) then kept else map[])
  }

  /** The groups of a pending list that demoteUnexecutables handles. */
  lemma DemoteParts(l: ListValue, a: Address, state: nat, balance: int, maxGas: nat, queue: NonceMap)
    requires ListOk(l, a, true) && l.items.Keys !! queue.Keys
    ensures var l1 := l.(items := From(l.items, state));
            var u, i := Usable(l, state, balance, maxGas), FilterInvalids(l1, balance, maxGas);
            && u.strict && Sound(u) && Keyed(u.items) && (forall n :: n in u.items ==> u.items[n].sender == a)
            && Keyed(Before(l.items, state)) && Keyed(FilterDrops(l1, balance, maxGas))
            && Keyed(i) && (forall n :: n in i ==> i[n].sender == a) && i.Keys !! queue.Keys
            && u.items.Keys !! (queue + i).Keys
  {
    var l1 := l.(items := From(l.items, state));
    StaysSound(l, l1.items);
    FilteredIs(l1, balance, maxGas);
    FilterPartition(l1, balance, maxGas);
    UsableSubset(l, state, balance, maxGas);
  }

  lemma DemoteGroups(l: ListValue, a: Address, state: nat, balance: int, maxGas: nat, n: nat)
    requires ListOk(l, a, true)
    ensures var l1 := l.(items := From(l.items, state));
            var f, d := Before(l.items, state), FilterDrops(l1, balance, maxGas);
            var i, u := FilterInvalids(l1, balance, maxGas), Usable(l, state, balance, maxGas).items;
            && (n in f ==> n in l.items && f[n] == l.items[n])
            && (n in d ==> n in l.items && d[n] == l.items[n])
            && (n in i ==> n in l.items && i[n] == l.items[n])
            && (n in u ==> n in l.items && u[n] == l.items[n])
            && (n in l.items ==> (n in f || n in d <==> !(n in i || n in u)))
  {
    var l1 := l.(items := From(l.items, state));
    StaysSound(l, l1.items);
    FilteredIs(l1, balance, maxGas);
    FilterPartition(l1, balance, maxGas);
    UsableSubset(l, state, balance, maxGas);
  }

  lemma DemotedHash(l: ListValue, a: Address, state: nat, balance: int, maxGas: nat, tx: Tx)
    requires ListOk(l, a, true)
    ensures var l1 := l.(items := From(l.items, state));
            var i, u := FilterInvalids(l1, balance, maxGas), Usable(l, state, balance, maxGas).items;
            HashOf(tx) in HashSet(Before(l.items, state)) || HashOf(tx) in HashSet(FilterDrops(l1, balance, maxGas))
            <==> tx.nonce in l.items && l.items[tx.nonce] == tx && tx.nonce !in i && tx.nonce !in u
  {
    hide HashSet, Before, FilterDrops, FilterInvalids, Usable, ListOk;
    var l1 := l.(items := From(l.items, state));
    var f, d := Before(l.items, state), FilterDrops(l1, balance, maxGas);
    forall n
      ensures (n in f ==> n in l.items && f[n] == l.items[n]) && (n in d ==> n in l.items && d[n] == l.items[n])
    {
      DemoteGroups(l, a, state, balance, maxGas, n);
    }
    ListParts(l, a, true);
    DemoteGroups(l, a, state, balance, maxGas, tx.nonce);
    InHashSet(f, l.items, tx);
    InHashSet(d, l.items, tx);
  }

  /** Demotion of one account keeps the invariant when the lookup forgets the old and the unpayable. */
  lemma DemotionInv(p: Lists, q: Lists, known: set<TxHash>, p': Lists, q': Lists, known': set<TxHash>, a: Address,
                    state: nat, balance: int, maxGas: nat)
    requires PoolInv(p, q, known) && a in p && Demotion(p, q, p', q', a, state, balance, maxGas)
    requires a in p' ==> ListOk(p'[a], a, true)
    requires a in q' ==> ListOk(q'[a], a, false)
    requires known' == known - HashSet(Before(p[a].items, state))
                       - HashSet(FilterDrops(p[a].(items := From(p[a].items, state)), balance, maxGas))
    ensures PoolInv(p', q', known')
  {
    hide PoolInv, HashSet, Before, From, FilterDrops, FilterInvalids, Usable, ListOk;
    AccountFacts(p, q, known, a);
    var l := p[a];
    assert l.items == Items(p, a);
    DemoteParts(l, a, state, balance, maxGas, Items(q, a));
    forall n ensures (n in FilterInvalids(l.(items := From(l.items, state)), balance, maxGas) ==>
                        n in l.items
                        && FilterInvalids(l.(items := From(l.items, state)), balance, maxGas)[n] == l.items[n])
                  && (n in Usable(l, state, balance, maxGas).items ==>
                        n in l.items && Usable(l, state, balance, maxGas).items[n] == l.items[n]) {
      DemoteGroups(l, a, state, balance, maxGas, n);
    }
    forall h: TxHash | h.preimage.sender == a
      ensures h in known' <==> Holds(p', h.preimage) || Holds(q', h.preimage)
    {
      DemotedHash(l, a, state, balance, maxGas, h.preimage);
    }
    forall h: TxHash | h.preimage.sender != a
      ensures h in known' <==> h in known
    {
      DemotedHash(l, a, state, balance, maxGas, h.preimage);
    }
    AccountUpdate(p, q, known, p', q', known', a);
  }

  /** The lists after demoteUnexecutables stored its result. */
  lemma Demoted(p: Lists, q: Lists, known: set<TxHash>, p': Lists, q1: Lists, q': Lists, known': set<TxHash>,
                a: Address,
                state: nat, balance: int, maxGas: nat)
    requires PoolInv(p, q, known) && a in p
    requires var l := p[a].(items := From(p[a].items, state));
             var u := Usable(p[a], state, balance, maxGas);
             && Grown(q, q1, a, FilterInvalids(l, balance, maxGas), false)
             && Grown(q1, q', a, if Gapped(u.items, state) then u.items else map[], false)
             && p' == SetList(p, a, if Gapped(u.items, state) then u.(items := map[]) else u)
    requires known' == known - HashSet(Before(p[a].items, state))
                       - HashSet(FilterDrops(p[a].(items := From(p[a].items, state)), balance, maxGas))
    ensures PoolInv(p', q', known') && Demotion(p, q, p', q', a, state, balance, maxGas)
  {
    hide PoolInv, HashSet, Before, From, FilterDrops, FilterInvalids, Usable, ListOk, Sound, SetList, Gapped;
    AccountFacts(p, q, known, a);
    DemoteParts(p[a], a, state, balance, maxGas, Items(q, a));
    var u := Usable(p[a], state, balance, maxGas);
    StaysSound(u, map[]);
    SetListFacts(p, a, if Gapped(u.items, state) then u.(items := map[]) else u, true);
    DemotionInv(p, q, known, p', q', known', a, state, balance, maxGas);
  }

  /** What demoteUnexecutables does to one account. */
  ghost predicate AccountDemoted(p: Lists, q: Lists, p': Lists, q': Lists, a: Address, state: nat, balance: int,
                                 maxGas: nat) {
    if a !in p then SameAt(p, p', a) && SameAt(q, q', a)
    else
      var l := p[a].(items := From(p[a].items, state));
      var kept := Usable(p[a], state, balance, maxGas).items;
      && Items(p', a) == (if Gapped(kept, state) then map[] else kept)
      && Items(q', a) ==
         Items(q, a) + FilterInvalids(l, balance, maxGas) + (if Gapped(kept, state) then kept else map[])
  }

  lemma DemotionFresh(p: Lists, q: Lists, p1: Lists, q1: Lists, p2: Lists, q2: Lists, a: Address, state: nat,
                      balance: int, maxGas: nat)
    requires SameAt(p, p1, a) && SameAt(q, q1, a) && a in p1 && Demotion(p1, q1, p2, q2, a, state, balance, maxGas)
    ensures AccountDemoted(p, q, p2, q2, a, state, balance, maxGas) && SameBut(p1, p2, a) && SameBut(q1, q2, a)
  {
  }

  lemma DemotionFrame(p: Lists, q: Lists, p1: Lists, q1: Lists, p2: Lists, q2: Lists, a: Address, x: Address,
                      state: nat, balance: int, maxGas: nat)
    requires x != a && SameBut(p1, p2, a) && SameBut(q1, q2, a)
    requires AccountDemoted(p, q, p1, q1, x, state, balance, maxGas)
    ensures AccountDemoted(p, q, p2, q2, x, state, balance, maxGas)
  {
  }

  lemma GrownItems(q: Lists, q': Lists, a: Address, added: NonceMap, strict: bool)
    requires Grown(q, q', a, added, strict)
    ensures Items(q', a) == Items(q, a) + added && (a in q' ==> ListOk(q'[a], a, strict))
  {
  }

  lemma SameElsewhere(p: Lists, q: Lists, p1: Lists, q1: Lists, p2: Lists, q2: Lists, a: Address, done: set<Address>)
    requires SameBut(p1, p2, a) && SameBut(q1, q2, a)
    requires forall x: Address :: x !in done ==> SameAt(p, p1, x) && SameAt(q, q1, x)
    ensures forall x: Address :: x !in done + {a} ==> SameAt(p, p2, x) && SameAt(q, q2, x)
  {
  }

  lemma QueuedIsKnown(p: Lists, q: Lists, known: set<TxHash>, tx: Tx)
    requires PoolInv(p, q, known) && Holds(q, tx)
    ensures HashOf(tx) in known && !Holds(p, tx)
  {
  }

  lemma SameButSame(m: Lists, a: Address)
    ensures SameBut(m, m, a)
  {
  }

  lemma SameButTrans(m: Lists, m1: Lists, m2: Lists, a: Address)
    requires SameBut(m, m1, a) && SameBut(m1, m2, a)
    ensures SameBut(m, m2, a)
  {
  }

  lemma OfAccount(s: seq<Tx>, l: ListValue, a: Address, i: nat)
    requires ListOk(l, a, false) && IsFlat(s, l.items) && i < |s|
    ensures s[i].sender == a
  {
  }

  lemma HoldsIf(m: Lists, a: Address, tx: Tx)
    requires tx.sender == a && tx.nonce in Items(m, a) && Items(m, a)[tx.nonce] == tx
    ensures Holds(m, tx)
  {
  }

  lemma ListsNotEmpty(p: Lists, q: Lists, known: set<TxHash>)
    requires PoolInv(p, q, known)
    ensures forall a :: a in p ==> p[a].items != map[]
    ensures forall a :: a in q ==> q[a].items != map[]
  {
  }

  /** Putting a new transaction into a list of account a, in place of one of its nonce if there is one. */
  lemma AddedOk(m: Lists, a: Address, tx: Tx, strict: bool)
    requires (a in m ==> ListOk(m[a], a, strict)) && tx.sender == a
    ensures var m' := m[a := Added(ListOf(m, a, strict), tx)];
            && ListOk(m'[a], a, strict) && SameBut(m, m', a) && Items(m', a) == Items(m, a)[tx.nonce := tx]
  {
    hide Sound;
    ListSound(m, a, strict);
    NewSound(strict);
    AddedSound(ListOf(m, a, strict), tx);
    assert tx.nonce in Added(ListOf(m, a, strict), tx).items;
  }

  /** The hash of the transaction a new one replaces. */
  ghost function ReplacedHash(m: NonceMap, tx: Tx): set<TxHash> {
    if tx.nonce in m then {HashOf(m[tx.nonce])} else {}
  }

  /** A new transaction takes the place of a pending one. */
  lemma ReplaceInv(p: Lists, q: Lists, known: set<TxHash>, tx: Tx)
    requires PoolInv(p, q, known) && HashOf(tx) !in known && tx.nonce in Items(p, tx.sender)
    ensures PoolInv(p[tx.sender := Added(ListOf(p, tx.sender, true), tx)], q,
                    known - ReplacedHash(Items(p, tx.sender), tx) + {HashOf(tx)})
  {
    hide PoolInv, Sound, ListOk;
    var a := tx.sender;
    AccountFacts(p, q, known, a);
    AddedOk(p, a, tx, true);
    AccountUpdate(p, q, known, p[a := Added(ListOf(p, a, true), tx)], q,
                  known - ReplacedHash(Items(p, a), tx) + {HashOf(tx)}, a);
  }

  /** A new transaction of a nonce that is not pending is queued. */
  lemma EnqueueInv(p: Lists, q: Lists, known: set<TxHash>, tx: Tx)
    requires PoolInv(p, q, known) && HashOf(tx) !in known && tx.nonce !in Items(p, tx.sender)
    ensures PoolInv(p, q[tx.sender := Added(ListOf(q, tx.sender, false), tx)],
                    known - ReplacedHash(Items(q, tx.sender), tx) + {HashOf(tx)})
  {
    hide PoolInv, Sound, ListOk;
    var a := tx.sender;
    AccountFacts(p, q, known, a);
    AddedOk(q, a, tx, false);
    AccountUpdate(p, q, known, p, q[a := Added(ListOf(q, a, false), tx)],
                  known - ReplacedHash(Items(q, a), tx) + {HashOf(tx)}, a);
  }

  /** The pending nonces run from `state` without a gap, and nothing queued lies below their end. */
  ghost predicate Gapless(pending: NonceMap, queue: NonceMap, state: nat) {
    exists next: nat :: InOrder(pending, queue, state, next)
  }

  lemma ReplaceOrder(pending: NonceMap, queue: NonceMap, state: nat, next: nat, tx: Tx)
    requires InOrder(pending, queue, state, next) && tx.nonce in pending
    ensures InOrder(pending[tx.nonce := tx], queue, state, next)
  {
  }

  lemma EnqueueOrder(pending: NonceMap, queue: NonceMap, state: nat, next: nat, tx: Tx)
    requires InOrder(pending, queue, state, next) && tx.nonce !in pending && tx.nonce >= state
    ensures InOrder(pending, queue[tx.nonce := tx], state, next)
  {
  }

  lemma RemovalGapless(p: Lists, q: Lists, p': Lists, q': Lists, hash: TxHash, known: bool, a: Address, state: nat)
    requires Removal(p, q, p', q', hash, known) && Gapless(Items(p, a), Items(q, a), state)
    ensures Gapless(Items(p', a), Items(q', a), state)
  {
    var next: nat :| InOrder(Items(p, a), Items(q, a), state, next);
    RemovalOrder(p, q, p', q', hash, known, a, state, next);
  }

  /** Promotion after a reset that did not lower the state nonce, with a virtual nonce not above it: from the
      new state nonce on, the pending nonces have no gap, and the queued ones lie above. */
  lemma ResetPromotion(p: Lists, q: Lists, p': Lists, q': Lists, a: Address,
                       was: nat, state: nat, balance: int, maxGas: nat, start: nat, cap: Option<nat>, next: nat)
    requires AccountPromoted(p, q, p', q', a, state, balance, maxGas, start, cap, next)
    requires Gapless(Items(p, a), Items(q, a), was) && was <= state && start <= state && (a in q ==> Sound(q[a]))
    ensures Gapless(From(Items(p', a), state), Items(q', a), state)
  {
    var g: nat :| InOrder(Items(p, a), Items(q, a), was, g);
    if a in q {
      hide Usable, Ripe, Unripe, Capped, NextAfter, IsInterval;
      var u := Usable(q[a], state, balance, maxGas).items;
      UsableSubset(q[a], state, balance, maxGas);
      CappedSubset(Unripe(u, start), cap);
      ResetRun(Items(p, a), u, Capped(Unripe(u, start), cap), was, g, state, start, next);
    } else {
      assert InOrder(From(Items(p', a), state), Items(q', a), state, if g < state then state else g);
    }
  }

  lemma ResetRun(pending: NonceMap, u: NonceMap, kept: NonceMap, was: nat, g: nat, state: nat, start: nat, next: nat)
    requires IsInterval(pending, was, g) && was <= state && start <= state
    requires forall n :: n in u ==> n >= g && n >= state
    requires NextAfter(Ripe(u, start), start, next) && (forall n :: n in kept ==> n in Unripe(u, start))
    ensures Gapless(From(pending + Ripe(u, start), state), kept, state)
  {
    hide Run, AfterRun;
    if HasRipe(u, start) {
      RipeRun(u, start, next);
      assert InOrder(From(pending + Ripe(u, start), state), kept, state, next);
    } else {
      assert pending + map[] == pending;
      assert InOrder(From(pending, state), kept, state, if g < state then state else g);
    }
  }

  /** Demotion then leaves the pending nonces without a gap from the state nonce, and the queued ones above. */
  lemma ResetDemotion(p: Lists, q: Lists, p': Lists, q': Lists, a: Address, state: nat, balance: int, maxGas: nat)
    requires AccountDemoted(p, q, p', q', a, state, balance, maxGas)
    requires Gapless(From(Items(p, a), state), Items(q, a), state) && (a in p ==> ListOk(p[a], a, true))
    ensures Gapless(Items(p', a), Items(q', a), state)
  {
    hide Invalids, Payable, Unpayable;
    var h: nat :| InOrder(From(Items(p, a), state), Items(q, a), state, h);
    if a in p {
      var l := p[a].(items := From(p[a].items, state));
      StaysSound(p[a], l.items);
      FilteredIs(l, balance, maxGas);
      var cut := FilterKeepsInterval(l, balance, maxGas, state, h);
      assert InOrder(Items(p', a), Items(q', a), state, cut);
    } else {
      assert From(Items(p, a), state) == map[];
      assert InOrder(Items(p', a), Items(q', a), state, h);
    }
  }

  /** An account in order from one nonce on is in order from any later one on. */
  lemma LaterOnly(pending: NonceMap, queue: NonceMap, state: nat)
    requires Gapless(pending, queue, state)
    ensures Gapless(From(pending, state), queue, state)
  {
    var h: nat :| InOrder(pending, queue, state, h);
    assert InOrder(From(pending, state), queue, state, h);
  }

  /** next is one past the highest nonce of a non-empty list. */
  ghost predicate IsNext(m: NonceMap, next: nat) {
    next > 0 && next - 1 in m && forall n :: n in m ==> n < next
  }

  lemma FlatLast(s: seq<Tx>, m: NonceMap)
    requires IsFlat(s, m) && m != map[]
    ensures |s| > 0 && IsNext(m, s[|s| - 1].nonce + 1)
  {
    FlatLength(s, m);
    forall n | n in m ensures n <= s[|s| - 1].nonce {
      var i := IndexIn(s, m, n);
    }
  }

  /** One past the highest pending nonce, or the state nonce if there is none, ends the interval. */
  lemma NextFound(pending: NonceMap, queue: NonceMap, state: nat, next: nat)
    requires Gapless(pending, queue, state)
    requires if pending == map[] then next == state else IsNext(pending, next)
    ensures InOrder(pending, queue, state, next)
  {
    var h: nat :| InOrder(pending, queue, state, h);
    if pending != map[] {
      assert (h - 1) as nat in pending;
    } else {
      assert h > state ==> state in pending;
    }
  }

  lemma OrderedIsGapless(pending: NonceMap, queue: NonceMap, state: nat, next: nat)
    requires InOrder(pending, queue, state, next)
    ensures Gapless(pending, queue, state)
  {
  }

  lemma NotQueuedPromoted(p: Lists, q: Lists, p': Lists, q': Lists, a: Address,
                          state: nat, balance: int, maxGas: nat, start: nat, cap: Option<nat>, next: nat)
    requires if a in q then AccountPromoted(p, q, p', q', a, state, balance, maxGas, start, cap, next)
             else SameAt(p, p', a) && SameAt(q, q', a) && next == start
    ensures AccountPromoted(p, q, p', q', a, state, balance, maxGas, start, cap, next)
  {
  }
}

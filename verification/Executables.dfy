/** What promotion, demotion and the limits leave of an account's transactions, by what can be executed. */
module Executables {
  import opened Transactions
  import opened NonceMaps
  import opened ListValues
  import opened PoolInvariants
  import opened Truncation

  /** The state nonce has not passed the transaction, the balance covers it, and a block has its gas. */
  predicate Executable(tx: Tx, state: nat, balance: int, maxGas: nat) {
    state <= tx.nonce && tx.feeCap * tx.gas + tx.value <= balance && tx.gas <= maxGas
  }

  /** What promotion leaves in a queue is executable and within the cap; what was executable is pending or still queued,
      unless the cap is reached by transactions of lower nonces. */
  ghost predicate QueueKept(queue: NonceMap, pending': NonceMap, queue': NonceMap, state: nat, balance: int,
                            maxGas: nat, cap: Option<nat>) {
    && (forall n :: n in queue' ==> n in queue && queue'[n] == queue[n] && Executable(queue[n], state, balance, maxGas))
    && (cap.Some? ==> |queue'| <= cap.value)
    && (forall n :: n in queue && Executable(queue[n], state, balance, maxGas) && n !in pending' && n !in queue' ==>
          cap.Some? && |queue'| == cap.value && forall k :: k in queue' ==> k < n)
  }

  /** What demotion leaves pending was pending and is executable; what was executable is pending or queued again. */
  ghost predicate PendingKept(pending: NonceMap, pending': NonceMap, queue': NonceMap, state: nat, balance: int,
                              maxGas: nat) {
    && (forall n :: n in pending' ==>
          n in pending && pending'[n] == pending[n] && Executable(pending[n], state, balance, maxGas))
    && (forall n :: n in pending && Executable(pending[n], state, balance, maxGas) ==>
          n in pending' || (n in queue' && queue'[n] == pending[n]))
  }

  /** The lowest k transactions are k, or all, and below all others. */
  lemma LowestFirst(m: NonceMap, k: nat)
    ensures |Lowest(m, k)| == if k <= |m| then k else |m|
    ensures forall n, j :: n in Lowest(m, k) && j in m && j !in Lowest(m, k) ==> n < j
  {
    if k <= |m| {
      LowestSize(m, k);
    } else {
      AllLowest(m, k);
    }
    forall n, j | n in Lowest(m, k) && j in m && j !in Lowest(m, k) ensures n < j {
      if j <= n {
        Subset(Below(m, j), Below(m, n));
      }
    }
  }

  lemma AllLowest(m: NonceMap, k: nat)
    requires k >= |m|
    ensures Lowest(m, k) == m
  {
    forall n | n in m ensures Rank(m, n) < k {
      assert n in Lowest(m, |m|) by {
        AllOfIt(m);
      }
    }
  }

  /** The usable part of a queue list is its executable part. */
  lemma UsableIs(l: ListValue, a: Address, state: nat, balance: int, maxGas: nat)
    requires ListOk(l, a, false)
    ensures forall n :: n in Usable(l, state, balance, maxGas).items <==>
              n in l.items && Executable(l.items[n], state, balance, maxGas)
    ensures forall n :: n in Usable(l, state, balance, maxGas).items ==>
              Usable(l, state, balance, maxGas).items[n] == l.items[n]
  {
    var from := l.(items := From(l.items, state));
    StaysSound(l, from.items);
    FilteredIs(from, balance, maxGas);
    forall n | n in l.items
      ensures n in Usable(l, state, balance, maxGas).items <==> Executable(l.items[n], state, balance, maxGas)
    {
      assert n in from.items ==> (n in Unpayable(from, balance, maxGas) <==> TooCostly(balance, maxGas)(l.items[n]));
    }
  }

  lemma PromotionKeeps(p: Lists, q: Lists, p': Lists, q': Lists, a: Address,
                       state: nat, balance: int, maxGas: nat, start: nat, cap: Option<nat>, next: nat)
    requires AccountPromoted(p, q, p', q', a, state, balance, maxGas, start, cap, next)
    requires a in q ==> ListOk(q[a], a, false)
    ensures QueueKept(Items(q, a), Items(p', a), Items(q', a), state, balance, maxGas, cap)
  {
    if a in q {
      hide Usable, Executable, Lowest, ListOk;
      var u := Usable(q[a], state, balance, maxGas).items;
      UsableIs(q[a], a, state, balance, maxGas);
      CappedKeeps(Unripe(u, start), cap);
      RipeOrNot(u, start);
    }
  }

  /** Promotion goes on as long as it can: nothing of the new virtual nonce stays queued. */
  lemma PromotionProgress(p: Lists, q: Lists, p': Lists, q': Lists, a: Address,
                          state: nat, balance: int, maxGas: nat, start: nat, cap: Option<nat>, next: nat)
    requires AccountPromoted(p, q, p', q', a, state, balance, maxGas, start, cap, next)
    ensures next !in Items(q', a)
  {
    if a in q {
      hide Usable, Lowest;
      var u := Usable(q[a], state, balance, maxGas).items;
      CappedSubset(Unripe(u, start), cap);
      if HasRipe(u, start) && next in u {
        RunStarts(u);
        assert next - 1 in Run(u) && InRun(u, (next - 1) as nat);
        assert InRun(u, next);
      }
    }
  }

  lemma RunStarts(u: NonceMap)
    requires u != map[]
    ensures Run(u) != map[]
  {
    var x := MinKey(u.Keys);
    assert InRun(u, x);
    assert x in Run(u);
  }

  lemma {:induction false} MinKey(s: set<nat>) returns (x: nat)
    requires s != {}
    ensures x in s && forall k :: k in s ==> x <= k
  {
    x :| x in s;
    assert s == {x} + (s - {x});
    if s - {x} != {} {
      var r := MinKey(s - {x});
      if r < x {
        x := r;
      }
    }
  }

  lemma RipeOrNot(u: NonceMap, start: nat)
    ensures forall n :: n in u ==> n in Ripe(u, start) || n in Unripe(u, start)
    ensures forall n :: n in Unripe(u, start) ==> n in u && Unripe(u, start)[n] == u[n]
  {
  }

  lemma CappedKeeps(m: NonceMap, cap: Option<nat>)
    ensures cap.Some? ==> |Capped(m, cap)| <= cap.value
    ensures forall n :: n in Capped(m, cap) ==> n in m && Capped(m, cap)[n] == m[n]
    ensures forall n :: n in m && n !in Capped(m, cap) ==>
              cap.Some? && |Capped(m, cap)| == cap.value && forall k :: k in Capped(m, cap) ==> k < n
  {
    if cap.Some? {
      LowestFirst(m, cap.value);
      if cap.value > |m| {
        AllLowest(m, cap.value);
      }
    }
  }

  lemma DemotionKeeps(p: Lists, q: Lists, p': Lists, q': Lists, a: Address, state: nat, balance: int, maxGas: nat)
    requires AccountDemoted(p, q, p', q', a, state, balance, maxGas)
    requires a in p ==> ListOk(p[a], a, true)
    ensures PendingKept(Items(p, a), Items(p', a), Items(q', a), state, balance, maxGas)
  {
    if a in p {
      var l := p[a].(items := From(p[a].items, state));
      StaysSound(p[a], l.items);
      FilteredIs(l, balance, maxGas);
      FilteredParts(p[a], l, state, balance, maxGas);
      hide Filtered, Payable, Invalids, FilterInvalids, Executable, ListOk;
      PartsKept(p[a].items, Items(q, a), Payable(l, balance, maxGas), Invalids(l, balance, maxGas), Items(p', a),
                Items(q', a), state, balance, maxGas);
    }
  }

  lemma PartsKept(items: NonceMap, queue: NonceMap, kept: NonceMap, invalids: NonceMap, pending': NonceMap,
                  queue': NonceMap, state: nat, balance: int, maxGas: nat)
    requires forall n :: n in kept ==>
               n in items && kept[n] == items[n] && Executable(items[n], state, balance, maxGas) && n !in invalids
    requires forall n :: n in invalids ==> n in items && invalids[n] == items[n]
    requires forall n :: n in items && Executable(items[n], state, balance, maxGas) ==> n in kept || n in invalids
    requires pending' == (if Gapped(kept, state) then map[] else kept)
    requires queue' == queue + invalids + (if Gapped(kept, state) then kept else map[])
    ensures PendingKept(items, pending', queue', state, balance, maxGas)
  {
    hide Executable, Gapped;
  }

  lemma FilteredParts(l0: ListValue, l: ListValue, state: nat, balance: int, maxGas: nat)
    requires Keyed(l0.items) && l == l0.(items := From(l0.items, state))
    ensures forall n :: n in Payable(l, balance, maxGas) ==>
              && n in l0.items && Payable(l, balance, maxGas)[n] == l0.items[n]
              && Executable(l0.items[n], state, balance, maxGas)
    ensures forall n :: n in Invalids(l, balance, maxGas) ==>
              n in l0.items && Invalids(l, balance, maxGas)[n] == l0.items[n]
    ensures forall n :: n in l0.items && Executable(l0.items[n], state, balance, maxGas) ==>
              n in Payable(l, balance, maxGas) || n in Invalids(l, balance, maxGas)
    ensures forall n :: n in Payable(l, balance, maxGas) ==> n !in Invalids(l, balance, maxGas)
  {
    FilterPartition(l, balance, maxGas);
    forall n | n in l.items
      ensures n in Unpayable(l, balance, maxGas) <==> TooCostly(balance, maxGas)(l.items[n])
    {
    }
  }
}

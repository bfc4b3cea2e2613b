/** priceHeap and txPricedList of core/tx_list.go: the remote transactions of the
    pool in two price heaps, with lazy deletion. */
module TxPricedLists {
  import opened Transactions
  import opened TxLookups
  import Heap = ContainerHeap
  import Sorting

  /** EffectiveGasTip at a base fee; it may be negative. */
  function EffectiveTip(tx: Tx, baseFee: int): int {
    if tx.tipCap <= tx.feeCap - baseFee then tx.tipCap else tx.feeCap - baseFee
  }

  function CmpInt(a: int, b: int): int {
    if a < b then -1 else if a > b then 1 else 0
  }

  /** priceHeap.cmp: effective tips when there is a base fee, then fee caps, then tips. */
  function Cmp(baseFee: Option<int>, a: Tx, b: Tx): int {
    if baseFee.Some? && EffectiveTip(a, baseFee.value) != EffectiveTip(b, baseFee.value) then
      CmpInt(EffectiveTip(a, baseFee.value), EffectiveTip(b, baseFee.value))
    else if a.feeCap != b.feeCap then CmpInt(a.feeCap, b.feeCap)
    else CmpInt(a.tipCap, b.tipCap)
  }

  /** priceHeap.Less: the cheaper first, and among equals the higher nonce first. */
  function Less(baseFee: Option<int>): (Tx, Tx) -> bool {
    (a: Tx, b: Tx) => Cmp(baseFee, a, b) < 0 || (Cmp(baseFee, a, b) == 0 && a.nonce > b.nonce)
  }

  lemma LessIsOrder(baseFee: Option<int>)
    ensures Heap.StrictWeak(Less(baseFee))
  {
    hide Cmp;
    var less := Less(baseFee);
    forall x, y ensures less(x, y) ==> !less(y, x) {
      Opposite(baseFee, x, y);
    }
    forall x, y, z | !less(y, x) && !less(z, y) ensures !less(z, x) {
      Opposite(baseFee, x, y);
      Opposite(baseFee, y, z);
      Opposite(baseFee, x, z);
      Chained(baseFee, x, y, z);
    }
  }

  /** A transaction with higher caps is dearer, by either heap's order and whatever the base fee. */
  lemma HigherIsDearer(baseFee: Option<int>, a: Tx, b: Tx)
    requires a.feeCap <= b.feeCap && a.tipCap <= b.tipCap
    ensures Cmp(baseFee, a, b) <= 0
    ensures a.feeCap < b.feeCap && a.tipCap < b.tipCap ==> Less(baseFee)(a, b) && !Less(baseFee)(b, a)
    ensures a.feeCap == b.feeCap && a.tipCap == b.tipCap ==> (Less(baseFee)(a, b) <==> a.nonce > b.nonce)
  {
  }

  /** Without a base fee the fee cap decides, and the tip among equals; with one, first of all what the block's
      producer would get. */
  lemma WhatDecides(a: Tx, b: Tx, fee: int)
    ensures a.feeCap < b.feeCap ==> Less(None)(a, b)
    ensures a.feeCap == b.feeCap && a.tipCap < b.tipCap ==> Less(None)(a, b)
    ensures a.tipCap < b.tipCap && a.tipCap + fee < b.feeCap ==> Less(Some(fee))(a, b)
    ensures a.feeCap < b.feeCap && a.feeCap < b.tipCap + fee ==> Less(Some(fee))(a, b)
  {
  }

  lemma Opposite(baseFee: Option<int>, a: Tx, b: Tx)
    ensures Cmp(baseFee, a, b) == -Cmp(baseFee, b, a)
  {
  }

  lemma Chained(baseFee: Option<int>, a: Tx, b: Tx, c: Tx)
    requires Cmp(baseFee, a, b) <= 0 && Cmp(baseFee, b, c) <= 0
    ensures Cmp(baseFee, a, c) <= 0
    ensures Cmp(baseFee, a, c) == 0 ==> Cmp(baseFee, a, b) == 0 && Cmp(baseFee, b, c) == 0
  {
  }

  const URGENT_RATIO := 4
  const FLOATING_RATIO := 1

  /** The slots of a collection of heap entries, counting only those still in the remote table. */
  ghost function LiveSlots(ms: multiset<Tx>, remotes: map<TxHash, Tx>): nat {
    if ms == multiset{} then 0
    else
      var tx :| tx in ms;
      (if HashOf(tx) in remotes then NumSlots(tx) else 0) + LiveSlots(ms - multiset{tx}, remotes)
  }

  lemma {:induction false} LiveSlotsWithout(ms: multiset<Tx>, remotes: map<TxHash, Tx>, tx: Tx)
    requires tx in ms
    ensures LiveSlots(ms, remotes) ==
            (if HashOf(tx) in remotes then NumSlots(tx) else 0) + LiveSlots(ms - multiset{tx}, remotes)
    decreases |ms|
  {
    hide NumSlots;
    var x :| x in ms && LiveSlots(ms, remotes) ==
                        (if HashOf(x) in remotes then NumSlots(x) else 0) + LiveSlots(ms - multiset{x}, remotes);
    if x != tx {
      LiveSlotsWithout(ms - multiset{x}, remotes, tx);
      LiveSlotsWithout(ms - multiset{tx}, remotes, x);
      assert ms - multiset{x} - multiset{tx} == ms - multiset{tx} - multiset{x};
    }
  }

  lemma LiveSlotsWith(ms: multiset<Tx>, remotes: map<TxHash, Tx>, tx: Tx)
    ensures LiveSlots(ms + multiset{tx}, remotes) ==
            (if HashOf(tx) in remotes then NumSlots(tx) else 0) + LiveSlots(ms, remotes)
  {
    LiveSlotsWithout(ms + multiset{tx}, remotes, tx);
    assert ms + multiset{tx} - multiset{tx} == ms;
  }

  class TxPricedList {
    const all: TxLookup
    var stales: int
    var urgent: seq<Tx>
    var floating: seq<Tx>
    var baseFee: Option<int>

    ghost predicate Valid()
      reads this
    {
      Heap.IsHeap(Less(baseFee), urgent) && Heap.IsHeap(Less(None), floating)
    }

    /** The entries of both heaps, stale ones included. */
    ghost function Entries(): multiset<Tx>
      reads this
    {
      multiset(urgent) + multiset(floating)
    }

    predicate Live(tx: Tx)
      reads all
    {
      HashOf(tx) in all.remotes
    }

    /** Every remote transaction of the lookup is in one of the heaps. */
    ghost predicate Tracked()
      reads this, all
    {
      forall h :: h in all.remotes ==> h.preimage in Entries()
    }

    constructor (all: TxLookup)
      ensures Valid() && this.all == all && urgent == [] && floating == [] && stales == 0
    {
      this.all, stales, urgent, floating, baseFee := all, 0, [], [], None;
    }

    /** Put pushes a remote transaction on the urgent heap. */
    method Put(tx: Tx, local: bool)
      requires Valid()
      modifies this
      ensures Valid() && Entries() == old(Entries()) + if local then multiset{} else multiset{tx}
    {
      if local {
        return;
      }
      LessIsOrder(baseFee);
      urgent := Heap.Push(Less(baseFee), urgent, tx);
    }

    /** Removed counts stale entries and rebuilds the heaps once they exceed a quarter. */
    method Removed(count: nat)
      requires Valid() && Filed(all.remotes)
      modifies this
      ensures Valid() && baseFee == old(baseFee)
      ensures old(Tracked()) ==> Tracked()
    {
      stales := stales + count;
      if stales <= (|urgent| + |floating|) / 4 {
        return;
      }
      Reheap();
    }

    /** The loop of Reheap over the remote table. */
    method RemoteList() returns (txs: seq<Tx>)
      requires Filed(all.remotes)
      ensures multiset(txs) == multiset(Preimages(all.remotes.Keys))
      ensures |txs| == |all.remotes|
    {
      hide Preimages;
      txs := [];
      var todo := all.remotes.Keys;
      ghost var done: set<TxHash> := {};
      NoPreimages();
      while todo != {}
        invariant todo !! done && todo + done == all.remotes.Keys
        invariant |txs| == |done| && multiset(txs) == multiset(Preimages(done))
        decreases |todo|
      {
        var hash :| hash in todo;
        PreimagesStep(done, hash);
        txs := txs + [all.remotes[hash]];
        todo, done := todo - {hash}, done + {hash};
      }
      assert done == all.remotes.Keys;
    }

    /** Reheap fills the heaps with exactly the remote transactions: a fifth of them, rounded
        down and none better than any other by the urgent order, go to the floating heap. */
    method Reheap()
      requires Filed(all.remotes)
      modifies this
      ensures Valid() && baseFee == old(baseFee) && stales == 0
      ensures Entries() == multiset(Preimages(all.remotes.Keys)) && Tracked()
      ensures |floating| == |all.remotes| * FLOATING_RATIO / (URGENT_RATIO + FLOATING_RATIO)
      ensures |urgent| + |floating| == |all.remotes|
      ensures forall f, u :: f in floating && u in urgent ==> !Less(baseFee)(u, f)
    {
      hide Heap.IsHeap, Heap.StrictWeak;
      stales := 0;
      urgent := RemoteList();
      ghost var txs := multiset(urgent);
      LessIsOrder(baseFee);
      LessIsOrder(None);
      urgent := Heap.Init(Less(baseFee), urgent);
      var floatingCount := |urgent| * FLOATING_RATIO / (URGENT_RATIO + FLOATING_RATIO);
      floating := [];
      for i := 0 to floatingCount
        invariant |floating| == i && |urgent| + i == |all.remotes|
        invariant multiset(urgent) + multiset(floating) == txs
        invariant Heap.IsHeap(Less(baseFee), urgent) && baseFee == old(baseFee) && stales == 0
        invariant forall f, u :: f in floating && u in urgent ==> !Less(baseFee)(u, f)
      {
        ghost var before := urgent;
        var tx;
        urgent, tx := Heap.Pop(Less(baseFee), urgent);
        forall u | u in urgent ensures u in before {
          assert u in multiset(before);
        }
        floating := floating + [tx];
      }
      ghost var moved := floating;
      floating := Heap.Init(Less(None), floating);
      forall f | f in floating ensures f in moved {
        assert f in multiset(floating);
      }
    }

    method SetBaseFee(fee: Option<int>)
      requires Filed(all.remotes)
      modifies this
      ensures Valid() && baseFee == fee && Tracked()
    {
      baseFee := fee;
      Reheap();
    }

    /** Whether every live entry of a heap is at least as good as tx, by the heap's order. */
    ghost predicate NoneCheaper(fee: Option<int>, h: seq<Tx>, tx: Tx)
      reads all
    {
      forall e :: e in h && Live(e) ==> Cmp(fee, e, tx) >= 0
    }

    ghost predicate SomeLive(h: seq<Tx>)
      reads all
    {
      exists e :: e in h && Live(e)
    }

    /** underpricedFor on one heap: drops the stale entries at its top first. */
    method UnderpricedFor(fee: Option<int>, h: seq<Tx>, tx: Tx) returns (h': seq<Tx>, under: bool, popped: nat)
      requires Heap.IsHeap(Less(fee), h)
      ensures Heap.IsHeap(Less(fee), h') && multiset(h') <= multiset(h)
      ensures forall e :: Live(e) ==> multiset(h')[e] == multiset(h)[e]
      ensures under == (SomeLive(h) && NoneCheaper(fee, h, tx))
      ensures (|h'| > 0 <==> SomeLive(h)) && (|h'| == 0 ==> NoneCheaper(fee, h, tx))
    {
      hide Heap.IsHeap, Heap.StrictWeak;
      LessIsOrder(fee);
      h', popped := h, 0;
      while |h'| > 0 && !Live(h'[0])
        invariant Heap.IsHeap(Less(fee), h') && multiset(h') <= multiset(h)
        invariant forall e :: Live(e) ==> multiset(h')[e] == multiset(h)[e]
        decreases |h'|
      {
        var stale;
        h', stale := Heap.Pop(Less(fee), h');
        popped := popped + 1;
      }
      SameLive(h, h');
      if |h'| == 0 {
        return h', false, popped;
      }
      Heap.RootIsLeast(Less(fee), h');
      under := Cmp(fee, h'[0], tx) >= 0;
      assert h'[0] in h';
      CheapestDecides(fee, h', tx);
    }

    lemma SameLive(h: seq<Tx>, h': seq<Tx>)
      requires forall e :: Live(e) ==> multiset(h')[e] == multiset(h)[e]
      ensures forall e :: Live(e) ==> (e in h <==> e in h')
    {
      forall e | Live(e) ensures e in h <==> e in h' {
        assert e in h <==> e in multiset(h);
        assert e in h' <==> e in multiset(h');
      }
    }

    lemma CheapestDecides(fee: Option<int>, h: seq<Tx>, tx: Tx)
      requires |h| > 0 && Live(h[0]) && forall e :: e in h ==> !Less(fee)(e, h[0])
      ensures NoneCheaper(fee, h, tx) <==> Cmp(fee, h[0], tx) >= 0
    {
      if Cmp(fee, h[0], tx) >= 0 {
        forall e | e in h && Live(e) ensures Cmp(fee, e, tx) >= 0 {
          assert !Less(fee)(e, h[0]);
        }
      }
    }

    /** There is a live entry, and none of either heap is cheaper than tx by the heap's order. */
    ghost predicate PricedOut(tx: Tx)
      reads this, all
    {
      (SomeLive(urgent) || SomeLive(floating)) && NoneCheaper(baseFee, urgent, tx) && NoneCheaper(None, floating, tx)
    }

    /** Whatever heap an entry is in: tx is not priced out without remote transactions, nor over one with lower caps; it
        is if there are some and all have caps as high as its own. */
    lemma PricedOutMeans(tx: Tx)
      requires Tracked() && Filed(all.remotes)
      ensures all.remotes == map[] ==> !PricedOut(tx)
      ensures forall h :: h in all.remotes && h.preimage.feeCap < tx.feeCap && h.preimage.tipCap < tx.tipCap ==>
                !PricedOut(tx)
      ensures all.remotes != map[]
              && (forall h :: h in all.remotes ==> h.preimage.feeCap >= tx.feeCap && h.preimage.tipCap >= tx.tipCap) ==>
                PricedOut(tx)
    {
      hide Cmp;
      forall h | h in all.remotes ensures Live(h.preimage) && (h.preimage in urgent || h.preimage in floating) {
        assert h.preimage in Entries();
      }
      forall fee, e: Tx {:trigger Cmp(fee, e, tx)} | Live(e)
        ensures e.feeCap < tx.feeCap && e.tipCap < tx.tipCap ==> Cmp(fee, e, tx) < 0
        ensures e.feeCap >= tx.feeCap && e.tipCap >= tx.tipCap ==> Cmp(fee, e, tx) >= 0
      {
        CheaperOrNot(fee, e, tx);
      }
    }

    lemma CheaperOrNot(fee: Option<int>, e: Tx, tx: Tx)
      ensures e.feeCap < tx.feeCap && e.tipCap < tx.tipCap ==> Cmp(fee, e, tx) < 0
      ensures e.feeCap >= tx.feeCap && e.tipCap >= tx.tipCap ==> Cmp(fee, e, tx) >= 0
    {
    }

    /** Underpriced tells whether tx is priced out; stale entries at the top of the heaps are dropped on the way. */
    method Underpriced(tx: Tx) returns (under: bool)
      requires Valid()
      modifies this
      ensures Valid() && baseFee == old(baseFee)
      ensures under == old(PricedOut(tx))
      ensures forall e :: Live(e) ==> Entries()[e] == old(Entries())[e]
    {
      hide Heap.IsHeap, SomeLive, NoneCheaper;
      var u, f, popped;
      urgent, u, popped := UnderpricedFor(baseFee, urgent, tx);
      stales := stales - popped;
      if !(u || |urgent| == 0) {
        return false;
      }
      floating, f, popped := UnderpricedFor(None, floating, tx);
      stales := stales - popped;
      return (f || |floating| == 0) && (|urgent| != 0 || |floating| != 0);
    }

    /** Discard, urgent heap too big: its cheapest entry is forgotten if stale, else moved to the floating heap. */
    method Rebalance(ghost e0: multiset<Tx>, ghost f0: seq<Tx>, ghost drop: seq<Tx>)
      requires Valid() && |urgent| > 0 && Discarding(e0, all.remotes, Entries(), drop)
      requires Cheapest(baseFee, f0, urgent, floating, drop)
      modifies this
      ensures Valid() && baseFee == old(baseFee) && Discarding(e0, all.remotes, Entries(), drop)
      ensures Cheapest(baseFee, f0, urgent, floating, drop)
      ensures |urgent| == old(|urgent|) - 1 && |floating| <= old(|floating|) + 1
    {
      hide Heap.IsHeap, Heap.StrictWeak, Less, Discarding, Cheapest;
      LessIsOrder(baseFee);
      LessIsOrder(None);
      ghost var e := Entries();
      var rest, tx := Heap.Pop(Less(baseFee), urgent);
      ghost var e' := multiset(rest) + multiset(floating);
      assert e == e' + multiset{tx};
      urgent := rest;
      if !Live(tx) {
        DropStale(e0, all.remotes, e, e', drop, tx);
        stales := stales - 1;
      } else {
        floating := Heap.Push(Less(None), floating, tx);
        assert Entries() == e;
      }
      CheapestMoved(baseFee, f0, old(urgent), rest, tx, old(floating), floating, drop);
    }

    /** Discard, floating heap in proportion: its cheapest entry is forgotten if stale, else taken out. */
    method TakeCheapest(ghost e0: multiset<Tx>, ghost f0: seq<Tx>, ghost drop: seq<Tx>) returns (tx: Tx, live: bool)
      requires Valid() && |floating| > 0 && Discarding(e0, all.remotes, Entries(), drop)
      requires Cheapest(baseFee, f0, urgent, floating, drop)
      modifies this
      ensures Cheapest(baseFee, f0, urgent, floating, if live then drop + [tx] else drop)
      ensures forall f :: f in floating ==> !Less(None)(f, tx)
      ensures Valid() && baseFee == old(baseFee) && live == Live(tx)
      ensures Discarding(e0, all.remotes, Entries(), if live then drop + [tx] else drop)
      ensures live ==>
                LiveSlots(multiset(drop + [tx]), all.remotes) == LiveSlots(multiset(drop), all.remotes) + NumSlots(tx)
      ensures |urgent| == old(|urgent|) && |floating| == old(|floating|) - 1
    {
      hide Heap.IsHeap, Heap.StrictWeak, Less, Discarding, LiveSlots, NumSlots, Cheapest;
      LessIsOrder(None);
      ghost var e := Entries();
      var rest;
      rest, tx := Heap.Pop(Less(None), floating);
      ghost var e' := multiset(urgent) + multiset(rest);
      assert e == e' + multiset{tx};
      floating := rest;
      live := Live(tx);
      CheapestTaken(baseFee, f0, urgent, old(floating), rest, tx, drop);
      if live {
        DropLive(e0, all.remotes, e, e', drop, tx);
      } else {
        DropStale(e0, all.remotes, e, e', drop, tx);
        stales := stales - 1;
      }
    }

    /** The main loop of Discard: `left` is what is still wanted when it stops. */
    method DiscardLoop(slots: nat) returns (drop: seq<Tx>, left: int)
      requires Valid()
      modifies this
      ensures Valid() && baseFee == old(baseFee)
      ensures Discarding(old(Entries()), all.remotes, Entries(), drop)
      ensures left == slots - LiveSlots(multiset(drop), all.remotes)
      ensures left > 0 ==> Entries() == multiset{}
      ensures |drop| > 0 ==> LiveSlots(multiset(drop[..|drop| - 1]), all.remotes) < slots
      ensures Cheapest(baseFee, old(floating), urgent, floating, drop)
      ensures drop != [] ==> forall f :: f in floating ==> !Less(None)(f, drop[|drop| - 1])
      ensures drop != [] && left <= 0 ==> |urgent| * FLOATING_RATIO <= (|floating| + 1) * URGENT_RATIO
      ensures |urgent| < old(|urgent|) ==> |urgent| * FLOATING_RATIO >= (|floating| - 1) * URGENT_RATIO
    {
      hide Heap.IsHeap, Less, LiveSlots, Discarding, NumSlots, Cheapest;
      ghost var e0 := Entries();
      DiscardStart(e0, all.remotes);
      CheapestStart(baseFee, urgent, floating);
      drop, left := [], slots;
      while left > 0
        invariant Valid() && baseFee == old(baseFee)
        invariant Discarding(e0, all.remotes, Entries(), drop)
        invariant left == slots - LiveSlots(multiset(drop), all.remotes)
        invariant |drop| > 0 ==> LiveSlots(multiset(drop[..|drop| - 1]), all.remotes) < slots
        invariant Cheapest(baseFee, old(floating), urgent, floating, drop)
        invariant drop != [] && left <= 0 ==> forall f :: f in floating ==> !Less(None)(f, drop[|drop| - 1])
        invariant drop != [] && left <= 0 ==> |urgent| * FLOATING_RATIO <= (|floating| + 1) * URGENT_RATIO
        invariant |urgent| <= old(|urgent|)
        invariant |urgent| < old(|urgent|) ==> |urgent| * FLOATING_RATIO >= (|floating| - 1) * URGENT_RATIO
        decreases 2 * |urgent| + |floating|
      {
        if |urgent| * FLOATING_RATIO > |floating| * URGENT_RATIO {
          Rebalance(e0, old(floating), drop);
        } else {
          if |floating| == 0 {
            break;
          }
          var tx, live := TakeCheapest(e0, old(floating), drop);
          if live {
            assert (drop + [tx])[..|drop|] == drop;
            drop := drop + [tx];
            left := left - NumSlots(tx);
          }
        }
      }
    }

    method PutBack(drop: seq<Tx>)
      requires Valid()
      modifies this
      ensures Valid() && baseFee == old(baseFee) && Entries() == old(Entries()) + multiset(drop)
    {
      hide Heap.IsHeap, Heap.StrictWeak, Less;
      LessIsOrder(baseFee);
      for i := 0 to |drop|
        invariant Valid() && baseFee == old(baseFee) && Entries() == old(Entries()) + multiset(drop[..i])
      {
        ghost var e := Entries();
        urgent := Heap.Push(Less(baseFee), urgent, drop[i]);
        assert drop[..i + 1] == drop[..i] + [drop[i]];
        assert Entries() == e + multiset{drop[i]};
      }
      assert drop[..|drop|] == drop;
    }

    /** Discard takes out live entries, cheapest of the floating heap first, until `slots` slots are
        covered; unless forced it gives up, putting everything back, when all live entries do not suffice. What it takes
        is cheap: nothing left in the floating heap is less than the last one taken, and nothing left in the urgent heap
        less than one that came from there. */
    method Discard(slots: nat, force: bool) returns (drop: seq<Tx>, ok: bool)
      requires Valid()
      modifies this
      ensures Valid() && baseFee == old(baseFee)
      ensures ok <==> force || LiveSlots(old(Entries()), all.remotes) >= slots
      ensures !ok ==> drop == []
      ensures forall i :: 0 <= i < |drop| ==> Live(drop[i])
      ensures forall tx :: Live(tx) ==> Entries()[tx] + multiset(drop)[tx] == old(Entries())[tx]
      ensures ok && !force ==> LiveSlots(multiset(drop), all.remotes) >= slots
      ensures ok && slots > 0 && drop == [] ==> forall tx :: Live(tx) ==> tx !in old(Entries())
      ensures |drop| > 0 ==> LiveSlots(multiset(drop[..|drop| - 1]), all.remotes) < slots
      ensures ok ==> forall d, u :: d in drop && d !in old(floating) && u in urgent ==> !Less(baseFee)(u, d)
      ensures drop != [] ==> forall f :: f in floating ==> !Less(None)(f, drop[|drop| - 1])
    {
      hide Heap.IsHeap, Heap.StrictWeak, Less, LiveSlots, Discarding;
      ghost var e0 := Entries();
      var left := 0;
      drop, left := DiscardLoop(slots);
      if left > 0 && !force {
        DiscardEnd(e0, all.remotes, Entries(), drop);
        PutBack(drop);
        return [], false;
      }
      DiscardEnd(e0, all.remotes, Entries(), drop);
      NoEntries(all.remotes);
      assert drop == [] ==> multiset(drop) == multiset{};
      return drop, true;
    }
  }

  ghost function Preimages(hashes: set<TxHash>): set<Tx> {
    set h | h in hashes :: h.preimage
  }

  lemma NoPreimages()
    ensures Preimages({}) == {}
  {
  }

  lemma PreimagesStep(hashes: set<TxHash>, h: TxHash)
    requires h !in hashes
    ensures multiset(Preimages(hashes + {h})) == multiset(Preimages(hashes)) + multiset{h.preimage}
  {
    assert h.preimage !in Preimages(hashes);
    assert Preimages(hashes + {h}) == Preimages(hashes) + {h.preimage};
  }

  /** What came out of the urgent heap since the floating one was f0 is not dearer than what is left there. */
  ghost predicate Cheapest(fee: Option<int>, f0: seq<Tx>, urgent: seq<Tx>, floating: seq<Tx>, drop: seq<Tx>) {
    forall d, u :: (d in drop || d in floating) && d !in f0 && u in urgent ==> !Less(fee)(u, d)
  }

  lemma CheapestStart(fee: Option<int>, urgent: seq<Tx>, floating: seq<Tx>)
    ensures Cheapest(fee, floating, urgent, floating, [])
  {
  }

  lemma CheapestMoved(fee: Option<int>, f0: seq<Tx>, urgent: seq<Tx>, urgent': seq<Tx>, tx: Tx, floating: seq<Tx>,
                      floating': seq<Tx>, drop: seq<Tx>)
    requires Cheapest(fee, f0, urgent, floating, drop) && multiset(urgent) == multiset(urgent') + multiset{tx}
    requires forall y :: y in urgent ==> !Less(fee)(y, tx)
    requires floating' == floating || multiset(floating') == multiset(floating) + multiset{tx}
    ensures Cheapest(fee, f0, urgent', floating', drop)
  {
    hide Less;
    forall u | u in urgent' ensures u in urgent {
      assert u in multiset(urgent);
    }
    forall d | d in floating' ensures d in floating || d == tx {
      assert floating' != floating ==> d in multiset(floating');
    }
  }

  lemma CheapestTaken(fee: Option<int>, f0: seq<Tx>, urgent: seq<Tx>, floating: seq<Tx>, floating': seq<Tx>, tx: Tx,
                      drop: seq<Tx>)
    requires Cheapest(fee, f0, urgent, floating, drop) && multiset(floating) == multiset(floating') + multiset{tx}
    ensures Cheapest(fee, f0, urgent, floating', drop) && Cheapest(fee, f0, urgent, floating', drop + [tx])
    ensures forall f :: f in floating' ==> f in floating
  {
    hide Less;
    assert tx in multiset(floating);
    forall f | f in floating' ensures f in floating {
      assert f in multiset(floating);
    }
  }

  /** Discard in progress: `drop` has been taken out of the entries e0, and stale entries may be gone. */
  ghost predicate Discarding(e0: multiset<Tx>, remotes: map<TxHash, Tx>, entries: multiset<Tx>, drop: seq<Tx>) {
    && entries + multiset(drop) <= e0
    && (forall i :: 0 <= i < |drop| ==> HashOf(drop[i]) in remotes)
    && (forall tx :: HashOf(tx) in remotes ==> entries[tx] + multiset(drop)[tx] == e0[tx])
    && LiveSlots(entries, remotes) + LiveSlots(multiset(drop), remotes) == LiveSlots(e0, remotes)
  }

  lemma DiscardStart(e0: multiset<Tx>, remotes: map<TxHash, Tx>)
    ensures Discarding(e0, remotes, e0, []) && LiveSlots(multiset([]), remotes) == 0
  {
  }

  /** A stale entry may be forgotten. */
  lemma DropStale(e0: multiset<Tx>, remotes: map<TxHash, Tx>, entries: multiset<Tx>, entries': multiset<Tx>,
                  drop: seq<Tx>, tx: Tx)
    requires Discarding(e0, remotes, entries, drop) && HashOf(tx) !in remotes && entries == entries' + multiset{tx}
    ensures Discarding(e0, remotes, entries', drop)
  {
    hide LiveSlots;
    LiveSlotsWith(entries', remotes, tx);
  }

  /** A live entry may be taken out. */
  lemma DropLive(e0: multiset<Tx>, remotes: map<TxHash, Tx>, entries: multiset<Tx>, entries': multiset<Tx>,
                 drop: seq<Tx>, tx: Tx)
    requires Discarding(e0, remotes, entries, drop) && HashOf(tx) in remotes && entries == entries' + multiset{tx}
    ensures Discarding(e0, remotes, entries', drop + [tx])
    ensures LiveSlots(multiset(drop + [tx]), remotes) == LiveSlots(multiset(drop), remotes) + NumSlots(tx)
  {
    hide LiveSlots;
    LiveSlotsWith(entries', remotes, tx);
    LiveSlotsWith(multiset(drop), remotes, tx);
    assert multiset(drop + [tx]) == multiset(drop) + multiset{tx};
  }

  /** What Discard promises about the entries it leaves and the ones it takes out. */
  lemma DiscardEnd(e0: multiset<Tx>, remotes: map<TxHash, Tx>, entries: multiset<Tx>, drop: seq<Tx>)
    requires Discarding(e0, remotes, entries, drop)
    ensures forall i :: 0 <= i < |drop| ==> HashOf(drop[i]) in remotes
    ensures forall tx :: HashOf(tx) in remotes ==> entries[tx] + multiset(drop)[tx] == e0[tx]
    ensures LiveSlots(multiset(drop), remotes) <= LiveSlots(e0, remotes)
    ensures entries == multiset{} ==> LiveSlots(multiset(drop), remotes) == LiveSlots(e0, remotes)
  {
    NoEntries(remotes);
  }

  lemma NoEntries(remotes: map<TxHash, Tx>)
    ensures LiveSlots(multiset{}, remotes) == 0
  {
  }

  /** Removing distinct remote transactions from the table frees their slots. */
  lemma {:induction false} FreesSlots(drop: seq<Tx>, remotes: map<TxHash, Tx>)
    requires Filed(remotes) && forall i :: 0 <= i < |drop| ==> HashOf(drop[i]) in remotes
    requires forall i, j :: 0 <= i < j < |drop| ==> drop[i] != drop[j]
    ensures SlotSum(remotes - HashesOf(drop)) + LiveSlots(multiset(drop), remotes) == SlotSum(remotes)
    decreases |drop|
  {
    hide LiveSlots, SlotSum, NumSlots;
    if |drop| == 0 {
      NoEntries(remotes);
      assert remotes - HashesOf(drop) == remotes;
    } else {
      var k := |drop| - 1;
      var rest := drop[..k];
      FreesSlots(rest, remotes);
      assert drop == rest + [drop[k]];
      LiveSlotsWith(multiset(rest), remotes, drop[k]);
      SlotSumWithout(remotes - HashesOf(rest), HashOf(drop[k]));
      assert HashesOf(drop) == HashesOf(rest) + {HashOf(drop[k])};
      assert remotes - HashesOf(rest) - {HashOf(drop[k])} == remotes - HashesOf(drop);
    }
  }

  /** A successful Discard that was not forced makes the requested room in the table, provided
      no live transaction has two entries. */
  lemma DiscardFrees(e0: multiset<Tx>, remotes: map<TxHash, Tx>, entries: multiset<Tx>, drop: seq<Tx>, slots: nat)
    requires Filed(remotes) && forall i :: 0 <= i < |drop| ==> HashOf(drop[i]) in remotes
    requires forall tx :: HashOf(tx) in remotes ==> entries[tx] + multiset(drop)[tx] == e0[tx] <= 1
    requires LiveSlots(multiset(drop), remotes) >= slots
    ensures SlotSum(remotes - HashesOf(drop)) + slots <= SlotSum(remotes)
  {
    hide LiveSlots, SlotSum;
    forall i, j | 0 <= i < j < |drop| ensures drop[i] != drop[j] {
      if drop[i] == drop[j] {
        Sorting.Twice(drop, i, j);
        assert false;
      }
    }
    FreesSlots(drop, remotes);
  }

  /** Every remote transaction has an entry or is about to be removed from the table. */
  ghost predicate Covered(remotes: map<TxHash, Tx>, entries: multiset<Tx>, going: seq<Tx>) {
    forall h :: h in remotes ==> h.preimage in entries || h.preimage in going
  }

  lemma CoveredStep(remotes: map<TxHash, Tx>, entries: multiset<Tx>, drop: seq<Tx>, i: nat)
    requires i < |drop| && Covered(remotes, entries, drop[i..])
    ensures Covered(remotes - {HashOf(drop[i])}, entries, drop[i + 1..])
  {
    assert drop[i..] == [drop[i]] + drop[i + 1..];
  }

  /** What Discard leaves covers the table together with what it took out. */
  lemma CoveredByDrop(remotes: map<TxHash, Tx>, e0: multiset<Tx>, entries: multiset<Tx>, drop: seq<Tx>)
    requires Filed(remotes) && forall h :: h in remotes ==> h.preimage in e0
    requires forall tx :: HashOf(tx) in remotes ==> entries[tx] + multiset(drop)[tx] == e0[tx]
    ensures Covered(remotes, entries, drop)
  {
    forall h | h in remotes ensures h.preimage in entries || h.preimage in drop {
      assert HashOf(h.preimage) == h;
      assert h.preimage in multiset(drop) <==> h.preimage in drop;
    }
  }

  /** No live transaction has two entries. */
  ghost predicate UniqueLive(entries: multiset<Tx>, remotes: map<TxHash, Tx>) {
    forall tx :: HashOf(tx) in remotes ==> entries[tx] <= 1
  }

  lemma StillTracked(remotes: map<TxHash, Tx>, e0: multiset<Tx>, entries: multiset<Tx>)
    requires forall h :: h in remotes ==> h.preimage in e0
    requires forall tx :: HashOf(tx) in remotes ==> entries[tx] == e0[tx]
    ensures forall h :: h in remotes ==> h.preimage in entries
    ensures UniqueLive(e0, remotes) ==> UniqueLive(entries, remotes)
  {
    forall h | h in remotes ensures h.preimage in entries {
      assert HashOf(h.preimage) == h;
    }
  }

  lemma NoHashes()
    ensures HashesOf([]) == {}
  {
  }

  lemma HashesStep(drop: seq<Tx>, i: nat)
    requires i < |drop|
    ensures HashesOf(drop[..i + 1]) == HashesOf(drop[..i]) + {HashOf(drop[i])}
  {
    assert drop[..i + 1] == drop[..i] + [drop[i]];
  }

  lemma MinusMore<K, V>(m: map<K, V>, s: set<K>, k: K)
    ensures m - s - {k} == m - (s + {k})
  {
  }

  /** The first i dropped transactions are out of the lookup's tables; the heaps and the others cover the rest. */
  ghost predicate DroppedSoFar(locals0: map<TxHash, Tx>, remotes0: map<TxHash, Tx>, locals: map<TxHash, Tx>,
                               remotes: map<TxHash, Tx>,
                               entries: multiset<Tx>, drop: seq<Tx>, i: nat)
    requires i <= |drop|
  {
    && locals == locals0 - HashesOf(drop[..i]) && remotes == remotes0 - HashesOf(drop[..i])
    && Covered(remotes, entries, drop[i..])
  }

  lemma DroppedStart(locals: map<TxHash, Tx>, remotes: map<TxHash, Tx>, entries: multiset<Tx>, drop: seq<Tx>)
    requires Covered(remotes, entries, drop)
    ensures DroppedSoFar(locals, remotes, locals, remotes, entries, drop, 0)
  {
    NoHashes();
    assert drop[..0] == [] && drop[0..] == drop && locals - {} == locals && remotes - {} == remotes;
  }

  lemma DroppedStep(locals0: map<TxHash, Tx>, remotes0: map<TxHash, Tx>, locals: map<TxHash, Tx>,
                    remotes: map<TxHash, Tx>,
                    entries: multiset<Tx>, drop: seq<Tx>, i: nat)
    requires i < |drop| && DroppedSoFar(locals0, remotes0, locals, remotes, entries, drop, i)
    ensures DroppedSoFar(locals0, remotes0, locals - {HashOf(drop[i])}, remotes - {HashOf(drop[i])}, entries, drop,
                         i + 1)
  {
    hide Covered, HashesOf;
    CoveredStep(remotes, entries, drop, i);
    HashesStep(drop, i);
    MinusMore(locals0, HashesOf(drop[..i]), HashOf(drop[i]));
    MinusMore(remotes0, HashesOf(drop[..i]), HashOf(drop[i]));
  }

  lemma DroppedEnd(locals0: map<TxHash, Tx>, remotes0: map<TxHash, Tx>, locals: map<TxHash, Tx>,
                   remotes: map<TxHash, Tx>,
                   entries: multiset<Tx>, drop: seq<Tx>)
    requires DroppedSoFar(locals0, remotes0, locals, remotes, entries, drop, |drop|)
    ensures locals == locals0 - HashesOf(drop) && remotes == remotes0 - HashesOf(drop)
    ensures forall h :: h in remotes ==> h.preimage in entries
  {
    assert drop[..|drop|] == drop && drop[|drop|..] == [];
  }

  /** Removing what Discard took out makes the requested room, provided no live transaction has two entries. */
  lemma DiscardMakesRoom(e0: multiset<Tx>, remotes: map<TxHash, Tx>, locals: map<TxHash, Tx>, entries: multiset<Tx>,
                         drop: seq<Tx>, slots: nat)
    requires Filed(remotes) && locals.Keys !! remotes.Keys && UniqueLive(e0, remotes)
    requires forall i :: 0 <= i < |drop| ==> HashOf(drop[i]) in remotes
    requires forall tx :: HashOf(tx) in remotes ==> entries[tx] + multiset(drop)[tx] == e0[tx]
    requires LiveSlots(multiset(drop), remotes) >= slots
    ensures SlotSum(locals - HashesOf(drop)) + SlotSum(remotes - HashesOf(drop)) + slots <=
            SlotSum(locals) + SlotSum(remotes)
  {
    hide SlotSum, LiveSlots;
    DiscardFrees(e0, remotes, entries, drop, slots);
    assert locals - HashesOf(drop) == locals;
  }

  /** Stale entries do not count. */
  lemma {:induction false} SameLiveSlots(ms: multiset<Tx>, ms': multiset<Tx>, remotes: map<TxHash, Tx>)
    requires forall tx :: HashOf(tx) in remotes ==> ms[tx] == ms'[tx]
    ensures LiveSlots(ms, remotes) == LiveSlots(ms', remotes)
    decreases |ms| + |ms'|
  {
    hide LiveSlots;
    NoEntries(remotes);
    if tx :| tx in ms {
      LiveSlotsWithout(ms, remotes, tx);
      if HashOf(tx) in remotes {
        LiveSlotsWithout(ms', remotes, tx);
        SameLiveSlots(ms - multiset{tx}, ms' - multiset{tx}, remotes);
      } else {
        SameLiveSlots(ms - multiset{tx}, ms', remotes);
      }
    } else if tx :| tx in ms' {
      LiveSlotsWithout(ms', remotes, tx);
      SameLiveSlots(ms, ms' - multiset{tx}, remotes);
    } else {
      assert ms == multiset{} && ms' == multiset{};
    }
  }
}

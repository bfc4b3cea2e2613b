/** The contents of a txList of core/tx_list.go, and what its operations do to them. */
module ListValues {
  import opened Transactions
  import opened NonceMaps

  /** `costcap` and `gascap` are upper bounds remembered from earlier insertions. */
  datatype ListValue = ListValue(strict: bool, items: NonceMap, costcap: int, gascap: nat)

  function NewList(strict: bool): ListValue {
    ListValue(strict, map[], 0, 0)
  }

  /** The remembered caps bound every stored transaction. */
  ghost predicate CapsHold(l: ListValue) {
    forall n :: n in l.items ==> Cost(l.items[n]) <= l.costcap && l.items[n].gas <= l.gascap
  }

  ghost predicate Sound(l: ListValue) {
    Keyed(l.items) && CapsHold(l)
  }

  /** Replacing a transaction takes more of both prices, and a percentage more of each. */
  predicate Outbids(tx: Tx, prev: Tx, priceBump: nat) {
    && prev.feeCap < tx.feeCap && prev.tipCap < tx.tipCap
    && (100 + priceBump) * prev.feeCap / 100 <= tx.feeCap
    && (100 + priceBump) * prev.tipCap / 100 <= tx.tipCap
  }

  /** The bump without the division: the threshold is rounded down, so less than one unit may be missing. */
  lemma OutbidsIs(tx: Tx, prev: Tx, priceBump: nat)
    ensures Outbids(tx, prev, priceBump) <==>
            && prev.feeCap < tx.feeCap && (100 + priceBump) * prev.feeCap < 100 * (tx.feeCap + 1)
            && prev.tipCap < tx.tipCap && (100 + priceBump) * prev.tipCap < 100 * (tx.tipCap + 1)
  {
    RoundedDown((100 + priceBump) * prev.feeCap, tx.feeCap);
    RoundedDown((100 + priceBump) * prev.tipCap, tx.tipCap);
  }

  lemma RoundedDown(n: nat, k: nat)
    ensures n / 100 <= k <==> n < 100 * (k + 1)
  {
  }

  predicate Accepts(l: ListValue, tx: Tx, priceBump: nat) {
    tx.nonce !in l.items || Outbids(tx, l.items[tx.nonce], priceBump)
  }

  function Replaced(l: ListValue, tx: Tx): Option<Tx> {
    if tx.nonce in l.items then Some(l.items[tx.nonce]) else None
  }

  function Added(l: ListValue, tx: Tx): ListValue {
    l.(items := l.items[tx.nonce := tx],
       costcap := if l.costcap < Cost(tx) then Cost(tx) else l.costcap,
       gascap := if l.gascap < tx.gas then tx.gas else l.gascap)
  }

  /** The transactions an account with these limits cannot pay for. */
  function TooCostly(costLimit: int, gasLimit: nat): Tx -> bool {
    (tx: Tx) => tx.gas > gasLimit || Cost(tx) > costLimit
  }

  function NonceAbove(n: nat): Tx -> bool {
    (tx: Tx) => tx.nonce > n
  }

  function Unpayable(l: ListValue, costLimit: int, gasLimit: nat): NonceMap {
    Select(l.items, TooCostly(costLimit, gasLimit))
  }

  /** A payable transaction that follows an unpayable one. */
  predicate Orphaned(l: ListValue, costLimit: int, gasLimit: nat, n: nat) {
    && n in l.items && n !in Unpayable(l, costLimit, gasLimit)
    && exists k :: k in Unpayable(l, costLimit, gasLimit) && k < n
  }

  /** What Filter takes out besides the unpayable transactions: in a strict list, all that follow one. */
  function Invalids(l: ListValue, costLimit: int, gasLimit: nat): NonceMap {
    map n | n in l.items && l.strict && Orphaned(l, costLimit, gasLimit, n) :: l.items[n]
  }

  function Payable(l: ListValue, costLimit: int, gasLimit: nat): NonceMap {
    l.items - Unpayable(l, costLimit, gasLimit).Keys - Invalids(l, costLimit, gasLimit).Keys
  }

  /** The list after Filter: unchanged when the caps show there is nothing to do. */
  function Filtered(l: ListValue, costLimit: int, gasLimit: nat): ListValue {
    if l.costcap <= costLimit && l.gascap <= gasLimit then l
    else ListValue(l.strict, Payable(l, costLimit, gasLimit), costLimit, gasLimit)
  }

  /** What Filter reports as unpayable, short circuit included. */
  function FilterDrops(l: ListValue, costLimit: int, gasLimit: nat): NonceMap {
    if l.costcap <= costLimit && l.gascap <= gasLimit then map[] else Unpayable(l, costLimit, gasLimit)
  }

  function FilterInvalids(l: ListValue, costLimit: int, gasLimit: nat): NonceMap {
    if l.costcap <= costLimit && l.gascap <= gasLimit then map[] else Invalids(l, costLimit, gasLimit)
  }

  /** What Remove takes out besides the transaction: in a strict list, all that follow it. */
  function Followers(l: ListValue, nonce: nat): NonceMap {
    if l.strict && nonce in l.items then Select(l.items, NonceAbove(nonce)) else map[]
  }

  /** Insertion keeps the caps above every stored transaction. */
  lemma AddedSound(l: ListValue, tx: Tx)
    requires Sound(l)
    ensures Sound(Added(l, tx))
  {
  }

  /** When the caps are within the limits, a full scan would find nothing to remove. */
  lemma ShortCircuit(l: ListValue, costLimit: int, gasLimit: nat)
    requires CapsHold(l) && l.costcap <= costLimit && l.gascap <= gasLimit
    ensures Unpayable(l, costLimit, gasLimit) == map[] && Invalids(l, costLimit, gasLimit) == map[]
    ensures Payable(l, costLimit, gasLimit) == l.items
  {
  }

  /** Removed, invalidated and kept transactions partition the list. */
  lemma FilterPartition(l: ListValue, costLimit: int, gasLimit: nat)
    ensures var u, i, k := Unpayable(l, costLimit, gasLimit), Invalids(l, costLimit, gasLimit), Payable(l, costLimit,
                                                                                                        gasLimit);
            u + i + k == l.items && u.Keys !! i.Keys !! k.Keys
  {
    var u, i, k := Unpayable(l, costLimit, gasLimit), Invalids(l, costLimit, gasLimit), Payable(l, costLimit, gasLimit);
    assert (u + i + k).Keys == l.items.Keys;
  }

  /** A strict list on [lo, hi) is cut by Filter to [lo, cut), and every invalid lies beyond the cut. */
  lemma FilterKeepsInterval(l: ListValue, costLimit: int, gasLimit: nat, lo: nat, hi: nat) returns (cut: nat)
    requires l.strict && IsInterval(l.items, lo, hi)
    ensures lo <= cut <= hi && IsInterval(Payable(l, costLimit, gasLimit), lo, cut)
    ensures forall n :: n in Invalids(l, costLimit, gasLimit) ==> cut < n < hi
    ensures cut < hi ==> cut in Unpayable(l, costLimit, gasLimit)
  {
    cut := lo;
    while cut < hi && cut !in Unpayable(l, costLimit, gasLimit)
      invariant lo <= cut <= hi
      invariant forall n :: lo <= n < cut ==> n !in Unpayable(l, costLimit, gasLimit)
    {
      cut := cut + 1;
    }
    if cut < hi {
      forall n | cut < n < hi && n !in Unpayable(l, costLimit, gasLimit)
        ensures n in Invalids(l, costLimit, gasLimit)
      {
        assert Orphaned(l, costLimit, gasLimit, n);
      }
    }
  }

  lemma LowestContiguous(m: NonceMap, k: nat)
    requires Contiguous(m)
    ensures Contiguous(Lowest(m, k))
  {
    forall i, j, n | i in Lowest(m, k) && n in Lowest(m, k) && i <= j <= n
      ensures j in Lowest(m, k)
    {
      Subset(Below(m, j), Below(m, n));
    }
  }

  lemma PayableContiguous(l: ListValue, costLimit: int, gasLimit: nat)
    requires l.strict && Contiguous(l.items)
    ensures Contiguous(Payable(l, costLimit, gasLimit))
  {
    var p := Payable(l, costLimit, gasLimit);
    forall i, j, n | i in p && n in p && i <= j <= n
      ensures j in p
    {
      assert !Orphaned(l, costLimit, gasLimit, n);
      assert !Orphaned(l, costLimit, gasLimit, j);
    }
  }

  /** Removing transactions keeps the caps above the rest. */
  lemma StaysSound(l: ListValue, items: NonceMap)
    requires Sound(l) && forall n :: n in items ==> n in l.items && items[n] == l.items[n]
    ensures Sound(l.(items := items))
  {
  }

  /** Filter, short circuit included, leaves what a full scan would, and may lower the caps to its limits. */
  lemma FilteredIs(l: ListValue, costLimit: int, gasLimit: nat)
    requires Sound(l)
    ensures Filtered(l, costLimit, gasLimit).items == Payable(l, costLimit, gasLimit)
    ensures FilterDrops(l, costLimit, gasLimit) == Unpayable(l, costLimit, gasLimit)
    ensures FilterInvalids(l, costLimit, gasLimit) == Invalids(l, costLimit, gasLimit)
    ensures Sound(Filtered(l, costLimit, gasLimit))
  {
    if l.costcap <= costLimit && l.gascap <= gasLimit {
      ShortCircuit(l, costLimit, gasLimit);
    }
  }

  /** A gapless strict list stays gapless under each operation that removes transactions. */
  lemma StaysContiguous(l: ListValue, costLimit: int, gasLimit: nat, t: nat, k: nat, nonce: nat)
    requires l.strict && Keyed(l.items) && Contiguous(l.items)
    ensures Contiguous(From(l.items, t)) && Contiguous(Lowest(l.items, k))
    ensures Contiguous(l.items - {nonce} - Followers(l, nonce).Keys)
    ensures Contiguous(Payable(l, costLimit, gasLimit))
  {
    hide Lowest, Payable;
    LowestContiguous(l.items, k);
    PayableContiguous(l, costLimit, gasLimit);
  }
}

/** txList of core/tx_list.go: an account's transactions with cached cost and gas caps. */
module TxLists {
  import opened Transactions
  import opened NonceMaps
  import opened ListValues
  import opened TxSortedMaps

  class TxList {
    const strict: bool
    const txs: TxSortedMap
    var costcap: int
    var gascap: nat

    ghost predicate Valid()
      reads this, txs
    {
      txs.Valid() && Sound(Value())
    }

    ghost function Value(): ListValue
      reads this, txs
    {
      ListValue(strict, txs.items, costcap, gascap)
    }

    constructor (strict: bool)
      ensures Valid() && fresh(txs) && Value() == NewList(strict)
    {
      this.strict, costcap, gascap := strict, 0, 0;
      txs := new TxSortedMap();
    }

    /** Add inserts tx unless a transaction of its nonce is not outbid, and returns the one replaced. */
    method Add(tx: Tx, priceBump: nat) returns (inserted: bool, replaced: Option<Tx>)
      requires Valid()
      modifies this, txs
      ensures Valid() && inserted == Accepts(old(Value()), tx, priceBump)
      ensures inserted ==> Value() == Added(old(Value()), tx) && replaced == Replaced(old(Value()), tx)
      ensures !inserted ==> Value() == old(Value()) && replaced == None
    {
      var prev := txs.Get(tx.nonce);
      if prev.Some? {
        if prev.value.feeCap >= tx.feeCap || prev.value.tipCap >= tx.tipCap {
          return false, None;
        }
        var thresholdFeeCap := (100 + priceBump) * prev.value.feeCap / 100;
        var thresholdTip := (100 + priceBump) * prev.value.tipCap / 100;
        if tx.feeCap < thresholdFeeCap || tx.tipCap < thresholdTip {
          return false, None;
        }
      }
      AddedSound(Value(), tx);
      txs.Put(tx);
      if costcap < Cost(tx) {
        costcap := Cost(tx);
      }
      if gascap < tx.gas {
        gascap := tx.gas;
      }
      return true, prev;
    }

    method Forward(threshold: nat) returns (removed: seq<Tx>)
      requires Valid()
      modifies txs
      ensures Valid() && Value() == old(Value()).(items := From(old(txs.items), threshold))
      ensures IsFlat(removed, Before(old(txs.items), threshold))
    {
      removed := txs.Forward(threshold);
    }

    /** Filter removes the unpayable transactions and, from a strict list, all that follow one.
        The caps decide quickly when there is nothing to do. */
    method Filter(costLimit: int, gasLimit: nat) returns (removed: seq<Tx>, invalids: seq<Tx>)
      requires Valid()
      modifies this, txs
      ensures Valid() && Value() == Filtered(old(Value()), costLimit, gasLimit)
      ensures txs.items == Payable(old(Value()), costLimit, gasLimit)
      ensures Enumerates(removed, Unpayable(old(Value()), costLimit, gasLimit))
      ensures Enumerates(invalids, Invalids(old(Value()), costLimit, gasLimit))
    {
      hide Enumerates, IsFlat, Sound, Keyed, Select, Reject, Payable, Invalids, IsIndex;
      ghost var l := Value();
      NothingListed(map[]);
      FilteredIs(l, costLimit, gasLimit);
      ListIsKeyed(l);
      if costcap <= costLimit && gascap <= gasLimit {
        ShortCircuit(l, costLimit, gasLimit);
        return [], [];
      }
      costcap, gascap := costLimit, gasLimit;
      removed := txs.Filter(TooCostly(costLimit, gasLimit));
      if |removed| == 0 {
        NoneRemoved(l, costLimit, gasLimit, removed);
        return [], [];
      }
      invalids := [];
      if strict {
        var lowest := LowestNonce(removed);
        LowestOf(l, costLimit, gasLimit, removed, lowest);
        invalids := txs.FilterOnly(NonceAbove(lowest));
      } else {
        NotStrict(l, costLimit, gasLimit);
      }
      txs.Reheap();
    }

    method Cap(threshold: nat) returns (drops: seq<Tx>)
      requires Valid()
      modifies txs
      ensures Valid() && Value() == old(Value()).(items := Lowest(old(txs.items), threshold))
      ensures Enumerates(drops, Highest(old(txs.items), threshold))
    {
      drops := txs.Cap(threshold);
    }

    /** Remove deletes the transaction of tx's nonce and, from a strict list, all that follow it. */
    method Remove(tx: Tx) returns (found: bool, invalids: seq<Tx>)
      requires Valid()
      modifies txs
      ensures Valid() && found == (tx.nonce in old(txs.items))
      ensures Value() == old(Value()).(items := old(txs.items) - {tx.nonce} - Followers(old(Value()), tx.nonce).Keys)
      ensures Enumerates(invalids, Followers(old(Value()), tx.nonce))
    {
      hide Enumerates, IsFlat, Sound, Keyed, Select, Reject, Followers, IsIndex;
      ghost var l := Value();
      NothingListed(map[]);
      RemoveSound(l, tx.nonce);
      found := txs.Remove(tx.nonce);
      if !found {
        assert txs.items == l.items;
        return false, [];
      }
      if strict {
        invalids := txs.Filter(NonceAbove(tx.nonce));
        return true, invalids;
      }
      assert txs.items == l.items - {tx.nonce} - Followers(l, tx.nonce).Keys;
      return true, [];
    }

    method Ready(start: nat) returns (ready: seq<Tx>)
      requires Valid()
      modifies txs
      ensures Valid() && IsFlat(ready, Ripe(old(txs.items), start))
      ensures Value() == old(Value()).(items := Unripe(old(txs.items), start))
    {
      ready := txs.Ready(start);
    }
  }

  /** The loop of Filter over the removed transactions. */
  method LowestNonce(removed: seq<Tx>) returns (lowest: nat)
    requires |removed| > 0
    ensures exists i :: 0 <= i < |removed| && removed[i].nonce == lowest
    ensures forall i :: 0 <= i < |removed| ==> lowest <= removed[i].nonce
  {
    lowest := removed[0].nonce;
    for i := 1 to |removed|
      invariant exists j :: 0 <= j < i && removed[j].nonce == lowest
      invariant forall j :: 0 <= j < i ==> lowest <= removed[j].nonce
    {
      if lowest > removed[i].nonce {
        lowest := removed[i].nonce;
      }
    }
  }

  lemma NoneRemoved(l: ListValue, costLimit: int, gasLimit: nat, removed: seq<Tx>)
    requires Enumerates(removed, Unpayable(l, costLimit, gasLimit)) && |removed| == 0
    ensures Unpayable(l, costLimit, gasLimit) == map[] && Invalids(l, costLimit, gasLimit) == map[]
    ensures Payable(l, costLimit, gasLimit) == l.items == Reject(l.items, TooCostly(costLimit, gasLimit))
  {
    assert Unpayable(l, costLimit, gasLimit) == map[];
    forall n | n in l.items ensures !TooCostly(costLimit, gasLimit)(l.items[n]) {
      assert n !in Unpayable(l, costLimit, gasLimit);
    }
  }

  lemma NotStrict(l: ListValue, costLimit: int, gasLimit: nat)
    requires !l.strict
    ensures Invalids(l, costLimit, gasLimit) == map[]
    ensures Payable(l, costLimit, gasLimit) == Reject(l.items, TooCostly(costLimit, gasLimit))
  {
  }

  /** In a strict list the invalids are the payable transactions above the lowest removed one. */
  lemma LowestOf(l: ListValue, costLimit: int, gasLimit: nat, removed: seq<Tx>, lowest: nat)
    requires l.strict && Keyed(l.items) && Enumerates(removed, Unpayable(l, costLimit, gasLimit))
    requires exists i :: 0 <= i < |removed| && removed[i].nonce == lowest
    requires forall i :: 0 <= i < |removed| ==> lowest <= removed[i].nonce
    ensures var rest := Reject(l.items, TooCostly(costLimit, gasLimit));
            && Select(rest, NonceAbove(lowest)) == Invalids(l, costLimit, gasLimit)
            && Reject(rest, NonceAbove(lowest)) == Payable(l, costLimit, gasLimit)
  {
    var u := Unpayable(l, costLimit, gasLimit);
    assert lowest in u;
    forall k | k in u ensures lowest <= k {
      assert u[k] in removed;
    }
    forall n | n in l.items && n !in u ensures Orphaned(l, costLimit, gasLimit, n) <==> n > lowest {
    }
    var rest := Reject(l.items, TooCostly(costLimit, gasLimit));
    assert Select(rest, NonceAbove(lowest)) == Invalids(l, costLimit, gasLimit);
    assert Reject(rest, NonceAbove(lowest)) == Payable(l, costLimit, gasLimit);
  }

  /** The two steps of Remove take out the transaction and what follows it. */
  lemma RemoveSound(l: ListValue, nonce: nat)
    requires Sound(l)
    ensures Sound(l.(items := l.items - {nonce} - Followers(l, nonce).Keys))
    ensures !l.strict || nonce !in l.items ==> Followers(l, nonce) == map[]
    ensures l.strict && nonce in l.items ==>
              && Select(l.items - {nonce}, NonceAbove(nonce)) == Followers(l, nonce)
              && Reject(l.items - {nonce}, NonceAbove(nonce)) == l.items - {nonce} - Followers(l, nonce).Keys
  {
  }

  lemma ListIsKeyed(l: ListValue)
    requires Sound(l)
    ensures Keyed(l.items) && CapsHold(l)
  {
  }
}

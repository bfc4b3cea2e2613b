/** txSortedMap of core/tx_list.go: a nonce-to-transaction map with a heap of its
    nonces and a cache of its sorted contents. */
module TxSortedMaps {
  import opened Transactions
  import opened NonceMaps
  import Heap = ContainerHeap
  import Sorting

  function NonceLess(a: nat, b: nat): bool {
    a < b
  }

  /** The sort keys of the index and of a list of transactions. */
  function Itself(n: nat): int {
    n
  }

  function TxNonce(tx: Tx): int {
    tx.nonce
  }

  /** The index is a heap of exactly the stored nonces, each once. */
  ghost predicate IsIndex(index: seq<nat>, m: NonceMap) {
    Heap.IsHeap(NonceLess, index) && multiset(index) == multiset(m.Keys)
  }

  class TxSortedMap {
    var items: NonceMap
    var index: seq<nat>
    var cache: Option<seq<Tx>>

    ghost predicate Valid()
      reads this
    {
      && Keyed(items)
      && IsIndex(index, items)
      && (cache.Some? ==> IsFlat(cache.value, items))
    }

    constructor ()
      ensures Valid() && items == map[]
    {
      items, index, cache := map[], [], None;
    }

    /** Get retrieves the transaction of a nonce. */
    function Get(nonce: nat): (tx: Option<Tx>)
      reads this
    {
      if nonce in items then Some(items[nonce]) else None
    }

    method Put(tx: Tx)
      requires Valid()
      modifies this
      ensures Valid() && items == old(items)[tx.nonce := tx]
    {
      hide IsFlat, Heap.IsHeap;
      if tx.nonce !in items {
        index := Heap.Push(NonceLess, index, tx.nonce);
      }
      SameIndex(old(index), index, items, tx);
      items, cache := items[tx.nonce := tx], None;
    }

    /** Forward removes the transactions below the threshold and returns them in nonce order. */
    method Forward(threshold: nat) returns (removed: seq<Tx>)
      requires Valid()
      modifies this
      ensures Valid() && items == From(old(items), threshold)
      ensures IsFlat(removed, Before(old(items), threshold))
    {
      hide From, Before, IsFlat, Keyed;
      removed := [];
      ghost var m := items;
      ghost var t: nat := 0;
      NothingBefore(m);
      while |index| > 0 && index[0] < threshold
        invariant cache == old(cache) && t <= threshold
        invariant Forwarded(m, t, items, index, removed)
        decreases |index|
      {
        var nonce := index[0];
        LeastOnTop(index, items);
        var index', _ := Heap.Pop(NonceLess, index);
        ForwardStep(m, t, items, index, index', removed);
        index := index';
        removed := removed + [items[nonce]];
        items := items - {nonce};
        t := nonce + 1;
      }
      LeastOnTop(index, items);
      SameCut(m, t, threshold);
      if cache.Some? {
        FlatFront(cache.value, m, removed, threshold);
        cache := Some(cache.value[|removed|..]);
      }
    }

    /** filter removes the transactions satisfying p and leaves the index as it was. */
    method FilterOnly(p: Tx -> bool) returns (removed: seq<Tx>)
      requires Keyed(items) && (cache.Some? ==> IsFlat(cache.value, items))
      modifies this`items, this`cache
      ensures Keyed(items) && (cache.Some? ==> IsFlat(cache.value, items))
      ensures items == Reject(old(items), p) && Enumerates(removed, Select(old(items), p))
      ensures removed == [] ==> items == old(items)
    {
      hide Enumerates, IsFlat, FilterState, Select, Reject;
      removed := [];
      ghost var m := items;
      var todo := items.Keys;
      FilterStart(m, p);
      while todo != {}
        invariant cache == old(cache) && FilterState(m, p, todo, items, removed)
        decreases |todo|
      {
        var nonce :| nonce in todo;
        FilterStep(m, p, todo, items, removed, nonce);
        todo := todo - {nonce};
        if p(items[nonce]) {
          removed := removed + [items[nonce]];
          items := items - {nonce};
        }
      }
      FilterDone(m, p, items, removed);
      if |removed| > 0 {
        cache := None;
      }
    }

    /** reheap rebuilds the index from the stored nonces. */
    method Reheap()
      requires Keyed(items)
      modifies this`index, this`cache
      ensures Valid()
    {
      index := [];
      var todo := items.Keys;
      while todo != {}
        invariant todo <= items.Keys && multiset(index) + multiset(todo) == multiset(items.Keys)
        decreases |todo|
      {
        var nonce :| nonce in todo;
        index := index + [nonce];
        todo := todo - {nonce};
      }
      index := Heap.Init(NonceLess, index);
      cache := None;
    }

    /** Filter removes and returns the transactions satisfying p. */
    method Filter(p: Tx -> bool) returns (removed: seq<Tx>)
      requires Valid()
      modifies this
      ensures Valid() && items == Reject(old(items), p)
      ensures Enumerates(removed, Select(old(items), p))
    {
      removed := FilterOnly(p);
      if |removed| > 0 {
        Reheap();
      }
    }

    /** The loop of Cap: deletes the nonces at the end of the sorted index. */
    method DropHighest(sorted: seq<nat>, threshold: nat) returns (drops: seq<Tx>)
      requires Keyed(items) && SortedIndex(sorted, items) && threshold < |items| == |sorted|
      modifies this`items
      ensures CapState(old(items), threshold, items, drops)
    {
      hide Lowest, Highest, Keyed, CapState, SortedIndex;
      drops := [];
      ghost var m := items;
      CapStart(m, |m|);
      var size := |items|;
      while size > threshold
        invariant threshold <= size <= |sorted|
        invariant CapState(m, size, items, drops)
      {
        CapStep(sorted, m, size, items, drops);
        drops := drops + [items[sorted[size - 1]]];
        items := items - {sorted[size - 1]};
        size := size - 1;
      }
    }

    /** Cap keeps the `threshold` lowest nonces and returns the rest, highest first. */
    method Cap(threshold: nat) returns (drops: seq<Tx>)
      requires Valid()
      modifies this
      ensures Valid() && items == Lowest(old(items), threshold)
      ensures Enumerates(drops, Highest(old(items), threshold))
      ensures forall i, j :: 0 <= i < j < |drops| ==> drops[i].nonce > drops[j].nonce
      ensures |items| == if |old(items)| <= threshold then |old(items)| else threshold
    {
      hide Enumerates, IsFlat, Lowest, Highest, Keyed, CapState, SortedIndex, Heap.IsHeap, Sorting.SortedBy;
      ghost var m := items;
      if |items| <= threshold {
        CapStart(m, threshold);
        return [];
      }
      if cache.Some? {
        FlatLength(cache.value, m);
        FlatBack(cache.value, m, threshold);
      }
      var sorted := Sorting.Sort(Itself, index);
      IndexSorted(sorted, m);
      drops := DropHighest(sorted, threshold);
      CapDone(m, threshold, items, drops);
      PrefixIsIndex(sorted, m, threshold);
      index := Heap.Init(NonceLess, sorted[..threshold]);
      if cache.Some? {
        assert |cache.value| - |drops| == threshold;
        cache := Some(cache.value[..|cache.value| - |drops|]);
      }
    }

    method Remove(nonce: nat) returns (found: bool)
      requires Valid()
      modifies this
      ensures Valid() && items == old(items) - {nonce} && found == (nonce in old(items))
    {
      hide IsFlat, Heap.IsHeap;
      if nonce !in items {
        return false;
      }
      var i := 0;
      while i < |index| && index[i] != nonce
        invariant 0 <= i <= |index| && nonce !in index[..i]
      {
        i := i + 1;
      }
      assert nonce in multiset(index);
      assert index[..|index|] == index;
      index := Heap.Remove(NonceLess, index, i);
      DropKey(index, items, nonce);
      items := items - {nonce};
      cache := None;
      return true;
    }

    /** Ready removes and returns the consecutive run from the lowest nonce, when
        that nonce is not above start. */
    method Ready(start: nat) returns (ready: seq<Tx>)
      requires Valid()
      modifies this
      ensures Valid() && items == Unripe(old(items), start) && IsFlat(ready, Ripe(old(items), start))
    {
      hide IsFlat, Ripe, Unripe, IsIndex, Keyed;
      RipeOnTop(index, items, start);
      NothingListed(items);
      if |index| == 0 || index[0] > start {
        return [];
      }
      ready := TakeRun();
    }

    /** The loop of Ready. */
    method TakeRun() returns (ready: seq<Tx>)
      requires Valid() && |index| > 0
      modifies this
      ensures Valid() && items == AfterRun(old(items)) && IsFlat(ready, Run(old(items)))
    {
      hide IsFlat, AfterRun, Run, ReadyState, From, Keyed, Heap.IsHeap;
      LeastOnTop(index, items);
      ghost var m := items;
      ready := [];
      var next := index[0];
      ghost var lo := next;
      ReadyStart(m, lo, index);
      while |index| > 0 && index[0] == next
        invariant ReadyState(m, lo, next, items, index, ready)
        decreases |index|
      {
        ReadyIndex(m, lo, next, items, index, ready);
        var index', _ := Heap.Pop(NonceLess, index);
        ReadyStep(m, lo, next, items, index, index', ready);
        ready := ready + [items[next]];
        items := items - {next};
        index := index';
        next := next + 1;
      }
      ReadyDone(m, lo, next, items, index, ready);
      cache := None;
    }

    /** flatten returns the contents in nonce order, sorting them unless cached. */
    method Flatten() returns (txs: seq<Tx>)
      requires Valid()
      modifies this`cache
      ensures Valid() && IsFlat(txs, items)
    {
      if cache.None? {
        txs := [];
        var todo := items.Keys;
        while todo != {}
          invariant todo <= items.Keys && Enumerates(txs, items - todo)
          decreases |todo|
        {
          var nonce :| nonce in todo;
          EnumerateStep(txs, items - todo, items[nonce]);
          assert (items - todo)[nonce := items[nonce]] == items - (todo - {nonce});
          txs := txs + [items[nonce]];
          todo := todo - {nonce};
        }
        assert items - {} == items;
        SortedIsFlat(txs, items);
        txs := Sorting.Sort(TxNonce, txs);
        cache := Some(txs);
      }
      return cache.value;
    }

    /** LastElement returns the transaction of highest nonce. */
    method LastElement() returns (tx: Tx)
      requires Valid() && items != map[]
      modifies this`cache
      ensures Valid() && tx.nonce in items && items[tx.nonce] == tx
      ensures forall n :: n in items ==> n <= tx.nonce
    {
      var txs := Flatten();
      FlatLength(txs, items);
      tx := txs[|txs| - 1];
      forall n | n in items ensures n <= tx.nonce {
        var j := IndexIn(txs, items, n);
      }
    }
  }

  /** The top of the index is the lowest stored nonce. */
  lemma LeastOnTop(index: seq<nat>, m: NonceMap)
    requires IsIndex(index, m)
    ensures |index| == 0 <==> m == map[]
    ensures |index| > 0 ==> IsLeast(m, index[0])
  {
    if |index| > 0 {
      Heap.RootIsLeast(NonceLess, index);
      assert index[0] in multiset(index);
      forall k | k in m ensures index[0] <= k {
        assert k in multiset(index);
        assert !NonceLess(k, index[0]);
      }
    } else {
      assert multiset(m.Keys) == multiset{};
      assert m.Keys == {};
    }
  }

  /** There is a run to take exactly when the top of the index is not above start. */
  lemma RipeOnTop(index: seq<nat>, m: NonceMap, start: nat)
    requires IsIndex(index, m)
    ensures if |index| == 0 || index[0] > start then Ripe(m, start) == map[] && Unripe(m, start) == m
            else Ripe(m, start) == Run(m) && Unripe(m, start) == AfterRun(m)
  {
    hide Run, AfterRun, IsIndex;
    LeastOnTop(index, m);
  }

  lemma SameIndex(index: seq<nat>, index': seq<nat>, m: NonceMap, tx: Tx)
    requires multiset(index) == multiset(m.Keys)
    requires if tx.nonce in m then index' == index else multiset(index') == multiset(index) + multiset{tx.nonce}
    ensures multiset(index') == multiset(m[tx.nonce := tx].Keys)
  {
    assert m[tx.nonce := tx].Keys == m.Keys + {tx.nonce};
  }

  lemma PutKey(index: seq<nat>, m: NonceMap, nonce: nat)
    requires nonce in m && multiset(index) == multiset((m - {nonce}).Keys)
    ensures multiset(index + [nonce]) == multiset(m.Keys) && |m| == |m - {nonce}| + 1
  {
    assert m.Keys == (m - {nonce}).Keys + {nonce};
  }

  lemma SameCut(m: NonceMap, t: nat, u: nat)
    requires t <= u && forall n :: n in From(m, t) ==> n >= u
    ensures From(m, t) == From(m, u) && Before(m, t) == Before(m, u)
  {
    forall n | n in m ensures n < t <==> n < u {
      assert n >= t ==> n in From(m, t);
    }
  }

  lemma DropKey(index: seq<nat>, m: NonceMap, nonce: nat)
    requires nonce in m && multiset(m.Keys) == multiset(index) + multiset{nonce}
    ensures multiset(index) == multiset((m - {nonce}).Keys)
  {
    var rest := m.Keys - {nonce};
    assert (m - {nonce}).Keys == rest;
    forall n ensures multiset(index)[n] == multiset(rest)[n] {
      assert multiset(m.Keys)[n] == multiset(index)[n] + multiset{nonce}[n];
    }
  }

  /** Forward has removed the nonces below t so far. */
  ghost predicate Forwarded(m: NonceMap, t: nat, items: NonceMap, index: seq<nat>, removed: seq<Tx>) {
    Keyed(items) && IsIndex(index, items) && items == From(m, t) && IsFlat(removed, Before(m, t))
  }

  lemma ForwardStep(m: NonceMap, t: nat, items: NonceMap, index: seq<nat>, index': seq<nat>, removed: seq<Tx>)
    requires Keyed(m) && Forwarded(m, t, items, index, removed) && |index| > 0 && IsLeast(items, index[0])
    requires Heap.IsHeap(NonceLess, index') && multiset(index) == multiset(index') + multiset{index[0]}
    ensures Forwarded(m, index[0] + 1, items - {index[0]}, index', removed + [items[index[0]]])
  {
    var n := index[0];
    DropKey(index', items, n);
    CutStep(m, t, n);
    FlatStep(removed, Before(m, t), m[n]);
  }

  /** The transactions outside `todo` that satisfy p. */
  ghost function Judged(m: NonceMap, p: Tx -> bool, todo: set<nat>): NonceMap {
    map n | n in m && n !in todo && p(m[n]) :: m[n]
  }

  /** filter has looked at everything outside `todo`. */
  ghost predicate FilterState(m: NonceMap, p: Tx -> bool, todo: set<nat>, items: NonceMap, removed: seq<Tx>) {
    && todo <= items.Keys
    && items == m - Judged(m, p, todo).Keys
    && Enumerates(removed, Judged(m, p, todo))
  }

  lemma FilterStart(m: NonceMap, p: Tx -> bool)
    requires Keyed(m)
    ensures FilterState(m, p, m.Keys, m, [])
  {
    assert Judged(m, p, m.Keys) == map[];
  }

  lemma FilterDone(m: NonceMap, p: Tx -> bool, items: NonceMap, removed: seq<Tx>)
    requires Keyed(m) && FilterState(m, p, {}, items, removed)
    ensures items == Reject(m, p) && Keyed(items) && Enumerates(removed, Select(m, p))
    ensures removed == [] ==> items == m
  {
    assert Judged(m, p, {}) == Select(m, p);
    if removed == [] {
      assert Select(m, p).Keys == {};
    }
  }

  lemma FilterStep(m: NonceMap, p: Tx -> bool, todo: set<nat>, items: NonceMap, removed: seq<Tx>, n: nat)
    requires Keyed(m) && FilterState(m, p, todo, items, removed) && n in todo
    ensures n in items && items[n] == m[n]
    ensures p(m[n]) ==> FilterState(m, p, todo - {n}, items - {n}, removed + [m[n]])
    ensures !p(m[n]) ==> FilterState(m, p, todo - {n}, items, removed)
  {
    var was, now := Judged(m, p, todo), Judged(m, p, todo - {n});
    if p(m[n]) {
      assert now == was[n := m[n]];
      EnumerateStep(removed, was, m[n]);
    } else {
      assert now == was;
    }
  }

  lemma CapStart(m: NonceMap, k: nat)
    requires Keyed(m) && |m| <= k
    ensures Lowest(m, k) == m && Enumerates([], Highest(m, k))
    ensures k == |m| ==> CapState(m, k, m, [])
  {
    forall n | n in m ensures Rank(m, n) < k {
      Subset(Below(m, n) + {n}, m.Keys);
    }
    assert Highest(m, k) == map[];
  }

  lemma CapDone(m: NonceMap, k: nat, items: NonceMap, drops: seq<Tx>)
    requires Keyed(m) && CapState(m, k, items, drops)
    ensures items == Lowest(m, k) && Keyed(items) && Enumerates(drops, Highest(m, k)) && |drops| == |m| - k
    ensures forall i, j :: 0 <= i < j < |drops| ==> drops[i].nonce > drops[j].nonce
  {
  }

  /** The sorted index lists the stored nonces in increasing order. */
  ghost predicate SortedIndex(s: seq<nat>, m: NonceMap) {
    && (forall i, j :: 0 <= i < j < |s| ==> s[i] < s[j])
    && (forall i :: 0 <= i < |s| ==> s[i] in m)
    && (forall n :: n in m ==> n in s)
  }

  lemma IndexSorted(s: seq<nat>, m: NonceMap)
    requires Sorting.SortedBy(Itself, s) && multiset(s) == multiset(m.Keys)
    ensures SortedIndex(s, m) && |s| == |m|
  {
    forall i, j | 0 <= i < j < |s| ensures s[i] < s[j] {
      if s[i] == s[j] {
        Sorting.Twice(s, i, j);
        assert false;
      }
    }
    forall i | 0 <= i < |s| ensures s[i] in m {
      assert s[i] in multiset(s);
    }
    forall n | n in m ensures n in s {
      assert n in multiset(s);
    }
    assert |multiset(s)| == |multiset(m.Keys)|;
  }

  lemma {:induction false} SortedRank(s: seq<nat>, m: NonceMap, i: nat)
    requires SortedIndex(s, m) && i < |s|
    ensures Rank(m, s[i]) == i
  {
    if i == 0 {
      NoneBelow(s, m);
    } else {
      SortedRank(s, m, i - 1);
      hide SortedIndex, Below;
      OneMoreBelow(s, m, i);
    }
  }

  lemma NoneBelow(s: seq<nat>, m: NonceMap)
    requires SortedIndex(s, m) && |s| > 0
    ensures Below(m, s[0]) == {}
  {
    forall n | n in m ensures n >= s[0] {
      var k :| 0 <= k < |s| && s[k] == n;
    }
  }

  lemma OneMoreBelow(s: seq<nat>, m: NonceMap, i: nat)
    requires SortedIndex(s, m) && 0 < i < |s|
    ensures s[i - 1] !in Below(m, s[i - 1]) && Below(m, s[i]) == Below(m, s[i - 1]) + {s[i - 1]}
  {
    forall n | n in m ensures n < s[i] <==> n <= s[i - 1] {
      var k :| 0 <= k < |s| && s[k] == n;
      assert k < i <==> k <= i - 1;
    }
  }

  /** Nonce s[k] is the one of rank k. */
  lemma RankIs(s: seq<nat>, m: NonceMap, k: nat, n: nat)
    requires SortedIndex(s, m) && k < |s| && n in m
    ensures Rank(m, n) == k <==> n == s[k]
    ensures Rank(m, n) > k <==> n > s[k]
  {
    var i :| 0 <= i < |s| && s[i] == n;
    SortedRank(s, m, i);
    SortedRank(s, m, k);
  }

  lemma TakeLast(s: seq<nat>, m: NonceMap, k: nat)
    requires SortedIndex(s, m) && k < |s|
    ensures s[k] in m && s[k] in Lowest(m, k + 1) && Lowest(m, k + 1)[s[k]] == m[s[k]]
    ensures Lowest(m, k + 1) - {s[k]} == Lowest(m, k)
    ensures s[k] !in Highest(m, k + 1)
    ensures Highest(m, k + 1)[s[k] := m[s[k]]] == Highest(m, k)
    ensures forall n :: n in m && Rank(m, n) >= k + 1 ==> n > s[k]
  {
    hide Rank;
    forall n | n in m ensures (Rank(m, n) == k <==> n == s[k]) && (Rank(m, n) > k <==> n > s[k]) {
      RankIs(s, m, k, n);
    }
  }

  /** Cap has dropped all but the `size` lowest nonces so far. */
  ghost predicate CapState(m: NonceMap, size: nat, items: NonceMap, drops: seq<Tx>) {
    && size <= |m| && |drops| == |m| - size
    && items == Lowest(m, size)
    && Enumerates(drops, Highest(m, size))
    && (forall i, j :: 0 <= i < j < |drops| ==> drops[i].nonce > drops[j].nonce)
  }

  lemma DropsAbove(s: seq<nat>, m: NonceMap, size: nat, drops: seq<Tx>)
    requires SortedIndex(s, m) && 0 < size <= |s| && Enumerates(drops, Highest(m, size))
    ensures forall i :: 0 <= i < |drops| ==> drops[i].nonce > s[size - 1]
  {
    hide Rank, SortedIndex;
    TakeLast(s, m, size - 1);
    forall i | 0 <= i < |drops| ensures drops[i].nonce > s[size - 1] {
      assert drops[i].nonce in Highest(m, size);
    }
  }

  /** One round of Cap drops the highest nonce left. */
  lemma CapStep(s: seq<nat>, m: NonceMap, size: nat, items: NonceMap, drops: seq<Tx>)
    requires Keyed(m) && SortedIndex(s, m) && 0 < size <= |s| && CapState(m, size, items, drops)
    ensures s[size - 1] in items
    ensures CapState(m, size - 1, items - {s[size - 1]}, drops + [items[s[size - 1]]])
  {
    hide Rank, Lowest, Highest, Enumerates, SortedIndex;
    TakeLast(s, m, size - 1);
    assert s[size - 1] in m;
    EnumerateStep(drops, Highest(m, size), m[s[size - 1]]);
    DropsAbove(s, m, size, drops);
  }

  lemma {:induction false} PrefixIsIndex(s: seq<nat>, m: NonceMap, k: nat)
    requires SortedIndex(s, m) && k <= |s|
    ensures multiset(s[..k]) == multiset(Lowest(m, k).Keys) && |Lowest(m, k)| == k
    decreases k
  {
    hide Rank, SortedIndex;
    if k == 0 {
      assert Lowest(m, 0) == map[];
    } else {
      PrefixIsIndex(s, m, k - 1);
      assert s[..k] == s[..k - 1] + [s[k - 1]];
      TakeLast(s, m, k - 1);
      PutKey(s[..k - 1], Lowest(m, k), s[k - 1]);
    }
  }

  lemma {:induction false} RunListed(m: NonceMap, lo: nat, next: nat, ready: seq<Tx>)
    requires Keyed(m) && lo <= next && |ready| == next - lo
    requires forall k :: lo <= k < next ==> k in m && ready[k - lo] == m[k]
    ensures IsFlat(ready, map k | k in m && lo <= k < next :: m[k])
  {
    var run := map k | k in m && lo <= k < next :: m[k];
    forall n | n in run ensures run[n] in ready {
      assert ready[n - lo] == m[n];
    }
    forall i | 0 <= i < |ready| ensures ready[i] == m[lo + i] {
      assert ready[(lo + i) - lo] == m[lo + i];
    }
  }

  /** Ready has taken the nonces [lo, next) so far. */
  ghost predicate ReadyState(m: NonceMap, lo: nat, next: nat, items: NonceMap, index: seq<nat>, ready: seq<Tx>) {
    && lo <= next && |ready| == next - lo
    && IsIndex(index, items) && items == From(m, next)
    && (forall k :: lo <= k < next ==> k in m && ready[k - lo] == m[k])
  }

  lemma ReadyStep(m: NonceMap, lo: nat, next: nat, items: NonceMap, index: seq<nat>, index': seq<nat>, ready: seq<Tx>)
    requires ReadyState(m, lo, next, items, index, ready) && |index| > 0 && index[0] == next && next in items
    requires Heap.IsHeap(NonceLess, index') && multiset(index) == multiset(index') + multiset{next}
    ensures ReadyState(m, lo, next + 1, items - {next}, index', ready + [items[next]])
  {
    DropKey(index', items, next);
    assert From(m, next) - {next} == From(m, next + 1);
  }

  lemma ReadyStart(m: NonceMap, lo: nat, index: seq<nat>)
    requires IsIndex(index, m) && IsLeast(m, lo)
    ensures ReadyState(m, lo, lo, m, index, [])
  {
    assert From(m, lo) == m;
  }

  lemma ReadyIndex(m: NonceMap, lo: nat, next: nat, items: NonceMap, index: seq<nat>, ready: seq<Tx>)
    requires ReadyState(m, lo, next, items, index, ready)
    ensures IsIndex(index, items)
    ensures |index| > 0 ==> index[0] in items
    ensures next in items ==> |index| > 0 && index[0] == next
  {
    LeastOnTop(index, items);
  }

  lemma RunIs(m: NonceMap, lo: nat, next: nat)
    requires IsLeast(m, lo) && lo <= next && next !in m
    requires forall k :: lo <= k < next ==> k in m
    ensures AfterRun(m) == From(m, next) && Run(m) == map k | k in m && lo <= k < next :: m[k]
  {
    forall n | n in m ensures InRun(m, n) <==> n < next {
      if n >= next {
        assert lo in m && lo <= next <= n && next !in m;
      }
    }
  }

  lemma ReadyDone(m: NonceMap, lo: nat, next: nat, items: NonceMap, index: seq<nat>, ready: seq<Tx>)
    requires Keyed(m) && IsLeast(m, lo) && ReadyState(m, lo, next, items, index, ready)
    requires |index| == 0 || index[0] != next
    ensures items == AfterRun(m) && Keyed(items) && IsIndex(index, items) && IsFlat(ready, Run(m))
  {
    hide IsFlat;
    ReadyIndex(m, lo, next, items, index, ready);
    RunListed(m, lo, next, ready);
    RunIs(m, lo, next);
  }

  lemma SortedIsFlat(s: seq<Tx>, m: NonceMap)
    requires Enumerates(s, m)
    ensures IsFlat(Sorting.Sort(TxNonce, s), m)
  {
    var key := TxNonce;
    var r := Sorting.Sort(key, s);
    forall i | 0 <= i < |r| ensures r[i].nonce in m && m[r[i].nonce] == r[i] {
      assert r[i] in multiset(r);
    }
    forall n | n in m ensures m[n] in r {
      assert m[n] in multiset(r);
    }
    forall i, j | 0 <= i < j < |r| ensures r[i].nonce < r[j].nonce {
      assert key(r[i]) <= key(r[j]);
      if r[i].nonce == r[j].nonce {
        Once(s, r[i]);
        Sorting.Twice(r, i, j);
        assert false;
      }
    }
  }

  lemma {:induction false} Once(s: seq<Tx>, tx: Tx)
    requires forall i, j :: 0 <= i < j < |s| ==> s[i].nonce != s[j].nonce
    ensures multiset(s)[tx] <= 1
    decreases |s|
  {
    if |s| > 0 {
      var k := |s| - 1;
      assert s == s[..k] + [s[k]];
      Once(s[..k], tx);
      assert s[k] !in s[..k];
    }
  }
}

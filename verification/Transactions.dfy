/** Integer widths, and the smaller of two integers. */
module Integers {
  const TWO_64: int := 0x1_0000_0000_0000_0000
  const TWO_256: int := 0x1_0000_0000_0000_0000_0000_0000_0000_0000_0000_0000_0000_0000_0000_0000_0000_0000

  function Min(a: int, b: int): int {
    if a < b then a else b
  }
}

/** Transactions as the pool sees them. */
module Transactions {

  type Address = nat

  datatype Option<+T> = None | Some(value: T)

  datatype TxType = Legacy | AccessList | DynamicFee

  /** A signed transaction. `sender` is the recovered signer, `intrinsicGas` the
      IntrinsicGas of its data and access list, and `payload` stands for the
      remaining content. For a legacy transaction both caps are its gas price. */
  datatype Tx = Tx(sender: Address, nonce: nat, txType: TxType, gas: nat, feeCap: nat, tipCap: nat,
                   value: int, size: nat, intrinsicGas: nat, payload: nat)

  /** A collision-free transaction hash is modelled by its preimage. */
  datatype TxHash = TxHash(preimage: Tx)

  function HashOf(tx: Tx): TxHash {
    TxHash(tx)
  }

  /** The hashes of a list of transactions. */
  function HashesOf(txs: seq<Tx>): set<TxHash> {
    set tx | tx in txs :: HashOf(tx)
  }

  /** The most the transaction can take from its sender. */
  function Cost(tx: Tx): int {
    tx.feeCap * tx.gas + tx.value
  }

  const TX_SLOT_SIZE := 32 * 1024
  const TX_MAX_SIZE := 4 * TX_SLOT_SIZE

  /** Number of pool slots a transaction takes: its size in 32 KB units, rounded up. */
  function NumSlots(tx: Tx): nat {
    (tx.size + TX_SLOT_SIZE - 1) / TX_SLOT_SIZE
  }

  /** So many slots hold the transaction, and one less does not. */
  lemma SlotsHold(tx: Tx)
    ensures tx.size <= NumSlots(tx) * 32768
    ensures NumSlots(tx) > 0 ==> (NumSlots(tx) - 1) * 32768 < tx.size
  {
  }

  /** The slots of all the transactions of a lookup table. */
  ghost function SlotSum(m: map<TxHash, Tx>): nat {
    if m == map[] then 0
    else
      var h :| h in m;
      NumSlots(m[h]) + SlotSum(m - {h})
  }

  /** The sum does not depend on the order in which it is taken. */
  lemma {:induction false} SlotSumWithout(m: map<TxHash, Tx>, h: TxHash)
    requires h in m
    ensures SlotSum(m) == NumSlots(m[h]) + SlotSum(m - {h})
    decreases |m|
  {
    var g :| g in m && SlotSum(m) == NumSlots(m[g]) + SlotSum(m - {g});
    if g != h {
      SlotSumWithout(m - {g}, h);
      SlotSumWithout(m - {h}, g);
      assert m - {g} - {h} == m - {h} - {g};
    }
  }

  /** The slots of two tables that share no hash are those of both together. */
  lemma {:induction false} SlotSumUnion(a: map<TxHash, Tx>, b: map<TxHash, Tx>)
    requires a.Keys !! b.Keys
    ensures SlotSum(a + b) == SlotSum(a) + SlotSum(b)
    decreases |b|
  {
    if b == map[] {
      assert a + b == a;
    } else {
      var h :| h in b;
      SlotSumUnion(a, b - {h});
      SlotSumWithout(b, h);
      SlotSumWithout(a + b, h);
      hide SlotSum, NumSlots;
      WithoutOne(a, b, h);
    }
  }

  lemma WithoutOne(a: map<TxHash, Tx>, b: map<TxHash, Tx>, h: TxHash)
    requires h in b && a.Keys !! b.Keys
    ensures (a + b) - {h} == a + (b - {h}) && (a + b)[h] == b[h]
  {
  }

  /** The slots of the transactions with some hashes. */
  ghost function SlotsOf(hashes: set<TxHash>): nat {
    SlotSum(map h | h in hashes :: h.preimage)
  }

  lemma SlotSumWith(m: map<TxHash, Tx>, h: TxHash, tx: Tx)
    requires h !in m
    ensures SlotSum(m[h := tx]) == SlotSum(m) + NumSlots(tx)
  {
    SlotSumWithout(m[h := tx], h);
    assert m[h := tx] - {h} == m;
  }

  lemma SlotsOfMore(hashes: set<TxHash>, tx: Tx)
    requires HashOf(tx) !in hashes
    ensures SlotsOf(hashes + {HashOf(tx)}) == SlotsOf(hashes) + NumSlots(tx)
  {
    hide SlotSum;
    var m := map h | h in hashes :: h.preimage;
    SlotSumWith(m, HashOf(tx), tx);
    assert m[HashOf(tx) := tx] == map h | h in hashes + {HashOf(tx)} :: h.preimage;
  }

  lemma SlotsOfFewer(hashes: set<TxHash>, more: set<TxHash>)
    requires hashes <= more
    ensures SlotsOf(hashes) <= SlotsOf(more)
  {
    hide SlotSum;
    var m, rest := map h | h in hashes :: h.preimage, map h | h in more && h !in hashes :: h.preimage;
    SlotSumUnion(m, rest);
    assert m + rest == map h | h in more :: h.preimage;
  }
}

/** Go's sort.Sort on a slice ordered by an integer key. */
module Sorting {

  ghost predicate SortedBy<T>(key: T -> int, s: seq<T>) {
    forall i, j :: 0 <= i < j < |s| ==> key(s[i]) <= key(s[j])
  }

  function Insert<T>(key: T -> int, s: seq<T>, x: T): (r: seq<T>)
    requires SortedBy(key, s)
    ensures SortedBy(key, r) && multiset(r) == multiset(s) + multiset{x}
    ensures |r| == |s| + 1 && (r[|s|] == x || (s != [] && r[|s|] == s[|s| - 1]))
  {
    if s == [] || key(s[|s| - 1]) <= key(x) then s + [x]
    else
      assert s == s[..|s| - 1] + [s[|s| - 1]];
      var r := Insert(key, s[..|s| - 1], x);
      r + [s[|s| - 1]]
  }

  function Sort<T>(key: T -> int, s: seq<T>): (r: seq<T>)
    ensures SortedBy(key, r) && multiset(r) == multiset(s) && |r| == |s|
  {
    if s == [] then []
    else
      assert s == s[..|s| - 1] + [s[|s| - 1]];
      Insert(key, Sort(key, s[..|s| - 1]), s[|s| - 1])
  }

  lemma Twice<T>(s: seq<T>, i: nat, j: nat)
    requires i < j < |s| && s[i] == s[j]
    ensures multiset(s)[s[i]] >= 2
  {
    assert s == s[..j] + s[j..] && s[i] in s[..j] && s[j] in s[j..];
  }
}

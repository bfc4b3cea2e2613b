/** reset of core/tx_pool.go, up to the new state: which transactions a reorg puts back into the pool. */
module PoolResets {
  import opened Transactions
  import opened Headers
  import opened ChainPaths

  const MAX_DEPTH := 64

  function Abs(n: int): nat {
    if n < 0 then -n else n
  }

  lemma {:induction false} TxsOfAppend(bs: seq<Header>, b: Header)
    ensures TxsOf(bs + [b]) == TxsOf(bs) + b.txs
  {
    if bs == [] {
      assert bs + [b] == [b] && TxsOf([b]) == b.txs + TxsOf([]);
    } else {
      TxsOfAppend(bs[1..], b);
      assert (bs + [b])[1..] == bs[1..] + [b];
    }
  }

  /** The walk is k blocks down a chain: the block reached, and the transactions passed. */
  ghost predicate Walked(x: Hash, k: nat, block: Header, txs: seq<Tx>) {
    Up(x, k) == Keccak(block) && txs == TxsOf(Path(x, k))
  }

  lemma WalkStart(h: Header)
    ensures Walked(Keccak(h), 0, h, [])
  {
  }

  lemma WalkStep(x: Hash, k: nat, block: Header, txs: seq<Tx>, parent: Header)
    requires Walked(x, k, block, txs) && block.parent == Keccak(parent)
    ensures Walked(x, k + 1, parent, txs + block.txs)
  {
    UpNext(x, k);
    PathStep(x, k);
    TxsOfAppend(Path(x, k), block);
  }

  /** A block between two numbers of a chain holds the transaction. */
  ghost predicate HeldAbove(head: Header, number: nat, tx: Tx) {
    exists n: nat :: number < n <= head.number && HeldIn(head, n, tx)
  }

  predicate HeldIn(head: Header, n: nat, tx: Tx) {
    AncestorAt(head, n).Keccak? && tx in AncestorAt(head, n).header.txs
  }

  /** What a reset puts back is what the old branch holds above the latest common block and the new one does not. */
  lemma DroppedIs(oldHead: Header, newHead: Header, txs: seq<Tx>)
    requires Dropped(oldHead, newHead, txs)
    ensures exists common: Header ::
              && Fork(oldHead, newHead, common)
              && forall tx :: tx in txs <==>
                   HeldAbove(oldHead, common.number, tx) && !HeldAbove(newHead, common.number, tx)
  {
    hide HeldAbove, Fork, TxDifference;
    var common: Header :| DroppedAbove(oldHead, newHead, txs, common);
    ForkLevels(oldHead, newHead, common);
    forall tx ensures tx in txs <==> HeldAbove(oldHead, common.number, tx) && !HeldAbove(newHead, common.number, tx) {
      HeldOnPath(oldHead, common, tx);
      HeldOnPath(newHead, common, tx);
    }
  }

  lemma ForkLevels(a: Header, b: Header, common: Header)
    requires Fork(a, b, common)
    ensures common.number <= a.number && AncestorAt(a, common.number) == Keccak(common)
    ensures common.number <= b.number && AncestorAt(b, common.number) == Keccak(common)
  {
  }

  lemma HeldOnPath(head: Header, common: Header, tx: Tx)
    requires common.number <= head.number && AncestorAt(head, common.number) == Keccak(common)
    ensures tx in TxsOf(Path(Keccak(head), head.number - common.number)) <==> HeldAbove(head, common.number, tx)
  {
    hide Up, Path, TxsOf;
    var k := head.number - common.number;
    PathLength(Keccak(head), k);
    TxsOfBlocks(Path(Keccak(head), k), tx);
    forall i: nat | i < k
      ensures tx in Path(Keccak(head), k)[i].txs <==> HeldIn(head, head.number - i, tx)
    {
      PathAt(Keccak(head), k, i);
    }
    if HeldAbove(head, common.number, tx) {
      var n: nat :| common.number < n <= head.number && HeldIn(head, n, tx);
      assert tx in Path(Keccak(head), k)[head.number - n].txs;
    }
  }

  lemma PathLength(x: Hash, k: nat)
    requires Up(x, k).Keccak?
    ensures |Path(x, k)| == k
  {
    PathStep(x, k);
  }

  lemma {:induction false} TxsOfBlocks(bs: seq<Header>, tx: Tx)
    ensures tx in TxsOf(bs) <==> exists i :: 0 <= i < |bs| && tx in bs[i].txs
  {
    if bs != [] {
      TxsOfBlocks(bs[1..], tx);
      assert forall i :: 0 <= i < |bs| - 1 ==> bs[1..][i] == bs[i + 1];
      if i :| 0 < i < |bs| && tx in bs[i].txs {
        assert tx in bs[1..][i - 1].txs;
      }
    }
  }

  /** One walk down to a number; None when a parent is missing. */
  method WalkDown(blocks: set<Header>, block: Header, number: nat) returns (r: Option<Header>, txs: seq<Tx>)
    requires number <= block.number
    ensures r.Some? ==> r.value.number == number && Walked(Keccak(block), block.number - number, r.value, txs)
    ensures forall g :: ParentClosed(blocks, g) && block in blocks ==> r.Some? && r.value in blocks
  {
    hide ParentClosed, Walked;
    var b := block;
    txs := [];
    WalkStart(block);
    while b.number > number
      invariant number <= b.number <= block.number && Walked(Keccak(block), block.number - b.number, b, txs)
      invariant forall g :: ParentClosed(blocks, g) && block in blocks ==> b in blocks
      decreases b.number
    {
      var parent := GetHeader(blocks, b.parent, b.number - 1);
      forall g | ParentClosed(blocks, g) && block in blocks ensures parent.Some? {
        ParentStored(blocks, g, b);
      }
      if parent.None? {
        return None, txs;
      }
      WalkStep(Keccak(block), block.number - b.number, b, txs, parent.value);
      txs := txs + b.txs;
      b := parent.value;
    }
    return Some(b), txs;
  }

  /** What a reset puts back: the transactions above the latest common ancestor on the old side that are not above it on
      the new side. */
  ghost predicate Dropped(oldHead: Header, newHead: Header, txs: seq<Tx>) {
    exists common: Header :: DroppedAbove(oldHead, newHead, txs, common)
  }

  ghost predicate DroppedAbove(oldHead: Header, newHead: Header, txs: seq<Tx>, common: Header) {
    && Fork(oldHead, newHead, common)
    && txs == TxDifference(TxsOf(Path(Keccak(oldHead), oldHead.number - common.number)),
                           TxsOf(Path(Keccak(newHead), newHead.number - common.number)))
  }

  /** The two branches have no block in common above a number. */
  ghost predicate ApartUntil(a: Header, b: Header, number: nat) {
    forall n: nat :: number < n <= a.number && n <= b.number ==> AncestorAt(a, n) != AncestorAt(b, n)
  }

  lemma ApartOneMore(a: Header, b: Header, x: Header, y: Header, txs: seq<Tx>, txs': seq<Tx>)
    requires 0 < x.number == y.number <= a.number && x.number <= b.number && x != y && ApartUntil(a, b, x.number)
    requires Walked(Keccak(a), a.number - x.number, x, txs) && Walked(Keccak(b), b.number - y.number, y, txs')
    ensures ApartUntil(a, b, x.number - 1)
  {
    hide Up;
  }

  /** Both sides of the walk, from the same number down to a common block. */
  method WalkBoth(blocks: set<Header>, rem0: Header, add0: Header, ghost oldHead: Header, ghost newHead: Header,
                  discarded0: seq<Tx>, included0: seq<Tx>) returns (r: Option<seq<Tx>>)
    requires rem0.number == add0.number <= oldHead.number && add0.number <= newHead.number
    requires ApartUntil(oldHead, newHead, rem0.number)
    requires Walked(Keccak(oldHead), oldHead.number - rem0.number, rem0, discarded0)
    requires Walked(Keccak(newHead), newHead.number - add0.number, add0, included0)
    ensures r.Some? ==> Dropped(oldHead, newHead, r.value)
    ensures forall g :: ParentClosed(blocks, g) && rem0 in blocks && add0 in blocks ==> r.Some?
  {
    hide ParentClosed, Walked, ApartUntil;
    var rem, add, discarded, included := rem0, add0, discarded0, included0;
    while rem != add
      invariant rem.number == add.number <= rem0.number && ApartUntil(oldHead, newHead, rem.number)
      invariant Walked(Keccak(oldHead), oldHead.number - rem.number, rem, discarded)
      invariant Walked(Keccak(newHead), newHead.number - add.number, add, included)
      invariant forall g :: ParentClosed(blocks, g) && rem0 in blocks && add0 in blocks ==>
                  rem in blocks && add in blocks
      decreases rem.number
    {
      var remParent := GetHeader(blocks, rem.parent, rem.number - 1);
      var addParent := GetHeader(blocks, add.parent, add.number - 1);
      forall g | ParentClosed(blocks, g) && rem0 in blocks && add0 in blocks
        ensures remParent.Some? && addParent.Some?
      {
        ApartAbove(blocks, g, rem, add);
        ParentStored(blocks, g, rem);
        ParentStored(blocks, g, add);
      }
      if remParent.None? || addParent.None? {
        return None;
      }
      ApartOneMore(oldHead, newHead, rem, add, discarded, included);
      WalkStep(Keccak(oldHead), oldHead.number - rem.number, rem, discarded, remParent.value);
      WalkStep(Keccak(newHead), newHead.number - add.number, add, included, addParent.value);
      discarded, included := discarded + rem.txs, included + add.txs;
      rem, add := remParent.value, addParent.value;
    }
    WalksMeet(oldHead, newHead, rem, discarded, included);
    return Some(TxDifference(discarded, included));
  }

  lemma ApartAbove(blocks: set<Header>, g: Header, a: Header, b: Header)
    requires ParentClosed(blocks, g) && a in blocks && b in blocks && a != b && a.number == b.number
    ensures a.number > 0
  {
  }

  lemma WalksMeet(oldHead: Header, newHead: Header, common: Header, discarded: seq<Tx>, included: seq<Tx>)
    requires common.number <= oldHead.number && common.number <= newHead.number
    requires ApartUntil(oldHead, newHead, common.number)
    requires Walked(Keccak(oldHead), oldHead.number - common.number, common, discarded)
    requires Walked(Keccak(newHead), newHead.number - common.number, common, included)
    ensures Dropped(oldHead, newHead, TxDifference(discarded, included))
  {
    hide Up, Path, TxsOf;
    assert DroppedAbove(oldHead, newHead, TxDifference(discarded, included), common);
  }

  /** reset walks the two branches: the new head is no child of the old one, which is there and not too far away. */
  predicate Walks(blocks: set<Header>, oldHead: Option<Header>, newHead: Header) {
    && oldHead.Some? && Keccak(oldHead.value) != newHead.parent && oldHead.value in blocks
    && Abs(oldHead.value.number - newHead.number) <= MAX_DEPTH
  }

  /** reset's reinjections. Nothing is put back on a child of the old head, over too deep a reorg, or after a rewind
      that lost the old head; None means the pool is not reset at all, because blocks are missing. On a complete chain
      it is always reset, and what a walk finds is exactly what the reorg dropped. */
  method Reinjections(blocks: set<Header>, oldHead: Option<Header>, newHead: Header)
    returns (r: Option<seq<Tx>>)
    requires newHead in blocks
    ensures oldHead.None? || newHead.parent == Keccak(oldHead.value) ==> r == Some([])
    ensures oldHead.Some? && newHead.parent != Keccak(oldHead.value) && oldHead.value in blocks ==>
              (Walks(blocks, oldHead, newHead) <==>
               oldHead.value.number <= newHead.number + 64 && newHead.number <= oldHead.value.number + 64)
    ensures Walks(blocks, oldHead, newHead) && r.Some? ==> Dropped(oldHead.value, newHead, r.value)
    ensures forall g :: ParentClosed(blocks, g) && Walks(blocks, oldHead, newHead) ==> r.Some?
    ensures !Walks(blocks, oldHead, newHead) ==>
              r == if oldHead.Some? && Keccak(oldHead.value) != newHead.parent && oldHead.value !in blocks
                      && oldHead.value.number <= newHead.number <= oldHead.value.number + MAX_DEPTH
                   then None else Some([])
  {
    hide ParentClosed, Walked;
    if oldHead.None? || Keccak(oldHead.value) == newHead.parent {
      return Some([]);
    }
    var old0 := oldHead.value;
    if Abs(old0.number - newHead.number) > MAX_DEPTH {
      return Some([]);
    }
    var rem := GetHeader(blocks, Keccak(old0), old0.number);
    if rem.None? {
      return if newHead.number >= old0.number then None else Some([]);
    }
    var low := if old0.number < newHead.number then old0.number else newHead.number;
    var a, discarded := WalkDown(blocks, old0, low);
    if a.None? {
      return None;
    }
    var b, included := WalkDown(blocks, newHead, low);
    if b.None? {
      return None;
    }
    r := WalkBoth(blocks, a.value, b.value, old0, newHead, discarded, included);
  }
}

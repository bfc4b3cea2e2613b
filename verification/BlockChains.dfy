/** Stretches of a chain walked from the top, and the transaction index of a chain. */
module ChainPaths {
  import opened Transactions
  import opened Headers

  /** The first k blocks of the ancestry of a hash, itself first. */
  function Path(x: Hash, k: nat): seq<Header> {
    if k == 0 || x.Zero? then [] else [x.header] + Path(x.header.parent, k - 1)
  }

  lemma {:induction false} PathStep(x: Hash, k: nat)
    requires Up(x, k).Keccak?
    ensures |Path(x, k)| == k && Path(x, k + 1) == Path(x, k) + [Up(x, k).header]
  {
    if k > 0 {
      PathStep(x.header.parent, k - 1);
    } else {
      assert Path(x, 1) == [x.header] + Path(x.header.parent, 0);
    }
  }

  /** Two chains and the latest block they share. */
  ghost predicate Fork(head: Header, block: Header, common: Header) {
    && common.number <= head.number && common.number <= block.number
    && Keccak(common) == AncestorAt(head, common.number) == AncestorAt(block, common.number)
    && forall n: nat :: common.number < n <= head.number && n <= block.number ==>
      AncestorAt(head, n) != AncestorAt(block, n)
  }

  lemma {:induction false} PathAt(x: Hash, k: nat, i: nat)
    requires |Path(x, k)| == k && i < k
    ensures Keccak(Path(x, k)[i]) == Up(x, i)
  {
    if i > 0 {
      PathAt(x.header.parent, k - 1, i - 1);
    }
  }

  function TxHashes(h: Header): set<TxHash> {
    set tx | tx in h.txs :: HashOf(tx)
  }

  /** The lookup entries of one block. */
  function BlockIndex(h: Header): map<TxHash, nat> {
    map x | x in TxHashes(h) :: h.number
  }

  /** The lookup entries of a whole chain, from its first block on. */
  function TxIndex(x: Hash): map<TxHash, nat> {
    if x.Zero? then map[] else TxIndex(x.header.parent) + BlockIndex(x.header)
  }

  /** No transaction is in two blocks of the chain. */
  ghost predicate NoRepeat(x: Hash) {
    x.Keccak? ==> NoRepeat(x.header.parent) && TxIndex(x.header.parent).Keys !! TxHashes(x.header)
  }

  /** The block k links up the chain holds the transaction of a hash. */
  predicate HoldsAt(x: Hash, k: nat, t: TxHash) {
    Up(x, k).Keccak? && t.preimage in Up(x, k).header.txs
  }

  /** The lookup knows exactly the transactions in the blocks of a chain, each under the number of its block. */
  ghost predicate Locates(lookup: map<TxHash, nat>, x: Hash) {
    && (forall t :: t in lookup ==> exists k: nat :: HoldsAt(x, k, t))
    && (forall t, k: nat :: HoldsAt(x, k, t) ==> t in lookup && lookup[t] == Up(x, k).header.number)
  }

  /** The index of a chain without repetitions locates exactly its transactions. */
  lemma {:induction false} IndexLocates(x: Hash)
    requires NoRepeat(x)
    ensures Locates(TxIndex(x), x)
  {
    if x.Keccak? {
      IndexLocates(x.header.parent);
      LocatesMore(x);
    } else {
      forall t, k: nat ensures !HoldsAt(x, k, t) {
        ZeroUp(x, k);
      }
    }
  }

  lemma LocatesMore(x: Hash)
    requires x.Keccak? && NoRepeat(x) && Locates(TxIndex(x.header.parent), x.header.parent)
    ensures Locates(TxIndex(x), x)
  {
    var p := x.header.parent;
    forall t | t in TxIndex(x) ensures exists k: nat :: HoldsAt(x, k, t) {
      if t.preimage in x.header.txs {
        assert HoldsAt(x, 0, t);
      } else {
        var k: nat :| HoldsAt(p, k, t);
        assert HoldsAt(x, k + 1, t);
      }
    }
    forall t, k: nat | HoldsAt(x, k, t) ensures t in TxIndex(x) && TxIndex(x)[t] == Up(x, k).header.number {
      assert t.preimage in x.header.txs ==> t in TxHashes(x.header) && HashOf(t.preimage) == t;
      if k > 0 {
        assert HoldsAt(p, k - 1, t);
      }
    }
  }

  lemma ZeroUp(x: Hash, k: nat)
    requires x.Zero?
    ensures Up(x, k) == Zero
  {
  }

  /** No transaction is in two blocks of a chain: none is held at two distances. */
  lemma {:induction false} NoRepeatIs(x: Hash)
    ensures NoRepeat(x) <==> forall j: nat, k: nat, t :: HoldsAt(x, j, t) && HoldsAt(x, k, t) ==> j == k
  {
    if x.Zero? {
      forall k: nat ensures Up(x, k) == Zero {
        ZeroUp(x, k);
      }
    } else {
      NoRepeatIs(x.header.parent);
      if NoRepeat(x) {
        NoneTwice(x);
      } else if NoRepeat(x.header.parent) {
        var t :| t in TxIndex(x.header.parent) && t in TxHashes(x.header);
        IndexLocates(x.header.parent);
        var k: nat :| HoldsAt(x.header.parent, k, t);
        assert HoldsAt(x, k + 1, t) && HoldsAt(x, 0, t);
      } else {
        var j: nat, k: nat, t :| HoldsAt(x.header.parent, j, t) && HoldsAt(x.header.parent, k, t) && j != k;
        assert HoldsAt(x, j + 1, t) && HoldsAt(x, k + 1, t);
      }
    }
  }

  lemma NoneTwice(x: Hash)
    requires x.Keccak? && NoRepeat(x)
    requires forall j: nat, k: nat, t :: HoldsAt(x.header.parent, j, t) && HoldsAt(x.header.parent, k, t) ==> j == k
    ensures forall j: nat, k: nat, t :: HoldsAt(x, j, t) && HoldsAt(x, k, t) ==> j == k
  {
    IndexLocates(x.header.parent);
    forall j: nat, k: nat, t | HoldsAt(x, j, t) && HoldsAt(x, k, t) ensures j == k {
      assert t.preimage in x.header.txs ==> t in TxHashes(x.header);
      assert j > 0 ==> HoldsAt(x.header.parent, j - 1, t);
      assert k > 0 ==> HoldsAt(x.header.parent, k - 1, t);
    }
  }

  function Hashes(bs: seq<Header>): set<TxHash> {
    if bs == [] then {} else TxHashes(bs[0]) + Hashes(bs[1..])
  }

  /** A lookup after the entries of blocks are written, the last block first. */
  function Indexed(lookup: map<TxHash, nat>, bs: seq<Header>): map<TxHash, nat> {
    if bs == [] then lookup else Indexed(lookup, bs[1..]) + BlockIndex(bs[0])
  }

  lemma {:induction false} IndexedKeys(lookup: map<TxHash, nat>, lookup': map<TxHash, nat>, bs: seq<Header>, h: TxHash)
    ensures h in Indexed(lookup, bs) <==> h in lookup || h in Hashes(bs)
    ensures h in Hashes(bs) ==> h in Indexed(lookup', bs) && Indexed(lookup, bs)[h] == Indexed(lookup', bs)[h]
    ensures h !in Hashes(bs) && h in lookup ==> Indexed(lookup, bs)[h] == lookup[h]
    decreases |bs|
  {
    if bs != [] {
      IndexedKeys(lookup, lookup', bs[1..], h);
      IndexedKeys(lookup', lookup, bs[1..], h);
    }
  }

  /** The index of a chain is that of an ancestor with the blocks in between written over it. */
  lemma {:induction false} IndexOfPath(x: Hash, k: nat)
    requires |Path(x, k)| == k
    ensures TxIndex(x) == Indexed(TxIndex(Up(x, k)), Path(x, k))
    ensures NoRepeat(x) ==> Hashes(Path(x, k)) !! TxIndex(Up(x, k)).Keys
  {
    if k > 0 {
      IndexOfPath(x.header.parent, k - 1);
      assert Path(x, k)[1..] == Path(x.header.parent, k - 1);
      forall h | h in TxIndex(Up(x, k)) ensures h in TxIndex(x.header.parent) {
        IndexedKeys(TxIndex(Up(x, k)), map[], Path(x.header.parent, k - 1), h);
      }
    }
  }

  /** types.TxDifference: the transactions of a that are not in b. */
  function TxDifference(a: seq<Tx>, b: seq<Tx>): (r: seq<Tx>)
    ensures forall tx :: tx in r <==> tx in a && tx !in b
  {
    if a == [] then []
    else
      assert a == [a[0]] + a[1..];
      var rest := TxDifference(a[1..], b);
      if a[0] in b then rest else [a[0]] + rest
  }

  /** All transactions of some blocks, block by block. */
  function TxsOf(bs: seq<Header>): seq<Tx> {
    if bs == [] then [] else bs[0].txs + TxsOf(bs[1..])
  }

  lemma {:induction false} TxsAreHashed(bs: seq<Header>, x: TxHash)
    ensures x in Hashes(bs) <==> x.preimage in TxsOf(bs)
  {
    if bs != [] {
      TxsAreHashed(bs[1..], x);
    }
  }

  /** The hashes of a difference of transactions are the difference of their hashes. */
  lemma DifferenceHashes(a: seq<Header>, b: seq<Header>)
    ensures HashesOf(TxDifference(TxsOf(a), TxsOf(b))) == Hashes(a) - Hashes(b)
  {
    var diff := TxDifference(TxsOf(a), TxsOf(b));
    forall x ensures x in HashesOf(diff) <==> x in Hashes(a) - Hashes(b) {
      TxsAreHashed(a, x);
      TxsAreHashed(b, x);
      if x.preimage in diff {
        assert HashOf(x.preimage) in HashesOf(diff);
      }
    }
  }
}

/** The canonical chain of core/blockchain.go: reorg, writeHeadBlock and their callers. */
module BlockChains {
  import opened Integers
  import opened Transactions
  import opened Headers
  import opened ForkChoices
  import opened HeaderChains
  import opened ChainPaths

  /** The last k blocks of a stored chain written into an index. */
  lemma {:induction false} RecanonedAt(stored: set<Header>, genesis: Header, canon: map<nat, Hash>, h: Header, k: nat)
    requires ParentClosed(stored, genesis) && h in stored && k <= h.number
    ensures var c := Recanoned(canon, Path(Keccak(h), k));
            && (forall n: nat :: n in c <==> n in canon || h.number - k < n <= h.number)
            && (forall n: nat :: n in c ==> c[n] == if h.number - k < n <= h.number then AncestorAt(h, n) else canon[n])
    decreases k
  {
    hide ParentClosed, Up;
    UpOne(Keccak(h));
    if k > 0 {
      ParentStored(stored, genesis, h);
      var g := h.parent.header;
      RecanonedAt(stored, genesis, canon, g, k - 1);
      assert Path(Keccak(h), k)[1..] == Path(Keccak(g), k - 1);
      forall n: nat | n <= g.number ensures AncestorAt(g, n) == AncestorAt(h, n) {
        UpSplit(Keccak(h), 1, g.number - n, h.number - n);
      }
    }
  }

  /** The parent of a block is on the canonical chain. */
  predicate ParentCanonical(canon: map<nat, Hash>, block: Header) {
    block.number == 0 || ReadCanonicalHash(canon, block.number - 1) == block.parent
  }

  /** Two new blocks or more: the parent of the new head is not canonical. */
  lemma ForkDepth(stored: set<Header>, genesis: Header, canon: map<nat, Hash>, head: Header, block: Header,
                  common: Header)
    requires ParentClosed(stored, genesis) && head in stored && block in stored && IsCanon(canon, head)
    requires Fork(head, block, common)
    ensures ParentCanonical(canon, block) <==> block.number - common.number < 2
  {
    hide ParentClosed, Up;
    if block.number > 0 {
      ParentStored(stored, genesis, block);
      UpOne(Keccak(block));
      var n := block.number - 1;
      assert AncestorAt(block, n) == block.parent;
      if common.number >= n {
        AgreeBelow(canon, head, block, common.number, n);
      } else if n <= head.number {
        assert canon[n] == AncestorAt(head, n);
      }
    }
  }

  /** The canonical index after reorg wrote all new blocks but the head and deleted what was above them. */
  lemma DeepCanon(stored: set<Header>, genesis: Header, canon: map<nat, Hash>, head: Header, block: Header,
                  common: Header)
    requires ParentClosed(stored, genesis) && head in stored && block in stored && IsCanon(canon, head)
    requires Fork(head, block, common)
    requires block.number - common.number >= 2
    ensures var c := Recanoned(canon, Path(block.parent, block.number - common.number - 1));
            && (forall n: nat :: n in c ==> c[n] != Zero)
            && (forall n: nat, m: nat :: n in c && block.number - 1 < m <= n ==> m in c)
            && IsCanon(CanonTo(c, block.number - 1)[block.number := Keccak(block)], block)
  {
    hide ParentClosed, Up, Recanoned;
    ParentStored(stored, genesis, block);
    var g, k := block.parent.header, block.number - common.number - 1;
    RecanonedAt(stored, genesis, canon, g, k);
    var c := Recanoned(canon, Path(block.parent, k));
    Below(stored, genesis, canon, head, block, common, g);
    forall n: nat | n in c ensures c[n] != Zero {
      if n > block.number - 1 || n <= common.number {
        CanonLinked(canon, head, stored, genesis, n);
      } else {
        AncestorStored(stored, genesis, g, g.number - n);
      }
    }
    var c' := CanonTo(c, block.number - 1)[block.number := Keccak(block)];
    forall n | n in c' ensures c'[n] == Up(Keccak(block), block.number - n) {
      UpOne(Keccak(block));
      assert n < block.number ==> c'[n] == c[n];
    }
  }

  /** Up to the fork the old index, and above it the new branch, are ancestors of the new block. */
  lemma Below(stored: set<Header>, genesis: Header, canon: map<nat, Hash>, head: Header, block: Header, common: Header,
              g: Header)
    requires IsCanon(canon, head) && Fork(head, block, common) && block.number > 0 && block.parent == Keccak(g)
    requires g.number == block.number - 1 && common.number <= g.number
    ensures forall n: nat :: n <= common.number ==> n in canon && canon[n] == AncestorAt(block, n)
    ensures forall n: nat :: n <= g.number ==> AncestorAt(g, n) == AncestorAt(block, n)
  {
    hide Up;
    forall n: nat | n <= common.number ensures n in canon && canon[n] == AncestorAt(block, n) {
      AgreeBelow(canon, head, block, common.number, n);
    }
    UpOne(Keccak(block));
    forall n: nat | n <= g.number ensures AncestorAt(g, n) == AncestorAt(block, n) {
      UpSplit(Keccak(block), 1, g.number - n, block.number - n);
    }
  }

  /** With one new block or none, reorg writes and deletes nothing: the head written then is exact only if the
      old one was not higher. */
  lemma ShallowCanon(stored: set<Header>, genesis: Header, canon: map<nat, Hash>, head: Header, block: Header,
                     common: Header)
    requires ParentClosed(stored, genesis) && head in stored && block in stored && IsCanon(canon, head)
    requires Fork(head, block, common)
    requires block.number - common.number < 2
    ensures CanonTo(canon, head.number) == canon
    ensures forall n: nat :: n in canon ==> canon[n] != Zero
    ensures forall n: nat, m: nat :: n in canon && head.number < m <= n ==> m in canon
    ensures IsCanon(canon[block.number := Keccak(block)], block) <==> head.number <= block.number
  {
    hide ParentClosed, Up;
    forall n: nat | n in canon ensures canon[n] != Zero {
      CanonLinked(canon, head, stored, genesis, n);
    }
    var c := canon[block.number := Keccak(block)];
    if head.number <= block.number {
      forall n | n in c ensures c[n] == Up(Keccak(block), block.number - n) {
        UpOne(Keccak(block));
        if n < block.number {
          AgreeBelow(canon, head, block, common.number, n);
        }
      }
    } else {
      assert head.number in c;
    }
  }

  /** The entries of a canonical index strictly between two numbers. */
  ghost function Between(canon: map<nat, Hash>, number: nat, i: nat): set<nat> {
    set n: nat | n in canon && number < n < i
  }

  lemma NoneBetween(canon: map<nat, Hash>, number: nat)
    ensures Between(canon, number, number + 1) == {}
  {
  }

  lemma OneBetween(canon: map<nat, Hash>, number: nat, i: nat)
    requires number < i && i in canon
    ensures Between(canon, number, i + 1) == Between(canon, number, i) + {i}
    ensures |canon.Keys - Between(canon, number, i + 1)| < |canon.Keys - Between(canon, number, i)|
  {
    var left := canon.Keys - Between(canon, number, i);
    assert left == (canon.Keys - Between(canon, number, i + 1)) + {i};
  }

  lemma AllAbove(canon: map<nat, Hash>, number: nat, i: nat)
    requires number < i && i !in canon && forall n: nat, m: nat :: n in canon && number < m <= n ==> m in canon
    ensures canon - Between(canon, number, i) == CanonTo(canon, number)
  {
    forall n: nat | n in canon ensures n in Between(canon, number, i) <==> n > number {
    }
  }

  /** The lookup after reorg and the new head: what only the old branch had is gone, and the rest is the new chain's. */
  lemma LookupAfter(old0: Hash, new0: Hash, i: nat, k: nat, gone: set<TxHash>)
    requires |Path(old0, i)| == i && |Path(new0, k)| == k && new0.Keccak? && Up(old0, i) == Up(new0, k)
    requires NoRepeat(old0)
    requires var rest := Path(new0, k)[Min(1, k)..];
             gone == Hashes(Path(old0, i)) - Hashes(rest)
    ensures var rest := Path(new0, k)[Min(1, k)..];
            (Indexed(TxIndex(old0), rest) - gone) + BlockIndex(new0.header) == TxIndex(new0)
  {
    hide TxIndex, Indexed, Hashes, Up, Path, NoRepeat;
    IndexOfPath(old0, i);
    NewIndex(new0, k);
    MergeLookups(TxIndex(Up(old0, i)), Path(old0, i), Path(new0, k)[Min(1, k)..], gone);
  }

  lemma NewIndex(new0: Hash, k: nat)
    requires |Path(new0, k)| == k && new0.Keccak?
    ensures TxIndex(new0) == Indexed(TxIndex(Up(new0, k)), Path(new0, k)[Min(1, k)..]) + BlockIndex(new0.header)
  {
    IndexOfPath(new0, k);
    if k == 0 {
      assert Path(new0, k)[Min(1, k)..] == [];
      assert TxIndex(new0) == TxIndex(new0) + BlockIndex(new0.header);
    }
  }

  lemma MergeLookups(base: map<TxHash, nat>, olds: seq<Header>, rest: seq<Header>, gone: set<TxHash>)
    requires Hashes(olds) !! base.Keys && gone == Hashes(olds) - Hashes(rest)
    ensures Indexed(Indexed(base, olds), rest) - gone == Indexed(base, rest)
  {
    hide Indexed, Hashes;
    var was := Indexed(base, olds);
    forall h ensures h in Indexed(was, rest) - gone <==> h in Indexed(base, rest)
             ensures h in Indexed(base, rest) && h !in gone ==>
                       h in Indexed(was, rest) && Indexed(was, rest)[h] == Indexed(base, rest)[h] {
      IndexedKeys(was, base, rest, h);
      IndexedKeys(base, was, rest, h);
      IndexedKeys(base, map[], olds, h);
    }
  }

  class BlockChain {
    const genesis: Header
    const forker: ForkChoice
    var blocks: set<Header>
    var td: map<Hash, int>
    var canon: map<nat, Hash>
    var lookup: map<TxHash, nat>
    var currentBlock: Header

    /** Stored blocks are parent-closed and weighed. */
    ghost predicate Store()
      reads this
    {
      ParentClosed(blocks, genesis) && genesis.parent == Zero && TdOk(blocks, td, genesis) && currentBlock in blocks
    }

    /** The indexes describe exactly the chain of the current block. */
    ghost predicate Valid()
      reads this
    {
      && Store() && IsCanon(canon, currentBlock) && lookup == TxIndex(Keccak(currentBlock))
      && NoRepeat(Keccak(currentBlock))
    }

    constructor (genesis: Header, forker: ForkChoice)
      requires genesis.number == 0 && genesis.parent == Zero
      ensures Valid() && blocks == {genesis} && currentBlock == genesis && this.genesis == genesis
      ensures this.forker == forker
    {
      this.genesis, this.forker := genesis, forker;
      blocks, td := {genesis}, map[Keccak(genesis) := genesis.difficulty];
      canon, lookup := map[0 := Keccak(genesis)], BlockIndex(genesis);
      currentBlock := genesis;
      new;
      UpOne(Keccak(genesis));
      assert TxIndex(Zero) == map[] && map[] + BlockIndex(genesis) == BlockIndex(genesis);
    }

    /** reorg, first loops: a chain is walked down to a number. No parent is ever missing. */
    method Descend(block: Header, number: nat) returns (chain: seq<Header>, b: Header)
      requires ParentClosed(blocks, genesis) && block in blocks && number <= block.number
      ensures |chain| == block.number - number && chain == Path(Keccak(block), |chain|)
      ensures b in blocks && b.number == number && Keccak(b) == Up(Keccak(block), |chain|)
    {
      hide ParentClosed, Up;
      chain, b := [], block;
      UpOne(Keccak(block));
      while b.number != number
        invariant b in blocks && number <= b.number && |chain| == block.number - b.number
        invariant chain == Path(Keccak(block), |chain|) && Keccak(b) == Up(Keccak(block), |chain|)
        decreases b.number
      {
        PathStep(Keccak(block), |chain|);
        UpNext(Keccak(block), |chain|);
        ParentStored(blocks, genesis, b);
        chain := chain + [b];
        b := GetHeader(blocks, b.parent, b.number - 1).value;
      }
    }

    /** reorg: the blocks above the latest common ancestor on either side, highest first. */
    method FindFork(oldBlock: Header, newBlock: Header)
      returns (oldChain: seq<Header>, newChain: seq<Header>, common: Header)
      requires ParentClosed(blocks, genesis) && oldBlock in blocks && newBlock in blocks
      ensures common in blocks && |oldChain| == oldBlock.number - common.number
      ensures |newChain| == newBlock.number - common.number
      ensures oldChain == Path(Keccak(oldBlock), |oldChain|) && newChain == Path(Keccak(newBlock), |newChain|)
      ensures Keccak(common) == Up(Keccak(oldBlock), |oldChain|) == Up(Keccak(newBlock), |newChain|)
      ensures forall n: nat :: common.number < n <= oldBlock.number && n <= newBlock.number ==>
                AncestorAt(oldBlock, n) != AncestorAt(newBlock, n)
    {
      hide ParentClosed, Up, Path;
      var a, b := oldBlock, newBlock;
      if a.number > b.number {
        newChain := [];
        oldChain, a := Descend(a, b.number);
      } else {
        oldChain := [];
        newChain, b := Descend(b, a.number);
      }
      UpOne(Keccak(oldBlock));
      UpOne(Keccak(newBlock));
      PathNone(oldBlock);
      PathNone(newBlock);
      while a != b
        invariant a in blocks && b in blocks && a.number == b.number
        invariant |oldChain| == oldBlock.number - a.number && |newChain| == newBlock.number - b.number
        invariant oldChain == Path(Keccak(oldBlock), |oldChain|) && newChain == Path(Keccak(newBlock), |newChain|)
        invariant Keccak(a) == Up(Keccak(oldBlock), |oldChain|) && Keccak(b) == Up(Keccak(newBlock), |newChain|)
        invariant forall n: nat :: a.number < n <= oldBlock.number && n <= newBlock.number ==>
                    AncestorAt(oldBlock, n) != AncestorAt(newBlock, n)
        decreases a.number
      {
        PathStep(Keccak(oldBlock), |oldChain|);
        PathStep(Keccak(newBlock), |newChain|);
        UpNext(Keccak(oldBlock), |oldChain|);
        UpNext(Keccak(newBlock), |newChain|);
        NotBothGenesis(a, b);
        ParentStored(blocks, genesis, a);
        ParentStored(blocks, genesis, b);
        oldChain, newChain := oldChain + [a], newChain + [b];
        a, b := GetHeader(blocks, a.parent, a.number - 1).value, GetHeader(blocks, b.parent, b.number - 1).value;
      }
      common := a;
    }

    lemma NotBothGenesis(a: Header, b: Header)
      requires ParentClosed(blocks, genesis) && a in blocks && b in blocks && a.number == b.number && a != b
      ensures a.number > 0
    {
    }

    /** writeHeadBlock makes a block the head: its number is canonical, its transactions are indexed. */
    method WriteHeadBlock(block: Header)
      modifies this`canon, this`lookup, this`currentBlock
      ensures canon == old(canon)[block.number := Keccak(block)] && lookup == old(lookup) + BlockIndex(block)
      ensures currentBlock == block
      ensures forall t :: t in lookup <==> t in old(lookup) || t.preimage in block.txs
      ensures forall t :: t in lookup ==>
                lookup[t] == if t.preimage in block.txs then block.number else old(lookup)[t]
    {
      IndexOne(block);
      canon := canon[block.number := Keccak(block)];
      lookup := lookup + BlockIndex(block);
      currentBlock := block;
    }

    /** reorg: the new blocks but the head become canonical, lowest first. */
    method WriteNew(newChain: seq<Header>)
      modifies this`canon, this`lookup, this`currentBlock
      ensures canon == Recanoned(old(canon), newChain[Min(1, |newChain|)..])
      ensures lookup == Indexed(old(lookup), newChain[Min(1, |newChain|)..])
      ensures currentBlock == if |newChain| >= 2 then newChain[1] else old(currentBlock)
    {
      if |newChain| < 2 {
        assert newChain[Min(1, |newChain|)..] == [];
        return;
      }
      assert newChain[|newChain|..] == [];
      for i := |newChain| downto 1
        invariant canon == Recanoned(old(canon), newChain[i..]) && lookup == Indexed(old(lookup), newChain[i..])
        invariant i < |newChain| ==> currentBlock == newChain[i]
      {
        assert newChain[i..][1..] == newChain[i + 1..];
        WriteHeadBlock(newChain[i]);
      }
    }

    /** reorg: canonical entries above a number go, up to the first one missing. */
    method DeleteCanonAbove(number: nat)
      requires forall n: nat :: n in canon ==> canon[n] != Zero
      requires forall n: nat, m: nat :: n in canon && number < m <= n ==> m in canon
      modifies this`canon
      ensures canon == CanonTo(old(canon), number)
    {
      hide Between;
      var gone: set<nat>, i := {}, number + 1;
      NoneBetween(canon, number);
      while ReadCanonicalHash(canon, i) != Zero
        invariant canon == old(canon) && i > number && gone == Between(canon, number, i)
        decreases |canon.Keys - gone|
      {
        OneBetween(canon, number, i);
        gone, i := gone + {i}, i + 1;
      }
      AllAbove(canon, number, i);
      canon := canon - gone;
    }

    /** reorg: switches the indexes to the chain of a stored block, all but the block itself. Writing the block as
        head afterwards makes the lookup exact; it makes the canonical index exact if and only if the old head is
        not higher than the block or the block's parent was not canonical. */
    method Reorg(block: Header)
      requires Valid() && block in blocks
      modifies this`canon, this`lookup, this`currentBlock
      ensures lookup + BlockIndex(block) == TxIndex(Keccak(block))
      ensures IsCanon(canon[block.number := Keccak(block)], block) <==>
                old(currentBlock).number <= block.number || !ParentCanonical(old(canon), block)
    {
      hide ParentClosed, TdOk, IsCanon, Up, Path, TxIndex, Indexed, Recanoned, NoRepeat, Hashes, HashesOf, TxsOf;
      ghost var head := currentBlock;
      var oldChain, newChain, common := FindFork(currentBlock, block);
      ghost var i, k := |oldChain|, |newChain|;
      assert Fork(head, block, common);
      ForkDepth(blocks, genesis, canon, head, block, common);
      SecondBlock(block, k);
      WriteNew(newChain);
      var rest := newChain[Min(1, |newChain|)..];
      var diff := TxDifference(TxsOf(oldChain), TxsOf(rest));
      DifferenceHashes(oldChain, rest);
      LookupAfter(Keccak(head), Keccak(block), i, k, HashesOf(diff));
      lookup := lookup - HashesOf(diff);
      CanonAfter(old(canon), head, block, common);
      DeleteCanonAbove(currentBlock.number);
    }

    lemma SecondBlock(block: Header, k: nat)
      requires ParentClosed(blocks, genesis) && block in blocks && |Path(Keccak(block), k)| == k <= block.number
      ensures k >= 2 ==> Path(Keccak(block), k)[1].number == block.number - 1
    {
      if k >= 2 {
        hide ParentClosed;
        PathAt(Keccak(block), k, 1);
        UpOne(Keccak(block));
        ParentStored(blocks, genesis, block);
      }
    }

    /** The two cases of a reorg. */
    lemma CanonAfter(canon0: map<nat, Hash>, head: Header, block: Header, common: Header)
      requires ParentClosed(blocks, genesis) && head in blocks && block in blocks && IsCanon(canon0, head)
      requires Fork(head, block, common)
      ensures var k := block.number - common.number;
              var c := Recanoned(canon0, Path(Keccak(block), k)[Min(1, k)..]);
              var n := if k >= 2 then block.number - 1 else head.number;
              && (forall n: nat :: n in c ==> c[n] != Zero)
              && (forall m: nat, m': nat :: m in c && n < m' <= m ==> m' in c)
              && (IsCanon(CanonTo(c, n)[block.number := Keccak(block)], block) <==>
                  head.number <= block.number || k >= 2)
    {
      var k := block.number - common.number;
      hide ParentClosed, IsCanon, Up;
      if k >= 2 {
        assert Path(Keccak(block), k)[1..] == Path(block.parent, k - 1);
        DeepCanon(blocks, genesis, canon0, head, block, common);
      } else {
        assert Path(Keccak(block), k)[Min(1, k)..] == [];
        ShallowCanon(blocks, genesis, canon0, head, block, common);
      }
    }

    /** The indexes can follow a switch to the block exactly. */
    predicate Clean(block: Header)
      reads this
    {
      currentBlock.number <= block.number || !ParentCanonical(canon, block)
    }

    /** writeKnownBlock makes a stored block the head. Afterwards the lookup is exactly that of its chain, and the
        canonical index is exactly its ancestors if and only if the switch is clean. */
    method WriteKnownBlock(block: Header)
      requires Valid() && block in blocks && NoRepeat(Keccak(block))
      modifies this`canon, this`lookup, this`currentBlock
      ensures Store() && currentBlock == block && lookup == TxIndex(Keccak(block)) && Locates(lookup, Keccak(block))
      ensures Valid() <==> old(Clean(block))
    {
      IndexLocates(Keccak(block));
      hide ParentClosed, TdOk, IsCanon, TxIndex, NoRepeat, ParentCanonical, Locates;
      if block.parent != Keccak(currentBlock) {
        Reorg(block);
      } else {
        Extend(block);
      }
      WriteHeadBlock(block);
    }

    /** A child of the head extends both indexes. */
    lemma Extend(block: Header)
      requires Valid() && block in blocks && block.parent == Keccak(currentBlock)
      ensures lookup + BlockIndex(block) == TxIndex(Keccak(block)) && Clean(block)
      ensures IsCanon(canon[block.number := Keccak(block)], block)
    {
      hide TdOk, TxIndex, NoRepeat, BlockIndex, ParentClosed;
      ChildNumber(blocks, genesis, currentBlock, block);
      ChildIndex(block);
      var c := canon[block.number := Keccak(block)];
      forall n | n in c ensures c[n] == Up(Keccak(block), block.number - n) {
        UpOne(Keccak(block));
        if n < block.number {
          UpSplit(Keccak(block), 1, currentBlock.number - n, block.number - n);
        }
      }
    }

    /** writeBlockAndSetHead stores a block whose parent is known, and makes it the head if the fork choice says so. */
    method WriteBlockAndSetHead(block: Header, coin: bool)
      returns (status: WriteStatus, err: Option<HeaderChains.Error>)
      requires Valid() && NoRepeat(Keccak(block))
      modifies this
      ensures Store()
      ensures err.Some? <==> block.number == 0 || GetHeader(old(blocks), block.parent, block.number - 1).None?
      ensures err.Some? ==> Valid() && blocks == old(blocks) && currentBlock == old(currentBlock)
      ensures err.None? ==>
                blocks == old(blocks) + {block} && Extends(old(td), td) && lookup == TxIndex(Keccak(currentBlock))
      ensures Locates(lookup, Keccak(currentBlock))
      ensures err.None? ==>
                (status == CanonStatTy <==> ReorgNeeded(forker, td, old(currentBlock), block, coin) == Some(true))
      ensures err.None? && forker.ttd.None? ==>
                && Keccak(block) in td && Keccak(old(currentBlock)) in td
                && (td[Keccak(block)] > td[Keccak(old(currentBlock))] ==> status == CanonStatTy)
                && (td[Keccak(block)] < td[Keccak(old(currentBlock))] ==> status == SideStatTy)
      ensures err.None? && status == SideStatTy ==> Valid() && currentBlock == old(currentBlock)
      ensures err.None? && status != CanonStatTy ==> status == SideStatTy
      ensures err.None? && status == CanonStatTy ==> currentBlock == block && (Valid() <==> old(Clean(block)))
    {
      hide ParentClosed, TdOk, IsCanon, TxIndex, NoRepeat, ParentCanonical, ReorgNeeded, GetTd, Locates;
      IndexLocates(Keccak(currentBlock));
      var ptd := GetTd(td, block.parent, block.number - 1);
      FirstParent(blocks, td, genesis, block);
      if ptd.None? {
        return NonStatTy, Some(UnknownAncestor);
      }
      AddBlock(block, ptd.value + block.difficulty);
      var reorg := ReorgNeeded(forker, td, currentBlock, block, coin);
      if !reorg.value {
        return SideStatTy, None;
      }
      WriteKnownBlock(block);
      return CanonStatTy, None;
    }

    lemma Weight(h: Header)
      requires Store() && h in blocks && h != genesis
      ensures Keccak(h) in td && h.parent in td && td[Keccak(h)] == td[h.parent] + h.difficulty
    {
    }

    method AddBlock(block: Header, weight: int)
      requires Valid() && block.number > 0 && GetHeader(blocks, block.parent, block.number - 1).Some?
      requires block.parent in td && weight == td[block.parent] + block.difficulty
      modifies this`blocks, this`td
      ensures Valid() && blocks == old(blocks) + {block} && Extends(old(td), td)
      ensures Keccak(currentBlock) in td && Keccak(block) in td
    {
      hide ParentClosed, IsCanon, TxIndex, NoRepeat;
      StoreStep(blocks, td, genesis, block, weight);
      blocks := blocks + {block};
      td := td[Keccak(block) := weight];
    }
  }

  lemma ChildNumber(stored: set<Header>, genesis: Header, head: Header, block: Header)
    requires ParentClosed(stored, genesis) && genesis.parent == Zero && block in stored && block.parent == Keccak(head)
    ensures block.number == head.number + 1
  {
  }

  lemma IndexOne(block: Header)
    ensures forall t :: t in BlockIndex(block) <==> t.preimage in block.txs
    ensures forall t :: t in BlockIndex(block) ==> BlockIndex(block)[t] == block.number
  {
    assert forall t: TxHash :: HashOf(t.preimage) == t;
  }

  lemma ChildIndex(block: Header)
    ensures TxIndex(Keccak(block)) == TxIndex(block.parent) + BlockIndex(block)
  {
  }

  /** A canonical index after blocks are written into it, the last one first. */
  function Recanoned(canon: map<nat, Hash>, bs: seq<Header>): map<nat, Hash> {
    if bs == [] then canon else Recanoned(canon, bs[1..])[bs[0].number := Keccak(bs[0])]
  }

  lemma PathNone(h: Header)
    ensures Path(Keccak(h), 0) == []
  {
  }

  /** A heavy block on an old parent: it becomes the head, below which the old chain reached, and entries of the
      old chain stay in the canonical index above it. */
  method StaleEntry() returns (chain: BlockChain)
    ensures fresh(chain) && chain.Store() && chain.currentBlock.number == 1 && !IsCanon(chain.canon, chain.currentBlock)
  {
    var g := Header(Zero, 0, 1, [], 0);
    var light1, heavy := Header(Keccak(g), 1, 1, [], 0), Header(Keccak(g), 1, 100, [], 1);
    var light2 := Header(Keccak(light1), 2, 1, [], 0);
    NoTxsNoRepeat(Keccak(light2));
    NoTxsNoRepeat(Keccak(light1));
    NoTxsNoRepeat(Keccak(heavy));
    chain := new BlockChain(g, ForkChoice(None, None));
    TwoLight(chain, g, light1, light2);
    OneHeavy(chain, g, light1, light2, heavy);
  }

  method TwoLight(chain: BlockChain, g: Header, light1: Header, light2: Header)
    requires chain.Valid() && chain.blocks == {g} && chain.currentBlock == g && chain.genesis == g
    requires chain.forker.ttd.None?
    requires light1.parent == Keccak(g) && light1.number == 1 && light1.difficulty > 0 && NoRepeat(Keccak(light1))
    requires light2.parent == Keccak(light1) && light2.number == 2 && light2.difficulty > 0 && NoRepeat(Keccak(light2))
    modifies chain
    ensures chain.Valid() && chain.blocks == {g, light1, light2} && chain.currentBlock == light2
  {
    FirstIsGenesis(chain);
    hide ParentClosed, TdOk, IsCanon, NoRepeat, TxIndex, Extends;
    var status, err := chain.WriteBlockAndSetHead(light1, false);
    chain.Weight(light1);
    status, err := chain.WriteBlockAndSetHead(light2, false);
    chain.Weight(light2);
  }

  method OneHeavy(chain: BlockChain, g: Header, light1: Header, light2: Header, heavy: Header)
    requires chain.Valid() && chain.blocks == {g, light1, light2} && chain.currentBlock == light2 && chain.genesis == g
    requires light1.parent == Keccak(g) && light2.parent == Keccak(light1) && light1 != g && light2 != g
    requires light2.number == 2
    requires heavy.parent == Keccak(g) && heavy.number == 1 && NoRepeat(Keccak(heavy)) && chain.forker.ttd.None?
    requires heavy.difficulty > light1.difficulty + light2.difficulty
    modifies chain
    ensures chain.Store() && chain.currentBlock == heavy && !IsCanon(chain.canon, heavy)
  {
    FirstIsGenesis(chain);
    hide ParentClosed, TdOk, IsCanon, NoRepeat, TxIndex, Extends;
    var status, err := chain.WriteBlockAndSetHead(heavy, false);
    chain.Weight(light1);
    chain.Weight(light2);
    chain.Weight(heavy);
  }

  ghost predicate Empty(x: Hash) {
    x.Keccak? ==> x.header.txs == [] && Empty(x.header.parent)
  }

  lemma {:induction false} NoTxsNoRepeat(x: Hash)
    requires Empty(x)
    ensures NoRepeat(x)
  {
    if x.Keccak? {
      NoTxsNoRepeat(x.header.parent);
    }
  }

  lemma FirstIsGenesis(chain: BlockChain)
    requires chain.Valid()
    ensures chain.genesis.number == 0 && 0 in chain.canon && chain.canon[0] == Keccak(chain.genesis)
  {
    hide TdOk, ParentClosed;
    CanonLinked(chain.canon, chain.currentBlock, chain.blocks, chain.genesis, 0);
  }
}

/** Block headers and their hashes. A hash is modelled by what it was computed from: equal hashes mean equal
    headers, and no hash of a header is zero. */
module Headers {
  import opened Transactions

  datatype Hash = Zero | Keccak(header: Header)

  /** A header; its transaction root is modelled by the transactions, so that a header stands for its block.
      `seal` is everything else in it. */
  datatype Header = Header(parent: Hash, number: nat, difficulty: int, txs: seq<Tx>, seal: nat)

  /** The k-th parent of a hash; above the first header, the zero hash. */
  function Up(x: Hash, k: nat): Hash {
    if k == 0 || x.Zero? then x else Up(x.header.parent, k - 1)
  }

  lemma {:induction false} UpUp(x: Hash, j: nat, k: nat)
    ensures Up(Up(x, j), k) == Up(x, j + k)
  {
    if j > 0 && x.Keccak? {
      UpUp(x.header.parent, j - 1, k);
    }
  }

  lemma UpSplit(x: Hash, j: nat, k: nat, n: nat)
    requires j + k == n
    ensures Up(Up(x, j), k) == Up(x, n)
  {
    UpUp(x, j, k);
  }

  lemma UpNext(x: Hash, k: nat)
    requires Up(x, k).Keccak?
    ensures Up(x, k + 1) == Up(x, k).header.parent
  {
    UpUp(x, k, 1);
    var y := Up(x, k);
    assert Up(y, 1) == Up(y.header.parent, 0);
  }

  function Depth(x: Hash): nat {
    if x.Zero? then 0 else 1 + Depth(x.header.parent)
  }

  /** No header is its own ancestor. */
  lemma {:induction false} UpIsShallower(x: Hash, k: nat)
    ensures Up(x, k).Zero? || Depth(Up(x, k)) + k == Depth(x)
  {
    if k > 0 && x.Keccak? {
      UpIsShallower(x.header.parent, k - 1);
    }
  }

  /** The table lookup by hash and number, over the stored headers. */
  function GetHeader(stored: set<Header>, hash: Hash, number: int): Option<Header> {
    if hash.Keccak? && hash.header in stored && hash.header.number == number then Some(hash.header) else None
  }

  /** A header's parent is stored one number below it. */
  predicate HasParent(stored: set<Header>, h: Header) {
    h.number > 0 && GetHeader(stored, h.parent, h.number - 1).Some?
  }

  /** Every stored header but the genesis has its parent stored one number below. */
  ghost predicate ParentClosed(stored: set<Header>, genesis: Header) {
    && genesis in stored && genesis.number == 0
    && forall h :: h in stored && h != genesis ==> HasParent(stored, h)
  }

  /** Ancestors of stored headers are stored, at the numbers their distance says. */
  lemma {:induction false} AncestorStored(stored: set<Header>, genesis: Header, h: Header, k: nat)
    requires ParentClosed(stored, genesis) && h in stored && k <= h.number
    ensures GetHeader(stored, Up(Keccak(h), k), h.number - k).Some?
    ensures k == h.number ==> Up(Keccak(h), k) == Keccak(genesis)
    ensures k > 0 ==> Up(Keccak(h), k - 1).Keccak? && Up(Keccak(h), k - 1).header.parent == Up(Keccak(h), k)
    decreases k
  {
    if k > 0 {
      AncestorStored(stored, genesis, h, k - 1);
      hide ParentClosed, Up;
      ParentStored(stored, genesis, Up(Keccak(h), k - 1).header);
      UpNext(Keccak(h), k - 1);
    }
    if k == h.number {
      AtGenesis(stored, genesis, Up(Keccak(h), k).header);
    }
  }

  /** The ancestor of a header at a number; zero above the header. */
  function AncestorAt(h: Header, n: nat): Hash {
    if n <= h.number then Up(Keccak(h), h.number - n) else Zero
  }

  /** A stretch of a chain: each header is the parent of the next, one number below it. */
  ghost predicate Linked(hs: seq<Header>) {
    forall i :: 0 <= i < |hs| - 1 ==> hs[i + 1].parent == Keccak(hs[i]) && hs[i + 1].number == hs[i].number + 1
  }

  lemma {:induction false} LinkedNumbers(hs: seq<Header>, i: nat)
    requires Linked(hs) && i < |hs|
    ensures hs[i].number == hs[0].number + i
  {
    if i > 0 {
      LinkedNumbers(hs, i - 1);
    }
  }

  /** A linked stretch is the ancestry of its last header. */
  lemma {:induction false} LinkedUp(hs: seq<Header>, i: nat)
    requires Linked(hs) && i < |hs|
    ensures Up(Keccak(hs[|hs| - 1]), |hs| - 1 - i) == Keccak(hs[i])
    ensures hs[|hs| - 1].number == hs[i].number + (|hs| - 1 - i)
    decreases |hs| - i
  {
    if i + 1 < |hs| {
      LinkedUp(hs, i + 1);
      UpUp(Keccak(hs[|hs| - 1]), |hs| - 2 - i, 1);
      assert Up(Keccak(hs[i + 1]), 1) == Up(hs[i + 1].parent, 0);
    }
  }

  /** The canonical index holds exactly the ancestors of the head, itself included. */
  ghost predicate IsCanon(canon: map<nat, Hash>, head: Header) {
    && (forall n: nat :: n in canon <==> n <= head.number)
    && (forall n: nat :: n in canon ==> canon[n] == AncestorAt(head, n))
  }

  function ReadCanonicalHash(canon: map<nat, Hash>, n: nat): Hash {
    if n in canon then canon[n] else Zero
  }

  /** An index of ancestors is hash-linked. */
  lemma CanonLinked(canon: map<nat, Hash>, head: Header, stored: set<Header>, genesis: Header, n: nat)
    requires IsCanon(canon, head) && ParentClosed(stored, genesis) && head in stored && n <= head.number
    ensures n in canon && canon[n].Keccak? && canon[n].header in stored && canon[n].header.number == n
    ensures n > 0 ==> n - 1 in canon && canon[n].header.parent == canon[n - 1]
    ensures n == 0 ==> canon[n] == Keccak(genesis)
  {
    hide ParentClosed, Up;
    AncestorStored(stored, genesis, head, head.number - n);
    if n > 0 {
      AncestorStored(stored, genesis, head, head.number - n + 1);
    }
  }

  /** Down the index is up the parent links. */
  lemma CanonUp(canon: map<nat, Hash>, head: Header, n: nat, k: nat)
    requires IsCanon(canon, head) && n in canon && k <= n
    ensures n - k in canon && canon[n - k] == Up(canon[n], k)
  {
    hide Up;
    UpSplit(Keccak(head), head.number - n, k, head.number - (n - k));
  }

  lemma AtGenesis(stored: set<Header>, genesis: Header, h: Header)
    requires ParentClosed(stored, genesis) && h in stored && h.number == 0
    ensures h == genesis
  {
  }

  lemma ParentStored(stored: set<Header>, genesis: Header, h: Header)
    requires ParentClosed(stored, genesis) && h in stored && h.number > 0
    ensures GetHeader(stored, h.parent, h.number - 1).Some?
  {
  }
}

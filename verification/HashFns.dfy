/** GetHashFn of core/evm.go. */
module HashFns {
  import opened Integers
  import opened Transactions
  import opened Headers

  /** A 64-bit unsigned number; subtraction of two wraps. */
  type uint64 = n: int | 0 <= n < TWO_64

  function Minus(a: uint64, b: uint64): (r: uint64)
    ensures b <= a ==> r == a - b
    ensures b > a ==> r == a - b + TWO_64
  {
    (a - b) % TWO_64
  }

  /** The closure GetHashFn returns for a reference header. */
  class HashFn {
    const ref: Header
    var cache: seq<Hash>

    /** The cache holds ancestors of the reference header in order, and ends with the parent of the genesis at the
        latest, which is zero. */
    ghost predicate Valid()
      reads this
    {
      && ref.number < TWO_64 - 1 && (ref.number == 0 ==> ref.parent == Zero) && |cache| <= ref.number + 1
      && (forall i :: 0 <= i < |cache| ==> cache[i] == Up(ref.parent, i))
      && (|cache| == ref.number + 1 ==> cache[ref.number] == Zero)
    }

    constructor (ref: Header)
      requires ref.number < TWO_64 - 1 && (ref.number == 0 ==> ref.parent == Zero)
      ensures Valid() && this.ref == ref
    {
      this.ref := ref;
      cache := [];
    }

    /** The hash of the ancestor at number n. If the reference header's parent is stored, every number below the
        reference header's gets the true ancestor, whatever was asked before; otherwise it may get zero instead.
        Every other number gets zero. */
    method Get(chain: set<Header>, ghost genesis: Header, n: uint64) returns (hash: Hash)
      requires Valid() && ParentClosed(chain, genesis) && genesis.parent == Zero
      modifies this`cache
      ensures Valid()
      ensures n < ref.number ==> hash == Zero || hash == Up(ref.parent, ref.number - 1 - n)
      ensures n < ref.number && GetHeader(chain, ref.parent, ref.number - 1).Some? ==>
                hash == Up(ref.parent, ref.number - 1 - n)
      ensures n >= ref.number ==> hash == Zero
    {
      hide ParentClosed;
      if |cache| == 0 {
        cache := [ref.parent];
      }
      var idx := Minus(Minus(ref.number, n), 1);
      if idx < |cache| {
        return cache[idx];
      }
      hash := Walk(chain, genesis, n);
    }

    /** The walk from the last cached hash. */
    method Walk(chain: set<Header>, ghost genesis: Header, n: uint64) returns (hash: Hash)
      requires Valid() && ParentClosed(chain, genesis) && genesis.parent == Zero && 0 < |cache|
      requires n < ref.number ==> n + |cache| < ref.number
      modifies this`cache
      ensures Valid()
      ensures n < ref.number ==> hash == Zero || hash == Up(ref.parent, ref.number - 1 - n)
      ensures n < ref.number && GetHeader(chain, ref.parent, ref.number - 1).Some? ==>
                hash == Up(ref.parent, ref.number - 1 - n)
      ensures n >= ref.number ==> hash == Zero
    {
      hide ParentClosed, Up;
      var lastKnownHash := cache[|cache| - 1];
      var lastKnownNumber := Minus(ref.number, |cache|);
      while true
        invariant Valid() && 0 < |cache| && (n < ref.number ==> n + |cache| < ref.number)
        invariant lastKnownHash == cache[|cache| - 1] && lastKnownNumber == Minus(ref.number, |cache|)
        decreases Depth(lastKnownHash)
      {
        var header := GetHeader(chain, lastKnownHash, lastKnownNumber);
        if header.None? {
          if n < ref.number && GetHeader(chain, ref.parent, ref.number - 1).Some? {
            AncestorStored(chain, genesis, ref.parent.header, |cache| - 1);
            assert false;
          }
          break;
        }
        UpNext(ref.parent, |cache| - 1);
        if header.value.number == 0 {
          OnlyGenesis(chain, genesis, header.value);
        }
        cache := cache + [header.value.parent];
        lastKnownHash := header.value.parent;
        lastKnownNumber := Minus(header.value.number, 1);
        if n == lastKnownNumber {
          return lastKnownHash;
        }
      }
      return Zero;
    }
  }

  lemma OnlyGenesis(chain: set<Header>, genesis: Header, h: Header)
    requires ParentClosed(chain, genesis) && h in chain && h.number == 0
    ensures h == genesis
  {
  }
}

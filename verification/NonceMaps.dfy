/** Plain nonce-to-transaction maps: what the sorted maps of tx_list.go stand for. */
module NonceMaps {
  import opened Transactions

  type NonceMap = map<nat, Tx>

  /** Every transaction is filed under its own nonce. */
  ghost predicate Keyed(m: NonceMap) {
    forall n :: n in m ==> m[n].nonce == n
  }

  function Before(m: NonceMap, t: nat): NonceMap {
    map n | n in m && n < t :: m[n]
  }

  function From(m: NonceMap, t: nat): NonceMap {
    map n | n in m && n >= t :: m[n]
  }

  function Select(m: NonceMap, p: Tx -> bool): NonceMap {
    map n | n in m && p(m[n]) :: m[n]
  }

  function Reject(m: NonceMap, p: Tx -> bool): NonceMap {
    map n | n in m && !p(m[n]) :: m[n]
  }

  function Below(m: NonceMap, n: nat): set<nat> {
    set k | k in m && k < n
  }

  /** The number of stored nonces below n. */
  function Rank(m: NonceMap, n: nat): nat {
    |Below(m, n)|
  }

  /** The k transactions of lowest nonce, and the others. */
  function Lowest(m: NonceMap, k: nat): NonceMap {
    map n | n in m && Rank(m, n) < k :: m[n]
  }

  function Highest(m: NonceMap, k: nat): NonceMap {
    map n | n in m && Rank(m, n) >= k :: m[n]
  }

  predicate IsLeast(m: NonceMap, n: nat) {
    n in m && forall k :: k in m ==> n <= k
  }

  /** n is stored together with every nonce from the lowest one up to it. */
  predicate InRun(m: NonceMap, n: nat) {
    n in m && forall j, i :: j in m && j <= i <= n ==> i in m
  }

  /** The maximal consecutive run from the lowest nonce, and what lies beyond its first gap. */
  function Run(m: NonceMap): NonceMap {
    map n | n in m && InRun(m, n) :: m[n]
  }

  function AfterRun(m: NonceMap): NonceMap {
    map n | n in m && !InRun(m, n) :: m[n]
  }

  /** The lowest nonce is not above start. */
  predicate HasRipe(m: NonceMap, start: nat) {
    exists n :: n in m && n <= start
  }

  function Ripe(m: NonceMap, start: nat): NonceMap {
    if HasRipe(m, start) then Run(m) else map[]
  }

  function Unripe(m: NonceMap, start: nat): NonceMap {
    if HasRipe(m, start) then AfterRun(m) else m
  }

  /** s lists the transactions of m, each once, in some order. */
  ghost predicate Enumerates(s: seq<Tx>, m: NonceMap) {
    && Keyed(m)
    && (forall i :: 0 <= i < |s| ==> s[i].nonce in m && m[s[i].nonce] == s[i])
    && (forall i, j :: 0 <= i < j < |s| ==> s[i].nonce != s[j].nonce)
    && (forall n :: n in m ==> m[n] in s)
  }

  /** s lists the transactions of m in nonce order. */
  ghost predicate IsFlat(s: seq<Tx>, m: NonceMap) {
    && Keyed(m)
    && (forall i :: 0 <= i < |s| ==> s[i].nonce in m && m[s[i].nonce] == s[i])
    && (forall i, j :: 0 <= i < j < |s| ==> s[i].nonce < s[j].nonce)
    && (forall n :: n in m ==> m[n] in s)
  }

  /** The nonces of m are the interval [lo, hi). */
  ghost predicate IsInterval(m: NonceMap, lo: nat, hi: nat) {
    lo <= hi && forall n :: n in m <==> lo <= n < hi
  }

  /** The nonces of m have no gap. */
  ghost predicate Contiguous(m: NonceMap) {
    forall i, j, k :: i in m && k in m && i <= j <= k ==> j in m
  }

  /** Appending one more transaction to a listing. */
  lemma EnumerateStep(s: seq<Tx>, m: NonceMap, tx: Tx)
    requires Enumerates(s, m) && tx.nonce !in m
    ensures Enumerates(s + [tx], m[tx.nonce := tx])
  {
    var r, m' := s + [tx], m[tx.nonce := tx];
    forall n | n in m' ensures m'[n] in r {
      if n == tx.nonce {
        assert r[|s|] == tx;
      } else {
        assert m[n] in s;
      }
    }
  }

  /** Appending a transaction of higher nonce to a listing in nonce order. */
  lemma FlatStep(s: seq<Tx>, m: NonceMap, tx: Tx)
    requires IsFlat(s, m) && forall n :: n in m ==> n < tx.nonce
    ensures IsFlat(s + [tx], m[tx.nonce := tx])
  {
    EnumerateStep(s, m, tx);
  }

  lemma IndexIn(s: seq<Tx>, m: NonceMap, n: nat) returns (j: nat)
    requires IsFlat(s, m) && n in m
    ensures j < |s| && s[j] == m[n] && s[j].nonce == n
  {
    j :| 0 <= j < |s| && s[j] == m[n];
  }

  lemma BelowNext(s: seq<Tx>, m: NonceMap, i: nat)
    requires IsFlat(s, m) && i < |s|
    ensures i > 0 ==> s[i - 1].nonce < s[i].nonce
    ensures Below(m, s[i].nonce) == if i == 0 then {} else Below(m, s[i - 1].nonce) + {s[i - 1].nonce}
  {
    forall k | k in Below(m, s[i].nonce) ensures i > 0 && k <= s[i - 1].nonce {
      var j := IndexIn(s, m, k);
      assert j < i;
    }
  }

  /** In nonce order, a transaction's position is its rank. */
  lemma {:induction false} FlatRank(s: seq<Tx>, m: NonceMap, i: nat)
    requires IsFlat(s, m) && i < |s|
    ensures Rank(m, s[i].nonce) == i
  {
    hide IsFlat;
    BelowNext(s, m, i);
    if i > 0 {
      FlatRank(s, m, i - 1);
    }
  }

  lemma FlatLength(s: seq<Tx>, m: NonceMap)
    requires IsFlat(s, m)
    ensures |s| == |m|
  {
    if |s| == 0 {
      assert m == map[];
    } else {
      var k := s[|s| - 1].nonce;
      FlatRank(s, m, |s| - 1);
      forall n | n in m ensures n <= k {
        var j := IndexIn(s, m, n);
      }
      assert m.Keys == Below(m, k) + {k};
    }
  }

  /** There is one way to list a map in nonce order. */
  lemma FlatUnique(s: seq<Tx>, r: seq<Tx>, m: NonceMap)
    requires IsFlat(s, m) && IsFlat(r, m)
    ensures s == r
  {
    FlatLength(s, m);
    FlatLength(r, m);
    forall i | 0 <= i < |s| ensures s[i] == r[i] {
      assert m[s[i].nonce] in r;
      var j := IndexIn(r, m, s[i].nonce);
      FlatRank(s, m, i);
      FlatRank(r, m, j);
    }
  }

  /** The ranks of the nonces below t are those below the number of such nonces. */
  lemma RankBefore(m: NonceMap, t: nat, n: nat)
    requires n in m
    ensures Rank(m, n) < |Before(m, t)| <==> n < t
  {
    var b := Before(m, t).Keys;
    if n < t {
      assert Below(m, n) + {n} <= b;
      Subset(Below(m, n) + {n}, b);
    } else {
      Subset(b, Below(m, n));
    }
  }

  /** Dropping the front of a listing leaves the listing of what Forward keeps. */
  lemma FlatFront(s: seq<Tx>, m: NonceMap, r: seq<Tx>, t: nat)
    requires IsFlat(s, m) && IsFlat(r, Before(m, t))
    ensures |r| <= |s| && IsFlat(s[|r|..], From(m, t))
  {
    FlatLength(s, m);
    FlatLength(r, Before(m, t));
    Subset(Before(m, t).Keys, m.Keys);
    forall i | 0 <= i < |s| ensures i < |r| <==> s[i].nonce < t {
      FlatRank(s, m, i);
      RankBefore(m, t, s[i].nonce);
    }
    FlatSlice(s, m, |r|, From(m, t));
  }

  /** A suffix of a listing lists the nonces it holds. */
  lemma FlatSlice(s: seq<Tx>, m: NonceMap, k: nat, f: NonceMap)
    requires IsFlat(s, m) && k <= |s|
    requires forall n :: n in f ==> n in m && f[n] == m[n]
    requires forall i :: 0 <= i < |s| ==> (k <= i <==> s[i].nonce in f)
    ensures IsFlat(s[k..], f)
  {
    var u := s[k..];
    forall n | n in f ensures f[n] in u {
      var j := IndexIn(s, m, n);
      assert u[j - k] == m[n];
    }
  }

  /** Dropping the back of a listing leaves the listing of the lowest nonces. */
  lemma FlatBack(s: seq<Tx>, m: NonceMap, k: nat)
    requires IsFlat(s, m) && k <= |s|
    ensures IsFlat(s[..k], Lowest(m, k))
  {
    hide Rank;
    forall i | 0 <= i < |s| ensures Rank(m, s[i].nonce) == i {
      FlatRank(s, m, i);
    }
    var u := s[..k];
    forall n | n in Lowest(m, k) ensures m[n] in u {
      var j := IndexIn(s, m, n);
      assert u[j] == m[n];
    }
  }

  lemma {:induction false} Subset(a: set<nat>, b: set<nat>)
    requires a <= b
    ensures |a| <= |b|
  {
    if a != {} {
      var x :| x in a;
      Subset(a - {x}, b - {x});
    }
  }

  /** Lists a map in whatever order its iteration yields. */
  method ListAll(m: NonceMap) returns (s: seq<Tx>)
    requires Keyed(m)
    ensures Enumerates(s, m)
  {
    hide Enumerates;
    s := [];
    var todo := m.Keys;
    NothingListed(m);
    while todo != {}
      invariant todo <= m.Keys && Enumerates(s, m - todo)
      decreases |todo|
    {
      var n :| n in todo;
      EnumerateStep(s, m - todo, m[n]);
      assert (m - todo)[n := m[n]] == m - (todo - {n});
      s := s + [m[n]];
      todo := todo - {n};
    }
    assert m - {} == m;
  }

  /** Lists a map in nonce order. */
  method ListInOrder(m: NonceMap) returns (s: seq<Tx>)
    requires Keyed(m)
    ensures IsFlat(s, m)
  {
    hide IsFlat, Before, From;
    s := [];
    var t, todo := 0, m;
    NothingBefore(m);
    while todo != map[]
      invariant t >= 0 && todo == From(m, t) && IsFlat(s, Before(m, t))
      decreases |todo|
    {
      var n := Least(todo.Keys);
      CutStep(m, t, n);
      FlatStep(s, Before(m, t), m[n]);
      s := s + [m[n]];
      t, todo := n + 1, todo - {n};
    }
    NothingFrom(m, t);
  }

  lemma NothingBefore(m: NonceMap)
    requires Keyed(m)
    ensures From(m, 0) == m && Before(m, 0) == map[] && IsFlat([], map[])
  {
  }

  lemma NothingFrom(m: NonceMap, t: nat)
    requires From(m, t) == map[]
    ensures Before(m, t) == m
  {
    forall n | n in m ensures n < t {
      assert n !in From(m, t);
    }
  }

  /** Moving the cut past the lowest nonce above it. */
  lemma CutStep(m: NonceMap, t: nat, n: nat)
    requires IsLeast(From(m, t), n)
    ensures n in m && From(m, t)[n] == m[n] && forall k :: k in Before(m, t) ==> k < n
    ensures Before(m, n + 1) == Before(m, t)[n := m[n]]
    ensures From(m, n + 1) == From(m, t) - {n} && |From(m, n + 1)| < |From(m, t)|
  {
    forall k | k in m ensures k < n <==> k < t {
      assert k >= t ==> k in From(m, t);
    }
    assert From(m, t).Keys == From(m, n + 1).Keys + {n};
  }

  lemma NothingListed(m: NonceMap)
    ensures m - m.Keys == map[] && Enumerates([], map[]) && IsFlat([], map[])
  {
  }

  method Least(s: set<nat>) returns (n: nat)
    requires s != {}
    ensures n in s && forall k :: k in s ==> n <= k
  {
    n :| n in s;
    var todo := s - {n};
    while todo != {}
      invariant todo <= s && n in s && forall k :: k in s && k !in todo ==> n <= k
      decreases |todo|
    {
      var k :| k in todo;
      if k < n {
        n := k;
      }
      todo := todo - {k};
    }
  }

  /** The next transaction of a listing, given what its first i list. */
  lemma ListedStep(s: seq<Tx>, m: NonceMap, i: nat, done: NonceMap)
    requires Enumerates(s, m) && i < |s| && Enumerates(s[..i], done)
    ensures s[i].nonce in m && m[s[i].nonce] == s[i] && s[i].nonce !in done
    ensures Enumerates(s[..i + 1], done[s[i].nonce := s[i]])
  {
    assert s[..i + 1] == s[..i] + [s[i]];
    forall n | n in done ensures n != s[i].nonce {
      assert done[n] in s[..i];
    }
    EnumerateStep(s[..i], done, s[i]);
  }

  /** A listing determines its map. */
  lemma SameListing(s: seq<Tx>, m: NonceMap, k: NonceMap)
    requires Enumerates(s, m) && Enumerates(s, k)
    ensures m == k
  {
    forall n | n in m ensures n in k && k[n] == m[n] {
      assert m[n] in s;
    }
    forall n | n in k ensures n in m {
      assert k[n] in s;
    }
  }

  lemma FlatListing(s: seq<Tx>, m: NonceMap)
    requires IsFlat(s, m)
    ensures Enumerates(s, m)
  {
  }

  /** The hashes of an account's transactions. */
  ghost function HashSet(m: NonceMap): set<TxHash> {
    set n | n in m :: HashOf(m[n])
  }

  lemma ListedHashes(s: seq<Tx>, m: NonceMap)
    requires Enumerates(s, m)
    ensures HashesOf(s) == HashSet(m)
  {
    forall h | h in HashesOf(s) ensures h in HashSet(m) {
      var i :| 0 <= i < |s| && HashOf(s[i]) == h;
      assert s[i].nonce in m;
    }
  }
}

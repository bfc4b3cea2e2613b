/** The arithmetic of TxPool.truncatePending: which pending lists it shortens, and how far. */
module Truncation {
  import opened Transactions
  import opened NonceMaps
  import opened ListValues
  import opened PoolInvariants

  /** The number of transactions of an account. */
  function Len(m: Lists, a: Address): nat {
    |Items(m, a)|
  }

  /** The number of transactions of all accounts. */
  ghost function Total(m: Lists): nat {
    if m == map[] then 0
    else
      var a: Address :| a in m;
      |m[a].items| + Total(m - {a})
  }

  lemma {:induction false} TotalWithout(m: Lists, a: Address)
    requires a in m
    ensures Total(m) == |m[a].items| + Total(m - {a})
    decreases |m|
  {
    var b: Address :| b in m && Total(m) == |m[b].items| + Total(m - {b});
    if b != a {
      assert (m - {b})[a] == m[a] && (m - {a})[b] == m[b];
      TotalWithout(m - {b}, a);
      TotalWithout(m - {a}, b);
      assert m - {b} - {a} == m - {a} - {b};
    }
  }

  lemma TotalUpdate(m: Lists, a: Address, l: ListValue)
    requires a in m
    ensures Total(m[a := l]) == Total(m) - |m[a].items| + |l.items|
  {
    TotalWithout(m, a);
    TotalWithout(m[a := l], a);
    assert m[a := l] - {a} == m - {a};
  }

  /** Every list of p' holds the lowest nonces of the list of p, as many as its length. */
  ghost predicate Shrunk(p: Lists, p': Lists) {
    && p.Keys == p'.Keys
    && forall a: Address :: Len(p', a) <= Len(p, a) && Items(p', a) == Lowest(Items(p, a), Len(p', a))
  }

  lemma AllOfIt(m: NonceMap)
    ensures Lowest(m, |m|) == m
  {
    forall n | n in m ensures Rank(m, n) < |m| {
      Subset(Below(m, n) + {n}, m.Keys);
    }
  }

  lemma {:induction false} MaxKey(s: set<nat>) returns (x: nat)
    requires s != {}
    ensures x in s && forall k :: k in s ==> k <= x
  {
    x :| x in s;
    assert s == {x} + (s - {x});
    if s - {x} != {} {
      var r := MaxKey(s - {x});
      if r > x {
        x := r;
      }
    }
  }

  /** Keeping all but one drops the highest nonce. */
  lemma DropTop(m: NonceMap) returns (x: nat)
    requires m != map[]
    ensures x in m && forall k :: k in m ==> k <= x
    ensures Lowest(m, |m| - 1) == m - {x} && Highest(m, |m| - 1) == map[x := m[x]] && |m - {x}| == |m| - 1
  {
    hide Rank;
    x := MaxKey(m.Keys);
    TopRank(m, x);
    assert m.Keys == (m - {x}).Keys + {x};
  }

  lemma TopRank(m: NonceMap, x: nat)
    requires x in m && forall k :: k in m ==> k <= x
    ensures forall n :: n in m ==> (Rank(m, n) < |m| - 1 <==> n != x)
  {
    assert m.Keys == Below(m, x) + {x};
    forall n | n in m && n != x ensures Rank(m, n) < |m| - 1 {
      Subset(Below(m, n) + {n}, Below(m, x));
    }
  }

  /** Keeping the lowest j of the lowest k keeps the lowest j. */
  lemma LowestLowest(m: NonceMap, k: nat, j: nat)
    requires j <= k
    ensures Lowest(Lowest(m, k), j) == Lowest(m, j)
  {
    var l := Lowest(m, k);
    forall n | n in l ensures Rank(l, n) == Rank(m, n) {
      forall i | i in Below(m, n) ensures i in l {
        Subset(Below(m, i), Below(m, n));
      }
      assert Below(l, n) == Below(m, n);
    }
  }

  lemma ShrunkTrans(p: Lists, q: Lists, r: Lists)
    requires Shrunk(p, q) && Shrunk(q, r)
    ensures Shrunk(p, r)
  {
    forall a: Address ensures Len(r, a) <= Len(p, a) && Items(r, a) == Lowest(Items(p, a), Len(r, a)) {
      LowestLowest(Items(p, a), Len(q, a), Len(r, a));
    }
  }

  lemma ShrunkSame(p: Lists)
    ensures Shrunk(p, p)
  {
    forall a: Address ensures Items(p, a) == Lowest(Items(p, a), Len(p, a)) {
      AllOfIt(Items(p, a));
    }
  }

  /** Cutting one pending list by its highest nonce keeps the invariant when the lookup forgets it. */
  lemma CutOne(p: Lists, q: Lists, known: set<TxHash>, a: Address, x: nat)
    requires PoolInv(p, q, known) && a in p && |p[a].items| >= 2
    requires x in p[a].items && (forall k :: k in p[a].items ==> k <= x)
    requires Lowest(p[a].items, |p[a].items| - 1) == p[a].items - {x}
    ensures var p' := p[a := p[a].(items := p[a].items - {x})];
            && PoolInv(p', q, known - {HashOf(p[a].items[x])})
            && Shrunk(p, p') && Total(p') == Total(p) - 1 && Len(p', a) == Len(p, a) - 1 && SameBut(p, p', a)
  {
    hide PoolInv, Sound, Lowest, Total, Shrunk;
    var l := p[a].(items := p[a].items - {x});
    var p' := p[a := l];
    AccountFacts(p, q, known, a);
    StaysSound(p[a], l.items);
    assert p[a].items.Keys == l.items.Keys + {x};
    TotalUpdate(p, a, l);
    ShrinkOne(p, p', a);
    AccountUpdate(p, q, known, p', q, known - {HashOf(p[a].items[x])}, a);
  }

  lemma ShrinkOne(p: Lists, p': Lists, a: Address)
    requires a in p && a in p' && SameBut(p, p', a)
    requires Len(p', a) <= Len(p, a) && Items(p', a) == Lowest(Items(p, a), Len(p', a))
    ensures Shrunk(p, p')
  {
    ShrunkSame(p);
    assert p.Keys == p'.Keys;
    forall x: Address ensures Len(p', x) <= Len(p, x) && Items(p', x) == Lowest(Items(p, x), Len(p', x)) {
      assert x != a ==> Items(p', x) == Items(p, x);
    }
  }

  /** The account's nonces stay in order, the virtual nonce falling to the one dropped. */
  lemma CutOrder(m: NonceMap, queue: NonceMap, state: nat, next: nat, x: nat)
    requires InOrder(m, queue, state, next) && x in m && (forall k :: k in m ==> k <= x)
    ensures x < next && InOrder(m - {x}, queue, state, x)
  {
    var last := next - 1;
    assert last in m;
  }

  ghost predicate Distinct(s: seq<Address>) {
    forall i, j :: 0 <= i < j < |s| ==> s[i] != s[j]
  }

  /** Each listed account has lost one transaction, the others none. */
  ghost predicate CutBy(p: Lists, p': Lists, accounts: seq<Address>) {
    && Shrunk(p, p') && Total(p') == Total(p) - |accounts|
    && forall a: Address :: Len(p', a) == Len(p, a) - if a in accounts then 1 else 0
  }

  lemma CutByNone(p: Lists)
    ensures CutBy(p, p, [])
  {
    ShrunkSame(p);
  }

  lemma CutByStep(p: Lists, p1: Lists, p2: Lists, accounts: seq<Address>, i: nat)
    requires i < |accounts| && Distinct(accounts) && CutBy(p, p1, accounts[..i])
    requires Shrunk(p1, p2) && SameBut(p1, p2, accounts[i]) && Total(p2) == Total(p1) - 1
    requires Len(p2, accounts[i]) == Len(p1, accounts[i]) - 1
    ensures CutBy(p, p2, accounts[..i + 1])
  {
    hide Shrunk, Total;
    ShrunkTrans(p, p1, p2);
    forall a: Address ensures Len(p2, a) == Len(p, a) - if a in accounts[..i + 1] then 1 else 0 {
      assert a in accounts[..i + 1] <==> a in accounts[..i] || a == accounts[i];
      assert accounts[i] !in accounts[..i];
      assert a != accounts[i] ==> Items(p2, a) == Items(p1, a);
    }
  }

  /** An account truncatePending may cut: not local, and above the guaranteed slots. */
  predicate Spammer(p: Lists, locals: set<Address>, slots: nat, a: Address) {
    a in p && a !in locals && Len(p, a) > slots
  }

  /** All of the first k accounts have the same number of transactions. */
  ghost predicate Level(p: Lists, offenders: seq<Address>, k: nat)
    requires k <= |offenders|
  {
    forall i, j :: 0 <= i < k && 0 <= j < k ==> Len(p, offenders[i]) == Len(p, offenders[j])
  }

  /** truncatePending between two retrievals of an offender. */
  ghost predicate Cutting(p0: Lists, p: Lists, locals: set<Address>, slots: nat, offenders: seq<Address>,
                          spammers: map<Address, nat>) {
    && Shrunk(p0, p) && Distinct(offenders)
    && (forall a: Address :: Spammer(p0, locals, slots, a) <==> a in offenders || a in spammers)
    && (forall a :: a in spammers ==> a !in offenders && spammers[a] == Len(p0, a))
    && (forall a: Address :: a !in offenders ==> Len(p, a) == Len(p0, a))
    && (|offenders| > 0 ==>
          var last := Len(p, offenders[|offenders| - 1]);
          && last > slots
          && Level(p, offenders, |offenders| - 1)
          && (forall i :: 0 <= i < |offenders| ==> Len(p, offenders[i]) >= last)
          && (forall a :: a in spammers ==> spammers[a] <= last))
  }

  /** Retrieving the next offender, one of the longest lists left. */
  lemma NextOffender(p0: Lists, p: Lists, locals: set<Address>, slots: nat, offenders: seq<Address>,
                     spammers: map<Address, nat>, a: Address)
    requires Cutting(p0, p, locals, slots, offenders, spammers) && Level(p, offenders, |offenders|)
    requires a in spammers && forall b :: b in spammers ==> spammers[b] <= spammers[a]
    ensures Cutting(p0, p, locals, slots, offenders + [a], spammers - {a})
  {
    hide Shrunk;
    var offs := offenders + [a];
    assert Spammer(p0, locals, slots, a);
    forall b: Address ensures Spammer(p0, locals, slots, b) <==> b in offs || b in spammers - {a} {
    }
  }

  /** One round of equalizing: all offenders but the last are cut by one. */
  lemma EqualizeRound(p0: Lists, p: Lists, p': Lists, locals: set<Address>, slots: nat, offenders: seq<Address>,
                      spammers: map<Address, nat>)
    requires Cutting(p0, p, locals, slots, offenders, spammers) && |offenders| > 1
    requires Len(p, offenders[|offenders| - 2]) > Len(p, offenders[|offenders| - 1])
    requires CutBy(p, p', offenders[..|offenders| - 1])
    ensures Cutting(p0, p', locals, slots, offenders, spammers)
  {
    hide Shrunk, Total;
    ShrunkTrans(p0, p, p');
    var k := |offenders| - 1;
    assert offenders[k] !in offenders[..k];
    forall i | 0 <= i < k
      ensures Len(p', offenders[i]) == Len(p, offenders[i]) - 1 && Len(p, offenders[i]) == Len(p, offenders[k - 1])
    {
      assert offenders[i] in offenders[..k];
    }
    forall a: Address | a !in offenders ensures Len(p', a) == Len(p0, a) {
      assert a !in offenders[..k];
    }
  }

  /** What truncatePending promises, with the offenders in the order it retrieved them. */
  ghost predicate Truncated(p0: Lists, p: Lists, locals: set<Address>, slots: nat, limit: nat,
                            offenders: seq<Address>) {
    && Shrunk(p0, p) && Distinct(offenders)
    // Only offenders are cut, all of them above the guaranteed slots and not local, and nobody below those slots.
    && (forall a: Address :: a !in offenders ==> Len(p, a) == Len(p0, a))
    && (forall a: Address :: a in offenders ==> a !in locals && Len(p0, a) > slots)
    && (forall a: Address :: Len(p, a) >= Len(p0, a) || Len(p, a) >= slots)
    // The limit is met, unless every account that may be cut is down to the guaranteed slots.
    && (Total(p) <= limit || forall a: Address :: a !in locals ==> Len(p, a) <= slots)
    // Fairness: earlier offenders end up equal, the last no longer, and no account spared is longer than one cut.
    && (|offenders| > 0 ==> Level(p, offenders, |offenders| - 1))
    && (forall i :: 0 <= i < |offenders| ==> Len(p, offenders[i]) >= Len(p, offenders[|offenders| - 1]))
    && (forall i, a: Address :: 0 <= i < |offenders| && a !in locals && a !in offenders ==>
          Len(p, a) <= Len(p, offenders[i]))
    // The undershoot is less than one round.
    && (if Total(p0) > limit then Total(p) + |offenders| > limit else p == p0 && offenders == [])
  }

  /** All spammers retrieved, all level: the last loop cuts all offenders, round by round. */
  ghost predicate Levelled(p0: Lists, p: Lists, locals: set<Address>, slots: nat, offenders: seq<Address>) {
    && Shrunk(p0, p) && Distinct(offenders) && Level(p, offenders, |offenders|)
    && (forall a: Address :: Spammer(p0, locals, slots, a) <==> a in offenders)
    && (forall a: Address :: a !in offenders ==> Len(p, a) == Len(p0, a))
    && (forall i :: 0 <= i < |offenders| ==> Len(p, offenders[i]) >= slots)
  }

  lemma LevelledStart(p0: Lists, p: Lists, locals: set<Address>, slots: nat, offenders: seq<Address>)
    requires Cutting(p0, p, locals, slots, offenders, map[]) && Level(p, offenders, |offenders|)
    ensures Levelled(p0, p, locals, slots, offenders)
  {
    hide Shrunk;
  }

  lemma LevelledRound(p0: Lists, p: Lists, p': Lists, locals: set<Address>, slots: nat, offenders: seq<Address>)
    requires Levelled(p0, p, locals, slots, offenders) && |offenders| > 0
    requires Len(p, offenders[|offenders| - 1]) > slots && CutBy(p, p', offenders)
    ensures Levelled(p0, p', locals, slots, offenders)
  {
    hide Shrunk, Total;
    ShrunkTrans(p0, p, p');
    forall i | 0 <= i < |offenders| ensures Len(p', offenders[i]) == Len(p, offenders[|offenders| - 1]) - 1 {
      assert offenders[i] in offenders;
    }
  }

  lemma LevelledEnd(p0: Lists, p: Lists, locals: set<Address>, slots: nat, limit: nat, offenders: seq<Address>)
    requires Levelled(p0, p, locals, slots, offenders) && Total(p0) > limit && Total(p) + |offenders| > limit
    requires Total(p) <= limit || |offenders| == 0 || Len(p, offenders[|offenders| - 1]) <= slots
    ensures Truncated(p0, p, locals, slots, limit, offenders)
  {
    hide Shrunk, Total;
    forall a: Address | a !in locals && a !in offenders ensures Len(p, a) <= slots {
      assert !Spammer(p0, locals, slots, a);
    }
    forall a: Address ensures Len(p, a) >= Len(p0, a) || Len(p, a) >= slots {
      if a in offenders {
        var i :| 0 <= i < |offenders| && offenders[i] == a;
      }
    }
    if Total(p) > limit {
      forall a: Address | a !in locals ensures Len(p, a) <= slots {
        if a in offenders {
          var i :| 0 <= i < |offenders| && offenders[i] == a;
        }
      }
    }
  }

  lemma CuttingEnd(p0: Lists, p: Lists, locals: set<Address>, slots: nat, limit: nat, offenders: seq<Address>,
                   spammers: map<Address, nat>)
    requires Cutting(p0, p, locals, slots, offenders, spammers) && Total(p) <= limit && Total(p0) > limit
    requires Total(p) + |offenders| > limit
    ensures Truncated(p0, p, locals, slots, limit, offenders)
  {
    hide Shrunk, Total;
    forall a: Address ensures Len(p, a) >= Len(p0, a) || Len(p, a) >= slots {
      if a in offenders {
        var i :| 0 <= i < |offenders| && offenders[i] == a;
      }
    }
    forall i, a: Address | 0 <= i < |offenders| && a !in locals && a !in offenders
      ensures Len(p, a) <= Len(p, offenders[i])
    {
      assert a !in spammers ==> !Spammer(p0, locals, slots, a);
    }
  }

  lemma NothingToCut(p: Lists, locals: set<Address>, slots: nat, limit: nat)
    requires Total(p) <= limit
    ensures Truncated(p, p, locals, slots, limit, [])
  {
    ShrunkSame(p);
  }

  /** The first loop of truncatePending and truncateQueue. */
  method Count(m: Lists) returns (n: nat)
    ensures n == Total(m)
  {
    hide Total;
    n := 0;
    var todo := m;
    NoneLeft();
    while todo != map[]
      invariant n + Total(todo) == Total(m)
      decreases |todo|
    {
      var a: Address :| a in todo.Keys;
      TotalWithout(todo, a);
      assert todo.Keys == (todo - {a}).Keys + {a};
      n := n + |todo[a].items|;
      todo := todo - {a};
    }
  }

  lemma NoneLeft()
    ensures Total(map[]) == 0
  {
  }

  /** The spam order: the lengths of the lists that may be cut. */
  function SpamOrder(p: Lists, locals: set<Address>, slots: nat): map<Address, nat> {
    map a | a in p && Spammer(p, locals, slots, a) :: Len(p, a)
  }

  lemma CuttingStart(p: Lists, locals: set<Address>, slots: nat)
    ensures Cutting(p, p, locals, slots, [], SpamOrder(p, locals, slots))
  {
    ShrunkSame(p);
  }

  lemma NoneLevel(p: Lists)
    ensures Level(p, [], 0)
  {
  }

  lemma FewerLeft(spammers: map<Address, nat>, a: Address)
    requires a in spammers
    ensures |spammers - {a}| < |spammers|
  {
    assert spammers.Keys == (spammers - {a}).Keys + {a};
  }

  /** Pop of the spam order: an account of highest priority. */
  method PopLongest(spammers: map<Address, nat>) returns (a: Address)
    requires spammers != map[]
    ensures a in spammers && forall b :: b in spammers ==> spammers[b] <= spammers[a]
  {
    a :| a in spammers.Keys;
    var todo := spammers.Keys - {a};
    while todo != {}
      invariant todo <= spammers.Keys && a in spammers
      invariant forall b :: b in spammers && b !in todo ==> spammers[b] <= spammers[a]
      decreases |todo|
    {
      var b :| b in todo;
      if spammers[b] > spammers[a] {
        a := b;
      }
      todo := todo - {b};
    }
  }

  lemma LastOffenders(p0: Lists, p: Lists, locals: set<Address>, slots: nat, offenders: seq<Address>,
                      spammers: map<Address, nat>)
    requires Cutting(p0, p, locals, slots, offenders, spammers) && |offenders| > 0
    ensures Level(p, offenders, |offenders| - 1) && Distinct(offenders) && Distinct(offenders[..|offenders| - 1])
    ensures forall i :: 0 <= i < |offenders| ==> Len(p, offenders[i]) >= Len(p, offenders[|offenders| - 1]) > slots
    ensures |offenders| > 1 && Len(p, offenders[|offenders| - 2]) == Len(p, offenders[|offenders| - 1]) ==>
              Level(p, offenders, |offenders|)
  {
  }

  lemma LevelledFacts(p0: Lists, p: Lists, locals: set<Address>, slots: nat, offenders: seq<Address>)
    requires Levelled(p0, p, locals, slots, offenders) && |offenders| > 0
    ensures Distinct(offenders)
    ensures forall i :: 0 <= i < |offenders| ==> Len(p, offenders[i]) == Len(p, offenders[|offenders| - 1])
  {
  }

  lemma LenSoFar(p: Lists, p1: Lists, accounts: seq<Address>, i: nat)
    requires i < |accounts| && Distinct(accounts) && CutBy(p, p1, accounts[..i])
    ensures Len(p1, accounts[i]) == Len(p, accounts[i])
  {
    assert accounts[i] !in accounts[..i];
  }

  lemma CutLengths(p: Lists, p': Lists, offenders: seq<Address>, k: nat)
    requires k == |offenders| - 1 && Distinct(offenders) && CutBy(p, p', offenders[..k])
    ensures Len(p', offenders[k]) == Len(p, offenders[k]) && Total(p') == Total(p) - k
  {
    assert offenders[k] !in offenders[..k];
  }

  /** The total after a change to one account. */
  lemma TotalSameBut(q: Lists, q': Lists, a: Address)
    requires SameBut(q, q', a)
    ensures Total(q') - Len(q', a) == Total(q) - Len(q, a)
  {
    hide Total, SameBut;
    SameRest(q, q', a);
    TotalSplit(q, a);
    TotalSplit(q', a);
  }

  lemma SameRest(q: Lists, q': Lists, a: Address)
    requires SameBut(q, q', a)
    ensures q - {a} == q' - {a}
  {
  }

  lemma TotalSplit(q: Lists, a: Address)
    ensures Total(q) == Len(q, a) + Total(q - {a})
  {
    hide Total;
    if a in q {
      TotalWithout(q, a);
    } else {
      assert q - {a} == q;
    }
  }

  lemma PeelTop(s: seq<Tx>, m: NonceMap, i: nat)
    requires IsFlat(s, m) && i < |s|
    ensures s[i].nonce in Lowest(m, i + 1) && Lowest(m, i + 1)[s[i].nonce] == s[i]
    ensures Lowest(m, i + 1) - {s[i].nonce} == Lowest(m, i)
  {
    hide Rank;
    forall n | n in m ensures Rank(m, n) == i <==> n == s[i].nonce {
      var j := IndexIn(s, m, n);
      FlatRank(s, m, j);
      FlatRank(s, m, i);
    }
  }

  lemma PeelBottom(s: seq<Tx>, m: NonceMap, i: nat)
    requires IsFlat(s, m) && i < |s|
    ensures s[i].nonce in Highest(m, i) && Highest(m, i)[s[i].nonce] == s[i]
    ensures Highest(m, i) - {s[i].nonce} == Highest(m, i + 1)
  {
    hide Rank;
    forall n | n in m ensures Rank(m, n) == i <==> n == s[i].nonce {
      var j := IndexIn(s, m, n);
      FlatRank(s, m, j);
      FlatRank(s, m, i);
    }
  }

  lemma WholeList(s: seq<Tx>, m: NonceMap)
    requires IsFlat(s, m)
    ensures |s| == |m| && Highest(m, 0) == m && Highest(m, |s|) == map[] && Lowest(m, |s|) == m && Lowest(m, 0) == map[]
  {
    FlatLength(s, m);
    forall n | n in m ensures Rank(m, n) < |m| {
      Subset(Below(m, n) + {n}, m.Keys);
    }
  }

  /** How far truncateQueue has come: `todo` are the accounts it may still drop from. Accounts dealt with
      are gone, but for one that was cut at the end. */
  ghost predicate Dropping(q0: Lists, q: Lists, locals: set<Address>, todo: set<Address>, drop: nat, limit: nat) {
    && Total(q) == limit + drop && todo <= q0.Keys - locals
    && (forall a: Address :: a in todo || a in locals || a !in q0 ==> SameAt(q0, q, a))
    && (forall a: Address :: Len(q, a) <= Len(q0, a) && Items(q, a) == Lowest(Items(q0, a), Len(q, a)))
    && (drop > 0 ==> forall a: Address :: a in q0 && a !in todo && a !in locals ==> Len(q, a) == 0)
    && (forall a, b :: Partly(q0, q, a) && Partly(q0, q, b) ==> a == b)
  }

  ghost predicate Partly(q0: Lists, q: Lists, a: Address) {
    0 < Len(q, a) < Len(q0, a)
  }

  /** What truncateQueue promises: local queues are untouched, the others keep their lowest nonces, all are
      kept or dropped whole but for one, and the excess is dropped exactly, unless only local queues are left. */
  ghost predicate QueueTruncated(q0: Lists, q: Lists, locals: set<Address>, limit: nat) {
    && (forall a: Address :: a in locals ==> SameAt(q0, q, a))
    && (forall a: Address :: Len(q, a) <= Len(q0, a) && Items(q, a) == Lowest(Items(q0, a), Len(q, a)))
    && (forall a, b :: Partly(q0, q, a) && Partly(q0, q, b) ==> a == b)
    && (if Total(q0) <= limit then q == q0
        else Total(q) == limit || (Total(q) > limit && forall a :: a in q ==> a in locals))
  }

  lemma DroppingStart(q: Lists, locals: set<Address>, limit: nat)
    requires Total(q) > limit
    ensures Dropping(q, q, locals, q.Keys - locals, Total(q) - limit, limit)
  {
    ShrunkSame(q);
  }

  /** One account of the loop: it keeps its `k` lowest queued nonces, none unless the rest meets the limit. */
  lemma DroppingStep(q0: Lists, q: Lists, q': Lists, locals: set<Address>, todo: set<Address>, drop: nat, limit: nat,
                     a: Address, k: nat)
    requires Dropping(q0, q, locals, todo, drop, limit) && drop > 0 && a in todo && SameBut(q, q', a)
    requires k == if Len(q, a) <= drop then 0 else Len(q, a) - drop
    requires Items(q', a) == Lowest(Items(q, a), k) && Len(q', a) == k
    ensures Len(q, a) - k <= drop
    ensures Dropping(q0, q', locals, todo - {a}, drop - (Len(q, a) - k), limit)
  {
    hide Total, Lowest;
    TotalSameBut(q, q', a);
    assert SameAt(q0, q, a);
    forall x: Address ensures !Partly(q0, q, x) {
      assert x in todo || x in locals || x !in q0 ==> SameAt(q0, q, x);
    }
    forall x: Address | x != a ensures Items(q', x) == Items(q, x) && SameAt(q, q', x) {
    }
    forall x: Address ensures Len(q', x) <= Len(q0, x) && Items(q', x) == Lowest(Items(q0, x), Len(q', x)) {
    }
  }

  lemma DroppingEnd(q0: Lists, q: Lists, locals: set<Address>, todo: set<Address>, drop: nat, limit: nat)
    requires Dropping(q0, q, locals, todo, drop, limit) && (drop == 0 || todo == {}) && Total(q0) > limit
    requires forall a :: a in q ==> q[a].items != map[]
    ensures QueueTruncated(q0, q, locals, limit)
  {
    hide Total, Lowest;
    if drop > 0 {
      forall a | a in q ensures a in locals {
        assert a !in q0 ==> SameAt(q0, q, a);
        assert Items(q, a) != map[];
      }
    }
  }

  lemma NothingDropped(q: Lists, locals: set<Address>, limit: nat)
    requires Total(q) <= limit && Shrunk(q, q)
    ensures QueueTruncated(q, q, locals, limit)
  {
  }

  lemma StillQueued(q0: Lists, q: Lists, locals: set<Address>, todo: set<Address>, drop: nat, limit: nat, a: Address)
    requires Dropping(q0, q, locals, todo, drop, limit) && a in todo
    ensures a in q
  {
    assert SameAt(q0, q, a);
  }

  lemma NoneKept(q: Lists, a: Address)
    ensures Lowest(Items(q, a), 0) == map[]
  {
  }

  lemma SomeKept(q: Lists, a: Address, k: nat)
    requires k <= Len(q, a)
    ensures |Lowest(Items(q, a), k)| == k
  {
    LowestSize(Items(q, a), k);
  }

  lemma {:induction false} LowestSize(m: NonceMap, k: nat)
    requires k <= |m|
    ensures |Lowest(m, k)| == k
    decreases |m|
  {
    if k == |m| {
      AllOfIt(m);
    } else {
      var x := DropTop(m);
      LowestSize(m - {x}, k);
      LowestLowest(m, |m| - 1, k);
    }
  }
}

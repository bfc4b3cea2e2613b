/** ReorgNeeded of core/forkchoice.go. */
module ForkChoices {
  import opened Transactions
  import opened Headers

  /** The fork chooser: the terminal total difficulty and the preserve callback, if there are any. */
  datatype ForkChoice = ForkChoice(ttd: Option<int>, preserve: Option<Header -> bool>)

  /** ReorgNeeded; None stands for the missing-td error, `coin` for the random draw being below one half. */
  function ReorgNeeded(f: ForkChoice, td: map<Hash, int>, current: Header, header: Header,
                       coin: bool): (r: Option<bool>)
    ensures r.None? <==> Keccak(current) !in td || Keccak(header) !in td
    ensures r.Some? && f.ttd.Some? && f.ttd.value <= td[Keccak(header)] ==> r.value
    ensures r.Some? && !(f.ttd.Some? && f.ttd.value <= td[Keccak(header)]) ==>
              var local, extern := td[Keccak(current)], td[Keccak(header)];
              && (extern != local ==> (r.value <==> extern > local))
              && (extern == local && header.number != current.number ==> (r.value <==> header.number < current.number))
              && (extern == local && header.number == current.number ==>
                    if Preserved(f, current) then !r.value else r.value <==> Preserved(f, header) || coin)
  {
    if Keccak(current) !in td || Keccak(header) !in td then None
    else
      var localTd, externTd := td[Keccak(current)], td[Keccak(header)];
      if f.ttd.Some? && f.ttd.value <= externTd then Some(true)
      else if externTd > localTd then Some(true)
      else if externTd < localTd || header.number > current.number then Some(false)
      else if header.number < current.number then Some(true)
      else
        var currentPreserve, externPreserve := Preserved(f, current), Preserved(f, header);
        Some(!currentPreserve && (externPreserve || coin))
  }

  /** There is a preserve callback, and it speaks for the header. */
  predicate Preserved(f: ForkChoice, header: Header) {
    f.preserve.Some? && f.preserve.value(header)
  }
}

/** HeaderChain of core/headerchain.go, without caches and interrupts. */
module HeaderChains {
  import opened Transactions
  import opened Headers
  import opened ForkChoices

  datatype Error = UnknownAncestor

  datatype WriteStatus = NonStatTy | CanonStatTy | SideStatTy

  /** A total difficulty for exactly the stored headers, each its parent's plus its own difficulty. */
  ghost predicate TdOk(stored: set<Header>, td: map<Hash, int>, genesis: Header) {
    && (forall x: Hash :: x in td <==> x.Keccak? && x.header in stored)
    && (forall h :: h in stored && h != genesis ==> TdLinked(td, h))
  }

  /** A header's total difficulty is its parent's plus its own difficulty. */
  predicate TdLinked(td: map<Hash, int>, h: Header) {
    Keccak(h) in td && h.parent in td && td[Keccak(h)] == td[h.parent] + h.difficulty
  }

  lemma StoreStep(stored: set<Header>, td: map<Hash, int>, genesis: Header, h: Header, newTd: int)
    requires ParentClosed(stored, genesis) && TdOk(stored, td, genesis)
    requires h.number > 0 && GetHeader(stored, h.parent, h.number - 1).Some? && newTd == td[h.parent] + h.difficulty
    ensures ParentClosed(stored + {h}, genesis) && TdOk(stored + {h}, td[Keccak(h) := newTd], genesis)
    ensures h in stored ==> stored + {h} == stored && td[Keccak(h) := newTd] == td
  {
    StoreClosed(stored, genesis, h);
    StoreTd(stored, td, genesis, h, newTd);
    hide ParentClosed, HasParent, TdOk;
  }

  lemma StoreClosed(stored: set<Header>, genesis: Header, h: Header)
    requires ParentClosed(stored, genesis) && HasParent(stored, h)
    ensures ParentClosed(stored + {h}, genesis)
  {
    forall g | g in stored + {h} && g != genesis ensures HasParent(stored + {h}, g) {
      hide HasParent;
      assert g == h || g in stored;
      StillParent(stored, h, g);
    }
  }

  lemma StillParent(stored: set<Header>, h: Header, g: Header)
    requires HasParent(stored, g)
    ensures HasParent(stored + {h}, g)
  {
  }

  lemma StoreTd(stored: set<Header>, td: map<Hash, int>, genesis: Header, h: Header, newTd: int)
    requires TdOk(stored, td, genesis) && h != genesis && h.parent in td && h.parent != Keccak(h)
    requires newTd == td[h.parent] + h.difficulty
    ensures TdOk(stored + {h}, td[Keccak(h) := newTd], genesis)
    ensures h in stored ==> td[Keccak(h) := newTd] == td
  {
    if h in stored {
      assert TdLinked(td, h);
      assert stored + {h} == stored && td[Keccak(h) := newTd] == td;
    } else {
      forall g | g in stored + {h} && g != genesis ensures TdLinked(td[Keccak(h) := newTd], g) {
        assert g in stored ==> TdLinked(td, g);
      }
    }
  }

  ghost predicate Extends(td: map<Hash, int>, td': map<Hash, int>) {
    forall x :: x in td ==> x in td' && td'[x] == td[x]
  }

  lemma ExtendsItself(td: map<Hash, int>)
    ensures Extends(td, td)
  {
  }

  function Members(hs: seq<Header>): set<Header> {
    set h | h in hs
  }

  lemma MembersStep(hs: seq<Header>, i: nat)
    requires i < |hs|
    ensures Members(hs[..i + 1]) == Members(hs[..i]) + {hs[i]}
  {
  }

  function GetTd(td: map<Hash, int>, hash: Hash, number: int): Option<int> {
    if hash.Keccak? && hash in td && hash.header.number == number then Some(td[hash]) else None
  }

  lemma NoMembers()
    ensures Members([]) == {} && |Members([])| == 0
  {
  }

  lemma FirstParent(stored: set<Header>, td: map<Hash, int>, genesis: Header, h: Header)
    requires ParentClosed(stored, genesis) && TdOk(stored, td, genesis)
    ensures GetTd(td, h.parent, h.number - 1).Some? <==> h.number > 0 && GetHeader(stored, h.parent, h.number - 1).Some?
    ensures GetTd(td, h.parent, h.number - 1).Some? ==>
              h.parent in td && GetTd(td, h.parent, h.number - 1).value == td[h.parent]
  {
  }

  /** How far WriteHeaders has come: with the batch applied, the first i headers are stored, each with its
      total difficulty, and newTd is that of the parent of the next. */
  ghost predicate Batched(stored: set<Header>, td: map<Hash, int>, genesis: Header, hs: seq<Header>, i: nat,
                          batch: set<Header>, batchTd: map<Hash, int>, newTd: int) {
    var s, t := stored + batch, td + batchTd;
    && i <= |hs| && ParentClosed(s, genesis) && TdOk(s, t, genesis) && s == stored + Members(hs[..i])
    && batch !! stored
    && (forall x :: x in batchTd ==> x !in td)
    && (if i < |hs| then hs[i].number > 0 && GetHeader(s, hs[i].parent, hs[i].number - 1).Some?
        && newTd == t[hs[i].parent]
        else true)
  }

  lemma BatchStart(stored: set<Header>, td: map<Hash, int>, genesis: Header, hs: seq<Header>, newTd: int)
    requires ParentClosed(stored, genesis) && TdOk(stored, td, genesis) && |hs| > 0
    requires GetTd(td, hs[0].parent, hs[0].number - 1) == Some(newTd)
    ensures Batched(stored, td, genesis, hs, 0, {}, map[], newTd)
  {
    NoMembers();
    assert td + map[] == td && stored + {} == stored && hs[..0] == [];
  }

  lemma BatchStep(stored: set<Header>, td: map<Hash, int>, genesis: Header, hs: seq<Header>, i: nat,
                  batch: set<Header>, batchTd: map<Hash, int>, newTd: int)
    requires ParentClosed(stored, genesis) && TdOk(stored, td, genesis) && Linked(hs) && i < |hs|
    requires Batched(stored, td, genesis, hs, i, batch, batchTd, newTd)
    ensures i < |hs| - 1 ==> hs[i + 1].parent == Keccak(hs[i])
    ensures GetHeader(stored, Keccak(hs[i]), hs[i].number).Some? <==> hs[i] in stored
    ensures hs[i] in stored && i > 0 ==> hs[i - 1] in stored
    ensures hs[i] !in batch
    ensures if hs[i] in stored then Batched(stored, td, genesis, hs, i + 1, batch, batchTd, newTd + hs[i].difficulty)
            else Batched(stored, td, genesis, hs, i + 1, batch + {hs[i]},
                         batchTd[Keccak(hs[i]) := newTd + hs[i].difficulty],
                         newTd + hs[i].difficulty)
  {
    hide Batched;
    if hs[i] in stored {
      NotGenesis(stored, td, genesis, hs, i, batch, batchTd, newTd);
      assert i > 0 ==> Keccak(hs[i - 1]) == hs[i].parent;
      KnownStep(stored, td, genesis, hs, i, batch, batchTd, newTd);
    } else {
      NewStep(stored, td, genesis, hs, i, batch, batchTd, newTd);
    }
  }

  lemma NotGenesis(stored: set<Header>, td: map<Hash, int>, genesis: Header, hs: seq<Header>, i: nat,
                   batch: set<Header>, batchTd: map<Hash, int>, newTd: int)
    requires ParentClosed(stored, genesis) && i < |hs| && Batched(stored, td, genesis, hs, i, batch, batchTd, newTd)
    ensures hs[i] != genesis && batch !! stored
  {
  }

  lemma KnownStep(stored: set<Header>, td: map<Hash, int>, genesis: Header, hs: seq<Header>, i: nat,
                  batch: set<Header>, batchTd: map<Hash, int>, newTd: int)
    requires Linked(hs) && i < |hs| && Batched(stored, td, genesis, hs, i, batch, batchTd, newTd) && hs[i] in stored
    ensures Batched(stored, td, genesis, hs, i + 1, batch, batchTd, newTd + hs[i].difficulty)
  {
    hide ParentClosed, TdOk, Members;
    var s, t := stored + batch, td + batchTd;
    StoreStep(s, t, genesis, hs[i], newTd + hs[i].difficulty);
    MembersStep(hs, i);
    assert stored + Members(hs[..i + 1]) == s;
  }

  lemma NotYet(hs: seq<Header>, i: nat)
    requires Linked(hs) && i < |hs|
    ensures hs[i] !in Members(hs[..i])
  {
    forall j | 0 <= j < i ensures hs[j] != hs[i] {
      LinkedNumbers(hs, j);
      LinkedNumbers(hs, i);
    }
  }

  lemma Untracked(stored: set<Header>, td: map<Hash, int>, genesis: Header, h: Header)
    requires TdOk(stored, td, genesis) && h !in stored
    ensures Keccak(h) !in td
  {
  }

  lemma UpdateLast(td: map<Hash, int>, batchTd: map<Hash, int>, x: Hash, v: int)
    ensures td + batchTd[x := v] == (td + batchTd)[x := v]
  {
  }

  lemma InsertLast(stored: set<Header>, batch: set<Header>, some: set<Header>, h: Header)
    ensures stored + (batch + {h}) == stored + batch + {h} && stored + (some + {h}) == stored + some + {h}
  {
  }

  lemma NextParent(hs: seq<Header>, i: nat)
    requires Linked(hs) && i < |hs|
    ensures i + 1 < |hs| ==> hs[i + 1].parent == Keccak(hs[i]) && hs[i + 1].number == hs[i].number + 1
  {
  }

  lemma NewStep(stored: set<Header>, td: map<Hash, int>, genesis: Header, hs: seq<Header>, i: nat,
                batch: set<Header>, batchTd: map<Hash, int>, newTd: int)
    requires TdOk(stored, td, genesis) && Linked(hs) && i < |hs| && hs[i] !in stored
    requires Batched(stored, td, genesis, hs, i, batch, batchTd, newTd)
    ensures Batched(stored, td, genesis, hs, i + 1, batch + {hs[i]}, batchTd[Keccak(hs[i]) := newTd + hs[i].difficulty],
                    newTd + hs[i].difficulty)
    ensures hs[i] !in batch
  {
    hide ParentClosed, TdOk, Members, Linked;
    NotYet(hs, i);
    Untracked(stored, td, genesis, hs[i]);
    var h, newTd' := hs[i], newTd + hs[i].difficulty;
    var s, t := stored + batch, td + batchTd;
    assert h !in s;
    StoreStep(s, t, genesis, h, newTd');
    MembersStep(hs, i);
    UpdateLast(td, batchTd, Keccak(h), newTd');
    InsertLast(stored, batch, Members(hs[..i]), h);
    NextParent(hs, i);
  }

  lemma BatchEnd(stored: set<Header>, td: map<Hash, int>, genesis: Header, hs: seq<Header>,
                 batch: set<Header>, batchTd: map<Hash, int>, newTd: int)
    requires Batched(stored, td, genesis, hs, |hs|, batch, batchTd, newTd)
    ensures stored + batch == stored + Members(hs) && |batch| == |Members(hs) - stored|
    ensures ParentClosed(stored + batch, genesis) && TdOk(stored + batch, td + batchTd, genesis)
    ensures Extends(td, td + batchTd)
  {
    assert hs[..|hs|] == hs;
    assert Members(hs) - stored == batch;
  }

  /** Pending changes to the canonical index: a hash to write, or None for a deletion. */
  type CanonBatch = map<nat, Option<Hash>>

  function Applied(canon: map<nat, Hash>, batch: CanonBatch): map<nat, Hash> {
    map n | n in canon.Keys + batch.Keys && (n in batch ==> batch[n].Some?) ::
      if n in batch then batch[n].value else canon[n]
  }

  /** What Reorg's batch holds for a new head: deletions above it, and ancestors of it, all of them above a
      number m where the old index agrees with the new chain. */
  ghost predicate ReorgBatch(canon: map<nat, Hash>, last: Header, batch: CanonBatch, m: nat) {
    && m <= last.number && m in canon && canon[m] == Up(Keccak(last), last.number - m)
    && (forall n: nat :: n in canon && n > last.number ==> n in batch && batch[n].None?)
    && (forall n :: n in batch ==> batch[n].None? == (n > last.number))
    && (forall n :: n in batch && n <= last.number ==> batch[n] == Some(Up(Keccak(last), last.number - n)))
    && (forall n: nat :: m < n <= last.number ==> n in batch)
  }

  /** Below a number where an index agrees with a chain, it agrees all the way down. */
  lemma AgreeBelow(canon: map<nat, Hash>, head: Header, last: Header, m: nat, n: nat)
    requires IsCanon(canon, head) && m <= last.number && m in canon && canon[m] == Up(Keccak(last), last.number - m)
    requires n <= m
    ensures n in canon && canon[n] == Up(Keccak(last), last.number - n)
  {
    hide Up;
    UpSplit(Keccak(head), head.number - m, m - n, head.number - n);
    UpSplit(Keccak(last), last.number - m, m - n, last.number - n);
  }

  lemma ReorgDone(canon: map<nat, Hash>, head: Header, last: Header, batch: CanonBatch, m: nat)
    requires IsCanon(canon, head) && ReorgBatch(canon, last, batch, m)
    ensures IsCanon(Applied(canon, batch), last)
  {
    hide Up;
    var c := Applied(canon, batch);
    forall n: nat ensures n in c <==> n <= last.number {
      if n <= m {
        AgreeBelow(canon, head, last, m, n);
      }
    }
    forall n | n in c ensures c[n] == Up(Keccak(last), last.number - n) {
      if n <= m {
        AgreeBelow(canon, head, last, m, n);
      }
    }
  }

  /** A batch for the first new header, continued over the others, is a batch for the last. */
  lemma Continued(canon: map<nat, Hash>, hs: seq<Header>, above: CanonBatch, batch: CanonBatch, m: nat)
    requires Linked(hs) && |hs| > 0 && m <= hs[0].number
    requires m in canon && canon[m] == Up(Keccak(hs[0]), hs[0].number - m)
    requires forall n :: n in above ==> n <= hs[0].number || (n > hs[|hs| - 1].number && above[n].None?)
    requires forall n :: n in above && n <= hs[0].number ==> above[n] == Some(Up(Keccak(hs[0]), hs[0].number - n))
    requires forall n: nat :: m < n < hs[0].number ==> n in above
    requires forall n: nat :: n in canon && n > hs[|hs| - 1].number ==> n in above
    requires Written(hs, |hs|, above, batch)
    ensures ReorgBatch(canon, hs[|hs| - 1], batch, m)
  {
    hide Up;
    var last := hs[|hs| - 1];
    LinkedUp(hs, 0);
    LinkedNumbers(hs, |hs| - 1);
    UpSplit(Keccak(last), |hs| - 1, hs[0].number - m, last.number - m);
    forall n | n in batch && n <= last.number ensures batch[n] == Some(Up(Keccak(last), last.number - n)) {
      if n >= hs[0].number {
        LinkedUp(hs, n - hs[0].number);
      } else {
        UpSplit(Keccak(last), |hs| - 1, hs[0].number - n, last.number - n);
      }
    }
  }

  /** The batch after the first i new headers are written. */
  ghost predicate Written(hs: seq<Header>, i: nat, above: CanonBatch, batch: CanonBatch) {
    && 0 < |hs| && i <= |hs|
    && (forall n: nat :: n in batch <==> n in above || hs[0].number <= n < hs[0].number + i)
    && (forall n :: n in batch && !(hs[0].number <= n < hs[0].number + i) ==> batch[n] == above[n])
    && (forall n: nat :: hs[0].number <= n < hs[0].number + i ==> batch[n] == Some(Keccak(hs[n - hs[0].number])))
  }

  /** Along a linked stretch without negative difficulties, the total difficulty does not fall. */
  lemma {:induction false} LastIsHeaviest(stored: set<Header>, td: map<Hash, int>, genesis: Header, hs: seq<Header>,
                                          i: nat)
    requires TdOk(stored, td, genesis) && ParentClosed(stored, genesis) && Linked(hs) && i < |hs|
    requires Members(hs) <= stored
    requires forall h :: h in hs ==> h.difficulty >= 0
    ensures Keccak(hs[i]) in td && Keccak(hs[|hs| - 1]) in td && td[Keccak(hs[i])] <= td[Keccak(hs[|hs| - 1])]
    decreases |hs| - i
  {
    assert hs[i] in Members(hs) && hs[|hs| - 1] in Members(hs);
    if i + 1 < |hs| {
      hide Members;
      LastIsHeaviest(stored, td, genesis, hs, i + 1);
      assert hs[i + 1].number > 0;
    }
  }

  ghost predicate Heaviest(stored: set<Header>, td: map<Hash, int>, head: Header) {
    Keccak(head) in td && forall h :: h in stored ==> Keccak(h) in td && td[Keccak(h)] <= td[Keccak(head)]
  }

  /** After a batch, its last header or the old head is the heaviest, whichever is heavier. */
  lemma HeaviestAfter(stored: set<Header>, td: map<Hash, int>, stored': set<Header>, td': map<Hash, int>,
                      genesis: Header,
                      hs: seq<Header>, head: Header, head': Header)
    requires Heaviest(stored, td, head) && Extends(td, td') && stored' == stored + Members(hs) && |hs| > 0 && Linked(hs)
    requires TdOk(stored', td', genesis) && ParentClosed(stored', genesis) && forall h :: h in hs ==> h.difficulty >= 0
    requires head' == hs[|hs| - 1] || head' == head
    requires Keccak(head') in td' && Keccak(hs[|hs| - 1]) in td'
    requires td'[Keccak(head)] <= td'[Keccak(head')] && td'[Keccak(hs[|hs| - 1])] <= td'[Keccak(head')]
    ensures Heaviest(stored', td', head')
  {
    hide TdOk, ParentClosed, Linked;
    forall h | h in stored' ensures Keccak(h) in td' && td'[Keccak(h)] <= td'[Keccak(head')] {
      if h !in stored {
        var i :| 0 <= i < |hs| && hs[i] == h;
        LastIsHeaviest(stored', td', genesis, hs, i);
      }
    }
  }

  lemma Lighter(stored: set<Header>, td: map<Hash, int>, td': map<Hash, int>, head: Header, h: Header)
    requires Heaviest(stored, td, head) && h in stored && Extends(td, td')
    ensures Keccak(h) in td' && Keccak(head) in td' && td'[Keccak(h)] <= td'[Keccak(head)]
  {
  }

  /** ReadAllHashes: the stored headers of a number. */
  function Level(stored: set<Header>, n: nat): set<Header> {
    set h | h in stored && h.number == n
  }

  /** The levels of a store have no gap. */
  lemma LevelBelow(stored: set<Header>, genesis: Header, h: Header, n: nat)
    requires ParentClosed(stored, genesis) && h in stored && n <= h.number
    ensures Level(stored, n) != {}
  {
    hide ParentClosed;
    AncestorStored(stored, genesis, h, h.number - n);
    assert Up(Keccak(h), h.number - n).header in Level(stored, n);
  }

  ghost predicate NoneAbove(stored: set<Header>, n: nat) {
    forall h :: h in stored ==> h.number <= n
  }

  /** What is left of the store below a number. */
  function HeadersTo(stored: set<Header>, n: nat): set<Header> {
    set h | h in stored && h.number <= n
  }

  function TdTo(td: map<Hash, int>, n: nat): map<Hash, int> {
    map x | x in td && x.Keccak? && x.header.number <= n :: td[x]
  }

  function CanonTo(canon: map<nat, Hash>, n: nat): map<nat, Hash> {
    map k | k in canon && k <= n :: canon[k]
  }

  lemma Rewound(stored: set<Header>, td: map<Hash, int>, canon: map<nat, Hash>, genesis: Header, head: Header,
                head': Header)
    requires ParentClosed(stored, genesis) && TdOk(stored, td, genesis) && IsCanon(canon, head) && head' in stored
    requires head'.number <= head.number && Keccak(head') == Up(Keccak(head), head.number - head'.number)
    ensures ParentClosed(HeadersTo(stored, head'.number), genesis)
    ensures TdOk(HeadersTo(stored, head'.number), TdTo(td, head'.number), genesis)
    ensures IsCanon(CanonTo(canon, head'.number), head')
  {
    hide ParentClosed, TdOk, IsCanon;
    RewoundStore(stored, td, genesis, head'.number);
    RewoundCanon(canon, head, head');
  }

  lemma RewoundCanon(canon: map<nat, Hash>, head: Header, head': Header)
    requires IsCanon(canon, head)
    requires head'.number <= head.number && Keccak(head') == Up(Keccak(head), head.number - head'.number)
    ensures IsCanon(CanonTo(canon, head'.number), head')
  {
    hide Up, IsCanon;
    forall n: nat | n <= head'.number ensures n in canon && canon[n] == AncestorAt(head', n) {
      RewoundAt(canon, head, head', n);
    }
    FromAncestors(CanonTo(canon, head'.number), head');
  }

  lemma RewoundAt(canon: map<nat, Hash>, head: Header, head': Header, n: nat)
    requires IsCanon(canon, head) && n <= head'.number <= head.number
    requires Keccak(head') == Up(Keccak(head), head.number - head'.number)
    ensures n in canon && canon[n] == AncestorAt(head', n)
  {
    hide Up, IsCanon;
    CanonEntry(canon, head, n);
    UpSplit(Keccak(head), head.number - head'.number, head'.number - n, head.number - n);
  }

  lemma CanonEntry(canon: map<nat, Hash>, head: Header, n: nat)
    requires IsCanon(canon, head) && n <= head.number
    ensures n in canon && canon[n] == AncestorAt(head, n)
  {
    hide AncestorAt;
  }

  lemma FromAncestors(canon: map<nat, Hash>, head: Header)
    requires forall n: nat :: n in canon <==> n <= head.number
    requires forall n: nat :: n in canon ==> canon[n] == AncestorAt(head, n)
    ensures IsCanon(canon, head)
  {
  }

  function TdWithout(td: map<Hash, int>, gone: set<Header>): map<Hash, int> {
    map x | x in td && !(x.Keccak? && x.header in gone) :: td[x]
  }

  lemma TdStored(stored: set<Header>, td: map<Hash, int>, genesis: Header)
    requires TdOk(stored, td, genesis)
    ensures forall x :: x in td ==> x.Keccak? && x.header in stored
  {
  }

  lemma WithoutNone(stored: set<Header>, td: map<Hash, int>, canon: map<nat, Hash>)
    ensures stored - {} == stored && TdWithout(td, {}) == td && canon - {} == canon
  {
  }

  /** Deleting all that is above n leaves what is up to n. */
  lemma WithoutAbove(stored: set<Header>, td: map<Hash, int>, canon: map<nat, Hash>, n: nat, gone: set<Header>,
                     canonGone: set<nat>)
    requires gone == (set h | h in stored && h.number > n)
    requires forall k: nat :: k in canon ==> (k in canonGone <==> k > n)
    requires forall x :: x in td ==> x.Keccak? && x.header in stored
    ensures stored - gone == HeadersTo(stored, n) && TdWithout(td, gone) == TdTo(td, n)
    ensures canon - canonGone == CanonTo(canon, n)
  {
  }

  lemma RewoundStore(stored: set<Header>, td: map<Hash, int>, genesis: Header, n: nat)
    requires ParentClosed(stored, genesis) && TdOk(stored, td, genesis)
    ensures ParentClosed(HeadersTo(stored, n), genesis) && TdOk(HeadersTo(stored, n), TdTo(td, n), genesis)
  {
  }

  lemma Fewer(stored: set<Header>, n: nat)
    requires Level(stored, n) != {}
    ensures |set h | h in stored && h.number >= n + 1| < |set h | h in stored && h.number >= n|
  {
    var h :| h in Level(stored, n);
    var a, b := set h | h in stored && h.number >= n + 1, set h | h in stored && h.number >= n;
    assert a <= b && h in b && h !in a;
    SmallerSet(a, b);
  }

  lemma SmallerSet(a: set<Header>, b: set<Header>)
    requires a < b
    ensures |a| < |b|
  {
    var h :| h in b && h !in a;
    assert |b - a| > 0 by {
      assert h in b - a;
    }
    assert a + (b - a) == b;
  }

  /** A call on the header chain. */
  datatype Op = Insert(hs: seq<Header>, coin: bool) | Rewind(head: nat)

  /** Batches come non-empty and linked, as their validation makes sure. */
  ghost predicate Proper(op: Op) {
    op.Insert? ==> |op.hs| > 0 && Linked(op.hs)
  }

  ghost predicate Weighty(op: Op) {
    op.Insert? && forall h :: h in op.hs ==> h.difficulty >= 0
  }

  lemma UpOne(x: Hash)
    ensures Up(x, 0) == x && (x.Keccak? ==> Up(x, 1) == x.header.parent)
  {
    assert x.Keccak? ==> Up(x, 1) == Up(x.header.parent, 0);
  }

  class HeaderChain {
    const genesis: Header
    const forker: ForkChoice
    var headers: set<Header>
    var td: map<Hash, int>
    var canon: map<nat, Hash>
    var currentHeader: Header
    var currentHeaderHash: Hash

    /** The invariant of every operation. */
    ghost predicate Valid()
      reads this
    {
      && ParentClosed(headers, genesis) && TdOk(headers, td, genesis)
      && currentHeader in headers && currentHeaderHash == Keccak(currentHeader) && IsCanon(canon, currentHeader)
    }

    constructor (genesis: Header, forker: ForkChoice)
      requires genesis.number == 0
      ensures Valid() && headers == {genesis} && currentHeader == genesis && HeadIsHeaviest()
      ensures this.genesis == genesis && this.forker == forker
    {
      this.genesis, this.forker := genesis, forker;
      headers, td, canon := {genesis}, map[Keccak(genesis) := genesis.difficulty], map[0 := Keccak(genesis)];
      currentHeader, currentHeaderHash := genesis, Keccak(genesis);
      new;
      assert Up(Keccak(genesis), 0) == Keccak(genesis);
    }

    /** No stored header has a higher total difficulty than the head. */
    ghost predicate HeadIsHeaviest()
      reads this
    {
      Heaviest(headers, td, currentHeader)
    }

    /** A header's total difficulty; 0 if it has none. */
    function WeightOf(h: Header): int
      reads this
    {
      if Keccak(h) in td then td[Keccak(h)] else 0
    }

    /** The loop of WriteHeaders: collects the headers to store and their total difficulties. */
    method Batch(hs: seq<Header>, ptd: int) returns (batch: set<Header>, batchTd: map<Hash, int>, inserted: nat)
      requires ParentClosed(headers, genesis) && TdOk(headers, td, genesis) && Linked(hs) && |hs| > 0
      requires GetTd(td, hs[0].parent, hs[0].number - 1) == Some(ptd)
      ensures headers + batch == headers + Members(hs) && inserted == |Members(hs) - headers|
      ensures ParentClosed(headers + batch, genesis) && TdOk(headers + batch, td + batchTd, genesis)
      ensures Extends(td, td + batchTd)
    {
      hide ParentClosed, TdOk, Members, Linked, Batched, GetTd, Extends;
      var newTd, parentKnown := ptd, true;
      batch, batchTd, inserted := {}, map[], 0;
      BatchStart(headers, td, genesis, hs, newTd);
      for i := 0 to |hs|
        invariant Batched(headers, td, genesis, hs, i, batch, batchTd, newTd)
        invariant parentKnown == (i == 0 || hs[i - 1] in headers) && inserted == |batch|
      {
        BatchStep(headers, td, genesis, hs, i, batch, batchTd, newTd);
        var hash := if i < |hs| - 1 then hs[i + 1].parent else Keccak(hs[i]);
        newTd := newTd + hs[i].difficulty;
        var alreadyKnown := parentKnown && GetHeader(headers, hash, hs[i].number).Some?;
        if !alreadyKnown {
          batchTd := batchTd[hash := newTd];
          batch, inserted := batch + {hs[i]}, inserted + 1;
        }
        parentKnown := alreadyKnown;
      }
      BatchEnd(headers, td, genesis, hs, batch, batchTd, newTd);
    }

    /** WriteHeaders stores a linked batch whose parent is known, skipping the headers it has. */
    method WriteHeaders(hs: seq<Header>) returns (inserted: nat, err: Option<Error>)
      requires Valid() && Linked(hs)
      modifies this`headers, this`td
      ensures Valid()
      ensures err.Some? <==>
              |hs| > 0 && (hs[0].number == 0 || GetHeader(old(headers), hs[0].parent, hs[0].number - 1).None?)
      ensures err.Some? ==> headers == old(headers) && td == old(td)
      ensures err.None? ==> headers == old(headers) + Members(hs) && inserted == |Members(hs) - old(headers)|
      ensures Extends(old(td), td)
    {
      hide ParentClosed, TdOk, IsCanon, Members, Linked, GetTd, Extends;
      if |hs| == 0 {
        NoMembers();
        ExtendsItself(td);
        return 0, None;
      }
      var ptd := GetTd(td, hs[0].parent, hs[0].number - 1);
      FirstParent(headers, td, genesis, hs[0]);
      if ptd.None? {
        ExtendsItself(td);
        return 0, Some(UnknownAncestor);
      }
      var batch, batchTd;
      batch, batchTd, inserted := Batch(hs, ptd.value);
      headers := headers + batch;
      td := td + batchTd;
      return inserted, None;
    }

    /** Reorg, first loop: canonical entries above the new head go. */
    method DeleteAbove(number: nat) returns (batch: CanonBatch)
      requires Valid()
      ensures forall n: nat :: n in batch <==> number < n <= currentHeader.number
      ensures forall n :: n in batch ==> batch[n].None?
    {
      hide ParentClosed, TdOk;
      batch := map[];
      var i := number + 1;
      while ReadCanonicalHash(canon, i) != Zero
        invariant number < i && (i > number + 1 ==> i <= currentHeader.number + 1)
        invariant forall n: nat :: n in batch <==> number < n < i
        invariant forall n :: n in batch ==> batch[n].None?
        decreases currentHeader.number - i
      {
        batch := batch[i := None];
        i := i + 1;
      }
      assert i > currentHeader.number by {
        if i <= currentHeader.number {
          CanonLinked(canon, currentHeader, headers, genesis, i);
        }
      }
    }

    /** Reorg, second loop: ancestors of the first new header are written down to one the index has. The walk
        neither passes the genesis nor misses a parent. */
    method RewriteStale(first: Header, above: CanonBatch) returns (batch: CanonBatch, ghost m: nat)
      requires Valid() && first in headers && forall n :: n in above ==> n > first.number
      ensures m <= first.number && m in canon && canon[m] == Up(Keccak(first), first.number - m)
      ensures forall n: nat :: n in batch <==> n in above || m < n <= first.number
      ensures forall n :: n in above ==> batch[n] == above[n]
      ensures forall n: nat :: m < n <= first.number ==> batch[n] == Some(Up(Keccak(first), first.number - n))
    {
      hide TdOk, ParentClosed;
      batch := above;
      var header, headNumber, headHash := first, first.number, Keccak(first);
      while ReadCanonicalHash(canon, headNumber) != headHash
        invariant headNumber <= first.number && header in headers && header.number == headNumber
        invariant headHash == Keccak(header) == Up(Keccak(first), first.number - headNumber)
        invariant forall n: nat :: n in batch <==> n in above || headNumber < n <= first.number
        invariant forall n :: n in above ==> batch[n] == above[n]
        invariant forall n: nat :: headNumber < n <= first.number ==>
                    batch[n] == Some(Up(Keccak(first), first.number - n))
        decreases headNumber
      {
        RootReached(header);
        AncestorStored(headers, genesis, first, first.number - headNumber + 1);
        batch := batch[headNumber := Some(headHash)];
        if headNumber == 0 {
          assert false;
        }
        headHash, headNumber := header.parent, headNumber - 1;
        var parent := GetHeader(headers, headHash, headNumber);
        if parent.None? {
          assert false;
        }
        header := parent.value;
      }
      m := headNumber;
    }

    /** The index has the genesis, so the walk never runs below it. */
    lemma RootReached(header: Header)
      requires Valid() && header in headers
      ensures header.number == 0 ==> ReadCanonicalHash(canon, 0) == Keccak(header)
    {
      CanonLinked(canon, currentHeader, headers, genesis, 0);
    }

    /** Reorg, third loop: the new headers are written. */
    method WriteCanonical(hs: seq<Header>, above: CanonBatch) returns (batch: CanonBatch)
      requires Linked(hs) && |hs| > 0
      ensures Written(hs, |hs|, above, batch)
    {
      hide Linked;
      batch := above;
      for i := 0 to |hs| - 1
        invariant Written(hs, i, above, batch)
      {
        LinkedNumbers(hs, i);
        NextParent(hs, i);
        batch := batch[hs[i].number := Some(hs[i + 1].parent)];
      }
      LinkedNumbers(hs, |hs| - 1);
      batch := batch[hs[|hs| - 1].number := Some(Keccak(hs[|hs| - 1]))];
    }

    /** Reorg up to the new headers: nothing to rewind if they extend the head. */
    method Rewind(first: Header, number: nat) returns (batch: CanonBatch, ghost m: nat)
      requires Valid() && first in headers && first.number <= number
      ensures m <= first.number && m in canon && canon[m] == Up(Keccak(first), first.number - m)
      ensures forall n: nat :: n in batch ==> m < n <= first.number || number < n
      ensures forall n: nat :: m < n < first.number || (n in canon && number < n) ==> n in batch
      ensures forall n: nat :: n in batch && n <= first.number ==> batch[n] == Some(Up(Keccak(first), first.number - n))
      ensures forall n: nat :: n in batch && n > first.number ==> batch[n].None?
    {
      hide ParentClosed, TdOk;
      if first.parent == currentHeaderHash {
        batch, m := map[], currentHeader.number;
        ExtendsHead(first);
        return;
      }
      batch := DeleteAbove(number);
      batch, m := RewriteStale(first, batch);
    }

    lemma FirstStored(hs: seq<Header>)
      requires Valid() && Linked(hs) && |hs| > 0 && hs[|hs| - 1] in headers
      ensures hs[0] in headers && hs[0].number <= hs[|hs| - 1].number
    {
      hide TdOk, IsCanon;
      LinkedUp(hs, 0);
      AncestorStored(headers, genesis, hs[|hs| - 1], |hs| - 1);
    }

    lemma ExtendsHead(first: Header)
      requires Valid() && first in headers && first.parent == Keccak(currentHeader)
      ensures first.number == currentHeader.number + 1 && canon[currentHeader.number] == Up(Keccak(first), 1)
    {
      if first == genesis {
        AncestorStored(headers, genesis, currentHeader, currentHeader.number);
        UpIsShallower(Keccak(currentHeader), currentHeader.number);
      }
      assert Up(Keccak(first), 1) == Up(first.parent, 0);
    }

    /** Reorg makes a linked stretch of stored headers the end of the canonical chain. */
    method Reorg(hs: seq<Header>)
      requires Valid() && Linked(hs) && (|hs| > 0 ==> hs[|hs| - 1] in headers)
      modifies this`canon, this`currentHeader, this`currentHeaderHash
      ensures Valid()
      ensures |hs| == 0 ==> canon == old(canon) && currentHeader == old(currentHeader)
      ensures |hs| > 0 ==> currentHeader == hs[|hs| - 1]
    {
      hide ParentClosed, TdOk, IsCanon, Linked, Written, ReorgBatch;
      if |hs| == 0 {
        return;
      }
      var last := hs[|hs| - 1];
      FirstStored(hs);
      var batch, m := Rewind(hs[0], last.number);
      ghost var above := batch;
      batch := WriteCanonical(hs, batch);
      Continued(canon, hs, above, batch, m);
      ReorgDone(canon, currentHeader, last, batch, m);
      canon := Applied(canon, batch);
      currentHeaderHash := Keccak(last);
      currentHeader := last;
    }

    /** writeHeadersAndSetHead stores a linked batch and makes its last header the head if the fork choice
        says so; `coin` is the fork choice's random draw. */
    method WriteHeadersAndSetHead(hs: seq<Header>, coin: bool) returns (status: WriteStatus, err: Option<Error>)
      requires Valid() && Linked(hs) && |hs| > 0
      modifies this
      ensures Valid()
      ensures err.Some? <==> hs[0].number == 0 || GetHeader(old(headers), hs[0].parent, hs[0].number - 1).None?
      ensures err.Some? ==>
                headers == old(headers) && td == old(td) && canon == old(canon) && currentHeader == old(currentHeader)
      ensures err.None? ==> headers == old(headers) + Members(hs) && Extends(old(td), td)
      ensures err.None? ==>
                (status == CanonStatTy <==>
                   && ReorgNeeded(forker, td, old(currentHeader), hs[|hs| - 1], coin) == Some(true)
                   && !(old(Canonical(hs[|hs| - 1])) && hs[|hs| - 1].number <= old(currentHeader).number))
      ensures err.None? && status == CanonStatTy ==> currentHeader == hs[|hs| - 1]
      ensures err.None? && status != CanonStatTy ==> canon == old(canon) && currentHeader == old(currentHeader)
      ensures forker.ttd.None? && old(HeadIsHeaviest()) && (forall h :: h in hs ==> h.difficulty >= 0) ==>
                HeadIsHeaviest() && WeightOf(currentHeader) >= old(WeightOf(currentHeader))
    {
      hide ParentClosed, TdOk, IsCanon, Linked, Members, Extends, Heaviest;
      ghost var head := currentHeader;
      HeadTracked();
      if Canonical(hs[|hs| - 1]) {
        CanonicalStored(hs[|hs| - 1]);
      }
      var inserted;
      inserted, err := WriteHeaders(hs);
      if err.Some? {
        return NonStatTy, err;
      }
      StoredFacts(old(td), head, hs);
      status := ChooseHead(hs, inserted, coin);
      if forker.ttd.None? && old(HeadIsHeaviest()) && forall h :: h in hs ==> h.difficulty >= 0 {
        if old(Canonical(hs[|hs| - 1])) {
          Lighter(old(headers), old(td), td, head, hs[|hs| - 1]);
        }
        HeaviestAfter(old(headers), old(td), headers, td, genesis, hs, head, currentHeader);
      }
    }

    /** The header is on the canonical chain. */
    predicate Canonical(h: Header)
      reads this
    {
      ReadCanonicalHash(canon, h.number) == Keccak(h)
    }

    /** The fork choice wants the stored header as head, and it is not on the canonical chain yet. */
    predicate Switches(h: Header, coin: bool)
      reads this
    {
      && ReorgNeeded(forker, td, currentHeader, h, coin) == Some(true)
      && !(Canonical(h) && h.number <= currentHeader.number)
    }

    /** writeHeadersAndSetHead, once the headers are stored. */
    method ChooseHead(hs: seq<Header>, inserted: nat, coin: bool) returns (status: WriteStatus)
      requires Valid() && Linked(hs) && |hs| > 0 && hs[|hs| - 1] in headers
      requires Keccak(hs[|hs| - 1]) in td && Keccak(currentHeader) in td
      modifies this`canon, this`currentHeader, this`currentHeaderHash
      ensures Valid()
      ensures status == CanonStatTy <==> old(Switches(hs[|hs| - 1], coin))
      ensures status == SideStatTy <==>
              inserted != 0 && ReorgNeeded(forker, td, old(currentHeader), hs[|hs| - 1], coin) == Some(false)
      ensures var last := hs[|hs| - 1];
              if status == CanonStatTy then
                && currentHeader == last
                && (forker.ttd.None? ==> td[Keccak(last)] >= td[Keccak(old(currentHeader))])
              else
                && canon == old(canon) && currentHeader == old(currentHeader)
                && (forker.ttd.None? ==> td[Keccak(last)] <= td[Keccak(currentHeader)] || old(Canonical(last)))
    {
      hide ParentClosed, TdOk, IsCanon, Linked, ReorgNeeded;
      var last := hs[|hs| - 1];
      var reorg := ReorgNeeded(forker, td, currentHeader, last, coin);
      if !reorg.value {
        return if inserted != 0 then SideStatTy else NonStatTy;
      }
      if Canonical(last) && last.number <= currentHeader.number {
        return NonStatTy;
      }
      Reorg(hs);
      return CanonStatTy;
    }

    lemma HeadTracked()
      requires Valid()
      ensures Keccak(currentHeader) in td
    {
    }

    lemma CanonicalStored(h: Header)
      requires Valid() && Canonical(h)
      ensures h in headers
    {
      hide ParentClosed, TdOk;
      CanonLinked(canon, currentHeader, headers, genesis, h.number);
    }

    lemma StoredFacts(before: map<Hash, int>, head: Header, hs: seq<Header>)
      requires Valid() && |hs| > 0 && Members(hs) <= headers && Extends(before, td) && head == currentHeader
      ensures hs[|hs| - 1] in headers && Keccak(hs[|hs| - 1]) in td && Keccak(head) in td
      ensures Keccak(head) in before ==> td[Keccak(head)] == before[Keccak(head)]
    {
      hide ParentClosed, IsCanon;
      assert hs[|hs| - 1] in Members(hs);
    }

    /** SetHead, first iteration: the levels stored above the head, highest first. */
    method LevelsAbove(num: nat) returns (nums: seq<nat>)
      requires ParentClosed(headers, genesis)
      ensures forall n :: n in nums ==> n > num && Level(headers, n) != {}
      ensures forall h :: h in headers && h.number > num ==> h.number in nums
    {
      hide ParentClosed;
      nums := [];
      var n := num + 1;
      while Level(headers, n) != {}
        invariant forall k :: k in nums ==> k > num && Level(headers, k) != {}
        invariant n > num && forall k: nat :: num < k < n ==> k in nums
        decreases |set h | h in headers && h.number >= n|
      {
        Fewer(headers, n);
        nums := [n] + nums;
        n := n + 1;
      }
      forall h | h in headers && h.number > num ensures h.number in nums {
        if h.number >= n {
          LevelBelow(headers, genesis, h, n);
        }
      }
    }

    /** SetHead, the deletions of some levels. */
    method Wipe(nums: seq<nat>) returns (gone: set<Header>, canonGone: set<nat>)
      requires forall n :: n in nums ==> Level(headers, n) != {}
      ensures gone == (set h | h in headers && h.number in nums) && canonGone == (set n | n in nums)
    {
      gone, canonGone := {}, {};
      for i := 0 to |nums|
        invariant gone == (set h | h in headers && h.number in nums[..i]) && canonGone == (set n | n in nums[..i])
      {
        gone, canonGone := gone + Level(headers, nums[i]), canonGone + {nums[i]};
      }
      assert nums[..|nums|] == nums;
    }

    /** SetHead rewinds the chain to a number: everything above goes, side branches included; but when the head
        is not above that number, nothing changes. */
    method SetHead(head: nat)
      requires Valid()
      modifies this
      ensures Valid()
      ensures old(currentHeader).number <= head ==>
                headers == old(headers) && td == old(td) && canon == old(canon) && currentHeader == old(currentHeader)
      ensures old(currentHeader).number > head ==>
                && headers == HeadersTo(old(headers), head) && td == TdTo(old(td), head)
                && canon == CanonTo(old(canon), head)
                && currentHeader.number == head && Keccak(currentHeader) == old(canon)[head]
                && (forall h :: h in headers <==> h in old(headers) && h.number <= head)
      ensures NoneAbove(headers, head) <==> old(currentHeader).number > head || NoneAbove(old(headers), head)
    {
      hide ParentClosed, TdOk, IsCanon, Up, Rewinding;
      var gone: set<Header>, canonGone: set<nat>, origin := {}, {}, true;
      ghost var h0 := currentHeader;
      RewindStart();
      while currentHeader.number > head
        invariant Rewinding(h0, gone, canonGone, origin)
        invariant headers == old(headers) && td == old(td) && canon == old(canon)
        invariant if origin then currentHeader == h0 else head <= currentHeader.number && head < h0.number
        decreases currentHeader.number
      {
        gone, canonGone := RewindOne(h0, gone, canonGone, origin);
        origin := false;
      }
      RewindEnd(h0, gone, canonGone, origin);
      headers := headers - gone;
      td := TdWithout(td, gone);
      canon := canon - canonGone;
    }

    /** How far SetHead has come: the head is an ancestor of h0, and what is above it is to be deleted. */
    ghost predicate Rewinding(h0: Header, gone: set<Header>, canonGone: set<nat>, origin: bool)
      reads this
    {
      && ParentClosed(headers, genesis) && TdOk(headers, td, genesis) && IsCanon(canon, h0) && h0 in headers
      && currentHeader in headers && currentHeaderHash == Keccak(currentHeader) && currentHeader.number <= h0.number
      && currentHeaderHash == Up(Keccak(h0), h0.number - currentHeader.number)
      && if origin then currentHeader == h0 && gone == {} && canonGone == {}
         else
           && gone == (set h | h in headers && h.number > currentHeader.number)
           && (forall n: nat :: n in canon ==> (n in canonGone <==> n > currentHeader.number))
    }

    lemma RewindStart()
      requires Valid()
      ensures Rewinding(currentHeader, {}, {}, true)
    {
      hide ParentClosed, TdOk;
    }

    lemma RewindEnd(h0: Header, gone: set<Header>, canonGone: set<nat>, origin: bool)
      requires Rewinding(h0, gone, canonGone, origin)
      ensures currentHeader.number in canon && canon[currentHeader.number] == Keccak(currentHeader)
      ensures if origin then
                && currentHeader == h0 && headers - gone == headers && canon - canonGone == canon
                && TdWithout(td, gone) == td
              else var n := currentHeader.number;
                   headers - gone == HeadersTo(headers, n) && canon - canonGone == CanonTo(canon, n)
                   && TdWithout(td, gone) == TdTo(td, n)
      ensures ParentClosed(headers - gone, genesis) && TdOk(headers - gone, TdWithout(td, gone), genesis)
      ensures IsCanon(canon - canonGone, currentHeader) && currentHeader in headers - gone
      ensures currentHeaderHash == Keccak(currentHeader)
    {
      hide ParentClosed, TdOk, Up;
      TdStored(headers, td, genesis);
      if origin {
        WithoutNone(headers, td, canon);
      } else {
        WithoutAbove(headers, td, canon, currentHeader.number, gone, canonGone);
        Rewound(headers, td, canon, genesis, h0, currentHeader);
      }
    }

    lemma ParentThere(h0: Header, gone: set<Header>, canonGone: set<nat>, origin: bool)
      requires Rewinding(h0, gone, canonGone, origin) && currentHeader.number > 0
      ensures GetHeader(headers, currentHeader.parent, currentHeader.number - 1).Some?
      ensures currentHeader.parent == Up(Keccak(h0), h0.number - (currentHeader.number - 1))
      ensures Level(headers, currentHeader.number) != {} && forall n: nat :: n in canon <==> n <= h0.number
    {
      hide TdOk, ParentClosed;
      AncestorStored(headers, genesis, h0, h0.number - currentHeader.number + 1);
      assert currentHeader in Level(headers, currentHeader.number);
    }

    /** SetHead, one iteration: the head moves to its parent, and its level is to be deleted; at first, so are
        the levels above. The parent is never missing. */
    method RewindOne(ghost h0: Header, gone: set<Header>, canonGone: set<nat>, origin: bool)
      returns (gone': set<Header>, canonGone': set<nat>)
      requires Rewinding(h0, gone, canonGone, origin) && currentHeader.number > 0
      modifies this`currentHeader, this`currentHeaderHash
      ensures Rewinding(h0, gone', canonGone', false) && currentHeader.number == old(currentHeader).number - 1
    {
      hide ParentClosed, TdOk, IsCanon, Up;
      var num := currentHeader.number;
      ParentThere(h0, gone, canonGone, origin);
      var parent := GetHeader(headers, currentHeader.parent, num - 1);
      if parent.None? {
        assert false;
      }
      currentHeader := parent.value;
      currentHeaderHash := Keccak(parent.value);
      var nums := [];
      if origin {
        nums := LevelsAbove(num);
      }
      nums := nums + [num];
      gone', canonGone' := Wipe(nums);
      gone', canonGone' := gone + gone', canonGone + canonGone';
    }

    /** One call. */
    method Step(op: Op)
      requires Valid() && Proper(op)
      modifies this
      ensures Valid()
      ensures forker.ttd.None? && old(HeadIsHeaviest()) && Weighty(op) ==>
                HeadIsHeaviest() && WeightOf(currentHeader) >= old(WeightOf(currentHeader))
    {
      hide Valid, Heaviest;
      match op
      case Insert(hs, coin) =>
        var status, err := WriteHeadersAndSetHead(hs, coin);
      case Rewind(head) =>
        SetHead(head);
    }

    /** Every run of insertions and rewinds keeps the invariant; over insertions alone, without a terminal total
        difficulty and negative difficulties, the head stays the heaviest header and its weight never falls. */
    method Run(ops: seq<Op>)
      requires Valid() && forall i :: 0 <= i < |ops| ==> Proper(ops[i])
      modifies this
      ensures Valid()
      ensures forker.ttd.None? && old(HeadIsHeaviest()) && (forall i :: 0 <= i < |ops| ==> Weighty(ops[i])) ==>
                HeadIsHeaviest() && WeightOf(currentHeader) >= old(WeightOf(currentHeader))
    {
      hide Valid, Heaviest;
      for i := 0 to |ops|
        invariant Valid()
        invariant forker.ttd.None? && old(HeadIsHeaviest()) && (forall k :: 0 <= k < i ==> Weighty(ops[k])) ==>
                    HeadIsHeaviest() && WeightOf(currentHeader) >= old(WeightOf(currentHeader))
      {
        Step(ops[i]);
      }
    }

    /** GetAncestor: the n-th ancestor of a block, by parent links until the chain is canonical and by the index
        from there on; at most `maxNonCanonical` links. The zero hash and number 0 mean failure. For a hash that
        is not zero an answer is right; the zero hash gets one from two numbers on when its number is above the head. */
    method GetAncestor(hash: Hash, number: nat, ancestor: nat, maxNonCanonical: nat)
      returns (hash': Hash, number': nat, maxNonCanonical': nat)
      requires Valid()
      ensures hash != Zero && hash' != Zero ==> hash' == Up(hash, ancestor) && number' == number - ancestor
      ensures hash == Zero ==>
                (hash' != Zero <==>
                 ancestor >= 2 && number > currentHeader.number && 0 <= number - ancestor <= currentHeader.number)
      ensures ancestor > number ==> hash' == Zero
      ensures GetHeader(headers, hash, number).Some? && ancestor <= number ==>
                (hash' != Zero <==> ancestor == 1 || Reaches(hash, number, ancestor, maxNonCanonical))
    {
      hide ParentClosed, TdOk, IsCanon, Up;
      maxNonCanonical' := maxNonCanonical;
      CanonEntries();
      UpOne(hash);
      if ancestor > number {
        return Zero, 0, maxNonCanonical';
      }
      if ancestor == 1 {
        var header := GetHeader(headers, hash, number);
        if header.Some? {
          ParentStored(headers, genesis, header.value);
          return header.value.parent, number - 1, maxNonCanonical';
        }
        return Zero, 0, maxNonCanonical';
      }
      var left: nat := ancestor;
      hash', number' := hash, number;
      while left != 0
        invariant left <= ancestor && number' == number - (ancestor - left) && hash' == Up(hash, ancestor - left)
        invariant maxNonCanonical' == maxNonCanonical - (ancestor - left)
        invariant left < ancestor ==> hash != Zero && GetHeader(headers, hash', number').Some?
        invariant GetHeader(headers, hash, number).Some? ==> GetHeader(headers, hash', number').Some?
        invariant forall j: nat :: j < ancestor - left ==> ReadCanonicalHash(canon, number - j) != Up(hash, j)
        decreases left
      {
        if ReadCanonicalHash(canon, number') == hash' {
          if hash' != Zero {
            CanonUp(canon, currentHeader, number', left);
            UpSplit(hash, ancestor - left, left, ancestor);
          }
          hash', number' := ReadCanonicalHash(canon, number' - left), number' - left;
          return;
        }
        if maxNonCanonical' == 0 {
          return Zero, 0, maxNonCanonical';
        }
        maxNonCanonical' := maxNonCanonical' - 1;
        left := left - 1;
        var header := GetHeader(headers, hash', number');
        if header.None? {
          return Zero, 0, maxNonCanonical';
        }
        ParentStored(headers, genesis, header.value);
        UpNext(hash, ancestor - left - 1);
        hash', number' := header.value.parent, number' - 1;
      }
    }

    /** Within the links allowed, the walk from a header comes to a canonical ancestor or to the one asked for. */
    ghost predicate Reaches(hash: Hash, number: nat, ancestor: nat, maxNonCanonical: nat)
      requires ancestor <= number
      reads this`canon
    {
      exists j: nat :: j <= ancestor && j <= maxNonCanonical
                       && (j == ancestor || ReadCanonicalHash(canon, number - j) == Up(hash, j))
    }

    lemma CanonEntries()
      requires Valid()
      ensures forall n: nat :: n in canon <==> n <= currentHeader.number
      ensures forall n: nat :: n in canon ==> canon[n] != Zero
    {
      hide ParentClosed, TdOk;
      forall n: nat | n in canon ensures canon[n] != Zero {
        CanonLinked(canon, currentHeader, headers, genesis, n);
      }
    }
  }

  /** A chain of the genesis and a heavier header. */
  method HeavyChain(g: Header, heavy: Header) returns (chain: HeaderChain)
    requires g.number == 0 && heavy.parent == Keccak(g) && heavy.number == 1 && heavy.difficulty > 0 && heavy != g
    ensures fresh(chain) && chain.Valid() && chain.HeadIsHeaviest() && chain.genesis == g && chain.forker.ttd.None?
    ensures chain.headers == {g, heavy} && chain.currentHeader == heavy
  {
    assert Members([heavy]) == {heavy} && GetHeader({g}, heavy.parent, 0).Some?;
    hide ParentClosed, TdOk, IsCanon, Heaviest, Members, Extends;
    chain := new HeaderChain(g, ForkChoice(None, None));
    var status, err := chain.WriteHeadersAndSetHead([heavy], false);
    Weights(chain.headers, chain.td, g, chain.currentHeader, heavy);
  }

  /** Rewinding to a number that the head is not above leaves a longer, lighter side branch in place. */
  method SideBranchStays() returns (chain: HeaderChain)
    ensures fresh(chain) && chain.Valid() && chain.currentHeader.number == 1 && !NoneAbove(chain.headers, 1)
  {
    var g := Header(Zero, 0, 1, [], 0);
    var heavy, light1 := Header(Keccak(g), 1, 100, [], 0), Header(Keccak(g), 1, 1, [], 1);
    var light2 := Header(Keccak(light1), 2, 1, [], 0);
    chain := HeavyChain(g, heavy);
    AddLight(chain, g, heavy, light1, light2);
    chain.SetHead(1);
  }

  method AddLight(chain: HeaderChain, g: Header, heavy: Header, light1: Header, light2: Header)
    requires chain.Valid() && chain.HeadIsHeaviest() && chain.genesis == g && chain.forker.ttd.None?
    requires chain.headers == {g, heavy} && chain.currentHeader == heavy && heavy.parent == Keccak(g) && heavy != g
    requires Linked([light1, light2]) && light1.parent == Keccak(g) && light1.number == 1 && light1 != g
    requires 0 <= light1.difficulty && 0 <= light2.difficulty
    requires light1.difficulty + light2.difficulty < heavy.difficulty
    modifies chain
    ensures chain.Valid() && chain.currentHeader == heavy && light2 in chain.headers
  {
    var hs := [light1, light2];
    assert Members(hs) == {light1, light2} && light2.parent == Keccak(light1) && light2.number == 2;
    assert GetHeader({g, heavy}, light1.parent, 0).Some? by { assert g.number == 0; }
    hide ParentClosed, TdOk, IsCanon, Heaviest, Members, Extends, Linked;
    var status, err := chain.WriteHeadersAndSetHead(hs, false);
    Weights(chain.headers, chain.td, g, chain.currentHeader, heavy);
    Weights(chain.headers, chain.td, g, chain.currentHeader, light1);
    Weights(chain.headers, chain.td, g, chain.currentHeader, light2);
  }

  lemma Weights(stored: set<Header>, td: map<Hash, int>, genesis: Header, head: Header, h: Header)
    requires TdOk(stored, td, genesis) && Heaviest(stored, td, head) && h in stored && h != genesis
    ensures Keccak(h) in td && h.parent in td && Keccak(head) in td
    ensures td[h.parent] + h.difficulty == td[Keccak(h)] <= td[Keccak(head)]
  {
  }

  /** Asked about the zero hash above the head, GetAncestor answers with a header that is no ancestor of it. */
  method ZeroHasAncestor() returns (hash: Hash)
    ensures hash != Zero && Up(Zero, 2) == Zero
  {
    var chain := new HeaderChain(Header(Zero, 0, 1, [], 0), ForkChoice(None, None));
    var number, left;
    hash, number, left := chain.GetAncestor(Zero, 2, 2, 0);
  }
}

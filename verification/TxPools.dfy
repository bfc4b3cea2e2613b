/** TxPool of core/tx_pool.go. */
module TxPools {
  import opened Integers
  import opened Transactions
  import opened NonceMaps
  import opened ListValues
  import opened PoolInvariants
  import opened PoolOrders
  import opened Truncation
  import opened Executables
  import opened TxLookups
  import opened TxNoncers
  import opened TxPricedLists

  datatype Error =
    | AlreadyKnown | TxTypeNotSupported | OversizedData | NegativeValue | GasLimit | FeeCapVeryHigh
    | TipVeryHigh | TipAboveFeeCap | Underpriced | NonceTooLow | InsufficientFunds | IntrinsicGas
    | TxPoolOverflow | ReplaceUnderpriced

  datatype Config =
    Config(priceLimit: nat, priceBump: nat, accountSlots: nat, globalSlots: nat, accountQueue: nat, globalQueue: nat)

  const DEFAULT_CONFIG := Config(1, 10, 16, 4096 + 1024, 64, 1024)

  /** A limit the pool can work with. */
  predicate Workable(limit: nat) {
    limit >= 1
  }

  /** sanitize keeps every workable limit and replaces the others by the defaults, which are workable. */
  function Sanitize(c: Config): (r: Config)
    ensures Workable(r.priceLimit) && Workable(r.priceBump) && Workable(r.accountSlots)
    ensures Workable(r.globalSlots) && Workable(r.accountQueue) && Workable(r.globalQueue)
    ensures r.priceLimit in {c.priceLimit, DEFAULT_CONFIG.priceLimit}
    ensures Workable(c.priceLimit) ==> r.priceLimit == c.priceLimit
    ensures r.priceBump in {c.priceBump, DEFAULT_CONFIG.priceBump}
    ensures Workable(c.priceBump) ==> r.priceBump == c.priceBump
    ensures r.accountSlots in {c.accountSlots, DEFAULT_CONFIG.accountSlots}
    ensures Workable(c.accountSlots) ==> r.accountSlots == c.accountSlots
    ensures r.globalSlots in {c.globalSlots, DEFAULT_CONFIG.globalSlots}
    ensures Workable(c.globalSlots) ==> r.globalSlots == c.globalSlots
    ensures r.accountQueue in {c.accountQueue, DEFAULT_CONFIG.accountQueue}
    ensures Workable(c.accountQueue) ==> r.accountQueue == c.accountQueue
    ensures r.globalQueue in {c.globalQueue, DEFAULT_CONFIG.globalQueue}
    ensures Workable(c.globalQueue) ==> r.globalQueue == c.globalQueue
  {
    Config(if c.priceLimit < 1 then DEFAULT_CONFIG.priceLimit else c.priceLimit,
           if c.priceBump < 1 then DEFAULT_CONFIG.priceBump else c.priceBump,
           if c.accountSlots < 1 then DEFAULT_CONFIG.accountSlots else c.accountSlots,
           if c.globalSlots < 1 then DEFAULT_CONFIG.globalSlots else c.globalSlots,
           if c.accountQueue < 1 then DEFAULT_CONFIG.accountQueue else c.accountQueue,
           if c.globalQueue < 1 then DEFAULT_CONFIG.globalQueue else c.globalQueue)
  }

  /** What the pool reads of a chain head: account nonces and balances, the block gas limit,
      and which transaction types the next block accepts. */
  datatype ChainState = ChainState(nonce: Address -> nat, balance: Address -> int, maxGas: nat,
                                   eip2718: bool, eip1559: bool)

  /** What additions during a reset are held against: the new head's state under the fork rules of the old head. */
  function RulesOf(head: ChainState, was: ChainState): ChainState {
    head.(eip2718 := was.eip2718, eip1559 := was.eip1559)
  }

  /** What a chain reset brings: the new head's state, unless it or the path to it is missing, the transactions
      the reorg dropped, and the base fee of the next block from London on. */
  datatype ResetRequest = ResetRequest(head: Option<ChainState>, reinject: seq<Tx>, baseFee: Option<nat>)

  /** A call on the pool. */
  datatype Op =
    | AddTxs(txs: seq<Tx>, local: bool)
    | RemoveTx(hash: TxHash, outofbound: bool)
    | SetGasPrice(price: nat)
    | RunReorg(reset: Option<ResetRequest>, dirty: set<Address>)

  /** The chain state the pool works against after the calls. */
  function HeadAfter(head: ChainState, ops: seq<Op>): ChainState {
    if ops == [] then head
    else
      var op := ops[|ops| - 1];
      if op.RunReorg? && op.reset.Some? && op.reset.value.head.Some? then op.reset.value.head.value
      else HeadAfter(head, ops[..|ops| - 1])
  }

  /** No reset among the calls lowers the state nonce of account a. */
  predicate NeverLowered(head: ChainState, ops: seq<Op>, a: Address) {
    ops == [] ||
    (NeverLowered(head, ops[..|ops| - 1], a)
     && HeadAfter(head, ops[..|ops| - 1]).nonce(a) <= HeadAfter(head, ops).nonce(a))
  }

  /** validateTx: the first rule a transaction breaks. */
  function Validate(chain: ChainState, gasPrice: nat, tx: Tx, local: bool): (err: Option<Error>)
    ensures err != Some(AlreadyKnown) && err != Some(TxPoolOverflow) && err != Some(ReplaceUnderpriced)
    ensures err.None? <==>
            && (tx.txType != Legacy ==> chain.eip2718) && (tx.txType == DynamicFee ==> chain.eip1559)
            && tx.size <= TX_MAX_SIZE && tx.value >= 0 && tx.gas <= chain.maxGas
            && tx.tipCap <= tx.feeCap < TWO_256 && (local || gasPrice <= tx.tipCap)
            && chain.nonce(tx.sender) <= tx.nonce && Cost(tx) <= chain.balance(tx.sender) && tx.intrinsicGas <= tx.gas
  {
    if !chain.eip2718 && tx.txType != Legacy then Some(TxTypeNotSupported)
    else if !chain.eip1559 && tx.txType == DynamicFee then Some(TxTypeNotSupported)
    else if tx.size > TX_MAX_SIZE then Some(OversizedData)
    else if tx.value < 0 then Some(NegativeValue)
    else if chain.maxGas < tx.gas then Some(GasLimit)
    else if tx.feeCap >= TWO_256 then Some(FeeCapVeryHigh)
    else if tx.tipCap >= TWO_256 then Some(TipVeryHigh)
    else if tx.feeCap < tx.tipCap then Some(TipAboveFeeCap)
    else if !local && tx.tipCap < gasPrice then Some(Underpriced)
    else if chain.nonce(tx.sender) > tx.nonce then Some(NonceTooLow)
    else if chain.balance(tx.sender) < Cost(tx) then Some(InsufficientFunds)
    else if tx.gas < tx.intrinsicGas then Some(IntrinsicGas)
    else None
  }

  /** A known transaction of the sender and the nonce of tx is not outbid. */
  ghost predicate Blocked(known: set<TxHash>, tx: Tx, priceBump: nat) {
    exists h :: h in known && h.preimage.sender == tx.sender && h.preimage.nonce == tx.nonce
                && !Outbids(tx, h.preimage, priceBump)
  }

  /** The pool has slots for tx besides the transactions it knows. */
  ghost predicate HasRoom(known: set<TxHash>, tx: Tx, config: Config) {
    SlotsOf(known) + NumSlots(tx) <= config.globalSlots + config.globalQueue
  }

  /** A refusal has its reason: the transaction is known, breaks a rule, does not outbid one of its nonce, or there is
      no room for it. */
  ghost predicate Refused(chain: ChainState, gasPrice: nat, config: Config, known: set<TxHash>, tx: Tx, isLocal: bool,
                          err: Error) {
    || (err == AlreadyKnown && HashOf(tx) in known)
    || Validate(chain, gasPrice, tx, isLocal) == Some(err)
    || (err == ReplaceUnderpriced && Blocked(known, tx, config.priceBump))
    || ((err == Underpriced || err == TxPoolOverflow) && !HasRoom(known, tx, config))
  }

  /** One addition, from the transactions known before it to those known after it. Where there is room, no transaction
      goes but one of the same sender and nonce. */
  ghost predicate AddedOne(chain: ChainState, gasPrice: nat, config: Config, known: set<TxHash>, known': set<TxHash>,
                           tx: Tx, isLocal: bool, err: Option<Error>) {
    && (err == Some(AlreadyKnown) <==> HashOf(tx) in known)
    && (HashOf(tx) !in known && Validate(chain, gasPrice, tx, isLocal).Some? ==>
          err == Validate(chain, gasPrice, tx, isLocal))
    && (err.None? ==>
          && Validate(chain, gasPrice, tx, isLocal).None?
          && HashOf(tx) in known' && known' <= known + {HashOf(tx)})
    && (err.Some? ==>
          && Refused(chain, gasPrice, config, known, tx, isLocal, err.value)
          && known' <= known && (err != Some(ReplaceUnderpriced) || HasRoom(known, tx, config) ==> known' == known))
    && (HasRoom(known, tx, config) ==>
          forall h :: h in known && h !in known' ==> h.preimage.sender == tx.sender && h.preimage.nonce == tx.nonce)
  }

  /** A known transaction has the sender and the nonce of tx. */
  ghost predicate Taken(known: set<TxHash>, tx: Tx) {
    exists h :: h in known && h.preimage.sender == tx.sender && h.preimage.nonce == tx.nonce
  }

  /** The senders of the accepted transactions that replaced nothing. */
  ghost function Newcomers(txs: seq<Tx>, replaced: seq<bool>, errs: seq<Option<Error>>): set<Address>
    requires |errs| == |replaced| <= |txs|
  {
    set i | 0 <= i < |errs| && errs[i].None? && !replaced[i] :: txs[i].sender
  }

  lemma NewcomersNext(txs: seq<Tx>, replaced: seq<bool>, errs: seq<Option<Error>>, r: bool, err: Option<Error>)
    requires |errs| == |replaced| < |txs|
    ensures Newcomers(txs, replaced + [r], errs + [err]) ==
            Newcomers(txs, replaced, errs) + if err.None? && !r then {txs[|errs|].sender} else {}
  {
    var r', e' := replaced + [r], errs + [err];
    forall a | a in Newcomers(txs, replaced, errs) ensures a in Newcomers(txs, r', e') {
      var i :| 0 <= i < |errs| && errs[i].None? && !replaced[i] && txs[i].sender == a;
      assert e'[i].None? && !r'[i];
    }
    assert e'[|errs|] == err && r'[|errs|] == r;
  }

  /** The lookup's tables before and after tx is filed in the place of the hashes `gone`. */
  ghost predicate Filing(locals: map<TxHash, Tx>, remotes: map<TxHash, Tx>, locals': map<TxHash, Tx>,
                         remotes': map<TxHash, Tx>,
                         gone: set<TxHash>, tx: Tx, local: bool) {
    && locals' == (if local then (locals - gone)[HashOf(tx) := tx] else locals - gone)
    && remotes' == (if local then remotes - gone else (remotes - gone)[HashOf(tx) := tx])
  }

  /** The lookup's tables without some remote hashes. */
  ghost predicate Lacks(locals0: map<TxHash, Tx>, remotes0: map<TxHash, Tx>, locals: map<TxHash, Tx>,
                        remotes: map<TxHash, Tx>, gone: set<TxHash>) {
    locals == locals0 && locals0.Keys !! remotes0.Keys && gone <= remotes0.Keys && remotes == remotes0 - gone
  }

  lemma NothingLacks(locals: map<TxHash, Tx>, remotes: map<TxHash, Tx>, drop: set<TxHash>)
    requires locals.Keys !! remotes.Keys
    ensures Lacks(locals, remotes, locals, remotes, drop - drop)
  {
    assert remotes - (drop - drop) == remotes;
  }

  lemma LacksMore(locals0: map<TxHash, Tx>, remotes0: map<TxHash, Tx>, locals: map<TxHash, Tx>,
                  remotes: map<TxHash, Tx>, drop: set<TxHash>,
                  todo: set<TxHash>, hash: TxHash)
    requires Lacks(locals0, remotes0, locals, remotes, drop - todo) && hash in todo && todo <= drop <= remotes0.Keys
    ensures Lacks(locals0, remotes0, locals - {hash}, remotes - {hash}, drop - (todo - {hash}))
  {
    assert drop - (todo - {hash}) == drop - todo + {hash};
    assert locals - {hash} == locals;
  }

  lemma LacksAll(locals0: map<TxHash, Tx>, remotes0: map<TxHash, Tx>, locals: map<TxHash, Tx>, remotes: map<TxHash, Tx>,
                 drop: set<TxHash>)
    requires Lacks(locals0, remotes0, locals, remotes, drop - {})
    ensures locals == locals0 && remotes == remotes0 - drop
  {
    assert drop - {} == drop;
  }

  /** What is dropped is cheap: nothing left in the floating heap is less than the last one, and nothing left in the
      urgent heap less than one that was not floating before. */
  ghost predicate Cheap(floating0: seq<Tx>, urgent: seq<Tx>, floating: seq<Tx>, fee: Option<int>, drop: seq<Tx>) {
    && (forall d, u :: d in drop && d !in floating0 && u in urgent ==> !Less(fee)(u, d))
    && (drop != [] ==> forall f :: f in floating ==> !Less(None)(f, drop[|drop| - 1]))
  }

  /** The same of the lookup's remote transactions: one that goes and was not floating is not dearer than one that stays
      and is not floating, and some that goes is not dearer than any that stays and floats. */
  ghost predicate CheapGone(remotes0: map<TxHash, Tx>, remotes: map<TxHash, Tx>, floating0: seq<Tx>,
                            floating: seq<Tx>, fee: Option<int>) {
    && (forall d, r ::
          d in remotes0 && d !in remotes && d.preimage !in floating0 && r in remotes && r.preimage !in floating ==>
            !Less(fee)(r.preimage, d.preimage))
    && (remotes.Keys != remotes0.Keys ==>
          exists d :: d in remotes0 && d !in remotes
                      && forall r :: r in remotes && r.preimage in floating ==> !Less(None)(r.preimage, d.preimage))
  }

  lemma CheapDropped(remotes0: map<TxHash, Tx>, remotes: map<TxHash, Tx>, floating0: seq<Tx>, urgent: seq<Tx>,
                     floating: seq<Tx>, fee: Option<int>, drop: seq<Tx>)
    requires Cheap(floating0, urgent, floating, fee, drop) && remotes == remotes0 - HashesOf(drop)
    requires forall i :: 0 <= i < |drop| ==> HashOf(drop[i]) in remotes0
    requires forall h :: h in remotes ==> h.preimage in urgent || h.preimage in floating
    ensures CheapGone(remotes0, remotes, floating0, floating, fee)
  {
    hide Less;
    forall d | d in remotes0 && d !in remotes ensures d.preimage in drop {
    }
    if remotes.Keys != remotes0.Keys {
      assert drop != [];
      assert HashOf(drop[|drop| - 1]) in HashesOf(drop);
      assert HashOf(drop[|drop| - 1]) in remotes0 && HashOf(drop[|drop| - 1]) !in remotes;
    }
  }

  /** What Discard drops is remote, and it drops something if it can. */
  lemma DropsRemotes(remotes: map<TxHash, Tx>, locals: map<TxHash, Tx>, entries: multiset<Tx>, drop: seq<Tx>,
                     wanted: nat)
    requires locals.Keys !! remotes.Keys && (forall i :: 0 <= i < |drop| ==> HashOf(drop[i]) in remotes)
    requires forall h :: h in remotes ==> h.preimage in entries
    requires wanted > 0 && drop == [] ==> forall tx :: HashOf(tx) in remotes ==> tx !in entries
    ensures locals - HashesOf(drop) == locals
    ensures remotes == map[] ==> drop == []
    ensures wanted > 0 && remotes != map[] ==> (remotes - HashesOf(drop)).Keys != remotes.Keys
  {
    assert drop != [] ==> HashOf(drop[0]) in remotes;
    assert forall h :: h in remotes ==> HashOf(h.preimage) == h;
    assert drop != [] ==> HashOf(drop[0]) in HashesOf(drop);
  }

  /** The reinjections in turn, from the transactions known before them to those known after: each is known again, or
      was known, or is refused for a reason. */
  ghost predicate Returned(chain: ChainState, gasPrice: nat, config: Config, localAccounts: set<Address>, txs: seq<Tx>,
                           errs: seq<Option<Error>>, knowns: seq<set<TxHash>>, before: set<TxHash>,
                           after: set<TxHash>) {
    && |errs| == |txs| && |knowns| == |txs| + 1 && knowns[0] == before && knowns[|txs|] == after
    && forall i :: 0 <= i < |txs| ==>
         AddedOne(chain, gasPrice, config, knowns[i], knowns[i + 1], txs[i], txs[i].sender in localAccounts, errs[i])
  }

  class TxPool {
    const config: Config
    const all: TxLookup
    const priced: TxPricedList
    var chain: ChainState
    var pendingNonces: TxNoncer
    var gasPrice: nat
    var locals: set<Address>
    var pending: Lists
    var queue: Lists
    var changesSinceReorg: nat

    /** The lookup and the price heaps are sound, and the heaps look into the pool's lookup. */
    ghost predicate Tables()
      reads all, priced
    {
      priced.all == all && all.Valid() && priced.Valid()
    }

    /** The invariant of every operation. */
    ghost predicate Valid()
      reads this, all, priced
    {
      Tables() && config.accountSlots >= 1 && pendingNonces.fallback == chain.nonce && PoolInv(pending, queue,
                                                                                               all.Known())
    }

    /** The virtual nonce of an account. */
    ghost function Next(a: Address): nat
      reads this`pendingNonces, pendingNonces
    {
      pendingNonces.Nonce(a)
    }

    /** An account's pending nonces run from its state nonce to its virtual nonce, its queued ones above. */
    ghost predicate Ordered(a: Address)
      reads this, pendingNonces
    {
      InOrder(Items(pending, a), Items(queue, a), chain.nonce(a), Next(a))
    }

    /** NewTxPool, against a chain head. */
    constructor (config: Config, localAccounts: set<Address>, head: ChainState)
      ensures Valid() && priced.Tracked() && forall a :: Ordered(a)
      ensures fresh(all) && fresh(priced) && fresh(pendingNonces)
      ensures pending == map[] && queue == map[] && locals == localAccounts && chain == head
      ensures all.locals == map[] && all.remotes == map[] && changesSinceReorg == 0
      ensures this.config == Sanitize(config) && gasPrice == this.config.priceLimit
    {
      this.config := Sanitize(config);
      var lookup := new TxLookup();
      all := lookup;
      priced := new TxPricedList(lookup);
      chain := head;
      pendingNonces := new TxNoncer(head.nonce);
      gasPrice := Sanitize(config).priceLimit;
      locals := localAccounts;
      pending, queue := map[], map[];
      changesSinceReorg := 0;
    }

    /** enqueueTx puts a transaction into its sender's queue unless one of its nonce is not outbid. */
    method EnqueueTx(tx: Tx, local: bool, addAll: bool) returns (replaced: bool, err: Option<Error>)
      requires Tables() && (addAll ==> !all.Has(HashOf(tx)))
      modifies this`queue, all, priced
      ensures Tables()
      ensures err == if Accepts(ListOf(old(queue), tx.sender, false), tx, config.priceBump) then None
                     else Some(ReplaceUnderpriced)
      ensures err.Some? ==> queue == old(queue) && !replaced && unchanged(all) && unchanged(priced)
      ensures err.None? ==>
                && queue == old(queue)[tx.sender := Added(ListOf(old(queue), tx.sender, false), tx)]
                && replaced == (tx.nonce in Items(old(queue), tx.sender))
                && all.Known() == old(all.Known())
                                  - (if replaced then {HashOf(Items(old(queue), tx.sender)[tx.nonce])} else {})
                                  + (if addAll then {HashOf(tx)} else {})
      ensures err.None? && !replaced && !addAll ==> unchanged(all) && unchanged(priced)
      ensures err.None? && addAll ==>
                Filing(old(all.locals), old(all.remotes), all.locals, all.remotes,
                       ReplacedHash(Items(old(queue), tx.sender), tx), tx, local)
      ensures old(priced.Tracked()) ==> priced.Tracked()
    {
      hide SlotSum, TxPricedList.Valid, Outbids, Added;
      assert all.locals - {} == all.locals && all.remotes - {} == all.remotes;
      var list := ListOf(queue, tx.sender, false);
      if !Accepts(list, tx, config.priceBump) {
        return false, Some(ReplaceUnderpriced);
      }
      var prev := Replaced(list, tx);
      queue := queue[tx.sender := Added(list, tx)];
      if prev.Some? {
        all.Remove(HashOf(prev.value));
        priced.Removed(1);
      }
      if addAll {
        all.Add(tx, local);
        priced.Put(tx, local);
      }
      return prev.Some?, None;
    }

    /** Moves transactions of account a, whose nonces are not queued, into its queue; none is rejected,
        none replaces another, and the lookup is left alone. */
    method Requeue(a: Address, txs: NonceMap)
      requires Tables() && Keyed(txs) && txs.Keys !! Items(queue, a).Keys
      requires (forall n :: n in txs ==> txs[n].sender == a) && (a in queue ==> ListOk(queue[a], a, false))
      modifies this`queue, all, priced
      ensures Tables() && unchanged(all) && unchanged(priced) && Grown(old(queue), queue, a, txs, false)
    {
      hide Grown, Enumerates;
      var list := ListAll(txs);
      ghost var done: NonceMap := map[];
      GrowNone(queue, a, false);
      NothingListed(txs);
      assert list[..0] == [];
      for i := 0 to |list|
        invariant Tables() && unchanged(all) && unchanged(priced)
        invariant Grown(old(queue), queue, a, done, false) && Enumerates(list[..i], done)
      {
        ListedStep(list, txs, i, done);
        StillAbsent(old(queue), queue, a, done, list[i], false);
        GrowStep(old(queue), queue, a, done, list[i], false);
        done := done[list[i].nonce := list[i]];
        var replaced, err := EnqueueTx(list[i], false, false);
        assert err.None? && !replaced;
      }
      assert list[..|list|] == list;
      SameListing(list, txs, done);
    }

    /** Takes a hash out of the lookup, telling the price heaps of a stale entry if asked to. */
    method Forget(hash: TxHash, tell: bool)
      requires Tables()
      modifies all, priced
      ensures Tables() && all.Known() == old(all.Known()) - {hash}
      ensures all.locals == old(all.locals) - {hash} && all.remotes == old(all.remotes) - {hash}
      ensures old(priced.Tracked()) ==> priced.Tracked()
      ensures !tell ==> unchanged(priced)
    {
      hide SlotSum, TxPricedList.Valid;
      all.Remove(hash);
      if tell {
        priced.Removed(1);
      }
    }

    /** removeTx, pending part: the followers go back to the queue. */
    method RemovePending(tx: Tx, ghost known: set<TxHash>)
      requires Tables() && PoolInv(pending, queue, known) && Holds(pending, tx)
      modifies this`pending, this`queue, all, priced, pendingNonces
      ensures Tables() && PoolInv(pending, queue, known - {HashOf(tx)})
      ensures Removal(old(pending), old(queue), pending, queue, HashOf(tx), true)
      ensures unchanged(all) && unchanged(priced)
      ensures forall a :: Next(a) == if a == tx.sender && tx.nonce < old(Next(a)) then tx.nonce else old(Next(a))
    {
      hide PoolInv, Sound, Keyed, ListOk, SameBut, Grown, Removal, Followers, SetList;
      ghost var p, q := pending, queue;
      var a, list := tx.sender, pending[tx.sender];
      AccountFacts(p, q, known, a);
      ListParts(list, a, true);
      RemoveIs(list, tx.nonce);
      FollowersFree(list, Items(q, a), tx.nonce, a);
      var invalids := Followers(list, tx.nonce);
      var rest := list.(items := list.items - {tx.nonce} - invalids.Keys);
      SetListOf(p, a, list, rest);
      pending := SetList(pending, a, rest);
      Requeue(a, invalids);
      RemovePendingInv(p, q, known, pending, queue, tx);
      pendingNonces.SetIfLower(a, tx.nonce);
    }

    /** removeTx, queue part. */
    method RemoveQueued(tx: Tx, ghost known: set<TxHash>)
      requires PoolInv(pending, queue, known) && Holds(queue, tx)
      modifies this`queue
      ensures PoolInv(pending, queue, known - {HashOf(tx)})
      ensures Removal(old(pending), old(queue), pending, queue, HashOf(tx), true)
    {
      hide PoolInv, Sound, Keyed, ListOk, SameBut, Removal, SetList;
      ghost var q := queue;
      var a, list := tx.sender, queue[tx.sender];
      AccountFacts(pending, q, known, a);
      var rest := list.(items := list.items - {tx.nonce});
      SetListOf(q, a, list, rest);
      queue := SetList(queue, a, rest);
      RemoveQueuedInv(pending, q, known, queue, tx);
    }

    /** removeTx forgets a transaction; when it was pending, its followers go back to the queue and
        the virtual nonce falls to its nonce. */
    method RemoveTx(hash: TxHash, outofbound: bool)
      requires Valid()
      modifies this`pending, this`queue, all, priced, pendingNonces
      ensures Valid() && all.Known() == old(all.Known()) - {hash}
      ensures all.locals == old(all.locals) - {hash} && all.remotes == old(all.remotes) - {hash}
      ensures Removal(old(pending), old(queue), pending, queue, hash, old(all.Has(hash)))
      ensures forall a ::
                Next(a) == if a == hash.preimage.sender && old(all.Has(hash)) && old(Holds(pending, hash.preimage))
                              && hash.preimage.nonce < old(Next(a))
                           then hash.preimage.nonce else old(Next(a))
      ensures old(priced.Tracked()) ==> priced.Tracked()
      ensures !outofbound ==> unchanged(priced)
      ensures forall a :: old(Ordered(a)) ==> Ordered(a)
    {
      RemoveUnordered(hash, outofbound);
      forall a | old(Ordered(a)) ensures Ordered(a) {
        RemovalOrder(old(pending), old(queue), pending, queue, hash, old(all.Has(hash)), a, chain.nonce(a),
                     old(Next(a)));
      }
    }

    method RemoveUnordered(hash: TxHash, outofbound: bool)
      requires Valid()
      modifies this`pending, this`queue, all, priced, pendingNonces
      ensures Valid() && all.Known() == old(all.Known()) - {hash}
      ensures all.locals == old(all.locals) - {hash} && all.remotes == old(all.remotes) - {hash}
      ensures Removal(old(pending), old(queue), pending, queue, hash, old(all.Has(hash)))
      ensures forall a ::
                Next(a) == if a == hash.preimage.sender && old(all.Has(hash)) && old(Holds(pending, hash.preimage))
                              && hash.preimage.nonce < old(Next(a))
                           then hash.preimage.nonce else old(Next(a))
      ensures old(priced.Tracked()) ==> priced.Tracked()
      ensures !outofbound ==> unchanged(priced)
    {
      hide PoolInv, Removal, SlotSum, Filed, TxPricedList.Valid, TxPricedList.Tracked;
      ghost var known := all.Known();
      var found := all.Get(hash);
      if found.None? {
        NothingRemoved(pending, queue, hash);
        assert all.Known() == known - {hash};
        return;
      }
      var tx := found.value;
      AccountFacts(pending, queue, known, tx.sender);
      Forget(hash, outofbound);
      if tx.nonce in Items(pending, tx.sender) {
        RemovePending(tx, known);
      } else {
        RemoveQueued(tx, known);
      }
    }

    /** promoteTx adds a transaction to its sender's pending list and moves the virtual nonce past it;
        if one of its nonce is not outbid there, the transaction is forgotten instead. */
    method PromoteTx(tx: Tx) returns (promoted: bool)
      requires Tables()
      modifies this`pending, all, priced, pendingNonces
      ensures Tables() && promoted == Accepts(ListOf(old(pending), tx.sender, true), tx, config.priceBump)
      ensures promoted ==> pending == old(pending)[tx.sender := Added(ListOf(old(pending), tx.sender, true), tx)]
      ensures promoted ==> forall a :: Next(a) == if a == tx.sender then tx.nonce + 1 else old(Next(a))
      ensures !promoted ==> pending == old(pending) && forall a :: Next(a) == old(Next(a))
      ensures all.Known() == old(all.Known()) -
                (if !promoted then {HashOf(tx)}
                 else if tx.nonce in Items(old(pending), tx.sender) then
                   {HashOf(Items(old(pending), tx.sender)[tx.nonce])}
                 else {})
      ensures tx.nonce !in Items(old(pending), tx.sender) ==> unchanged(all) && unchanged(priced)
      ensures old(priced.Tracked()) ==> priced.Tracked()
    {
      hide SlotSum, TxPricedList.Valid;
      var list := ListOf(pending, tx.sender, true);
      if !Accepts(list, tx, config.priceBump) {
        Forget(HashOf(tx), true);
        return false;
      }
      var prev := Replaced(list, tx);
      pending := pending[tx.sender := Added(list, tx)];
      if prev.Some? {
        Forget(HashOf(prev.value), true);
      }
      pendingNonces.Set(tx.sender, tx.nonce + 1);
      return true;
    }

    /** Takes an account's transactions out of the lookup. */
    method ForgetAll(txs: NonceMap)
      requires Tables() && Keyed(txs)
      modifies all
      ensures Tables() && all.Known() == old(all.Known()) - HashSet(txs)
      ensures all.remotes.Keys <= old(all.remotes.Keys)
      ensures old(priced.Tracked()) ==> priced.Tracked()
    {
      hide SlotSum, Enumerates, TxPricedList.Valid;
      var list := ListAll(txs);
      for i := 0 to |list|
        invariant Tables() && all.Known() == old(all.Known()) - HashesOf(list[..i])
        invariant all.remotes.Keys <= old(all.remotes.Keys)
      {
        assert list[..i + 1] == list[..i] + [list[i]];
        assert HashesOf(list[..i + 1]) == HashesOf(list[..i]) + {HashOf(list[i])};
        all.Remove(HashOf(list[i]));
      }
      assert list[..|list|] == list;
      ListedHashes(list, txs);
    }

    /** The loop of promoteExecutables over the ready transactions: none is rejected. */
    method PromoteReady(a: Address, ready: NonceMap) returns (promoted: seq<Tx>)
      requires Tables() && Keyed(ready) && ready.Keys !! Items(pending, a).Keys
      requires (forall n :: n in ready ==> ready[n].sender == a) && (a in pending ==> ListOk(pending[a], a, true))
      modifies this`pending, all, priced, pendingNonces
      ensures Tables() && unchanged(all) && unchanged(priced) && Grown(old(pending), pending, a, ready, true)
      ensures IsFlat(promoted, ready)
      ensures NextAfter(ready, old(Next(a)), Next(a)) && forall x :: x != a ==> Next(x) == old(Next(x))
    {
      hide Grown, IsFlat, Enumerates, Tables, Keyed, ListOk, Outbids, TxNoncer.Nonce, NextAfter, Added, SlotSum;
      var list := ListInOrder(ready);
      ghost var done: NonceMap := map[];
      FlatListing(list, ready);
      GrowNone(pending, a, true);
      NothingListed(ready);
      assert list[..0] == [];
      promoted := [];
      for i := 0 to |list|
        invariant Tables() && unchanged(all) && unchanged(priced) && promoted == list[..i]
        invariant Grown(old(pending), pending, a, done, true) && Enumerates(list[..i], done)
        invariant Next(a) == if i == 0 then old(Next(a)) else list[i - 1].nonce + 1
        invariant forall x :: x != a ==> Next(x) == old(Next(x))
      {
        ListedStep(list, ready, i, done);
        StillAbsent(old(pending), pending, a, done, list[i], true);
        GrowStep(old(pending), pending, a, done, list[i], true);
        done := done[list[i].nonce := list[i]];
        var ok := PromoteTx(list[i]);
        promoted := promoted + [list[i]];
      }
      assert list[..|list|] == list;
      SameListing(list, ready, done);
      LastIsNext(list, ready, old(Next(a)), Next(a));
    }

    /** The queue limit of an account: none for a local one. */
    function QueueCap(a: Address): Option<nat>
      reads this`locals
    {
      if a in locals then None else Some(config.accountQueue)
    }

    /** The first half of promoteExecutables on an account: drops what is too old or unpayable. */
    method TrimQueue(a: Address) returns (list: ListValue, dropped: nat)
      requires Tables() && a in queue && ListOk(queue[a], a, false)
      modifies all
      ensures Tables() && list == Usable(queue[a], chain.nonce(a), chain.balance(a), chain.maxGas)
      ensures all.Known() == old(all.Known()) - HashSet(Before(queue[a].items, chain.nonce(a)))
                - HashSet(FilterDrops(queue[a].(items := From(queue[a].items, chain.nonce(a))), chain.balance(a),
                                      chain.maxGas))
      ensures all.remotes.Keys <= old(all.remotes.Keys) && (old(priced.Tracked()) ==> priced.Tracked())
    {
      hide SlotSum, Filed, TxPricedList.Valid, TxPricedList.Tracked, HashSet, Before, From, Filtered, FilterDrops,
           Sound, ListOk, Keyed;
      list := queue[a];
      PromoteParts(list, a, chain.nonce(a), chain.balance(a), chain.maxGas, 0, None, map[]);
      var forwards := Before(list.items, chain.nonce(a));
      list := list.(items := From(list.items, chain.nonce(a)));
      ForgetAll(forwards);
      var drops := FilterDrops(list, chain.balance(a), chain.maxGas);
      list := Filtered(list, chain.balance(a), chain.maxGas);
      ForgetAll(drops);
      dropped := |forwards| + |drops|;
    }

    /** Tells the price heaps how many of their entries went stale. */
    method Report(count: nat)
      requires Tables()
      modifies priced
      ensures Tables() && (old(priced.Tracked()) ==> priced.Tracked())
    {
      hide SlotSum;
      priced.Removed(count);
    }

    /** Caps what is left of an account's queue and stores it. */
    method CapAndStore(a: Address, list: ListValue, dropped: nat)
      requires Tables() && Keyed(Excess(list.items, QueueCap(a)))
      modifies this`queue, all, priced
      ensures Tables() && all.remotes.Keys <= old(all.remotes.Keys) && (old(priced.Tracked()) ==> priced.Tracked())
      ensures queue == SetList(old(queue), a, list.(items := Capped(list.items, QueueCap(a))))
      ensures all.Known() == old(all.Known()) - HashSet(Excess(list.items, QueueCap(a)))
    {
      hide Tables, TxPricedList.Tracked, HashSet, Excess, Capped, SetList, Keyed;
      var caps := Excess(list.items, QueueCap(a));
      ForgetAll(caps);
      Report(dropped + |caps|);
      queue := SetList(queue, a, list.(items := Capped(list.items, QueueCap(a))));
    }

    /** The second half: promotes the ready run of what is left, and caps and stores the rest. */
    method PromoteAndCap(a: Address, usable: ListValue, dropped: nat) returns (promoted: seq<Tx>)
      requires Tables() && (a in pending ==> ListOk(pending[a], a, true))
      requires var ready := Ripe(usable.items, Next(a));
               && Keyed(ready) && ready.Keys !! Items(pending, a).Keys
               && (forall n :: n in ready ==> ready[n].sender == a)
               && Keyed(Excess(Unripe(usable.items, Next(a)), QueueCap(a)))
      modifies this`pending, this`queue, all, priced, pendingNonces
      ensures Tables() && all.remotes.Keys <= old(all.remotes.Keys) && (old(priced.Tracked()) ==> priced.Tracked())
      ensures Grown(old(pending), pending, a, Ripe(usable.items, old(Next(a))), true)
      ensures queue == SetList(old(queue), a, usable.(items := Capped(Unripe(usable.items, old(Next(a))), QueueCap(a))))
      ensures all.Known() == old(all.Known()) - HashSet(Excess(Unripe(usable.items, old(Next(a))), QueueCap(a)))
      ensures NextAfter(Ripe(usable.items, old(Next(a))), old(Next(a)), Next(a))
      ensures forall x :: x != a ==> Next(x) == old(Next(x))
      ensures IsFlat(promoted, Ripe(usable.items, old(Next(a))))
    {
      hide Tables, TxPricedList.Tracked, HashSet, Ripe, Unripe, Excess, Capped, NextAfter, IsFlat, SetList, Grown,
           ListOk,
           Keyed, Items;
      ghost var nexts := Nexts();
      var start := pendingNonces.Get(a);
      promoted := PromoteReady(a, Ripe(usable.items, start));
      assert forall x: Address :: x != a ==> Next(x) == nexts[x];
      CapAndStore(a, usable.(items := Unripe(usable.items, start)), dropped);
      assert forall x: Address :: x != a ==> Next(x) == nexts[x];
    }

    /** promoteExecutables, one account with a queue. */
    method PromoteQueue(a: Address) returns (promoted: seq<Tx>)
      requires Valid() && a in queue
      modifies this`pending, this`queue, all, priced, pendingNonces
      ensures Valid() && all.remotes.Keys <= old(all.remotes.Keys)
      ensures Promotion(old(pending), old(queue), pending, queue, a, chain.nonce(a), chain.balance(a), chain.maxGas,
                        old(Next(a)), QueueCap(a))
      ensures forall x :: x != a ==> Next(x) == old(Next(x))
      ensures var ready := Ripe(Usable(old(queue)[a], chain.nonce(a), chain.balance(a), chain.maxGas).items,
                                old(Next(a)));
              NextAfter(ready, old(Next(a)), Next(a)) && IsFlat(promoted, ready)
      ensures old(priced.Tracked()) ==> priced.Tracked()
    {
      hide PoolInv, SlotSum, Filed, TxPricedList.Valid, TxPricedList.Tracked, HashSet, Before, From, Usable,
           FilterDrops,
           Ripe, Unripe, Excess, Capped, NextAfter, IsFlat, SetList, Grown, Sound, ListOk, Promotion, Keyed,
           TxNoncer.Nonce, Items;
      ghost var p, q, known, start := pending, queue, all.Known(), Next(a);
      AccountFacts(p, q, known, a);
      PromoteParts(queue[a], a, chain.nonce(a), chain.balance(a), chain.maxGas, start, QueueCap(a), Items(p, a));
      var list, dropped := TrimQueue(a);
      promoted := PromoteAndCap(a, list, dropped);
      Promoted(p, q, known, pending, queue, all.Known(), a, chain.nonce(a), chain.balance(a), chain.maxGas, start,
               QueueCap(a));
    }

    /** What promoteExecutables promises about account a, against the tables p, q and the virtual nonce before it. */
    ghost predicate PromotedFrom(p: Lists, q: Lists, a: Address, start: nat)
      reads this, pendingNonces
    {
      AccountPromoted(p, q, pending, queue, a, chain.nonce(a), chain.balance(a), chain.maxGas, start, QueueCap(a),
                      Next(a))
    }

    /** All virtual nonces at once. */
    ghost function Nexts(): (r: imap<Address, nat>)
      reads this`pendingNonces, pendingNonces
      ensures forall a: Address :: a in r && r[a] == Next(a)
    {
      imap a: Address | true :: Next(a)
    }

    /** How far promoteExecutables has come: the accounts `done` are promoted, the others as they were. */
    ghost predicate PromotedSoFar(p: Lists, q: Lists, starts: imap<Address, nat>, done: set<Address>)
      reads this, pendingNonces
    {
      && (forall a: Address :: a in starts)
      && (forall a :: a in done ==> PromotedFrom(p, q, a, starts[a]))
      && (forall a :: a !in done ==> SameAt(p, pending, a) && SameAt(q, queue, a) && Next(a) == starts[a])
    }

    /** What promoteExecutables finds ready on account a, against the queue q and virtual nonce `start` before it. */
    ghost function ReadyOf(q: Lists, a: Address, start: nat): NonceMap
      reads this`chain
    {
      if a in q then Ripe(Usable(q[a], chain.nonce(a), chain.balance(a), chain.maxGas).items, start) else map[]
    }

    /** The transactions listed are exactly those found ready on the accounts `done`. */
    ghost predicate Readied(promoted: seq<Tx>, q: Lists, starts: imap<Address, nat>, done: set<Address>)
      reads this`chain
    {
      && (forall a: Address :: a in starts)
      && forall tx :: tx in promoted <==> exists a :: a in done && InMap(ReadyOf(q, a, starts[a]), tx)
    }

    lemma ReadiedStep(promoted: seq<Tx>, txs: seq<Tx>, q: Lists, starts: imap<Address, nat>, done: set<Address>,
                      a: Address)
      requires Readied(promoted, q, starts, done) && IsFlat(txs, ReadyOf(q, a, starts[a]))
      ensures Readied(promoted + txs, q, starts, done + {a})
    {
      hide ReadyOf;
      forall tx ensures tx in txs <==> InMap(ReadyOf(q, a, starts[a]), tx) {
      }
    }

    method PromoteOne(a: Address, ghost p: Lists, ghost q: Lists, ghost starts: imap<Address, nat>,
                      ghost done: set<Address>)
      returns (promoted: seq<Tx>)
      requires Valid() && a !in done && PromotedSoFar(p, q, starts, done)
      modifies this`pending, this`queue, all, priced, pendingNonces
      ensures Valid() && all.remotes.Keys <= old(all.remotes.Keys) && (old(priced.Tracked()) ==> priced.Tracked())
      ensures PromotedSoFar(p, q, starts, done + {a}) && IsFlat(promoted, ReadyOf(q, a, starts[a]))
    {
      hide PoolInv, SlotSum, TxPricedList.Valid, TxPricedList.Tracked, TxLookup.Valid, Promotion, NextAfter,
           AccountPromoted,
           TxNoncer.Nonce, Usable, Ripe, IsFlat;
      if a !in queue {
        NothingListed(map[]);
        NotQueued(p, q, pending, queue, a, chain.nonce(a), chain.balance(a), chain.maxGas, starts[a], QueueCap(a));
        return [];
      }
      promoted := PromoteQueue(a);
      PromotionFresh(p, q, old(pending), old(queue), pending, queue, a, chain.nonce(a), chain.balance(a), chain.maxGas,
                     starts[a], QueueCap(a), Next(a));
      forall x | x in done ensures PromotedFrom(p, q, x, starts[x]) {
        PromotionFrame(p, q, old(pending), old(queue), pending, queue, a, x, chain.nonce(x), chain.balance(x),
                       chain.maxGas,
                       starts[x], QueueCap(x), Next(x));
      }
    }

    /** Promotion kept of an account's queue q what it should: a local account has no limit, any other that of the
        configuration. */
    ghost predicate QueueKeptOf(q: Lists, a: Address)
      reads this`pending, this`queue, this`chain, this`locals
    {
      QueueKept(Items(q, a), Items(pending, a), Items(queue, a), chain.nonce(a), chain.balance(a), chain.maxGas,
                if a in locals then None else Some(config.accountQueue))
    }

    lemma QueueKeptFrom(p: Lists, q: Lists, known: set<TxHash>, a: Address, start: nat)
      requires PoolInv(p, q, known) && PromotedFrom(p, q, a, start)
      ensures QueueKeptOf(q, a)
    {
      hide PoolInv, AccountPromoted, QueueKept;
      AccountFacts(p, q, known, a);
      PromotionKeeps(p, q, pending, queue, a, chain.nonce(a), chain.balance(a), chain.maxGas, start, QueueCap(a),
                     Next(a));
    }

    lemma NoneWaits(p: Lists, q: Lists, a: Address, start: nat)
      requires PromotedFrom(p, q, a, start)
      ensures Next(a) !in Items(queue, a)
    {
      hide AccountPromoted, Items;
      PromotionProgress(p, q, pending, queue, a, chain.nonce(a), chain.balance(a), chain.maxGas, start, QueueCap(a),
                        Next(a));
    }

    /** What promotion returns is what became pending. */
    lemma NewlyPending(p: Lists, q: Lists, known: set<TxHash>, starts: imap<Address, nat>, accounts: set<Address>,
                       promoted: seq<Tx>, tx: Tx)
      requires PoolInv(p, q, known) && Readied(promoted, q, starts, accounts)
      requires forall a: Address :: a in accounts ==> PromotedFrom(p, q, a, starts[a])
      requires forall a: Address :: a !in accounts ==> SameAt(p, pending, a)
      ensures tx in promoted <==> Holds(pending, tx) && !Holds(p, tx)
    {
      hide PoolInv, AccountPromoted, ReadyOf;
      forall a: Address | a in accounts && InMap(ReadyOf(q, a, starts[a]), tx) ensures a == tx.sender {
        ReadyFacts(p, q, known, a, starts[a]);
      }
      if tx.sender in accounts {
        ReadyFacts(p, q, known, tx.sender, starts[tx.sender]);
      }
    }

    lemma ReadyFacts(p: Lists, q: Lists, known: set<TxHash>, a: Address, start: nat)
      requires PoolInv(p, q, known) && PromotedFrom(p, q, a, start)
      ensures forall n :: n in ReadyOf(q, a, start) ==> ReadyOf(q, a, start)[n].sender == a && n !in Items(p, a)
      ensures Items(pending, a) == Items(p, a) + ReadyOf(q, a, start)
    {
      hide PoolInv, Usable, ListOk, Sound;
      AccountFacts(p, q, known, a);
      if a in q {
        QueueParts(q[a], a, chain.nonce(a), chain.balance(a), chain.maxGas, start, QueueCap(a));
      } else {
        assert Items(p, a) + map[] == Items(p, a);
      }
    }

    /** promoteExecutables: the given accounts, in any order; returns the transactions that became pending. */
    method PromoteExecutables(accounts: set<Address>) returns (promoted: seq<Tx>)
      requires Valid()
      modifies this`pending, this`queue, all, priced, pendingNonces
      ensures Valid() && all.remotes.Keys <= old(all.remotes.Keys) && (old(priced.Tracked()) ==> priced.Tracked())
      ensures forall a :: a in accounts ==> PromotedFrom(old(pending), old(queue), a, old(Next(a)))
      ensures forall a :: a !in accounts ==>
                SameAt(old(pending), pending, a) && SameAt(old(queue), queue, a) && Next(a) == old(Next(a))
      ensures forall a :: old(Ordered(a)) ==> Ordered(a)
      ensures Readied(promoted, old(queue), old(Nexts()), accounts)
      ensures forall a: Address :: a in accounts ==> QueueKeptOf(old(queue), a)
      ensures forall tx :: tx in promoted <==> Holds(pending, tx) && !Holds(old(pending), tx)
      ensures forall a: Address :: a in accounts ==> Next(a) !in Items(queue, a)
    {
      hide QueueKeptOf, ReadyOf, Holds, InMap;
      hide Valid, PromotedFrom, InOrder, TxPricedList.Tracked, SameAt, PoolInv, Nexts, Readied;
      ghost var starts, known := Nexts(), all.Known();
      StartFacts();
      promoted := PromoteEach(accounts, starts);
      forall a | old(Ordered(a)) ensures Ordered(a) {
        StillOrdered(old(pending), old(queue), known, starts, accounts, a);
      }
      forall a: Address | a in accounts ensures QueueKeptOf(old(queue), a) {
        QueueKeptFrom(old(pending), old(queue), known, a, starts[a]);
      }
      forall a: Address | a in accounts ensures Next(a) !in Items(queue, a) {
        NoneWaits(old(pending), old(queue), a, starts[a]);
      }
      forall tx ensures tx in promoted <==> Holds(pending, tx) && !Holds(old(pending), tx) {
        NewlyPending(old(pending), old(queue), known, starts, accounts, promoted, tx);
      }
    }

    /** The loop of promoteExecutables. */
    method PromoteEach(accounts: set<Address>, ghost starts: imap<Address, nat>) returns (promoted: seq<Tx>)
      requires Valid() && PromotedSoFar(pending, queue, starts, {})
      modifies this`pending, this`queue, all, priced, pendingNonces
      ensures Valid() && all.remotes.Keys <= old(all.remotes.Keys) && (old(priced.Tracked()) ==> priced.Tracked())
      ensures PromotedSoFar(old(pending), old(queue), starts, accounts)
      ensures Readied(promoted, old(queue), starts, accounts)
    {
      hide Valid, PromotedSoFar, TxPricedList.Tracked, Readied, ReadyOf, IsFlat;
      promoted := [];
      NoneReadied(queue, starts);
      var todo := accounts;
      ghost var done: set<Address> := {};
      while todo != {}
        invariant Valid() && all.remotes.Keys <= old(all.remotes.Keys) && (old(priced.Tracked()) ==> priced.Tracked())
        invariant todo !! done && todo + done == accounts
        invariant PromotedSoFar(old(pending), old(queue), starts, done) && Readied(promoted, old(queue), starts, done)
        decreases |todo|
      {
        var a :| a in todo;
        var txs := PromoteOne(a, old(pending), old(queue), starts, done);
        ReadiedStep(promoted, txs, old(queue), starts, done, a);
        promoted := promoted + txs;
        todo, done := todo - {a}, done + {a};
      }
      assert done == accounts;
    }

    lemma NoneReadied(q: Lists, starts: imap<Address, nat>)
      requires PromotedSoFar(pending, queue, starts, {})
      ensures Readied([], q, starts, {})
    {
    }

    lemma StartFacts()
      requires Valid()
      ensures PromotedSoFar(pending, queue, Nexts(), {}) && PoolInv(pending, queue, all.Known())
      ensures forall a: Address :: Nexts()[a] == Next(a)
    {
    }

    lemma StillOrdered(p: Lists, q: Lists, known: set<TxHash>, starts: imap<Address, nat>, done: set<Address>,
                       a: Address)
      requires PromotedSoFar(p, q, starts, done) && PoolInv(p, q, known)
      requires InOrder(Items(p, a), Items(q, a), chain.nonce(a), starts[a])
      ensures Ordered(a)
    {
      hide InOrder, AccountPromoted, PoolInv;
      AccountFacts(p, q, known, a);
      if a in done {
        assert PromotedFrom(p, q, a, starts[a]);
        PromotionOrder(p, q, pending, queue, a, chain.nonce(a), chain.balance(a), chain.maxGas, starts[a], QueueCap(a),
                       Next(a));
      } else {
        assert SameAt(p, pending, a) && SameAt(q, queue, a);
      }
    }

    /** demoteUnexecutables, one account. */
    method DemoteAccount(a: Address)
      requires Valid() && a in pending
      modifies this`pending, this`queue, all, priced
      ensures Valid() && all.remotes.Keys <= old(all.remotes.Keys) && (old(priced.Tracked()) ==> priced.Tracked())
      ensures Demotion(old(pending), old(queue), pending, queue, a, chain.nonce(a), chain.balance(a), chain.maxGas)
    {
      hide PoolInv, SlotSum, Filed, TxPricedList.Valid, TxPricedList.Tracked, HashSet, Before, From, Filtered,
           FilterDrops,
           FilterInvalids, SetList, Grown, Sound, ListOk, Demotion, Keyed, Gapped;
      ghost var p, q, known := pending, queue, all.Known();
      AccountFacts(p, q, known, a);
      var list := pending[a];
      DemoteParts(list, a, chain.nonce(a), chain.balance(a), chain.maxGas, Items(q, a));
      var olds := Before(list.items, chain.nonce(a));
      list := list.(items := From(list.items, chain.nonce(a)));
      ForgetAll(olds);
      var drops, invalids := FilterDrops(list, chain.balance(a), chain.maxGas), FilterInvalids(list, chain.balance(a),
                                                                                               chain.maxGas);
      list := Filtered(list, chain.balance(a), chain.maxGas);
      ForgetAll(drops);
      Requeue(a, invalids);
      GrownItems(q, queue, a, invalids, false);
      ghost var q1 := queue;
      if Gapped(list.items, chain.nonce(a)) {
        var gapped := list.items;
        list := list.(items := map[]);
        Requeue(a, gapped);
      } else {
        GrowNone(queue, a, false);
      }
      pending := SetList(pending, a, list);
      Demoted(p, q, known, pending, q1, queue, all.Known(), a, chain.nonce(a), chain.balance(a), chain.maxGas);
    }

    /** Demotion took the account from the tables p, q to the tables p', q'. */
    ghost predicate DemotedTo(p: Lists, q: Lists, p': Lists, q': Lists, a: Address)
      reads this`chain
    {
      AccountDemoted(p, q, p', q', a, chain.nonce(a), chain.balance(a), chain.maxGas)
    }

    /** How far demoteUnexecutables has come: the accounts `done` are demoted, the others as they were. */
    ghost predicate DemotedSoFar(p: Lists, q: Lists, done: set<Address>)
      reads this
    {
      && (forall a :: a in done ==> DemotedTo(p, q, pending, queue, a))
      && (forall a: Address :: a !in done ==> SameAt(p, pending, a) && SameAt(q, queue, a))
    }

    method DemoteOne(a: Address, ghost p: Lists, ghost q: Lists, ghost done: set<Address>)
      requires Valid() && a in pending && a !in done && DemotedSoFar(p, q, done)
      modifies this`pending, this`queue, all, priced
      ensures Valid() && all.remotes.Keys <= old(all.remotes.Keys) && (old(priced.Tracked()) ==> priced.Tracked())
      ensures DemotedSoFar(p, q, done + {a})
    {
      hide PoolInv, SlotSum, TxPricedList.Valid, TxPricedList.Tracked, TxLookup.Valid, Demotion, AccountDemoted,
           SameBut;
      DemoteAccount(a);
      DemotionFresh(p, q, old(pending), old(queue), pending, queue, a, chain.nonce(a), chain.balance(a), chain.maxGas);
      forall x | x in done ensures DemotedTo(p, q, pending, queue, x) {
        DemotionFrame(p, q, old(pending), old(queue), pending, queue, a, x, chain.nonce(x), chain.balance(x),
                      chain.maxGas);
      }
      SameElsewhere(p, q, old(pending), old(queue), pending, queue, a, done);
    }

    /** demoteUnexecutables: every account with pending transactions, in any order. */
    method DemoteUnexecutables()
      requires Valid()
      modifies this`pending, this`queue, all, priced
      ensures Valid() && all.remotes.Keys <= old(all.remotes.Keys) && (old(priced.Tracked()) ==> priced.Tracked())
      ensures forall a: Address :: DemotedTo(old(pending), old(queue), pending, queue, a)
      ensures forall a: Address :: PendingKeptOf(old(pending), a)
    {
      hide Valid, TxPricedList.Tracked, DemotedTo, PendingKeptOf, PoolInv;
      StartFacts();
      ghost var p, q, known := pending, queue, all.Known();
      DemoteEach();
      forall a: Address ensures PendingKeptOf(p, a) {
        PendingKeptFrom(p, q, known, a);
      }
    }

    /** The loop of demoteUnexecutables. */
    method DemoteEach()
      requires Valid()
      modifies this`pending, this`queue, all, priced
      ensures Valid() && all.remotes.Keys <= old(all.remotes.Keys) && (old(priced.Tracked()) ==> priced.Tracked())
      ensures forall a: Address :: DemotedTo(old(pending), old(queue), pending, queue, a)
    {
      hide Valid, TxPricedList.Tracked, AccountDemoted, DemotedSoFar;
      ghost var p, q := pending, queue;
      var todo := pending.Keys;
      ghost var done: set<Address> := {};
      NoneDemoted();
      while todo != {}
        invariant Valid() && all.remotes.Keys <= old(all.remotes.Keys) && (old(priced.Tracked()) ==> priced.Tracked())
        invariant todo !! done && todo + done == p.Keys && DemotedSoFar(p, q, done)
        decreases |todo|
      {
        var a :| a in todo;
        StillPending(p, q, done, a);
        DemoteOne(a, p, q, done);
        todo, done := todo - {a}, done + {a};
      }
      AllDemoted(p, q, done);
    }

    /** Demotion kept of an account's pending transactions what it should. */
    ghost predicate PendingKeptOf(p: Lists, a: Address)
      reads this`pending, this`queue, this`chain
    {
      PendingKept(Items(p, a), Items(pending, a), Items(queue, a), chain.nonce(a), chain.balance(a), chain.maxGas)
    }

    lemma PendingKeptFrom(p: Lists, q: Lists, known: set<TxHash>, a: Address)
      requires PoolInv(p, q, known) && DemotedTo(p, q, pending, queue, a)
      ensures PendingKeptOf(p, a)
    {
      hide PoolInv, AccountDemoted, PendingKept;
      AccountFacts(p, q, known, a);
      DemotionKeeps(p, q, pending, queue, a, chain.nonce(a), chain.balance(a), chain.maxGas);
    }

    /** Everything in a table can be executed. */
    ghost predicate AllExecutable(p: Lists)
      reads this`chain
    {
      forall a: Address, n :: n in Items(p, a) ==>
        Executable(Items(p, a)[n], chain.nonce(a), chain.balance(a), chain.maxGas)
    }

    lemma NoneDemoted()
      ensures DemotedSoFar(pending, queue, {})
    {
    }

    lemma StillPending(p: Lists, q: Lists, done: set<Address>, a: Address)
      requires DemotedSoFar(p, q, done) && a !in done
      ensures a in pending <==> a in p
    {
      assert SameAt(p, pending, a);
    }

    lemma AllDemoted(p: Lists, q: Lists, done: set<Address>)
      requires DemotedSoFar(p, q, done) && done == p.Keys
      ensures forall a: Address :: DemotedTo(p, q, pending, queue, a)
    {
      forall a: Address ensures DemotedTo(p, q, pending, queue, a) {
        assert a !in done ==> SameAt(p, pending, a) && SameAt(q, queue, a);
      }
    }

    method CapUnordered(a: Address) returns (nonce: nat)
      requires Valid() && Len(pending, a) >= 2
      modifies this`pending, all, priced, pendingNonces
      ensures Valid() && all.remotes.Keys <= old(all.remotes.Keys) && (old(priced.Tracked()) ==> priced.Tracked())
      ensures Shrunk(old(pending), pending) && SameBut(old(pending), pending, a)
      ensures Len(pending, a) == Len(old(pending), a) - 1 && Total(pending) == Total(old(pending)) - 1
      ensures nonce in Items(old(pending), a) && (forall k :: k in Items(old(pending), a) ==> k <= nonce)
      ensures Items(pending, a) == Items(old(pending), a) - {nonce}
      ensures forall x :: Next(x) == if x == a && nonce < old(Next(x)) then nonce else old(Next(x))
    {
      hide PoolInv, TxLookup.Valid, TxPricedList.Valid, TxPricedList.Tracked, Lowest, Highest, Total, Shrunk,
           TxNoncer.Nonce,
           SameBut, Rank;
      var list := pending[a];
      ghost var top := DropTop(list.items);
      CutOne(pending, queue, all.Known(), a, top);
      var caps := Highest(list.items, |list.items| - 1);
      assert top in caps;
      nonce :| nonce in caps;
      pending := pending[a := list.(items := Lowest(list.items, |list.items| - 1))];
      Forget(HashOf(caps[nonce]), true);
      pendingNonces.SetIfLower(a, nonce);
    }

    /** truncatePending, one cut: an account with two or more pending transactions loses the highest nonce,
        and its virtual nonce falls to it. */
    method CapByOne(a: Address)
      requires Valid() && Len(pending, a) >= 2
      modifies this`pending, all, priced, pendingNonces
      ensures Valid() && all.remotes.Keys <= old(all.remotes.Keys) && (old(priced.Tracked()) ==> priced.Tracked())
      ensures Shrunk(old(pending), pending) && SameBut(old(pending), pending, a)
      ensures Len(pending, a) == Len(old(pending), a) - 1 && Total(pending) == Total(old(pending)) - 1
      ensures forall x :: old(Ordered(x)) ==> Ordered(x)
    {
      hide PoolInv, Tables, Total, Shrunk, InOrder, TxNoncer.Nonce, TxPricedList.Tracked;
      var nonce := CapUnordered(a);
      forall x | old(Ordered(x)) ensures Ordered(x) {
        if x == a {
          CutOrder(Items(old(pending), a), Items(queue, a), chain.nonce(a), old(Next(a)), nonce);
        }
      }
    }

    /** What a round of truncatePending, or several, may change: nothing but pending lists shrink,
        and every account in order stays in order. */
    twostate predicate OnlyCut()
      reads this, all, priced, pendingNonces
    {
      && Valid() && all.remotes.Keys <= old(all.remotes.Keys) && (old(priced.Tracked()) ==> priced.Tracked())
      && pendingNonces == old(pendingNonces) && (forall a: Address :: old(Ordered(a)) ==> Ordered(a))
    }

    /** truncatePending, one round: each listed account is cut by one. */
    method CapRound(accounts: seq<Address>)
      requires Valid() && Distinct(accounts) && forall i :: 0 <= i < |accounts| ==> Len(pending, accounts[i]) >= 2
      modifies this`pending, all, priced, pendingNonces
      ensures OnlyCut() && CutBy(old(pending), pending, accounts)
    {
      hide PoolInv, Tables, Ordered, TxPricedList.Tracked, CutBy, Shrunk, Total, SameBut;
      CutByNone(pending);
      assert accounts[..0] == [];
      for i := 0 to |accounts|
        invariant OnlyCut() && CutBy(old(pending), pending, accounts[..i])
      {
        ghost var p1 := pending;
        LenSoFar(old(pending), pending, accounts, i);
        CapByOne(accounts[i]);
        CutByStep(old(pending), p1, pending, accounts, i);
      }
      assert accounts[..|accounts|] == accounts;
    }

    /** truncatePending, equalizing: all offenders but the last are cut until they are as short as it,
        or the limit is met. */
    method Equalize(offenders: seq<Address>, count: nat, ghost p0: Lists, ghost spammers: map<Address, nat>)
      returns (left: nat)
      requires Valid() && |offenders| > 1 && count == Total(pending) > config.globalSlots
      requires Cutting(p0, pending, locals, config.accountSlots, offenders, spammers)
      modifies this`pending, all, priced, pendingNonces
      ensures OnlyCut() && left == Total(pending) && left + |offenders| > config.globalSlots
      ensures Cutting(p0, pending, locals, config.accountSlots, offenders, spammers)
      ensures left > config.globalSlots ==> Level(pending, offenders, |offenders|)
    {
      hide PoolInv, Tables, Ordered, TxPricedList.Tracked, CutBy, Shrunk, Total, Cutting, Level, Distinct;
      left := count;
      var k := |offenders| - 1;
      var threshold := Len(pending, offenders[k]);
      LastOffenders(p0, pending, locals, config.accountSlots, offenders, spammers);
      while left > config.globalSlots && Len(pending, offenders[k - 1]) > threshold
        invariant OnlyCut() && left == Total(pending) && left + |offenders| > config.globalSlots
        invariant Cutting(p0, pending, locals, config.accountSlots, offenders, spammers)
        invariant Len(pending, offenders[k]) == threshold
        decreases left
      {
        ghost var p1 := pending;
        LastOffenders(p0, pending, locals, config.accountSlots, offenders, spammers);
        CapRound(offenders[..k]);
        CutLengths(p1, pending, offenders, k);
        EqualizeRound(p0, p1, pending, locals, config.accountSlots, offenders, spammers);
        left := left - k;
      }
      LastOffenders(p0, pending, locals, config.accountSlots, offenders, spammers);
    }

    /** truncatePending, the offenders one by one, longest list first, each followed by equalizing. */
    method CutOffenders(count: nat) returns (offenders: seq<Address>, left: nat, ghost spammers: map<Address, nat>)
      requires Valid() && count == Total(pending) > config.globalSlots
      modifies this`pending, all, priced, pendingNonces
      ensures OnlyCut() && left == Total(pending) && left + |offenders| > config.globalSlots
      ensures Cutting(old(pending), pending, locals, config.accountSlots, offenders, spammers)
      ensures left > config.globalSlots ==> spammers == map[] && Level(pending, offenders, |offenders|)
    {
      hide PoolInv, Tables, Ordered, TxPricedList.Tracked, Total, Cutting, SpamOrder, Level;
      offenders, left := [], count;
      var spam := SpamOrder(pending, locals, config.accountSlots);
      CuttingStart(pending, locals, config.accountSlots);
      NoneLevel(pending);
      while left > config.globalSlots && spam != map[]
        invariant OnlyCut() && left == Total(pending) && left + |offenders| > config.globalSlots
        invariant Cutting(old(pending), pending, locals, config.accountSlots, offenders, spam)
        invariant left > config.globalSlots ==> Level(pending, offenders, |offenders|)
        decreases |spam|
      {
        var offender;
        offender, left := CutNext(offenders, left, spam, old(pending));
        FewerLeft(spam, offender);
        spam := spam - {offender};
        offenders := offenders + [offender];
      }
      spammers := spam;
    }

    /** truncatePending, the next offender. */
    method CutNext(offenders: seq<Address>, count: nat, spam: map<Address, nat>, ghost p0: Lists)
      returns (offender: Address, left: nat)
      requires Valid() && spam != map[] && count == Total(pending) > config.globalSlots
      requires Cutting(p0, pending, locals, config.accountSlots, offenders, spam)
      requires Level(pending, offenders, |offenders|)
      modifies this`pending, all, priced, pendingNonces
      ensures OnlyCut() && left == Total(pending) && left + |offenders| + 1 > config.globalSlots
      ensures offender in spam
      ensures Cutting(p0, pending, locals, config.accountSlots, offenders + [offender], spam - {offender})
      ensures left > config.globalSlots ==> Level(pending, offenders + [offender], |offenders| + 1)
    {
      hide PoolInv, Tables, Ordered, TxPricedList.Tracked, Total, Cutting, Shrunk;
      left := count;
      offender := PopLongest(spam);
      NextOffender(p0, pending, locals, config.accountSlots, offenders, spam, offender);
      if |offenders| > 0 {
        left := Equalize(offenders + [offender], left, p0, spam - {offender});
      }
    }

    /** truncatePending, the last loop: all offenders, level by now, are cut to the guaranteed slots or the limit. */
    method CutLevelled(offenders: seq<Address>, count: nat, ghost p0: Lists) returns (left: nat)
      requires Valid() && |offenders| > 0 && count == Total(pending) && count + |offenders| > config.globalSlots
      requires Levelled(p0, pending, locals, config.accountSlots, offenders)
      modifies this`pending, all, priced, pendingNonces
      ensures OnlyCut() && left == Total(pending) && left + |offenders| > config.globalSlots
      ensures Levelled(p0, pending, locals, config.accountSlots, offenders)
      ensures left <= config.globalSlots || Len(pending, offenders[|offenders| - 1]) <= config.accountSlots
    {
      hide PoolInv, Tables, Ordered, TxPricedList.Tracked, Shrunk, Total, Levelled, Distinct;
      left := count;
      var k := |offenders| - 1;
      while left > config.globalSlots && Len(pending, offenders[k]) > config.accountSlots
        invariant OnlyCut() && left == Total(pending) && left + |offenders| > config.globalSlots
        invariant Levelled(p0, pending, locals, config.accountSlots, offenders)
        decreases left
      {
        ghost var p1 := pending;
        LevelledFacts(p0, pending, locals, config.accountSlots, offenders);
        CapRound(offenders);
        LevelledRound(p0, p1, pending, locals, config.accountSlots, offenders);
        left := left - |offenders|;
      }
    }

    /** truncatePending drops the highest nonces of the longest lists of accounts that are not local until
        the global limit is met or the guaranteed slots are reached; returns the offenders. */
    method TruncatePending() returns (offenders: seq<Address>)
      requires Valid()
      modifies this`pending, all, priced, pendingNonces
      ensures OnlyCut()
      ensures Truncated(old(pending), pending, locals, config.accountSlots, config.globalSlots, offenders)
    {
      hide PoolInv, Tables, Ordered, TxPricedList.Tracked, Total, Truncated, Cutting, Levelled, Level;
      var count := Count(pending);
      if count <= config.globalSlots {
        NothingToCut(pending, locals, config.accountSlots, config.globalSlots);
        return [];
      }
      ghost var spammers;
      offenders, count, spammers := CutOffenders(count);
      if count <= config.globalSlots {
        CuttingEnd(old(pending), pending, locals, config.accountSlots, config.globalSlots, offenders, spammers);
        return;
      }
      LevelledStart(old(pending), pending, locals, config.accountSlots, offenders);
      if |offenders| > 0 {
        count := CutLevelled(offenders, count, old(pending));
      }
      LevelledEnd(old(pending), pending, locals, config.accountSlots, config.globalSlots, offenders);
    }

    /** removeTx of a queued transaction changes its sender's queue only. */
    method DropQueued(tx: Tx)
      requires Valid() && Holds(queue, tx)
      modifies this`pending, this`queue, all, priced, pendingNonces
      ensures OnlyCut() && pending == old(pending)
      ensures SameBut(old(queue), queue, tx.sender)
      ensures Items(queue, tx.sender) == Items(old(queue), tx.sender) - {tx.nonce}
    {
      hide PoolInv, Tables, Ordered, TxPricedList.Tracked, SameBut, TxNoncer.Nonce;
      QueuedIsKnown(pending, queue, all.Known(), tx);
      RemoveTx(HashOf(tx), true);
    }

    /** truncateQueue, a whole list: its transactions in nonce order. */
    method DropAllQueued(a: Address)
      requires Valid() && a in queue
      modifies this`pending, this`queue, all, priced, pendingNonces
      ensures OnlyCut() && pending == old(pending)
      ensures SameBut(old(queue), queue, a) && Items(queue, a) == map[]
    {
      hide PoolInv, Tables, Ordered, TxPricedList.Tracked, SameBut, Highest, Lowest, IsFlat, Items;
      ghost var q := queue;
      AccountFacts(pending, queue, all.Known(), a);
      var txs := ListInOrder(queue[a].items);
      WholeList(txs, queue[a].items);
      SameButSame(q, a);
      for i := 0 to |txs|
        invariant OnlyCut() && pending == old(pending) && SameBut(q, queue, a)
        invariant Items(queue, a) == Highest(q[a].items, i)
      {
        PeelBottom(txs, q[a].items, i);
        OfAccount(txs, q[a], a, i);
        HoldsIf(queue, a, txs[i]);
        ghost var q1 := queue;
        DropQueued(txs[i]);
        SameButTrans(q, q1, queue, a);
      }
    }

    /** truncateQueue, the end of a list: its `drop` highest nonces, from the last. */
    method DropLastQueued(a: Address, drop: nat)
      requires Valid() && a in queue && drop < Len(queue, a)
      modifies this`pending, this`queue, all, priced, pendingNonces
      ensures OnlyCut() && pending == old(pending)
      ensures SameBut(old(queue), queue, a)
      ensures Items(queue, a) == Lowest(Items(old(queue), a), Len(old(queue), a) - drop)
    {
      hide PoolInv, Tables, Ordered, TxPricedList.Tracked, SameBut, Highest, Lowest, IsFlat, Items;
      ghost var q := queue;
      AccountFacts(pending, queue, all.Known(), a);
      var txs := ListInOrder(queue[a].items);
      WholeList(txs, queue[a].items);
      SameButSame(q, a);
      for i := |txs| downto |txs| - drop
        invariant OnlyCut() && pending == old(pending) && SameBut(q, queue, a)
        invariant Items(queue, a) == Lowest(q[a].items, i)
      {
        PeelTop(txs, q[a].items, i);
        OfAccount(txs, q[a], a, i);
        HoldsIf(queue, a, txs[i]);
        ghost var q1 := queue;
        DropQueued(txs[i]);
        SameButTrans(q, q1, queue, a);
      }
    }

    /** truncateQueue, one account: all its queue, or only the end of it if that meets the limit. */
    method DropFrom(a: Address, drop: nat, ghost q0: Lists, ghost todo: set<Address>) returns (left: nat)
      requires Valid() && a in todo && drop > 0 && Dropping(q0, queue, locals, todo, drop, config.globalQueue)
      modifies this`pending, this`queue, all, priced, pendingNonces
      ensures OnlyCut() && pending == old(pending)
      ensures Dropping(q0, queue, locals, todo - {a}, left, config.globalQueue)
    {
      hide PoolInv, Tables, Ordered, TxPricedList.Tracked, Total, Dropping, Lowest, SameBut, Items, Valid;
      ghost var q1 := queue;
      StillQueued(q0, queue, locals, todo, drop, config.globalQueue, a);
      var size := Len(queue, a);
      if size <= drop {
        DropAllQueued(a);
        NoneKept(q1, a);
        DroppingStep(q0, q1, queue, locals, todo, drop, config.globalQueue, a, 0);
        left := drop - size;
      } else {
        DropLastQueued(a, drop);
        SomeKept(q1, a, size - drop);
        DroppingStep(q0, q1, queue, locals, todo, drop, config.globalQueue, a, size - drop);
        left := 0;
      }
    }

    lemma NoEmptyLists()
      requires Valid()
      ensures forall a :: a in pending ==> pending[a].items != map[]
      ensures forall a :: a in queue ==> queue[a].items != map[]
    {
      ListsNotEmpty(pending, queue, all.Known());
    }

    /** truncateQueue drops queued transactions of accounts that are not local, account by account in
        whatever order their heartbeats give, until the global limit is met. */
    method TruncateQueue()
      requires Valid()
      modifies this`pending, this`queue, all, priced, pendingNonces
      ensures OnlyCut() && pending == old(pending)
      ensures QueueTruncated(old(queue), queue, locals, config.globalQueue)
    {
      hide Valid, Ordered, TxPricedList.Tracked, Total, Dropping, QueueTruncated;
      ghost var q0 := queue;
      var queued := Count(queue);
      if queued <= config.globalQueue {
        ShrunkSame(queue);
        NothingDropped(queue, locals, config.globalQueue);
        return;
      }
      var drop, addresses := queued - config.globalQueue, queue.Keys - locals;
      DroppingStart(queue, locals, config.globalQueue);
      while drop > 0 && addresses != {}
        invariant OnlyCut() && pending == old(pending) && drop >= 0
        invariant Dropping(q0, queue, locals, addresses, drop, config.globalQueue)
        decreases |addresses|
      {
        var a :| a in addresses;
        drop := DropFrom(a, drop, q0, addresses);
        addresses := addresses - {a};
      }
      NoEmptyLists();
      DroppingEnd(q0, queue, locals, addresses, drop, config.globalQueue);
    }

    /** What a call keeps of the accounts' order, against the same chain head. */
    twostate predicate KeepsOrder()
      reads this, pendingNonces
    {
      && pendingNonces == old(pendingNonces) && chain == old(chain)
      && OrderKept(chain.nonce, old(pending), old(queue), old(Nexts()), pending, queue, Nexts())
    }

    /** validateTx against the pool's chain head and price floor. */
    function ValidateTx(tx: Tx, local: bool): Option<Error>
      reads this`chain, this`gasPrice
    {
      Validate(chain, gasPrice, tx, local)
    }

    /** add, the loop over the discarded transactions. `drop` is out of the heaps already. */
    method RemoveDropped(drop: seq<Tx>)
      requires Valid() && Covered(all.remotes, priced.Entries(), drop)
      modifies this`pending, this`queue, all, priced, pendingNonces
      ensures Valid() && priced.Tracked() && KeepsOrder() && unchanged(priced)
      ensures all.remotes == old(all.remotes) - HashesOf(drop) && all.locals == old(all.locals) - HashesOf(drop)
      ensures drop == [] ==> pending == old(pending) && queue == old(queue)
    {
      hide Valid, OrderKept, Nexts, Covered, TxPricedList.Entries, HashesOf, DroppedSoFar;
      SameLookup();
      ghost var entries := priced.Entries();
      OrderStays(chain.nonce, pending, queue, Nexts());
      DroppedStart(all.locals, all.remotes, entries, drop);
      for i := 0 to |drop|
        invariant Valid() && KeepsOrder() && unchanged(priced)
        invariant i == 0 ==> pending == old(pending) && queue == old(queue)
        invariant DroppedSoFar(old(all.locals), old(all.remotes), all.locals, all.remotes, entries, drop, i)
      {
        DroppedStep(old(all.locals), old(all.remotes), all.locals, all.remotes, entries, drop, i);
        ghost var p, q, nexts := pending, queue, Nexts();
        RemoveKeepsOrder(HashOf(drop[i]));
        OrderKeptTwice(chain.nonce, old(pending), old(queue), old(Nexts()), p, q, nexts, pending, queue, Nexts());
      }
      DroppedEnd(old(all.locals), old(all.remotes), all.locals, all.remotes, entries, drop);
    }

    lemma SameLookup()
      requires Valid()
      ensures priced.all == all
    {
    }

    method RemoveKeepsOrder(hash: TxHash)
      requires Valid()
      modifies this`pending, this`queue, all, priced, pendingNonces
      ensures Valid() && all.remotes == old(all.remotes) - {hash} && all.locals == old(all.locals) - {hash}
      ensures unchanged(priced) && KeepsOrder() && (old(priced.Tracked()) ==> priced.Tracked())
    {
      hide Valid, Removal, OrderKept, Nexts, Holds, TxPricedList.Tracked;
      RemoveTx(hash, false);
      RemovalKept(chain.nonce, old(pending), old(queue), old(Nexts()), pending, queue, Nexts(), hash,
                  old(all.Has(hash)));
    }

    /** The slots tx would take beyond the pool's limit. */
    function Overflow(tx: Tx): int
      reads all
    {
      all.slots + NumSlots(tx) - (config.globalSlots + config.globalQueue)
    }

    predicate Full(tx: Tx)
      reads all
    {
      Overflow(tx) > 0
    }

    /** add, pool full: whether the price heaps already hold nothing cheaper than tx. */
    method CheckPrice(tx: Tx) returns (under: bool)
      requires Valid() && priced.Tracked()
      modifies priced
      ensures Valid() && priced.Tracked() && under == old(priced.PricedOut(tx))
      ensures UniqueLive(old(priced.Entries()), all.remotes) ==> UniqueLive(priced.Entries(), all.remotes)
      ensures LiveSlots(priced.Entries(), all.remotes) == LiveSlots(old(priced.Entries()), all.remotes)
    {
      hide PoolInv, SlotSum, LiveSlots, TxPricedList.Valid, TxPricedList.Entries, TxPricedList.PricedOut, UniqueLive;
      under := priced.Underpriced(tx);
      StillTracked(all.remotes, old(priced.Entries()), priced.Entries());
      SameLiveSlots(priced.Entries(), old(priced.Entries()), all.remotes);
    }

    /** add, pool full: discards the cheapest remote transactions until `wanted` slots are free; gives up
        without changing the pool when that cannot be done, unless forced. Local transactions stay, and a remote one
        always goes if there is one. */
    method MakeRoom(wanted: nat, force: bool) returns (ok: bool)
      requires Valid() && priced.Tracked()
      modifies this`pending, this`queue, this`changesSinceReorg, all, priced, pendingNonces
      ensures Valid() && priced.Tracked() && all.Known() <= old(all.Known()) && KeepsOrder()
      ensures ok <==> force || LiveSlots(old(priced.Entries()), old(all.remotes)) >= wanted
      ensures !ok || old(all.remotes) == map[] ==> pending == old(pending) && queue == old(queue)
      ensures all.locals == old(all.locals) && (!ok ==> unchanged(all))
      ensures old(all.remotes) == map[] ==> all.Known() == old(all.Known())
      ensures ok && wanted > 0 && old(all.remotes) != map[] ==> all.Known() != old(all.Known())
      ensures ok && !force && UniqueLive(old(priced.Entries()), old(all.remotes)) ==>
                all.slots + wanted <= old(all.slots)
      ensures ok ==> CheapGone(old(all.remotes), all.remotes, old(priced.floating), priced.floating, priced.baseFee)
    {
      hide PoolInv, Tables, SlotSum, LiveSlots, TxPricedList.Tracked, TxPricedList.Entries, OrderKept, Nexts, Covered,
           UniqueLive, HashesOf, Cheap, CheapGone;
      OrderStays(chain.nonce, pending, queue, Nexts());
      SlotsCounted();
      var drop;
      drop, ok := DiscardCheapest(wanted, force);
      if ok {
        changesSinceReorg := changesSinceReorg + |drop|;
        RemoveDropped(drop);
        SlotsCounted();
        SameLookup();
        AllTracked();
        CheapDropped(old(all.remotes), all.remotes, old(priced.floating), priced.urgent, priced.floating,
                     priced.baseFee,
                     drop);
      }
    }

    lemma AllTracked()
      requires priced.Tracked()
      ensures forall h :: h in priced.all.remotes ==> h.preimage in priced.urgent || h.preimage in priced.floating
    {
    }

    lemma SlotsCounted()
      requires Valid()
      ensures all.slots == SlotSum(all.locals) + SlotSum(all.remotes)
    {
    }

    /** Discard, with the heaps on one side and the lookup on the other. */
    method DiscardCheapest(wanted: nat, force: bool) returns (drop: seq<Tx>, ok: bool)
      requires Valid() && priced.Tracked()
      modifies priced
      ensures Valid() && (ok <==> force || LiveSlots(old(priced.Entries()), all.remotes) >= wanted)
      ensures if ok then Covered(all.remotes, priced.Entries(), drop) else priced.Tracked()
      ensures all.locals - HashesOf(drop) == all.locals && (all.remotes == map[] ==> drop == [])
      ensures forall i :: 0 <= i < |drop| ==> HashOf(drop[i]) in all.remotes
      ensures ok && wanted > 0 && all.remotes != map[] ==> (all.remotes - HashesOf(drop)).Keys != all.remotes.Keys
      ensures ok ==> Cheap(old(priced.floating), priced.urgent, priced.floating, priced.baseFee, drop)
      ensures ok && !force && UniqueLive(old(priced.Entries()), all.remotes) ==>
                SlotSum(all.locals - HashesOf(drop)) + SlotSum(all.remotes - HashesOf(drop)) + wanted <=
                SlotSum(all.locals) + SlotSum(all.remotes)
    {
      hide PoolInv, SlotSum, LiveSlots, TxPricedList.Valid, TxPricedList.Entries, Covered, UniqueLive, HashesOf, Less;
      ghost var e0 := priced.Entries();
      drop, ok := priced.Discard(wanted, force);
      if !ok {
        NoHashes();
        StillTracked(all.remotes, e0, priced.Entries());
      } else {
        CoveredByDrop(all.remotes, e0, priced.Entries(), drop);
        DropsRemotes(all.remotes, all.locals, e0, drop, wanted);
        if !force && UniqueLive(e0, all.remotes) {
          DiscardMakesRoom(e0, all.remotes, all.locals, priced.Entries(), drop, wanted);
        }
      }
    }

    /** Why there is no room for tx: remote transactions may be discarded for it, but not for less than they offer, not
        too many between two reorgs, and, unless it is local, not too few. */
    ghost function RoomError(tx: Tx, isLocal: bool): (err: Option<Error>)
      reads this`changesSinceReorg, all, priced, priced.all
      ensures err.Some? ==> Full(tx) && (err.value == Underpriced || err.value == TxPoolOverflow)
      ensures err == Some(Underpriced) <==> Full(tx) && !isLocal && priced.PricedOut(tx)
      ensures err == Some(TxPoolOverflow) <==>
              && Full(tx) && (isLocal || !priced.PricedOut(tx))
              && (|| changesSinceReorg > config.globalSlots / 4
                  || (!isLocal && LiveSlots(priced.Entries(), all.remotes) < Overflow(tx)))
    {
      if !Full(tx) then None
      else if !isLocal && priced.PricedOut(tx) then Some(Underpriced)
      else if changesSinceReorg > config.globalSlots / 4 then Some(TxPoolOverflow)
      else if !isLocal && LiveSlots(priced.Entries(), all.remotes) < Overflow(tx) then Some(TxPoolOverflow)
      else None
    }

    /** add, when the pool is full: makes room for tx, or says why not. Forced for a local transaction. */
    method EnsureRoom(tx: Tx, isLocal: bool) returns (err: Option<Error>)
      requires Valid() && priced.Tracked()
      modifies this`pending, this`queue, this`changesSinceReorg, all, priced, pendingNonces
      ensures Valid() && priced.Tracked() && all.Known() <= old(all.Known()) && KeepsOrder()
      ensures err == old(RoomError(tx, isLocal)) && (!old(Full(tx)) ==> changesSinceReorg == old(changesSinceReorg))
      ensures err.Some? || !old(Full(tx)) || old(all.remotes) == map[] ==>
                pending == old(pending) && queue == old(queue)
      ensures all.locals == old(all.locals) && (err.Some? || !old(Full(tx)) ==> unchanged(all))
      ensures err.Some? || !old(Full(tx)) || old(all.remotes) == map[] <==> all.Known() == old(all.Known())
      ensures err.None? && !isLocal && UniqueLive(old(priced.Entries()), old(all.remotes)) ==> !Full(tx)
    {
      hide Valid, SlotSum, LiveSlots, TxPricedList.Tracked, TxPricedList.Entries, TxPricedList.PricedOut, OrderKept,
           Nexts,
           UniqueLive, NumSlots;
      OrderStays(chain.nonce, pending, queue, Nexts());
      if !Full(tx) {
        return None;
      }
      if !isLocal {
        var under := CheckPrice(tx);
        if under {
          return Some(Underpriced);
        }
      }
      if changesSinceReorg > config.globalSlots / 4 {
        return Some(TxPoolOverflow);
      }
      var ok := MakeRoom(Overflow(tx), isLocal);
      return if ok then None else Some(TxPoolOverflow);
    }

    /** add, when a transaction of the same nonce is pending: replaces it if outbid. */
    method ReplacePending(tx: Tx, isLocal: bool) returns (err: Option<Error>)
      requires Valid() && priced.Tracked() && !all.Has(HashOf(tx)) && tx.nonce in Items(pending, tx.sender)
      modifies this`pending, all, priced
      ensures Valid() && priced.Tracked()
      ensures err == if Accepts(ListOf(old(pending), tx.sender, true), tx, config.priceBump) then None
                     else Some(ReplaceUnderpriced)
      ensures err.Some? ==> pending == old(pending) && unchanged(all)
      ensures err.None? ==>
                && all.Known() == old(all.Known()) - ReplacedHash(Items(old(pending), tx.sender), tx) + {HashOf(tx)}
                && SameBut(old(pending), pending, tx.sender)
                && Items(pending, tx.sender) == Items(old(pending), tx.sender)[tx.nonce := tx]
                && Filing(old(all.locals), old(all.remotes), all.locals, all.remotes,
                          ReplacedHash(Items(old(pending), tx.sender), tx), tx, isLocal)
    {
      hide PoolInv, SlotSum, Outbids, Sound, ListOk, TxPricedList.Valid;
      var list := ListOf(pending, tx.sender, true);
      if !Accepts(list, tx, config.priceBump) {
        return Some(ReplaceUnderpriced);
      }
      AccountFacts(pending, queue, all.Known(), tx.sender);
      ReplaceInv(pending, queue, all.Known(), tx);
      AddedOk(pending, tx.sender, tx, true);
      Forget(HashOf(list.items[tx.nonce]), true);
      pending := pending[tx.sender := Added(list, tx)];
      Record(tx, isLocal);
      return None;
    }

    /** Files a new transaction in the lookup and the price heaps. */
    method Record(tx: Tx, local: bool)
      requires Tables() && !all.Has(HashOf(tx))
      modifies all, priced
      ensures Tables() && all.Known() == old(all.Known()) + {HashOf(tx)} && (old(priced.Tracked()) ==> priced.Tracked())
      ensures all.locals == if local then old(all.locals)[HashOf(tx) := tx] else old(all.locals)
      ensures all.remotes == if local then old(all.remotes) else old(all.remotes)[HashOf(tx) := tx]
    {
      hide SlotSum;
      all.Add(tx, local);
      priced.Put(tx, local);
    }

    /** add, when no transaction of the same nonce is pending: queues it. */
    method EnqueueNew(tx: Tx, isLocal: bool) returns (replaced: bool, err: Option<Error>)
      requires Valid() && priced.Tracked() && !all.Has(HashOf(tx)) && tx.nonce !in Items(pending, tx.sender)
      modifies this`queue, all, priced
      ensures Valid() && priced.Tracked()
      ensures err == if Accepts(ListOf(old(queue), tx.sender, false), tx, config.priceBump) then None
                     else Some(ReplaceUnderpriced)
      ensures err.Some? ==> queue == old(queue) && unchanged(all)
      ensures err.None? ==>
                && replaced == (tx.nonce in Items(old(queue), tx.sender))
                && all.Known() == old(all.Known()) - ReplacedHash(Items(old(queue), tx.sender), tx) + {HashOf(tx)}
                && SameBut(old(queue), queue, tx.sender)
                && Items(queue, tx.sender) == Items(old(queue), tx.sender)[tx.nonce := tx]
                && Filing(old(all.locals), old(all.remotes), all.locals, all.remotes,
                          ReplacedHash(Items(old(queue), tx.sender), tx), tx, isLocal)
    {
      hide PoolInv, SlotSum, Outbids, Sound, ListOk, TxPricedList.Valid, TxPricedList.Tracked;
      AccountFacts(pending, queue, all.Known(), tx.sender);
      EnqueueInv(pending, queue, all.Known(), tx);
      AddedOk(queue, tx.sender, tx, false);
      replaced, err := EnqueueTx(tx, isLocal, true);
    }

    /** add, after a local transaction made its sender local: its remote transactions become local. */
    method MarkLocal(a: Address)
      requires Valid() && priced.Tracked()
      modifies this`locals, all, priced
      ensures Valid() && priced.Tracked() && locals == old(locals) + {a} && all.Known() == old(all.Known())
      ensures all.slots == old(all.slots)
      ensures forall h :: h in all.remotes ==> h in old(all.remotes) && h.preimage.sender !in locals
    {
      hide PoolInv, SlotSum, TxPricedList.Valid;
      locals := locals + {a};
      var migrated := all.RemoteToLocals(locals);
      priced.Removed(migrated);
    }

    /** Whether tx is in the pool. */
    ghost predicate Contains(tx: Tx)
      reads this
    {
      Holds(pending, tx) || Holds(queue, tx)
    }

    /** Whether tx may take its nonce: against the pending transaction of that nonce if there is one, else against
        the queue. */
    ghost function Bid(tx: Tx): (err: Option<Error>)
      reads this`pending, this`queue
      ensures err.None? || err == Some(ReplaceUnderpriced)
    {
      var list := if tx.nonce in Items(pending, tx.sender) then ListOf(pending, tx.sender, true) else ListOf(queue,
                                                                                                             tx.sender,
                                                                                                             false);
      if Accepts(list, tx, config.priceBump) then None else Some(ReplaceUnderpriced)
    }

    /** add, once there is room: the transaction replaces a pending one of its nonce, or is queued. */
    method Insert(tx: Tx, local: bool, isLocal: bool) returns (replaced: bool, err: Option<Error>)
      requires Valid() && priced.Tracked() && !all.Has(HashOf(tx)) && chain.nonce(tx.sender) <= tx.nonce
      modifies this`pending, this`queue, this`locals, all, priced
      ensures Valid() && priced.Tracked() && KeepsOrder()
      ensures err == old(Bid(tx))
      ensures err.Some? ==> pending == old(pending) && queue == old(queue) && unchanged(all) && locals == old(locals)
      ensures err.None? ==>
                && Contains(tx)
                && replaced == (tx.nonce in Items(old(pending), tx.sender) || tx.nonce in Items(old(queue), tx.sender))
                && all.Known() == old(all.Known()) - ReplacedHash(Items(old(pending), tx.sender), tx)
                                  - ReplacedHash(Items(old(queue), tx.sender), tx) + {HashOf(tx)}
      ensures err.None? && !local ==>
                Filing(old(all.locals), old(all.remotes), all.locals, all.remotes,
                       ReplacedHash(Items(old(pending), tx.sender), tx)
                       + ReplacedHash(Items(old(queue), tx.sender), tx),
                       tx, isLocal)
      ensures locals == old(locals) || (local && locals == old(locals) + {tx.sender})
    {
      hide Valid, TxPricedList.Tracked, Accepts, OrderKept, Nexts, SameBut, Filing, ReplacedHash, TxLookup.Known, Holds;
      OneOrTheOther(tx);
      if tx.nonce in Items(pending, tx.sender) {
        err := ReplaceInOrder(tx, isLocal);
        replaced := err.None?;
      } else {
        replaced, err := EnqueueInOrder(tx, isLocal);
        if err.None? && local && tx.sender !in locals {
          MarkLocal(tx.sender);
        }
      }
    }

    lemma OneOrTheOther(tx: Tx)
      requires Valid()
      ensures tx.nonce in Items(pending, tx.sender) ==> tx.nonce !in Items(queue, tx.sender)
      ensures var gone, gone' := ReplacedHash(Items(pending, tx.sender), tx), ReplacedHash(Items(queue, tx.sender), tx);
              && (tx.nonce in Items(pending, tx.sender) ==> gone' == {} && gone + gone' == gone)
              && (tx.nonce !in Items(pending, tx.sender) ==> gone == {} && gone + gone' == gone')
    {
      AccountFacts(pending, queue, all.Known(), tx.sender);
    }

    method ReplaceInOrder(tx: Tx, isLocal: bool) returns (err: Option<Error>)
      requires Valid() && priced.Tracked() && !all.Has(HashOf(tx)) && tx.nonce in Items(pending, tx.sender)
      modifies this`pending, all, priced
      ensures Valid() && priced.Tracked() && KeepsOrder()
      ensures err == if Accepts(ListOf(old(pending), tx.sender, true), tx, config.priceBump) then None
                     else Some(ReplaceUnderpriced)
      ensures err.Some? ==> pending == old(pending) && unchanged(all)
      ensures err.None? ==>
                && Holds(pending, tx)
                && all.Known() == old(all.Known()) - ReplacedHash(Items(old(pending), tx.sender), tx) + {HashOf(tx)}
                && Filing(old(all.locals), old(all.remotes), all.locals, all.remotes,
                          ReplacedHash(Items(old(pending), tx.sender), tx), tx, isLocal)
    {
      hide Valid, TxPricedList.Tracked, Accepts, InOrder, Unbroken, OrderKept, Nexts, Filing;
      err := ReplacePending(tx, isLocal);
      ReplaceKeeps(old(pending), queue, tx);
      KeptAlike(chain.nonce, old(pending), old(queue), pending, queue, Nexts());
    }

    method EnqueueInOrder(tx: Tx, isLocal: bool) returns (replaced: bool, err: Option<Error>)
      requires Valid() && priced.Tracked() && !all.Has(HashOf(tx)) && tx.nonce !in Items(pending, tx.sender)
      requires chain.nonce(tx.sender) <= tx.nonce
      modifies this`queue, all, priced
      ensures Valid() && priced.Tracked() && KeepsOrder()
      ensures err == if Accepts(ListOf(old(queue), tx.sender, false), tx, config.priceBump) then None
                     else Some(ReplaceUnderpriced)
      ensures err.Some? ==> queue == old(queue) && unchanged(all)
      ensures err.None? ==>
                && Holds(queue, tx) && replaced == (tx.nonce in Items(old(queue), tx.sender))
                && all.Known() == old(all.Known()) - ReplacedHash(Items(old(queue), tx.sender), tx) + {HashOf(tx)}
                && Filing(old(all.locals), old(all.remotes), all.locals, all.remotes,
                          ReplacedHash(Items(old(queue), tx.sender), tx), tx, isLocal)
    {
      hide Valid, TxPricedList.Tracked, Accepts, InOrder, Unbroken, OrderKept, Nexts, Filing;
      replaced, err := EnqueueNew(tx, isLocal);
      EnqueueKeeps(pending, old(queue), tx);
      KeptAlike(chain.nonce, old(pending), old(queue), pending, queue, Nexts());
    }

    lemma ReplaceKeeps(p: Lists, q: Lists, tx: Tx)
      requires queue == q && (pending == p || (SameBut(p, pending, tx.sender) && tx.nonce in Items(p, tx.sender)
                                              && Items(pending, tx.sender) == Items(p, tx.sender)[tx.nonce := tx]))
      ensures forall a: Address, from, next :: InOrder(Items(p, a), Items(q, a), from, next) ==>
                InOrder(Items(pending, a), Items(queue, a), from, next)
      ensures forall a: Address, from :: Unbroken(Items(p, a), from) ==> Unbroken(Items(pending, a), from)
    {
      hide InOrder, Unbroken;
      forall a: Address, from | Unbroken(Items(p, a), from) ensures Unbroken(Items(pending, a), from) {
        if a == tx.sender && pending != p {
          ReplaceUnbroken(Items(p, a), from, tx);
        }
      }
      forall a: Address, from, next | InOrder(Items(p, a), Items(q, a), from, next)
        ensures InOrder(Items(pending, a), Items(queue, a), from, next)
      {
        if a == tx.sender && pending != p {
          ReplaceOrder(Items(p, a), Items(q, a), from, next, tx);
        }
      }
    }

    lemma EnqueueKeeps(p: Lists, q: Lists, tx: Tx)
      requires pending == p && (queue == q || (SameBut(q, queue, tx.sender) && tx.nonce !in Items(p, tx.sender)
                                              && Items(queue, tx.sender) == Items(q, tx.sender)[tx.nonce := tx]))
      ensures forall a: Address, from: nat, next ::
                (a == tx.sender ==> from <= tx.nonce) && InOrder(Items(p, a), Items(q, a), from, next) ==>
                InOrder(Items(pending, a), Items(queue, a), from, next)
    {
      hide InOrder;
      forall a: Address, from: nat, next |
        (a == tx.sender ==> from <= tx.nonce) && InOrder(Items(p, a), Items(q, a), from, next)
        ensures InOrder(Items(pending, a), Items(queue, a), from, next)
      {
        if a == tx.sender && queue != q {
          EnqueueOrder(Items(p, a), Items(q, a), from, next, tx);
        }
      }
    }

    /** A local transaction of the same nonce that tx does not outbid is in the pool. */
    ghost predicate LosesToLocal(tx: Tx)
      reads all`locals
    {
      exists h :: h in all.locals && h.preimage.sender == tx.sender && h.preimage.nonce == tx.nonce
                  && !Outbids(tx, h.preimage, config.priceBump)
    }

    lemma LosingBid(tx: Tx)
      requires Valid() && LosesToLocal(tx)
      ensures Bid(tx) == Some(ReplaceUnderpriced)
    {
      hide PoolInv, Outbids;
      var h :| h in all.locals && h.preimage.sender == tx.sender && h.preimage.nonce == tx.nonce
               && !Outbids(tx, h.preimage, config.priceBump);
      AccountFacts(pending, queue, all.Known(), tx.sender);
      assert h in all.Known();
    }

    /** add, once a transaction is valid: makes room for it if the pool is full, and inserts it. */
    method AddValid(tx: Tx, local: bool) returns (replaced: bool, err: Option<Error>)
      requires Valid() && priced.Tracked() && !all.Has(HashOf(tx)) && chain.nonce(tx.sender) <= tx.nonce
      modifies this`pending, this`queue, this`locals, this`changesSinceReorg, all, priced, pendingNonces
      ensures Valid() && priced.Tracked() && KeepsOrder()
      ensures if old(RoomError(tx, local || tx.sender in locals)).Some? then
                err == old(RoomError(tx, local || tx.sender in locals))
              else (err.None? || err == Some(ReplaceUnderpriced)) && (old(LosesToLocal(tx)) ==> err.Some?)
      ensures err.Some? ==>
                (all.Known() == old(all.Known()) <==>
                 err != Some(ReplaceUnderpriced) || !old(Full(tx)) || old(all.remotes) == map[])
      ensures err.Some? && all.Known() == old(all.Known()) ==> pending == old(pending) && queue == old(queue)
      ensures err.Some? ==> all.Known() <= old(all.Known()) && all.locals == old(all.locals) && locals == old(locals)
      ensures err == Some(ReplaceUnderpriced) ==> Blocked(old(all.Known()), tx, config.priceBump)
      ensures err.None? && !local && tx.sender !in locals && UniqueLive(old(priced.Entries()), old(all.remotes)) ==>
                SlotsOf(all.Known()) <= config.globalSlots + config.globalQueue
      ensures err.None? ==> Contains(tx) && HashOf(tx) in all.Known() && all.Known() <= old(all.Known()) + {HashOf(tx)}
      ensures err.None? && replaced ==> Taken(old(all.Known()), tx)
      ensures !old(Full(tx)) ==> err == old(Bid(tx)) && (err.None? ==> replaced == Taken(old(all.Known()), tx))
      ensures !old(Full(tx)) && err.None? ==>
                all.Known() == old(all.Known()) - ReplacedHash(Items(old(pending), tx.sender), tx)
                               - ReplacedHash(Items(old(queue), tx.sender), tx) + {HashOf(tx)}
      ensures !old(Full(tx)) && err.None? && !local ==>
                Filing(old(all.locals), old(all.remotes), all.locals, all.remotes,
                       ReplacedHash(Items(old(pending), tx.sender), tx)
                       + ReplacedHash(Items(old(queue), tx.sender), tx),
                       tx, tx.sender in locals)
      ensures locals == old(locals) || (local && locals == old(locals) + {tx.sender})
      ensures !old(Full(tx)) ==> changesSinceReorg == old(changesSinceReorg)
    {
      hide Valid, TxPricedList.Tracked, OrderKept, Nexts, Accepts, LiveSlots, UniqueLive, TxPricedList.PricedOut,
           Contains, Items, Outbids,
           Filing, Bid, TxPricedList.Entries, Overflow, Taken, ReplacedHash, TxLookup.Known, RoomError, Blocked,
           HasRoom, LosesToLocal, SlotsOf;
      var isLocal := local || tx.sender in locals;
      KnownIfHas();
      err := EnsureRoom(tx, isLocal);
      if err.Some? {
        return false, err;
      }
      KnownIfHas();
      BidFacts(tx, old(all.Known()));
      ghost var p, q, nexts, known := pending, queue, Nexts(), all.Known();
      RoomIs(tx);
      replaced, err := Insert(tx, local, isLocal);
      OrderKeptTwice(chain.nonce, old(pending), old(queue), old(Nexts()), p, q, nexts, pending, queue, Nexts());
      if err.None? && HasRoom(known, tx, config) {
        WithinCapacity(known, all.Known(), tx);
      }
    }

    /** add validates a transaction, makes room for it if the pool is full, and inserts it. An error changes nothing,
        except that room was made for a bid which then lost. */
    method Add(tx: Tx, local: bool) returns (replaced: bool, err: Option<Error>)
      requires Valid() && priced.Tracked()
      modifies this`pending, this`queue, this`locals, this`changesSinceReorg, all, priced, pendingNonces
      ensures Valid() && priced.Tracked() && KeepsOrder()
      ensures old(all.Has(HashOf(tx))) <==> err == Some(AlreadyKnown)
      ensures !old(all.Has(HashOf(tx))) && old(ValidateTx(tx, local || tx.sender in locals)).Some? ==>
                err == old(ValidateTx(tx, local || tx.sender in locals))
      ensures !old(all.Has(HashOf(tx))) && old(ValidateTx(tx, local || tx.sender in locals)).None? ==>
                if old(RoomError(tx, local || tx.sender in locals)).Some? then
                  err == old(RoomError(tx, local || tx.sender in locals))
                else (err.None? || err == Some(ReplaceUnderpriced)) && (old(LosesToLocal(tx)) ==> err.Some?)
      ensures err.Some? ==>
                (all.Known() == old(all.Known()) <==>
                 err != Some(ReplaceUnderpriced) || !old(Full(tx)) || old(all.remotes) == map[])
      ensures err.Some? && all.Known() == old(all.Known()) ==> pending == old(pending) && queue == old(queue)
      ensures err.Some? ==> all.Known() <= old(all.Known()) && all.locals == old(all.locals) && locals == old(locals)
      ensures err == Some(ReplaceUnderpriced) ==> Blocked(old(all.Known()), tx, config.priceBump)
      ensures err.None? && !local && tx.sender !in locals && UniqueLive(old(priced.Entries()), old(all.remotes)) ==>
                SlotsOf(all.Known()) <= config.globalSlots + config.globalQueue
      ensures err.None? ==> Contains(tx) && HashOf(tx) in all.Known() && all.Known() <= old(all.Known()) + {HashOf(tx)}
      ensures err.None? && replaced ==> Taken(old(all.Known()), tx)
      ensures !old(all.Has(HashOf(tx))) && old(ValidateTx(tx, local || tx.sender in locals)).None? && !old(Full(tx)) ==>
                && err == old(Bid(tx))
                && (err.None? ==>
                      && replaced == Taken(old(all.Known()), tx)
                      && all.Known() == old(all.Known()) - ReplacedHash(Items(old(pending), tx.sender), tx)
                                        - ReplacedHash(Items(old(queue), tx.sender), tx) + {HashOf(tx)})
                && (err.None? && !local ==>
                      Filing(old(all.locals), old(all.remotes), all.locals, all.remotes,
                             ReplacedHash(Items(old(pending), tx.sender), tx)
                             + ReplacedHash(Items(old(queue), tx.sender), tx),
                             tx, tx.sender in locals))
      ensures locals == old(locals) || (local && locals == old(locals) + {tx.sender})
      ensures !old(Full(tx)) ==> changesSinceReorg == old(changesSinceReorg)
    {
      hide Valid, TxPricedList.Tracked, OrderKept, Nexts, Contains, Items, Filing, RoomError, Bid, LosesToLocal,
           Overflow, Taken, ReplacedHash, Blocked, UniqueLive, TxPricedList.Entries, SlotsOf;
      OrderStays(chain.nonce, pending, queue, Nexts());
      if all.Has(HashOf(tx)) {
        return false, Some(AlreadyKnown);
      }
      err := ValidateTx(tx, local || tx.sender in locals);
      if err.Some? {
        return false, err;
      }
      replaced, err := AddValid(tx, local);
    }

    /** What the bid of tx says of the transactions known, and of more that were known before. */
    lemma BidFacts(tx: Tx, before: set<TxHash>)
      requires Valid() && all.Known() <= before
      ensures LosesToLocal(tx) ==> Bid(tx) == Some(ReplaceUnderpriced)
      ensures Taken(all.Known(), tx) <==> tx.nonce in Items(pending, tx.sender) || tx.nonce in Items(queue, tx.sender)
      ensures Taken(all.Known(), tx) ==> Taken(before, tx)
      ensures Bid(tx).Some? ==> Blocked(before, tx, config.priceBump)
    {
      hide Valid, Taken, Blocked, Bid, Items, LosesToLocal, TxLookup.Known;
      if LosesToLocal(tx) {
        LosingBid(tx);
      }
      TakenIs(tx);
      if Taken(all.Known(), tx) {
        TakenBefore(before, all.Known(), tx);
      }
      if Bid(tx).Some? {
        BlockedBy(tx);
        BlockedBefore(before, all.Known(), tx);
      }
    }

    lemma BlockedBy(tx: Tx)
      requires Valid() && Bid(tx).Some?
      ensures Blocked(all.Known(), tx, config.priceBump)
    {
      hide PoolInv, Outbids;
      AccountFacts(pending, queue, all.Known(), tx.sender);
      var items := if tx.nonce in Items(pending, tx.sender) then Items(pending, tx.sender) else Items(queue, tx.sender);
      assert HashOf(items[tx.nonce]) in all.Known();
    }

    lemma BlockedBefore(known: set<TxHash>, known': set<TxHash>, tx: Tx)
      requires known' <= known && Blocked(known', tx, config.priceBump)
      ensures Blocked(known, tx, config.priceBump)
    {
      hide Outbids;
    }

    /** The pool is full for tx exactly when there is no room for it. */
    lemma RoomIs(tx: Tx)
      requires Valid()
      ensures Full(tx) <==> !HasRoom(all.Known(), tx, config)
    {
      hide SlotSum, PoolInv, NumSlots;
      SlotsCounted();
      SlotSumUnion(all.locals, all.remotes);
      assert all.locals + all.remotes == map h | h in all.Known() :: h.preimage;
    }

    lemma WithinCapacity(known: set<TxHash>, known': set<TxHash>, tx: Tx)
      requires HasRoom(known, tx, config) && known' <= known + {HashOf(tx)} && HashOf(tx) !in known
      ensures SlotsOf(known') <= config.globalSlots + config.globalQueue
    {
      hide SlotsOf, NumSlots;
      SlotsOfMore(known, tx);
      SlotsOfFewer(known', known + {HashOf(tx)});
    }

    lemma ReplacedAre(tx: Tx)
      requires Valid()
      ensures forall h :: h in ReplacedHash(Items(pending, tx.sender), tx)
                          || h in ReplacedHash(Items(queue, tx.sender), tx) ==>
                h.preimage.sender == tx.sender && h.preimage.nonce == tx.nonce
    {
      hide PoolInv;
      AccountFacts(pending, queue, all.Known(), tx.sender);
    }

    lemma TakenBefore(known: set<TxHash>, known': set<TxHash>, tx: Tx)
      requires known' <= known && Taken(known', tx)
      ensures Taken(known, tx)
    {
    }

    lemma TakenIs(tx: Tx)
      requires Valid()
      ensures Taken(all.Known(), tx) <==> tx.nonce in Items(pending, tx.sender) || tx.nonce in Items(queue, tx.sender)
    {
      hide PoolInv;
      AccountFacts(pending, queue, all.Known(), tx.sender);
      if tx.nonce in Items(pending, tx.sender) {
        assert HashOf(Items(pending, tx.sender)[tx.nonce]) in all.Known();
      } else if tx.nonce in Items(queue, tx.sender) {
        assert HashOf(Items(queue, tx.sender)[tx.nonce]) in all.Known();
      }
    }

    /** add, of a valid transaction whose nonce is not taken, with room for it. */
    method AddNew(tx: Tx)
      requires Valid() && priced.Tracked() && !Full(tx) && !Taken(all.Known(), tx)
      requires ValidateTx(tx, tx.sender in locals).None?
      modifies this`pending, this`queue, this`locals, this`changesSinceReorg, all, priced, pendingNonces
      ensures Valid() && priced.Tracked() && locals == old(locals) && changesSinceReorg == old(changesSinceReorg)
      ensures all.locals == if tx.sender in locals then old(all.locals)[HashOf(tx) := tx] else old(all.locals)
      ensures all.remotes == if tx.sender in locals then old(all.remotes) else old(all.remotes)[HashOf(tx) := tx]
    {
      hide Valid, TxPricedList.Tracked, OrderKept, Nexts, Contains, Full, Validate, RoomError, LosesToLocal, Bid,
           Taken, ReplacedHash,
           TxLookup.Known;
      NotTaken(tx);
      assert all.locals - {} == all.locals && all.remotes - {} == all.remotes;
      var replaced, err := Add(tx, false);
    }

    lemma NotTaken(tx: Tx)
      requires Valid() && !Taken(all.Known(), tx)
      ensures Bid(tx).None? && !all.Has(HashOf(tx))
      ensures ReplacedHash(Items(pending, tx.sender), tx) + ReplacedHash(Items(queue, tx.sender), tx) == {}
    {
      hide Valid;
      TakenIs(tx);
      KnownIfHas();
    }

    /** add, of a valid transaction of a local account that does not outbid its local transaction of the same nonce,
        on a full pool with remote transactions and not too many changes. */
    method AddLosing(tx: Tx) returns (err: Option<Error>)
      requires Valid() && priced.Tracked() && tx.sender in locals && ValidateTx(tx, true).None? && !all.Has(HashOf(tx))
      requires Full(tx) && LosesToLocal(tx) && all.remotes != map[] && changesSinceReorg <= config.globalSlots / 4
      modifies this`pending, this`queue, this`locals, this`changesSinceReorg, all, priced, pendingNonces
      ensures Valid() && priced.Tracked() && err == Some(ReplaceUnderpriced)
      ensures all.locals == old(all.locals) && all.Known() < old(all.Known())
    {
      hide Valid, TxPricedList.Tracked, OrderKept, Nexts, Contains, Validate, LosesToLocal, Overflow, Bid, Filing,
           Taken, ReplacedHash,
           TxLookup.Known;
      var replaced;
      replaced, err := Add(tx, false);
    }

    /** Additions in turn, where a transaction counts as local if the call is or its sender was at the outset. */
    ghost predicate AddedInTurn(knowns: seq<set<TxHash>>, txs: seq<Tx>, local: bool, localAccounts: set<Address>,
                                replaced: seq<bool>, errs: seq<Option<Error>>)
      reads this`chain, this`gasPrice
    {
      && |errs| == |replaced| <= |txs| && |knowns| == |errs| + 1
      && forall i :: 0 <= i < |errs| ==>
           && AddedOne(chain, gasPrice, config, knowns[i], knowns[i + 1], txs[i],
                       local || txs[i].sender in localAccounts, errs[i])
           && (errs[i].None? && replaced[i] ==> Taken(knowns[i], txs[i]))
    }

    lemma AddedNext(knowns: seq<set<TxHash>>, txs: seq<Tx>, local: bool, localAccounts: set<Address>,
                    replaced: seq<bool>,
                    errs: seq<Option<Error>>, known: set<TxHash>, r: bool, err: Option<Error>)
      requires AddedInTurn(knowns, txs, local, localAccounts, replaced, errs) && |errs| < |txs|
      requires AddedOne(chain, gasPrice, config, knowns[|errs|], known, txs[|errs|],
                        local || txs[|errs|].sender in localAccounts, err)
      requires err.None? && r ==> Taken(knowns[|errs|], txs[|errs|])
      ensures AddedInTurn(knowns + [known], txs, local, localAccounts, replaced + [r], errs + [err])
    {
      hide AddedOne;
    }

    /** addTxsLocked adds transactions in turn; `dirty` are the senders of the accepted ones that replaced nothing, and
        `knowns` the hashes known between the additions. */
    method AddTxsLocked(txs: seq<Tx>, local: bool)
      returns (errs: seq<Option<Error>>, dirty: set<Address>, ghost replaced: seq<bool>, ghost knowns: seq<set<TxHash>>)
      requires Valid() && priced.Tracked()
      modifies this`pending, this`queue, this`locals, this`changesSinceReorg, all, priced, pendingNonces
      ensures Valid() && priced.Tracked() && KeepsOrder() && (!local ==> locals == old(locals))
      ensures txs == [] ==> pending == old(pending) && queue == old(queue)
      ensures |errs| == |txs| && AddedInTurn(knowns, txs, local, old(locals), replaced, errs)
      ensures knowns[0] == old(all.Known()) && knowns[|txs|] == all.Known()
      ensures forall a :: a in dirty <==>
              exists i :: 0 <= i < |txs| && errs[i].None? && !replaced[i] && txs[i].sender == a
    {
      hide Valid, TxPricedList.Tracked, OrderKept, Nexts, AddedInTurn, AddedOne;
      errs, dirty, replaced, knowns := [], {}, [], [all.Known()];
      OrderStays(chain.nonce, pending, queue, Nexts());
      NoneAdded(knowns, txs, local, locals);
      for i := 0 to |txs|
        invariant Valid() && priced.Tracked() && KeepsOrder() && (!local ==> locals == old(locals))
        invariant i == 0 ==> pending == old(pending) && queue == old(queue)
        invariant |errs| == |replaced| == i && |knowns| == i + 1 && knowns[0] == old(all.Known())
        invariant knowns[i] == all.Known()
        invariant AddedInTurn(knowns, txs, local, old(locals), replaced, errs)
        invariant dirty == Newcomers(txs, replaced, errs)
      {
        ghost var p, q, nexts := pending, queue, Nexts();
        var r, err := AddTraced(txs[i], local, old(locals));
        OrderKeptTwice(chain.nonce, old(pending), old(queue), old(Nexts()), p, q, nexts, pending, queue, Nexts());
        AddedNext(knowns, txs, local, old(locals), replaced, errs, all.Known(), r, err);
        NewcomersNext(txs, replaced, errs, r, err);
        errs, replaced, knowns := errs + [err], replaced + [r], knowns + [all.Known()];
        if err.None? && !r {
          dirty := dirty + {txs[i].sender};
        }
      }
    }

    lemma NoneAdded(knowns: seq<set<TxHash>>, txs: seq<Tx>, local: bool, localAccounts: set<Address>)
      requires |knowns| == 1
      ensures AddedInTurn(knowns, txs, local, localAccounts, [], [])
    {
    }

    method AddTraced(tx: Tx, local: bool, ghost localAccounts: set<Address>)
      returns (replaced: bool, err: Option<Error>)
      requires Valid() && priced.Tracked() && (!local ==> locals == localAccounts)
      modifies this`pending, this`queue, this`locals, this`changesSinceReorg, all, priced, pendingNonces
      ensures Valid() && priced.Tracked() && KeepsOrder() && (!local ==> locals == localAccounts)
      ensures AddedOne(chain, gasPrice, config, old(all.Known()), all.Known(), tx, local || tx.sender in localAccounts,
                       err)
      ensures err.None? && replaced ==> Taken(old(all.Known()), tx)
    {
      hide Valid, TxPricedList.Tracked, OrderKept, Nexts, Items, Contains, Bid, Validate, Taken, Filing, RoomError,
           ReplacedHash, HasRoom, TxLookup.Known, Blocked;
      KnownIfHas();
      RoomIs(tx);
      ReplacedAre(tx);
      replaced, err := Add(tx, local);
    }

    lemma KnownIfHas()
      ensures forall h :: all.Has(h) <==> h in all.Known()
    {
    }

    lemma ReturnedInTurn(knowns: seq<set<TxHash>>, txs: seq<Tx>, localAccounts: set<Address>, replaced: seq<bool>,
                         errs: seq<Option<Error>>)
      requires AddedInTurn(knowns, txs, false, localAccounts, replaced, errs) && |errs| == |txs|
      ensures Returned(chain, gasPrice, config, localAccounts, txs, errs, knowns, knowns[0], knowns[|txs|])
    {
      hide AddedOne, Taken;
    }

    /** reset, from the new head's state on: the virtual nonces start afresh, and the transactions the reorg
        dropped are added again under the fork rules of the old head. */
    method Reset(head: ChainState, reinject: seq<Tx>)
      returns (ghost errs: seq<Option<Error>>, ghost knowns: seq<set<TxHash>>)
      requires Valid() && priced.Tracked()
      modifies this, all, priced
      ensures Valid() && priced.Tracked() && chain == head && locals == old(locals) && gasPrice == old(gasPrice)
      ensures fresh(pendingNonces)
      ensures reinject == [] ==> pending == old(pending) && queue == old(queue)
      ensures Returned(head.(eip2718 := old(chain).eip2718, eip1559 := old(chain).eip1559), gasPrice, config, locals,
                       reinject, errs, knowns, old(all.Known()), all.Known())
      ensures OrderKept(head.nonce, old(pending), old(queue), StateNonces(head.nonce), pending, queue, Nexts())
    {
      hide PoolInv, Tables, TxPricedList.Tracked, OrderKept, AddedInTurn, Nexts;
      chain := RulesOf(head, chain);
      pendingNonces := new TxNoncer(head.nonce);
      FreshNonces();
      var results, dirty;
      ghost var replaced;
      results, dirty, replaced, knowns := AddTxsLocked(reinject, false);
      errs := results;
      ReturnedInTurn(knowns, reinject, locals, replaced, errs);
      chain := head;
    }

    lemma FreshNonces()
      requires forall a: Address :: Next(a) == chain.nonce(a)
      ensures Nexts() == StateNonces(chain.nonce)
    {
      hide Next;
    }

    /** One past the highest pending nonce of every account. */
    method LastNonces() returns (nonces: map<Address, nat>)
      requires Valid()
      ensures nonces.Keys == pending.Keys && forall a :: a in pending ==> IsNext(pending[a].items, nonces[a])
    {
      hide PoolInv, Tables, IsNext, IsFlat;
      var todo := pending.Keys;
      nonces := map[];
      while todo != {}
        invariant todo <= pending.Keys && nonces.Keys == pending.Keys - todo
        invariant forall a :: a in nonces ==> a in pending && IsNext(pending[a].items, nonces[a])
        decreases |todo|
      {
        var a :| a in todo;
        var next := LastNonce(a);
        nonces := nonces[a := next];
        todo := todo - {a};
      }
    }

    method LastNonce(a: Address) returns (next: nat)
      requires Valid() && a in pending
      ensures IsNext(pending[a].items, next)
    {
      hide PoolInv, Tables, IsNext;
      AccountFacts(pending, queue, all.Known(), a);
      var txs := ListInOrder(pending[a].items);
      FlatLast(txs, pending[a].items);
      next := txs[|txs| - 1].nonce + 1;
    }

    /** runReorg, once the pool is reset and promoted: the virtual nonces follow the pending lists. */
    method UpdateNonces()
      requires Valid()
      modifies pendingNonces
      ensures Valid()
      ensures forall a: Address :: if a in pending then IsNext(pending[a].items, Next(a)) else Next(a) == chain.nonce(a)
      ensures forall a: Address :: Gapless(Items(pending, a), Items(queue, a), chain.nonce(a)) <==> Ordered(a)
    {
      hide PoolInv, Tables, Gapless, InOrder, IsNext, Items;
      var nonces := LastNonces();
      pendingNonces.SetAll(nonces);
      forall a: Address ensures Gapless(Items(pending, a), Items(queue, a), chain.nonce(a)) <==> Ordered(a) {
        NextFollows(a);
      }
    }

    lemma NextFollows(a: Address)
      requires Valid() && if a in pending then IsNext(pending[a].items, Next(a)) else Next(a) == chain.nonce(a)
      ensures Gapless(Items(pending, a), Items(queue, a), chain.nonce(a)) <==> Ordered(a)
    {
      hide PoolInv, Tables, Gapless, InOrder, IsNext;
      AccountFacts(pending, queue, all.Known(), a);
      if Ordered(a) {
        OrderedIsGapless(Items(pending, a), Items(queue, a), chain.nonce(a), Next(a));
      } else if Gapless(Items(pending, a), Items(queue, a), chain.nonce(a)) {
        NextFound(Items(pending, a), Items(queue, a), chain.nonce(a), Next(a));
      }
    }

    /** A reset did not lower the account's state nonce: from a nonce not above it, the pending nonces have no
        gap, and the virtual nonce has not been raised yet. */
    ghost predicate NotLowered(a: Address)
      reads this, pendingNonces
    {
      && Next(a) <= chain.nonce(a)
      && exists was: nat :: was <= chain.nonce(a) && Gapless(Items(pending, a), Items(queue, a), was)
    }

    /** Apart from transactions below the state nonce, the account is in order. */
    ghost predicate OrderedFromState(a: Address)
      reads this
    {
      Gapless(From(Items(pending, a), chain.nonce(a)), Items(queue, a), chain.nonce(a))
    }

    /** Promotion took the account from the tables p, q to the tables p', q'. */
    ghost predicate PromotedTo(p: Lists, q: Lists, p': Lists, q': Lists, a: Address, start: nat)
      reads this`chain, this`locals
    {
      exists next: nat :: AccountPromoted(p, q, p', q', a, chain.nonce(a), chain.balance(a), chain.maxGas, start,
                                          QueueCap(a), next)
    }

    /** runReorg promotes every queued account after a reset. */
    method PromoteQueued() returns (promoted: seq<Tx>)
      requires Valid()
      modifies this`pending, this`queue, all, priced, pendingNonces
      ensures Valid() && (old(priced.Tracked()) ==> priced.Tracked())
      ensures forall a: Address :: old(Ordered(a) || NotLowered(a)) ==> OrderedFromState(a)
      ensures forall a: Address :: PromotedTo(old(pending), old(queue), pending, queue, a, old(Next(a)))
      ensures Readied(promoted, old(queue), old(Nexts()), old(queue).Keys)
    {
      hide Valid, TxPricedList.Tracked, AccountPromoted, Gapless, From, PoolInv, InOrder, TxNoncer.Nonce, Items,
           Readied;
      ghost var p, q, known, nexts := pending, queue, all.Known(), Nexts();
      StartFacts();
      promoted := PromoteExecutables(queue.Keys);
      forall a: Address ensures PromotedTo(p, q, pending, queue, a, nexts[a]) {
        NotQueuedPromoted(p, q, pending, queue, a, chain.nonce(a), chain.balance(a), chain.maxGas, nexts[a],
                          QueueCap(a), Next(a));
      }
      forall a: Address | old(Ordered(a) || NotLowered(a)) ensures OrderedFromState(a) {
        if old(Ordered(a)) {
          assert Ordered(a);
          OrderedIsGapless(Items(pending, a), Items(queue, a), chain.nonce(a), Next(a));
          LaterOnly(Items(pending, a), Items(queue, a), chain.nonce(a));
        } else {
          var was: nat :| was <= chain.nonce(a) && Gapless(Items(p, a), Items(q, a), was);
          AccountFacts(p, q, known, a);
          NotQueuedPromoted(p, q, pending, queue, a, chain.nonce(a), chain.balance(a), chain.maxGas, nexts[a],
                            QueueCap(a), Next(a));
          ResetPromotion(p, q, pending, queue, a, was, chain.nonce(a), chain.balance(a), chain.maxGas, nexts[a],
                         QueueCap(a), Next(a));
        }
      }
    }

    lemma NowExecutable(p: Lists)
      requires forall a: Address :: PendingKeptOf(p, a)
      ensures AllExecutable(pending)
    {
      hide Executable;
      forall a: Address, n | n in Items(pending, a)
        ensures Executable(Items(pending, a)[n], chain.nonce(a), chain.balance(a), chain.maxGas)
      {
        assert PendingKeptOf(p, a);
      }
    }

    /** runReorg demotes what the new state made unexecutable. */
    method DemoteAfterReset()
      requires Valid()
      modifies this`pending, this`queue, all, priced
      ensures Valid() && (old(priced.Tracked()) ==> priced.Tracked())
      ensures forall a: Address :: old(OrderedFromState(a)) ==>
                Gapless(Items(pending, a), Items(queue, a), chain.nonce(a))
      ensures forall a: Address :: DemotedTo(old(pending), old(queue), pending, queue, a)
      ensures AllExecutable(pending)
    {
      hide Valid, TxPricedList.Tracked, AccountDemoted, Gapless, From, PoolInv, Items, PendingKeptOf, AllExecutable;
      ghost var p, q, known := pending, queue, all.Known();
      StartFacts();
      DemoteUnexecutables();
      NowExecutable(p);
      forall a: Address | old(OrderedFromState(a)) ensures Gapless(Items(pending, a), Items(queue, a), chain.nonce(a)) {
        AccountFacts(p, q, known, a);
        assert DemotedTo(p, q, pending, queue, a);
        ResetDemotion(p, q, pending, queue, a, chain.nonce(a), chain.balance(a), chain.maxGas);
      }
    }

    /** SetBaseFee and the rebuilt price heaps touch nothing else. */
    method SetBaseFee(fee: nat)
      requires Valid()
      modifies priced
      ensures Valid() && priced.Tracked() && priced.baseFee == Some(fee)
    {
      hide PoolInv, SlotSum, TxPricedList.Tracked;
      priced.SetBaseFee(Some(fee));
    }

    /** What a reset does to the tables after the new head is in place: promotion of every queued account from some
        virtual nonces, whose finds are returned, and demotion of every account. */
    ghost predicate Revalidated(p0: Lists, q0: Lists, p: Lists, q: Lists, promoted: seq<Tx>)
      reads this`chain, this`locals
    {
      exists p1, q1, starts: imap<Address, nat> :: RevalidatedBy(p0, q0, p1, q1, p, q, promoted, starts)
    }

    ghost predicate RevalidatedBy(p0: Lists, q0: Lists, p1: Lists, q1: Lists, p: Lists, q: Lists, promoted: seq<Tx>,
                                  starts: imap<Address, nat>)
      reads this`chain, this`locals
    {
      && Readied(promoted, q0, starts, q0.Keys) && (forall a: Address :: a in starts)
      && (forall a: Address :: PromotedTo(p0, q0, p1, q1, a, starts[a]))
      && (forall a: Address :: DemotedTo(p1, q1, p, q, a))
    }

    /** What was pending from nonce `was` on in the tables p, q goes with the transactions found below it. */
    ghost predicate FitsLowered(p: Lists, q: Lists, a: Address, was: nat)
      reads this`chain
    {
      Fits(Items(p, a), Found(q, a, chain.nonce(a), chain.balance(a), chain.maxGas), was, chain.balance(a),
           chain.maxGas)
    }

    /** A reset lowered the account's state nonce: its pending nonces start above it, without a gap. */
    ghost predicate Lowered(a: Address, was: nat)
      reads this, pendingNonces
    {
      Next(a) == chain.nonce(a) < was && Unbroken(Items(pending, a), was)
    }

    /** runReorg promotes every queued account and demotes what the new state made unexecutable. */
    method Revalidate() returns (promoted: seq<Tx>)
      requires Valid() && priced.Tracked()
      modifies this`pending, this`queue, all, priced, pendingNonces
      ensures Valid() && priced.Tracked() && Revalidated(old(pending), old(queue), pending, queue, promoted)
      ensures forall a: Address :: old(Ordered(a) || NotLowered(a)) ==>
                Gapless(Items(pending, a), Items(queue, a), chain.nonce(a))
      ensures forall a: Address, was: nat :: old(Lowered(a, was)) ==>
                (Gapless(Items(pending, a), Items(queue, a), chain.nonce(a)) <==>
                 FitsLowered(old(pending), old(queue), a, was))
      ensures AllExecutable(pending)
    {
      hide Valid, TxPricedList.Tracked, PromotedTo, DemotedTo, Readied, Gapless, Ordered, NotLowered, Nexts,
           TxNoncer.Nonce,
           Unbroken, FitsLowered, PoolInv, AllExecutable;
      ghost var starts := Nexts();
      StartFacts();
      ghost var p, q, known := pending, queue, all.Known();
      promoted := PromoteQueued();
      StartFacts();
      ghost var p1, q1, known1 := pending, queue, all.Known();
      DemoteAfterReset();
      assert RevalidatedBy(old(pending), old(queue), p1, q1, pending, queue, promoted, starts);
      forall a: Address, was: nat | old(Lowered(a, was))
        ensures Gapless(Items(pending, a), Items(queue, a), chain.nonce(a)) <==> FitsLowered(p, q, a, was)
      {
        LoweredAccount(p, q, known, p1, q1, known1, a, was);
      }
    }

    lemma LoweredAccount(p: Lists, q: Lists, known: set<TxHash>, p1: Lists, q1: Lists, known1: set<TxHash>, a: Address,
                         was: nat)
      requires PoolInv(p, q, known) && PoolInv(p1, q1, known1)
      requires PromotedTo(p, q, p1, q1, a, chain.nonce(a)) && DemotedTo(p1, q1, pending, queue, a)
      requires chain.nonce(a) < was && Unbroken(Items(p, a), was)
      ensures Gapless(Items(pending, a), Items(queue, a), chain.nonce(a)) <==> FitsLowered(p, q, a, was)
    {
      hide PoolInv, AccountPromoted, AccountDemoted, Gapless, Fits, Found, Unbroken, Sound;
      AccountFacts(p, q, known, a);
      AccountFacts(p1, q1, known1, a);
      var next: nat :| AccountPromoted(p, q, p1, q1, a, chain.nonce(a), chain.balance(a), chain.maxGas, chain.nonce(a),
                                       QueueCap(a), next);
      LoweredNonce(p, q, p1, q1, pending, queue, a, was, chain.nonce(a), chain.balance(a), chain.maxGas, QueueCap(a),
                   next);
    }

    /** runReorg under the lock, the part a reset adds: an account that was in order is in order if and only if its
        state nonce was not lowered or what was pending fits what came back. The tables are p0, q0 once the dropped
        transactions are back. */
    method ResetAndRevalidate(reset: ResetRequest)
      returns (promoted: seq<Tx>, ghost p0: Lists, ghost q0: Lists, ghost errs: seq<Option<Error>>,
               ghost knowns: seq<set<TxHash>>)
      requires Valid() && priced.Tracked()
      modifies this, all, priced, pendingNonces
      ensures Valid() && priced.Tracked() && locals == old(locals) && gasPrice == old(gasPrice)
      ensures chain == if reset.head.Some? then reset.head.value else old(chain)
      ensures pendingNonces == old(pendingNonces) || fresh(pendingNonces)
      ensures reset.head.None? || reset.reinject == [] ==> p0 == old(pending) && q0 == old(queue)
      ensures reset.head.Some? ==>
                exists known :: PoolInv(p0, q0, known)
                                && Returned(RulesOf(chain, old(chain)), gasPrice, config, locals, reset.reinject, errs,
                                            knowns, old(all.Known()), known)
      ensures Revalidated(p0, q0, pending, queue, promoted)
      ensures reset.baseFee.Some? ==> priced.baseFee == Some(reset.baseFee.value)
      ensures forall a: Address :: if a in pending then IsNext(pending[a].items, Next(a)) else Next(a) == chain.nonce(a)
      ensures forall a: Address :: old(Ordered(a)) ==>
                (Ordered(a) <==> old(chain.nonce(a)) <= chain.nonce(a) || FitsLowered(p0, q0, a, old(chain.nonce(a))))
      ensures AllExecutable(pending)
    {
      hide Valid, TxPricedList.Tracked, Gapless, Ordered, NotLowered, Lowered, Items, TxNoncer.Nonce, Revalidated,
           IsNext, FitsLowered, Returned, PoolInv, AllExecutable;
      errs, knowns := NewHead(reset);
      p0, q0 := pending, queue;
      StartFacts();
      promoted := Revalidate();
      if reset.baseFee.Some? {
        SetBaseFee(reset.baseFee.value);
      }
      UpdateNonces();
    }

    /** runReorg, the reset itself: how an account that was in order stands before promotion. */
    method NewHead(reset: ResetRequest) returns (ghost errs: seq<Option<Error>>, ghost knowns: seq<set<TxHash>>)
      requires Valid() && priced.Tracked()
      modifies this, all, priced
      ensures Valid() && priced.Tracked() && locals == old(locals) && gasPrice == old(gasPrice)
      ensures chain == if reset.head.Some? then reset.head.value else old(chain)
      ensures pendingNonces == old(pendingNonces) || fresh(pendingNonces)
      ensures reset.head.None? || reset.reinject == [] ==> pending == old(pending) && queue == old(queue)
      ensures reset.head.Some? ==>
                Returned(RulesOf(chain, old(chain)), gasPrice, config, locals, reset.reinject, errs, knowns,
                         old(all.Known()), all.Known())
      ensures forall a: Address :: old(Ordered(a)) ==>
                if old(chain.nonce(a)) <= chain.nonce(a) then Ordered(a) || NotLowered(a)
                else Lowered(a, old(chain.nonce(a)))
    {
      hide Valid, TxPricedList.Tracked, OrderKept, Returned, InOrder, Gapless, Unbroken, Items, Nexts;
      errs, knowns := [], [];
      if reset.head.Some? {
        errs, knowns := Reset(reset.head.value, reset.reinject);
        forall a: Address | old(Ordered(a))
          ensures if old(chain.nonce(a)) <= chain.nonce(a) then NotLowered(a) else Lowered(a, old(chain.nonce(a)))
        {
          KeptFromHead(chain.nonce, old(pending), old(queue), pending, queue, Nexts(), a, old(chain.nonce(a)),
                       old(Next(a)));
        }
      }
    }

    /** What a reset made of the tables: p0, q0 once the dropped transactions are back, each as Returned says, and p, q
        after promotion and demotion. */
    ghost predicate ResetTo(reset: ResetRequest, was: ChainState, pOld: Lists, qOld: Lists, known: set<TxHash>,
                            p0: Lists,
                            q0: Lists,
                            p: Lists, q: Lists,
                            promoted: seq<Tx>, errs: seq<Option<Error>>, knowns: seq<set<TxHash>>)
      reads this`chain, this`locals, this`gasPrice
    {
      && Revalidated(p0, q0, p, q, promoted)
      && (reset.head.None? || reset.reinject == [] ==> p0 == pOld && q0 == qOld)
      && (reset.head.Some? ==>
            exists known' :: PoolInv(p0, q0, known')
                             && Returned(RulesOf(chain, was), gasPrice, config, locals, reset.reinject, errs, knowns,
                                         known,
                                         known'))
    }

    /** runReorg under the lock, before the limits: a reset if there is one, and promotion. */
    method ResetOrPromote(reset: Option<ResetRequest>, dirty: set<Address>)
      returns (promoted: seq<Tx>, ghost p0: Lists, ghost q0: Lists, ghost errs: seq<Option<Error>>,
               ghost knowns: seq<set<TxHash>>)
      requires Valid() && priced.Tracked()
      modifies this, all, priced, pendingNonces
      ensures Valid() && priced.Tracked() && locals == old(locals) && gasPrice == old(gasPrice)
      ensures chain == if reset.Some? && reset.value.head.Some? then reset.value.head.value else old(chain)
      ensures pendingNonces == old(pendingNonces) || fresh(pendingNonces)
      ensures reset.None? ==>
                && (forall a: Address :: a in dirty ==>
                      PromotedTo(old(pending), old(queue), pending, queue, a, old(Next(a))))
                && (forall a: Address :: a !in dirty ==>
                      SameAt(old(pending), pending, a) && SameAt(old(queue), queue, a))
                && Readied(promoted, old(queue), old(Nexts()), dirty)
      ensures reset.Some? ==>
                && ResetTo(reset.value, old(chain), old(pending), old(queue), old(all.Known()), p0, q0, pending, queue,
                           promoted, errs, knowns)
                && AllExecutable(pending)
      ensures forall a: Address ::
                && old(Ordered(a))
                && (old(chain.nonce(a)) <= chain.nonce(a) || FitsLowered(p0, q0, a, old(chain.nonce(a)))) ==>
                Ordered(a)
    {
      hide PoolInv, Tables, TxPricedList.Tracked, InOrder, TxNoncer.Nonce, PromotedFrom, Readied, SameAt, Revalidated,
           IsNext, Returned, FitsLowered, AllExecutable, QueueKeptOf;
      p0, q0, errs, knowns := map[], map[], [], [];
      if reset.Some? {
        promoted, p0, q0, errs, knowns := ResetAndRevalidate(reset.value);
      } else {
        promoted := PromoteExecutables(dirty);
        PromotionsDone(old(pending), old(queue), old(Nexts()), dirty);
      }
    }

    /** runReorg under the lock: a reset if there is one, promotion, and the limits, which cut the tables p, q. */
    method RunReorg(reset: Option<ResetRequest>, dirty: set<Address>)
      returns (promoted: seq<Tx>, ghost p: Lists, ghost q: Lists, ghost offenders: seq<Address>,
               ghost p0: Lists, ghost q0: Lists, ghost errs: seq<Option<Error>>, ghost knowns: seq<set<TxHash>>)
      requires Valid() && priced.Tracked()
      modifies this, all, priced, pendingNonces
      ensures Valid() && priced.Tracked() && locals == old(locals) && gasPrice == old(gasPrice)
      ensures changesSinceReorg == 0
      ensures chain == if reset.Some? && reset.value.head.Some? then reset.value.head.value else old(chain)
      ensures pendingNonces == old(pendingNonces) || fresh(pendingNonces)
      ensures reset.None? ==>
                && (forall a: Address :: a in dirty ==> PromotedTo(old(pending), old(queue), p, q, a, old(Next(a))))
                && (forall a: Address :: a !in dirty ==> SameAt(old(pending), p, a) && SameAt(old(queue), q, a))
                && Readied(promoted, old(queue), old(Nexts()), dirty)
      ensures reset.Some? ==>
                ResetTo(reset.value, old(chain), old(pending), old(queue), old(all.Known()), p0, q0, p, q, promoted,
                        errs,
                        knowns)
      ensures Truncated(p, pending, locals, config.accountSlots, config.globalSlots, offenders)
      ensures QueueTruncated(q, queue, locals, config.globalQueue)
      ensures forall a: Address ::
                && old(Ordered(a))
                && (old(chain.nonce(a)) <= chain.nonce(a) || FitsLowered(p0, q0, a, old(chain.nonce(a)))) ==>
                Ordered(a)
      ensures WithinLimits() && (reset.Some? ==> AllExecutable(pending))
    {
      hide PoolInv, Tables, TxPricedList.Tracked, InOrder, WithinLimits, TxNoncer.Nonce, PromotedTo, Truncated, Nexts,
           QueueTruncated, Readied, SameAt, ResetTo, FitsLowered, AllExecutable;
      promoted, p0, q0, errs, knowns := ResetOrPromote(reset, dirty);
      p, q := pending, queue;
      offenders := EnforceLimits();
      changesSinceReorg := 0;
      if reset.Some? {
        StillExecutable(p, offenders);
      }
    }

    lemma StillExecutable(p: Lists, offenders: seq<Address>)
      requires Truncated(p, pending, locals, config.accountSlots, config.globalSlots, offenders)
      requires AllExecutable(p)
      ensures AllExecutable(pending)
    {
      hide Executable, Total, Len, Rank, Items;
      forall a: Address, n | n in Items(pending, a)
        ensures Executable(Items(pending, a)[n], chain.nonce(a), chain.balance(a), chain.maxGas)
      {
        assert n in Items(p, a) && Items(p, a)[n] == Items(pending, a)[n];
      }
    }

    lemma PromotionsDone(p: Lists, q: Lists, starts: imap<Address, nat>, dirty: set<Address>)
      requires forall a: Address :: a in starts
      requires forall a :: a in dirty ==> PromotedFrom(p, q, a, starts[a])
      ensures forall a: Address :: a in dirty ==> PromotedTo(p, q, pending, queue, a, starts[a])
    {
      hide AccountPromoted;
      forall a: Address | a in dirty ensures PromotedTo(p, q, pending, queue, a, starts[a]) {
        assert PromotedFrom(p, q, a, starts[a]);
      }
    }

    /** The pool's limits: beyond them are local accounts and guaranteed slots alone. */
    ghost predicate WithinLimits()
      reads this`pending, this`queue, this`locals
    {
      && (|| Total(pending) <= config.globalSlots
          || forall a: Address :: a !in locals ==> Len(pending, a) <= config.accountSlots)
      && (Total(queue) <= config.globalQueue || queue.Keys <= locals)
    }

    method EnforceLimits() returns (ghost offenders: seq<Address>)
      requires Valid()
      modifies this`pending, this`queue, all, priced, pendingNonces
      ensures OnlyCut() && WithinLimits()
      ensures Truncated(old(pending), pending, locals, config.accountSlots, config.globalSlots, offenders)
      ensures QueueTruncated(old(queue), queue, locals, config.globalQueue)
    {
      hide Valid, TxPricedList.Tracked, Ordered, Total, Len;
      var cut := TruncatePending();
      offenders := cut;
      TruncateQueue();
    }

    /** SetGasPrice; when the price rises, every remote transaction with a lower tip goes. */
    method SetGasPrice(price: nat)
      requires Valid() && priced.Tracked()
      modifies this, all, priced, pendingNonces
      ensures Valid() && priced.Tracked() && KeepsOrder() && gasPrice == price && locals == old(locals)
      ensures all.remotes == if price > old(gasPrice) then old(all.remotes) - old(BelowTip(price)) else old(all.remotes)
      ensures all.locals == old(all.locals)
      ensures forall h :: h in all.remotes <==>
                h in old(all.remotes) && (price <= old(gasPrice) || price <= h.preimage.tipCap)
    {
      RemotesFiled();
      hide PoolInv, Tables, TxPricedList.Tracked, OrderKept, Nexts;
      OrderStays(chain.nonce, pending, queue, Nexts());
      var was := gasPrice;
      gasPrice := price;
      if price > was {
        DropBelowTip(price);
      }
    }

    lemma RemotesFiled()
      requires Valid()
      ensures forall h :: h in all.remotes ==> all.remotes[h] == h.preimage
    {
    }

    /** RemotesBelowTip: the remote transactions whose tip is below a threshold. */
    function BelowTip(price: nat): set<TxHash>
      reads all
    {
      set h | h in all.remotes && all.remotes[h].tipCap < price
    }

    method DropBelowTip(price: nat)
      requires Valid() && priced.Tracked()
      modifies this`pending, this`queue, all, priced, pendingNonces
      ensures Valid() && priced.Tracked() && KeepsOrder()
      ensures all.remotes == old(all.remotes) - old(BelowTip(price)) && all.locals == old(all.locals)
    {
      hide Valid, TxPricedList.Tracked, OrderKept, Nexts, BelowTip, Lacks;
      OrderStays(chain.nonce, pending, queue, Nexts());
      LocalsApart();
      var drop := BelowTip(price);
      var todo := drop;
      NothingLacks(all.locals, all.remotes, drop);
      while todo != {}
        invariant todo <= drop && Valid() && priced.Tracked() && KeepsOrder() && unchanged(priced)
        invariant Lacks(old(all.locals), old(all.remotes), all.locals, all.remotes, drop - todo)
        decreases |todo|
      {
        var hash :| hash in todo;
        LacksMore(old(all.locals), old(all.remotes), all.locals, all.remotes, drop, todo, hash);
        ghost var p, q, nexts := pending, queue, Nexts();
        RemoveKeepsOrder(hash);
        OrderKeptTwice(chain.nonce, old(pending), old(queue), old(Nexts()), p, q, nexts, pending, queue, Nexts());
        todo := todo - {hash};
      }
      LacksAll(old(all.locals), old(all.remotes), all.locals, all.remotes, drop);
      TellRemoved(|drop|);
    }

    lemma LocalsApart()
      requires Valid()
      ensures all.locals.Keys !! all.remotes.Keys && forall price :: BelowTip(price) <= all.remotes.Keys
    {
    }

    method TellRemoved(count: nat)
      requires Valid() && priced.Tracked()
      modifies priced
      ensures Valid() && priced.Tracked()
    {
      hide PoolInv, SlotSum, TxPricedList.Tracked;
      priced.Removed(count);
    }

    /** A call of AddTxs took the known transactions from `known` to the present ones. */
    ghost predicate TookIn(op: Op, known: set<TxHash>, localAccounts: set<Address>)
      requires op.AddTxs?
      reads this`chain, this`gasPrice, all
    {
      exists knowns, replaced, errs ::
        && AddedInTurn(knowns, op.txs, op.local, localAccounts, replaced, errs) && |errs| == |op.txs|
        && knowns[0] == known && knowns[|op.txs|] == all.Known()
    }

    /** One call. */
    method Step(op: Op)
      requires Valid() && priced.Tracked()
      modifies this, all, priced, pendingNonces
      ensures Valid() && priced.Tracked() && (pendingNonces == old(pendingNonces) || fresh(pendingNonces))
      ensures chain == HeadAfter(old(chain), [op])
      ensures forall a: Address :: old(Ordered(a)) && old(chain.nonce(a)) <= chain.nonce(a) ==> Ordered(a)
      ensures op.AddTxs? ==> TookIn(op, old(all.Known()), old(locals))
      ensures op.RemoveTx? ==> all.Known() == old(all.Known()) - {op.hash}
      ensures op.SetGasPrice? ==>
                && gasPrice == op.price && all.locals == old(all.locals)
                && forall h :: h in all.remotes <==>
                     h in old(all.remotes) && (op.price <= old(gasPrice) || op.price <= h.preimage.tipCap)
      ensures op.RunReorg? ==>
                && WithinLimits() && changesSinceReorg == 0
                && (op.reset.Some? ==> AllExecutable(pending))
    {
      hide Valid, TxPricedList.Tracked, InOrder, Gapless, Unbroken, Items, Removal, TxNoncer.Nonce, Nexts, AddedInTurn,
           WithinLimits, AllExecutable, Truncated, QueueTruncated, ResetTo, PromotedTo, BelowTip;
      match op
      case AddTxs(txs, local) =>
        var errs, dirty, replaced, knowns := AddTxsLocked(txs, local);
      case RemoveTx(hash, outofbound) =>
        RemoveTx(hash, outofbound);
      case SetGasPrice(price) =>
        SetGasPrice(price);
      case RunReorg(reset, dirty) =>
        var promoted, p, q, offenders, p0, q0, errs, knowns := RunReorg(reset, dirty);
    }

    /** Every run of the pool keeps its tables exact and its heaps complete, and keeps in order every account
        whose state nonce no reset lowers. */
    method Run(ops: seq<Op>)
      requires Valid() && priced.Tracked()
      modifies this, all, priced, pendingNonces
      ensures Valid() && priced.Tracked() && chain == HeadAfter(old(chain), ops)
      ensures forall a: Address :: old(Ordered(a)) && NeverLowered(old(chain), ops, a) ==> Ordered(a)
    {
      hide Valid, TxPricedList.Tracked, Ordered;
      for i := 0 to |ops|
        invariant Valid() && priced.Tracked() && (pendingNonces == old(pendingNonces) || fresh(pendingNonces))
        invariant chain == HeadAfter(old(chain), ops[..i])
        invariant forall a: Address :: old(Ordered(a)) && NeverLowered(old(chain), ops[..i], a) ==> Ordered(a)
      {
        assert ops[..i + 1][..i] == ops[..i];
        Step(ops[i]);
      }
      assert ops[..|ops|] == ops;
    }
  }

  const LOCAL_TX := Tx(1, 0, Legacy, 21000, 5, 5, 0, 100, 21000, 0)
  const REMOTE_TX := Tx(2, 0, Legacy, 21000, 5, 5, 0, 100, 21000, 0)
  const LOSING_TX := Tx(1, 0, Legacy, 21000, 5, 5, 7, 100, 21000, 0)

  /** A losing bid on a full pool. Account 1 is local, and one transaction of it and one of account 2 fill the pool. The
      bid for the nonce of the local one is refused, but the remote one has been discarded for it. */
  method BidLostOnFullPool() returns (pool: TxPool, err: Option<Error>, ghost before: set<TxHash>)
    ensures before == {HashOf(LOCAL_TX), HashOf(REMOTE_TX)}
    ensures err == Some(ReplaceUnderpriced) && pool.all.Known() == {HashOf(LOCAL_TX)}
  {
    hide TxPool.Valid, TxPricedList.Tracked, SlotSum, TxPool.Ordered, Taken, TxPool.LosesToLocal, TxPool.Full;
    pool := new TxPool(Config(1, 10, 1, 1, 1, 1), {1}, ChainState(_ => 0, _ => 1_000_000, 30_000_000, true, true));
    NoSlots();
    Filling(pool, map[], map[], LOCAL_TX);
    pool.AddNew(LOCAL_TX);
    OneOf(LOCAL_TX);
    Filling(pool, map[HashOf(LOCAL_TX) := LOCAL_TX], map[], REMOTE_TX);
    pool.AddNew(REMOTE_TX);
    OneOf(REMOTE_TX);
    Filled(pool, LOCAL_TX, REMOTE_TX, LOSING_TX);
    before := pool.all.Known();
    err := pool.AddLosing(LOSING_TX);
  }

  /** The pool has room for tx, whose sender and nonce are not taken. */
  lemma Filling(pool: TxPool, locals: map<TxHash, Tx>, remotes: map<TxHash, Tx>, tx: Tx)
    requires pool.Valid() && pool.all.locals == locals && pool.all.remotes == remotes
    requires SlotSum(locals) + SlotSum(remotes) + NumSlots(tx) <= pool.config.globalSlots + pool.config.globalQueue
    requires forall h :: h in locals || h in remotes ==> h.preimage.sender != tx.sender
    ensures !pool.Full(tx) && !Taken(pool.all.Known(), tx)
  {
    hide SlotSum, PoolInv;
    pool.SlotsCounted();
  }

  lemma Filled(pool: TxPool, local: Tx, remote: Tx, tx: Tx)
    requires pool.Valid() && pool.all.locals == map[HashOf(local) := local]
    requires pool.all.remotes == map[HashOf(remote) := remote]
    requires NumSlots(local) + NumSlots(remote) + NumSlots(tx) > pool.config.globalSlots + pool.config.globalQueue
    requires local.sender == tx.sender && local.nonce == tx.nonce && !Outbids(tx, local, pool.config.priceBump)
    ensures pool.Full(tx) && pool.LosesToLocal(tx)
  {
    hide SlotSum, PoolInv, Outbids;
    pool.SlotsCounted();
    OneSlot(local);
    OneSlot(remote);
    assert HashOf(local) in pool.all.locals;
  }

  lemma OneOf(tx: Tx)
    ensures map[][HashOf(tx) := tx] == map[HashOf(tx) := tx] && SlotSum(map[HashOf(tx) := tx]) == NumSlots(tx)
    ensures SlotSum(map[]) == 0
  {
    NoSlots();
    OneSlot(tx);
  }

  lemma NoSlots()
    ensures SlotSum(map[]) == 0
  {
  }

  lemma OneSlot(tx: Tx)
    ensures SlotSum(map[HashOf(tx) := tx]) == NumSlots(tx)
  {
    NoSlots();
    SlotSumWith(map[], HashOf(tx), tx);
    assert map[][HashOf(tx) := tx] == map[HashOf(tx) := tx];
  }
}

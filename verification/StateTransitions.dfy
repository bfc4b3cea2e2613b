/** GasPool of core/gaspool.go and IntrinsicGas of core/state_transition.go. */
module Gas {
  import opened Integers
  import opened Transactions

  const MAX_UINT64: int := TWO_64 - 1

  /** The gas left in a block. */
  class GasPool {
    var gas: nat

    ghost predicate Valid()
      reads this
    {
      gas < TWO_64
    }

    constructor ()
      ensures Valid() && gas == 0
    {
      gas := 0;
    }

    /** AddGas panics above 64 bits; that it does not is its callers' part. */
    method AddGas(amount: nat)
      requires Valid() && gas <= MAX_UINT64 - amount
      modifies this
      ensures Valid() && gas == old(gas) + amount
    {
      gas := gas + amount;
    }

    /** SubGas fails, and changes nothing, exactly when there is not enough gas. */
    method SubGas(amount: nat) returns (ok: bool)
      requires Valid()
      modifies this
      ensures Valid() && ok == (amount <= old(gas)) && gas == if ok then old(gas) - amount else old(gas)
    {
      if gas < amount {
        return false;
      }
      gas := gas - amount;
      return true;
    }
  }

  const TX_GAS := 21000
  const TX_GAS_CONTRACT_CREATION := 53000
  const TX_DATA_ZERO_GAS := 4
  const TX_DATA_NON_ZERO_GAS_FRONTIER := 68
  const TX_DATA_NON_ZERO_GAS_EIP2028 := 16
  const TX_ACCESS_LIST_ADDRESS_GAS := 2400
  const TX_ACCESS_LIST_STORAGE_KEY_GAS := 1900

  function NonZero(data: seq<bv8>): nat {
    if data == [] then 0 else NonZero(data[..|data| - 1]) + if data[|data| - 1] != 0 then 1 else 0
  }

  lemma {:induction false} NonZeroBound(data: seq<bv8>)
    ensures NonZero(data) <= |data|
  {
    if data != [] {
      NonZeroBound(data[..|data| - 1]);
    }
  }

  /** The positions of the bytes that are not zero. */
  function NonZeroAt(data: seq<bv8>): set<nat> {
    set i: nat | i < |data| && data[i] != 0
  }

  lemma {:induction false} NonZeroIs(data: seq<bv8>)
    ensures NonZero(data) == |NonZeroAt(data)|
  {
    if data != [] {
      var n := |data| - 1;
      NonZeroIs(data[..n]);
      NonZeroLast(data, n);
    }
  }

  lemma NonZeroLast(data: seq<bv8>, n: nat)
    requires |data| == n + 1
    ensures n !in NonZeroAt(data[..n])
    ensures NonZeroAt(data) == if data[n] != 0 then NonZeroAt(data[..n]) + {n} else NonZeroAt(data[..n])
  {
  }

  /** What the data of a message costs, without bounds: each byte by whether it is zero. */
  function DataGas(data: seq<bv8>, creation: bool, homestead: bool, eip2028: bool): int {
    (if creation && homestead then TX_GAS_CONTRACT_CREATION else TX_GAS)
    + NonZero(data) * (if eip2028 then TX_DATA_NON_ZERO_GAS_EIP2028 else TX_DATA_NON_ZERO_GAS_FRONTIER)
    + (|data| - NonZero(data)) * TX_DATA_ZERO_GAS
  }

  /** The storage keys of an access list, which has for each address its number of keys. */
  function StorageKeys(accessList: seq<nat>): nat {
    if accessList == [] then 0 else StorageKeys(accessList[..|accessList| - 1]) + accessList[|accessList| - 1]
  }

  lemma {:induction false} StorageKeysOf(a: seq<nat>, b: seq<nat>)
    ensures StorageKeys(a + b) == StorageKeys(a) + StorageKeys(b)
    ensures |a| == 1 ==> StorageKeys(a) == a[0]
    decreases |b|
  {
    if b == [] {
      assert a + b == a;
    } else {
      StorageKeysOf(a, b[..|b| - 1]);
      assert (a + b)[..|a + b| - 1] == a + b[..|b| - 1];
    }
    if |a| == 1 {
      assert a[..0] == [];
    }
  }

  /** What an access list costs, without bounds. */
  function AccessGas(accessList: seq<nat>): int {
    |accessList| * TX_ACCESS_LIST_ADDRESS_GAS + StorageKeys(accessList) * TX_ACCESS_LIST_STORAGE_KEY_GAS
  }

  /** The intrinsic gas of a message: an error exactly when the data costs more than 64 bits hold, and otherwise the
      cost, which the unguarded access list part can wrap around. */
  function Intrinsic(data: seq<bv8>, accessList: seq<nat>, creation: bool, homestead: bool,
                     eip2028: bool): Option<int> {
    var cost := DataGas(data, creation, homestead, eip2028);
    if cost > MAX_UINT64 then None else Some((cost + AccessGas(accessList)) % TWO_64)
  }

  /** The intrinsic gas in numbers: 21000, or 53000 for a creation from Homestead on, 16 or 68 for a byte that is not
      zero and 4 for one that is, 2400 for an address and 1900 for a storage key of the access list. */
  lemma IntrinsicIs(data: seq<bv8>, accessList: seq<nat>, creation: bool, homestead: bool, eip2028: bool)
    ensures var nz := |NonZeroAt(data)|;
            var cost := (if creation && homestead then 53000 else 21000) + nz * (if eip2028 then 16 else 68)
                        + (|data| - nz) * 4;
            var access := |accessList| * 2400 + StorageKeys(accessList) * 1900;
            Intrinsic(data, accessList, creation, homestead, eip2028) ==
            if cost >= TWO_64 then None else Some((cost + access) % TWO_64)
  {
    NonZeroIs(data);
  }

  /** IntrinsicGas, with the divisions that guard its 64-bit sums. */
  method IntrinsicGas(data: seq<bv8>, accessList: seq<nat>, creation: bool, homestead: bool, eip2028: bool)
    returns (r: Option<int>)
    ensures r == Intrinsic(data, accessList, creation, homestead, eip2028)
    ensures r.Some? && r.value < DataGas(data, creation, homestead, eip2028) ==>
              DataGas(data, creation, homestead, eip2028) + AccessGas(accessList) >= TWO_64
  {
    hide NonZero, StorageKeys, DataGas;
    var start := IntrinsicDataGas(data, creation, homestead, eip2028);
    if start.None? {
      return None;
    }
    var gas := start.value;
    WrapTwice(gas, |accessList| * TX_ACCESS_LIST_ADDRESS_GAS, StorageKeys(accessList) * TX_ACCESS_LIST_STORAGE_KEY_GAS);
    gas := (gas + |accessList| * TX_ACCESS_LIST_ADDRESS_GAS) % TWO_64;
    gas := (gas + StorageKeys(accessList) * TX_ACCESS_LIST_STORAGE_KEY_GAS) % TWO_64;
    return Some(gas);
  }

  /** IntrinsicGas, the part before the access list. */
  method IntrinsicDataGas(data: seq<bv8>, creation: bool, homestead: bool, eip2028: bool) returns (r: Option<int>)
    ensures r == if DataGas(data, creation, homestead, eip2028) > MAX_UINT64 then None
                 else Some(DataGas(data, creation, homestead, eip2028))
    ensures DataGas(data, creation, homestead, eip2028) >= 0
  {
    hide NonZero;
    var gas := if creation && homestead then TX_GAS_CONTRACT_CREATION else TX_GAS;
    NonZeroBound(data);
    NoData();
    if |data| > 0 {
      var nz := CountNonZero(data);
      var nonZeroGas := if eip2028 then TX_DATA_NON_ZERO_GAS_EIP2028 else TX_DATA_NON_ZERO_GAS_FRONTIER;
      Guard(MAX_UINT64 - gas, nonZeroGas, nz);
      if (MAX_UINT64 - gas) / nonZeroGas < nz {
        return None;
      }
      gas := gas + nz * nonZeroGas;
      var z := |data| - nz;
      Guard(MAX_UINT64 - gas, TX_DATA_ZERO_GAS, z);
      if (MAX_UINT64 - gas) / TX_DATA_ZERO_GAS < z {
        return None;
      }
      gas := gas + z * TX_DATA_ZERO_GAS;
    }
    return Some(gas);
  }

  lemma NoData()
    ensures NonZero([]) == 0
  {
  }

  method CountNonZero(data: seq<bv8>) returns (nz: nat)
    ensures nz == NonZero(data)
  {
    nz := 0;
    for i := 0 to |data|
      invariant nz == NonZero(data[..i])
    {
      assert data[..i + 1][..i] == data[..i];
      if data[i] != 0 {
        nz := nz + 1;
      }
    }
    assert data[..|data|] == data;
  }

  lemma WrapTwice(gas: nat, a: nat, b: nat)
    ensures ((gas + a) % TWO_64 + b) % TWO_64 == (gas + (a + b)) % TWO_64
    ensures gas < TWO_64 && (gas + (a + b)) % TWO_64 < gas ==> gas + (a + b) >= TWO_64
  {
  }

  lemma IntrinsicNat(data: seq<bv8>, accessList: seq<nat>, creation: bool, homestead: bool, eip2028: bool)
    ensures var r := Intrinsic(data, accessList, creation, homestead, eip2028);
            r.Some? ==> r.value >= 0
  {
  }

  lemma Guard(room: nat, price: nat, count: nat)
    requires price > 0
    ensures room / price < count <==> count * price > room
  {
    if count > room / price {
      assert count * price >= (room / price + 1) * price;
    } else {
      assert count * price <= (room / price) * price;
    }
  }
}

/** What a state transition works on, and what it computes. */
module Transitions {
  import opened Integers
  import opened Transactions
  import opened Gas

  /** The parts of the state that accounting reads; `rest` is everything else. */
  datatype World = World(balances: map<Address, int>, nonces: map<Address, nat>, contracts: set<Address>, rest: nat)

  function Balance(w: World, a: Address): int {
    if a in w.balances then w.balances[a] else 0
  }

  function NonceOf(w: World, a: Address): nat {
    if a in w.nonces then w.nonces[a] else 0
  }

  /** AddBalance, and SubBalance with a negative amount. */
  function Credit(w: World, a: Address, amount: int): World {
    w.(balances := w.balances[a := Balance(w, a) + amount])
  }

  /** All ether there is. */
  ghost function Ether(b: map<Address, int>): int {
    if b == map[] then 0
    else
      var a :| a in b;
      b[a] + Ether(b - {a})
  }

  lemma {:induction false} EtherWithout(b: map<Address, int>, a: Address)
    requires a in b
    ensures Ether(b) == b[a] + Ether(b - {a})
    decreases |b|
  {
    var x :| x in b && Ether(b) == b[x] + Ether(b - {x});
    if x != a {
      EtherWithout(b - {x}, a);
      EtherWithout(b - {a}, x);
      assert b - {x} - {a} == b - {a} - {x};
    }
  }

  /** A credit changes the sum by the amount. */
  lemma CreditEther(w: World, a: Address, amount: int)
    ensures Ether(Credit(w, a, amount).balances) == Ether(w.balances) + amount
  {
    var b := Credit(w, a, amount).balances;
    EtherWithout(b, a);
    if a in w.balances {
      EtherWithout(w.balances, a);
      assert b - {a} == w.balances - {a};
    } else {
      assert b - {a} == w.balances;
    }
  }

  /** The block a message runs in: its fork rules, its base fee and its coinbase. */
  datatype Context = Context(homestead: bool, istanbul: bool, london: bool, noBaseFee: bool, baseFee: int,
                             coinbase: Address)

  /** A message; the fee caps may be missing before London. */
  datatype Message = Message(from: Address, to: Option<Address>, nonce: nat, gas: nat, gasPrice: int,
                             feeCap: Option<int>,
                             tipCap: Option<int>, value: int, data: seq<bv8>, accessList: seq<nat>, isFake: bool)

  /** Gas limits and nonces have 64 bits; from London on, both caps are there. */
  predicate WellFormed(ctx: Context, msg: Message) {
    msg.gas < TWO_64 && msg.nonce < TWO_64 && (ctx.london ==> msg.feeCap.Some? && msg.tipCap.Some?)
  }

  /** What the virtual machine is asked to run, and what it answers. */
  datatype EvmCall = EvmCall(create: bool, caller: Address, to: Address, data: seq<bv8>, gas: nat, value: int)
  datatype EvmResult = EvmResult(world: World, gas: nat, refund: nat, failed: bool, callStack: nat)

  type Evm = (World, EvmCall) -> EvmResult

  /** A machine that returns no more gas than it got and moves ether without making or burning any. */
  ghost predicate Sound(evm: Evm) {
    forall w: World, c: EvmCall :: evm(w, c).gas <= c.gas && Ether(evm(w, c).world.balances) == Ether(w.balances)
  }

  datatype Error =
    | NonceTooHigh | NonceTooLow | NonceMax | SenderNoEOA | FeeCapVeryHigh | TipVeryHigh | TipAboveFeeCap | FeeCapTooLow
    | InsufficientFunds | GasLimitReached | GasUintOverflow | IntrinsicGasTooLow | InsufficientFundsForTransfer
    | CallStackLeft

  datatype Outcome = Rejected(error: Error) | Executed(usedGas: nat, failed: bool)

  /** The state, the gas pool and the outcome after a transition. */
  datatype After = After(world: World, pool: nat, outcome: Outcome)

  function NonceError(msg: Message, w: World): Option<Error> {
    if msg.isFake then None
    else if NonceOf(w, msg.from) < msg.nonce then Some(NonceTooHigh)
    else if NonceOf(w, msg.from) > msg.nonce then Some(NonceTooLow)
    else if NonceOf(w, msg.from) == MAX_UINT64 then Some(NonceMax)
    else None
  }

  /** The checks after the nonce and before gas is bought. */
  function RuleError(ctx: Context, msg: Message, w: World): Option<Error>
    requires WellFormed(ctx, msg)
  {
    if !msg.isFake && msg.from in w.contracts then Some(SenderNoEOA)
    else if !ctx.london || (ctx.noBaseFee && msg.feeCap.value == 0 && msg.tipCap.value == 0) then None
    else if msg.feeCap.value >= TWO_256 || msg.feeCap.value <= -TWO_256 then Some(FeeCapVeryHigh)
    else if msg.tipCap.value >= TWO_256 || msg.tipCap.value <= -TWO_256 then Some(TipVeryHigh)
    else if msg.feeCap.value < msg.tipCap.value then Some(TipAboveFeeCap)
    else if msg.feeCap.value < ctx.baseFee then Some(FeeCapTooLow)
    else None
  }

  /** The funds the sender must have to buy gas. */
  function Wanted(msg: Message): int {
    if msg.feeCap.Some? then msg.gas * msg.feeCap.value + msg.value else msg.gas * msg.gasPrice
  }

  function Quotient(ctx: Context): nat {
    if ctx.london then 5 else 2
  }

  /** The refund: what the state asks for, up to a part of the gas used. */
  function Refund(ctx: Context, used: nat, asked: nat): nat {
    if used / Quotient(ctx) > asked then asked else used / Quotient(ctx)
  }

  /** What the coinbase gets per gas. */
  function EffectiveTip(ctx: Context, msg: Message): int
    requires WellFormed(ctx, msg)
  {
    if ctx.london then Min(msg.tipCap.value, msg.feeCap.value - ctx.baseFee) else msg.gasPrice
  }

  /** The call of the machine that a message asks for, with the gas left to it; a call, not a creation, takes the
      sender's next nonce first. */
  function Run(msg: Message, w: World, gas: nat, evm: Evm): EvmResult {
    if msg.to.None? then evm(w, EvmCall(true, msg.from, 0, msg.data, gas, msg.value))
    else evm(w.(nonces := w.nonces[msg.from := (NonceOf(w, msg.from) + 1) % TWO_64]),
             EvmCall(false, msg.from, msg.to.value, msg.data, gas, msg.value))
  }

  /** After the machine ran: the refund, the sender's unused gas, the pool's, and the coinbase's reward. */
  function Settle(ctx: Context, msg: Message, r: EvmResult, pool: nat): After
    requires WellFormed(ctx, msg) && r.gas <= msg.gas
  {
    var gas := r.gas + Refund(ctx, msg.gas - r.gas, r.refund);
    var used := msg.gas - gas;
    var w := Credit(Credit(r.world, msg.from, gas * msg.gasPrice), ctx.coinbase, used * EffectiveTip(ctx, msg));
    After(w, pool + gas, if r.callStack > 0 then Rejected(CallStackLeft) else Executed(used, r.failed))
  }

  /** Once gas is bought. */
  function Execute(ctx: Context, msg: Message, w: World, pool: nat, evm: Evm): After
    requires WellFormed(ctx, msg) && Sound(evm)
  {
    var intrinsic := Intrinsic(msg.data, msg.accessList, msg.to.None?, ctx.homestead, ctx.istanbul);
    if intrinsic.None? then After(w, pool, Rejected(GasUintOverflow))
    else if msg.gas < intrinsic.value then After(w, pool, Rejected(IntrinsicGasTooLow))
    else if msg.value > 0 && Balance(w, msg.from) < msg.value then
      After(w, pool, Rejected(InsufficientFundsForTransfer))
    else Settle(ctx, msg, Run(msg, w, msg.gas - intrinsic.value, evm), pool)
  }

  /** TransitionDb as a whole: the nonce, the rules, the gas, and the execution. */
  function Transition(ctx: Context, msg: Message, w: World, pool: nat, evm: Evm): After
    requires WellFormed(ctx, msg) && Sound(evm)
  {
    if NonceError(msg, w).Some? then After(w, pool, Rejected(NonceError(msg, w).value))
    else if RuleError(ctx, msg, w).Some? then After(w, pool, Rejected(RuleError(ctx, msg, w).value))
    else if Balance(w, msg.from) < Wanted(msg) then After(w, pool, Rejected(InsufficientFunds))
    else if pool < msg.gas then After(w, pool, Rejected(GasLimitReached))
    else Execute(ctx, msg, Credit(w, msg.from, -(msg.gas * msg.gasPrice)), pool - msg.gas, evm)
  }

  /** The rules of preCheckSu, from its own lines. */
  function RuleErrorSu(ctx: Context, msg: Message, w: World): Option<Error>
    requires WellFormed(ctx, msg)
  {
    if !msg.isFake && msg.from in w.contracts then Some(SenderNoEOA)
    else if ctx.london then
      var feeCap, tipCap := msg.feeCap.value, msg.tipCap.value;
      if !ctx.noBaseFee || feeCap != 0 || tipCap != 0 then
        if Oversized(feeCap) then Some(FeeCapVeryHigh)
        else if Oversized(tipCap) then Some(TipVeryHigh)
        else if feeCap < tipCap then Some(TipAboveFeeCap)
        else if feeCap < ctx.baseFee then Some(FeeCapTooLow)
        else None
      else None
    else None
  }

  /** A number of more than 256 bits. */
  predicate Oversized(n: int) {
    n >= TWO_256 || -n >= TWO_256
  }

  /** TransitionDbTest as a whole, from its own lines. */
  function TransitionTest(ctx: Context, msg: Message, w: World, pool: nat, evm: Evm): After
    requires WellFormed(ctx, msg) && Sound(evm)
  {
    var err := RuleErrorSu(ctx, msg, w);
    if err.Some? then After(w, pool, Rejected(err.value))
    else if Balance(w, msg.from) < Wanted(msg) then After(w, pool, Rejected(InsufficientFunds))
    else if pool < msg.gas then After(w, pool, Rejected(GasLimitReached))
    else ExecuteTest(ctx, msg, Credit(w, msg.from, -(msg.gas * msg.gasPrice)), pool - msg.gas, evm)
  }

  /** TransitionDbTest, once gas is bought. */
  function ExecuteTest(ctx: Context, msg: Message, w: World, pool: nat, evm: Evm): After
    requires WellFormed(ctx, msg) && Sound(evm)
  {
    var creation := msg.to.None?;
    var intrinsic := Intrinsic(msg.data, msg.accessList, creation, ctx.homestead, ctx.istanbul);
    if intrinsic.None? then After(w, pool, Rejected(GasUintOverflow))
    else if msg.gas < intrinsic.value then After(w, pool, Rejected(IntrinsicGasTooLow))
    else if msg.value > 0 && !(Balance(w, msg.from) >= msg.value) then
      After(w, pool, Rejected(InsufficientFundsForTransfer))
    else
      IntrinsicNat(msg.data, msg.accessList, creation, ctx.homestead, ctx.istanbul);
      var gas := msg.gas - intrinsic.value;
      var r := if creation then evm(w, EvmCall(true, msg.from, 0, msg.data, gas, msg.value))
               else
                 var next := (NonceOf(w, msg.from) + 1) % TWO_64;
                 evm(w.(nonces := w.nonces[msg.from := next]),
                     EvmCall(false, msg.from, msg.to.value, msg.data, gas, msg.value));
      SettleTest(ctx, msg, r, pool)
  }

  /** TransitionDbTest, after the machine ran. */
  function SettleTest(ctx: Context, msg: Message, r: EvmResult, pool: nat): After
    requires WellFormed(ctx, msg) && r.gas <= msg.gas
  {
    var quotient := if !ctx.london then 2 else 5;
    var capped := (msg.gas - r.gas) / quotient;
    var left := r.gas + if capped > r.refund then r.refund else capped;
    var refunded := Credit(r.world, msg.from, left * msg.gasPrice);
    var tip := if ctx.london then Min(msg.tipCap.value, msg.feeCap.value - ctx.baseFee) else msg.gasPrice;
    var rewarded := Credit(refunded, ctx.coinbase, (msg.gas - left) * tip);
    if r.callStack > 0 then After(rewarded, pool + left, Rejected(CallStackLeft))
    else After(rewarded, pool + left, Executed(msg.gas - left, r.failed))
  }

  predicate IsNonceError(o: Outcome) {
    o.Rejected? && (o.error == NonceTooHigh || o.error == NonceTooLow || o.error == NonceMax)
  }

  /** The rules of preCheckSu are those of preCheck after the nonce. */
  lemma SameRules(ctx: Context, msg: Message, w: World)
    requires WellFormed(ctx, msg)
    ensures RuleErrorSu(ctx, msg, w) == RuleError(ctx, msg, w)
  {
  }

  /** The two executions are the same from the purchase of gas on. */
  lemma SameExecution(ctx: Context, msg: Message, w: World, pool: nat, evm: Evm)
    requires WellFormed(ctx, msg) && Sound(evm)
    ensures ExecuteTest(ctx, msg, w, pool, evm) == Execute(ctx, msg, w, pool, evm)
  {
    hide Intrinsic, Credit;
  }

  /** TransitionDbTest gives what TransitionDb gives unless that fails for the nonce. */
  lemma SameWithoutNonceChecks(ctx: Context, msg: Message, w: World, pool: nat, evm: Evm)
    requires WellFormed(ctx, msg) && Sound(evm)
    ensures IsNonceError(Transition(ctx, msg, w, pool, evm).outcome)
            || Transition(ctx, msg, w, pool, evm) == TransitionTest(ctx, msg, w, pool, evm)
  {
    hide Execute, ExecuteTest, RuleError, RuleErrorSu, Sound;
    SameRules(ctx, msg, w);
    if Balance(w, msg.from) >= Wanted(msg) && pool >= msg.gas {
      SameExecution(ctx, msg, Credit(w, msg.from, -(msg.gas * msg.gasPrice)), pool - msg.gas, evm);
    }
  }

  /** t is what one of the two transitions gives. */
  ghost predicate Gives(ctx: Context, msg: Message, w: World, pool: nat, evm: Evm, t: After)
    requires WellFormed(ctx, msg) && Sound(evm)
  {
    t == Transition(ctx, msg, w, pool, evm) || t == TransitionTest(ctx, msg, w, pool, evm)
  }

  /** The machine's result when a transition comes to run it. */
  ghost predicate Ran(ctx: Context, msg: Message, w: World, pool: nat, evm: Evm, t: After, r: EvmResult)
    requires WellFormed(ctx, msg) && Sound(evm)
  {
    var bought := Credit(w, msg.from, -(msg.gas * msg.gasPrice));
    var intrinsic := Intrinsic(msg.data, msg.accessList, msg.to.None?, ctx.homestead, ctx.istanbul);
    && intrinsic.Some? && intrinsic.value <= msg.gas && r == Run(msg, bought, msg.gas - intrinsic.value, evm)
    && msg.gas <= pool
    && t == Settle(ctx, msg, r, pool - msg.gas)
  }

  lemma ExecutedRan(ctx: Context, msg: Message, w: World, pool: nat, evm: Evm, t: After) returns (r: EvmResult)
    requires WellFormed(ctx, msg) && Sound(evm) && Gives(ctx, msg, w, pool, evm, t) && t.outcome.Executed?
    ensures Ran(ctx, msg, w, pool, evm, t, r) && r.gas <= msg.gas
    ensures Ether(r.world.balances) == Ether(w.balances) - msg.gas * msg.gasPrice
  {
    hide Ether, Intrinsic, Settle, Gives, Execute, Credit, Sound;
    var price := msg.gas * msg.gasPrice;
    var bought := Credit(w, msg.from, -price);
    ExecutedWhole(ctx, msg, w, pool, evm, t);
    r := ExecuteRan(ctx, msg, bought, pool - msg.gas, evm);
    CreditEther(w, msg.from, -price);
  }

  /** What is executed passed the checks, whichever of the two transitions it was. */
  lemma ExecutedWhole(ctx: Context, msg: Message, w: World, pool: nat, evm: Evm, t: After)
    requires WellFormed(ctx, msg) && Sound(evm) && Gives(ctx, msg, w, pool, evm, t) && t.outcome.Executed?
    ensures msg.gas <= pool
    ensures t == Execute(ctx, msg, Credit(w, msg.from, -(msg.gas * msg.gasPrice)), pool - msg.gas, evm)
  {
    hide Execute, ExecuteTest, RuleError, RuleErrorSu, Sound;
    if pool >= msg.gas {
      SameExecution(ctx, msg, Credit(w, msg.from, -(msg.gas * msg.gasPrice)), pool - msg.gas, evm);
    }
  }

  lemma ExecuteRan(ctx: Context, msg: Message, w: World, pool: nat, evm: Evm) returns (r: EvmResult)
    requires WellFormed(ctx, msg) && Sound(evm) && Execute(ctx, msg, w, pool, evm).outcome.Executed?
    ensures var intrinsic := Intrinsic(msg.data, msg.accessList, msg.to.None?, ctx.homestead, ctx.istanbul);
            && intrinsic.Some? && 0 <= intrinsic.value <= msg.gas && r == Run(msg, w, msg.gas - intrinsic.value, evm)
            && r.gas <= msg.gas && Execute(ctx, msg, w, pool, evm) == Settle(ctx, msg, r, pool)
    ensures Ether(r.world.balances) == Ether(w.balances)
  {
    hide Ether, Intrinsic, Settle;
    IntrinsicNat(msg.data, msg.accessList, msg.to.None?, ctx.homestead, ctx.istanbul);
    var intrinsic := Intrinsic(msg.data, msg.accessList, msg.to.None?, ctx.homestead, ctx.istanbul);
    r := Run(msg, w, msg.gas - intrinsic.value, evm);
  }

  /** Each nonce error comes exactly when it should, before any other, and changes nothing. */
  lemma NonceVerdict(ctx: Context, msg: Message, w: World, pool: nat, evm: Evm)
    requires WellFormed(ctx, msg) && Sound(evm)
    ensures var t := Transition(ctx, msg, w, pool, evm);
            && (t.outcome == Rejected(NonceTooLow) <==> !msg.isFake && NonceOf(w, msg.from) > msg.nonce)
            && (t.outcome == Rejected(NonceTooHigh) <==> !msg.isFake && NonceOf(w, msg.from) < msg.nonce)
            && (t.outcome == Rejected(NonceMax) <==> !msg.isFake && NonceOf(w, msg.from) == msg.nonce == MAX_UINT64)
            && (IsNonceError(t.outcome) ==> t.world == w && t.pool == pool)
  {
    hide Intrinsic, Sound;
    if NonceError(msg, w).None? && RuleError(ctx, msg, w).None? && Balance(w, msg.from) >= Wanted(msg)
       && pool >= msg.gas {
      NoNonceError(ctx, msg, Credit(w, msg.from, -(msg.gas * msg.gasPrice)), pool - msg.gas, evm);
    }
  }

  lemma NoNonceError(ctx: Context, msg: Message, w: World, pool: nat, evm: Evm)
    requires WellFormed(ctx, msg) && Sound(evm)
    ensures !IsNonceError(Execute(ctx, msg, w, pool, evm).outcome)
  {
    hide Intrinsic, Run;
  }

  /** The message is due: it has the sender's next nonce, which is not the last one, and its sender is no contract. */
  predicate Due(msg: Message, w: World) {
    !msg.isFake ==> NonceOf(w, msg.from) == msg.nonce < MAX_UINT64 && msg.from !in w.contracts
  }

  /** From London on the caps are of 256 bits, in order, and cover the base fee, unless there are none and no base fee
      is asked for. */
  predicate Priced(ctx: Context, msg: Message)
    requires WellFormed(ctx, msg)
  {
    ctx.london && !(ctx.noBaseFee && msg.feeCap.value == 0 && msg.tipCap.value == 0) ==>
      && -TWO_256 < msg.tipCap.value <= msg.feeCap.value < TWO_256
      && ctx.baseFee <= msg.feeCap.value
  }

  /** The sender can pay for the gas, the block has it, it covers the intrinsic gas, and the value is there. */
  predicate Covered(ctx: Context, msg: Message, w: World, pool: nat) {
    var intrinsic := Intrinsic(msg.data, msg.accessList, msg.to.None?, ctx.homestead, ctx.istanbul);
    && (msg.feeCap.None? ==> msg.gas * msg.gasPrice <= Balance(w, msg.from))
    && (msg.feeCap.Some? ==> msg.gas * msg.feeCap.value + msg.value <= Balance(w, msg.from))
    && msg.gas <= pool && intrinsic.Some? && intrinsic.value <= msg.gas
    && (msg.value > 0 ==> msg.value <= Balance(w, msg.from) - msg.gas * msg.gasPrice)
  }

  /** A message reaches the machine if and only if it is due, priced and covered; it is executed if and only if the
      machine leaves no call open. */
  lemma ExecutedIfPasses(ctx: Context, msg: Message, w: World, pool: nat, evm: Evm)
    requires WellFormed(ctx, msg) && Sound(evm)
    ensures var o := Transition(ctx, msg, w, pool, evm).outcome;
            o.Executed? || o == Rejected(CallStackLeft) <==>
            Due(msg, w) && Priced(ctx, msg) && Covered(ctx, msg, w, pool)
  {
    hide Sound;
    var bought := Credit(w, msg.from, -(msg.gas * msg.gasPrice));
    assert Balance(bought, msg.from) == Balance(w, msg.from) - msg.gas * msg.gasPrice;
    if pool >= msg.gas {
      RunsIfCovered(ctx, msg, bought, pool - msg.gas, evm);
    }
    hide Execute, Intrinsic;
  }

  lemma RunsIfCovered(ctx: Context, msg: Message, w: World, pool: nat, evm: Evm)
    requires WellFormed(ctx, msg) && Sound(evm)
    ensures var o := Execute(ctx, msg, w, pool, evm).outcome;
            var intrinsic := Intrinsic(msg.data, msg.accessList, msg.to.None?, ctx.homestead, ctx.istanbul);
            o.Executed? || o == Rejected(CallStackLeft) <==>
            intrinsic.Some? && intrinsic.value <= msg.gas && (msg.value > 0 ==> msg.value <= Balance(w, msg.from))
  {
    hide Intrinsic, Run;
  }

  /** Which error a message gets that is due: the first of the price, the funds, the block's gas, the intrinsic gas and
      the value; the checks up to the block's gas change nothing. */
  lemma ErrorIs(ctx: Context, msg: Message, w: World, pool: nat, evm: Evm)
    requires WellFormed(ctx, msg) && Sound(evm) && Due(msg, w)
    ensures var t := Transition(ctx, msg, w, pool, evm);
            var intrinsic := Intrinsic(msg.data, msg.accessList, msg.to.None?, ctx.homestead, ctx.istanbul);
            var funds := if msg.feeCap.Some? then msg.gas * msg.feeCap.value + msg.value else msg.gas * msg.gasPrice;
            if !Priced(ctx, msg) then
              && t.outcome.Rejected? && t.world == w && t.pool == pool
              && t.outcome.error in {FeeCapVeryHigh, TipVeryHigh, TipAboveFeeCap, FeeCapTooLow}
            else if Balance(w, msg.from) < funds then t == After(w, pool, Rejected(InsufficientFunds))
            else if pool < msg.gas then t == After(w, pool, Rejected(GasLimitReached))
            else if intrinsic.None? then t.outcome == Rejected(GasUintOverflow)
            else if msg.gas < intrinsic.value then t.outcome == Rejected(IntrinsicGasTooLow)
            else msg.value > Balance(w, msg.from) - msg.gas * msg.gasPrice && msg.value > 0 ==>
                   t.outcome == Rejected(InsufficientFundsForTransfer)
  {
    hide Sound, Settle, Run, Intrinsic;
    var bought := Credit(w, msg.from, -(msg.gas * msg.gasPrice));
    assert Balance(bought, msg.from) == Balance(w, msg.from) - msg.gas * msg.gasPrice;
  }

  /** What the machine is asked to run: the call of the message, in a world where the sender has paid for all its gas
      and, unless it creates a contract, has taken its next nonce. */
  ghost predicate Asked(ctx: Context, msg: Message, w: World, w0: World, c: EvmCall) {
    && c.create == msg.to.None? && (msg.to.Some? ==> c.to == msg.to.value)
    && c.caller == msg.from && c.data == msg.data && c.value == msg.value
    && Intrinsic(msg.data, msg.accessList, msg.to.None?, ctx.homestead, ctx.istanbul) == Some(msg.gas - c.gas)
    && (forall a :: Balance(w0, a) == Balance(w, a) - if a == msg.from then msg.gas * msg.gasPrice else 0)
    && (forall a :: NonceOf(w0, a) ==
                    if a == msg.from && msg.to.Some? then (NonceOf(w, a) + 1) % TWO_64 else NonceOf(w, a))
    && w0.contracts == w.contracts && w0.rest == w.rest
  }

  /** What becomes of the machine's answer: the sender gets back the gas left and refunded, the refund being a half or a
      fifth of the gas used at most, the coinbase gets its tip for the gas used, and nothing else changes. */
  ghost predicate Settled(ctx: Context, msg: Message, r: EvmResult, t: After)
    requires WellFormed(ctx, msg) && t.outcome.Executed?
  {
    var used := t.outcome.usedGas;
    var share := (msg.gas - r.gas) / if ctx.london then 5 else 2;
    var tip := if !ctx.london then msg.gasPrice
               else if msg.tipCap.value < msg.feeCap.value - ctx.baseFee then msg.tipCap.value
               else msg.feeCap.value - ctx.baseFee;
    && r.gas <= msg.gas && t.outcome.failed == r.failed && r.callStack == 0
    && used + r.gas + (if r.refund <= share then r.refund else share) == msg.gas
    && (forall a :: Balance(t.world, a) == Balance(r.world, a)
                                           + (if a == msg.from then (msg.gas - used) * msg.gasPrice else 0)
                                           + (if a == ctx.coinbase then used * tip else 0))
    && t.world.nonces == r.world.nonces && t.world.contracts == r.world.contracts && t.world.rest == r.world.rest
  }

  /** What an executed message does, account by account. */
  lemma ExecutedDoes(ctx: Context, msg: Message, w: World, pool: nat, evm: Evm, t: After)
    returns (w0: World, c: EvmCall, r: EvmResult)
    requires WellFormed(ctx, msg) && Sound(evm) && Gives(ctx, msg, w, pool, evm, t) && t.outcome.Executed?
    ensures Asked(ctx, msg, w, w0, c) && r == evm(w0, c) && Settled(ctx, msg, r, t)
    ensures t.pool + t.outcome.usedGas == pool
  {
    hide Gives, Sound, Intrinsic, Settle, Asked, Settled, Credit;
    r := ExecutedRan(ctx, msg, w, pool, evm, t);
    w0, c := RunAsks(ctx, msg, w, evm);
    SettleDoes(ctx, msg, r, pool - msg.gas, t);
  }

  lemma RunAsks(ctx: Context, msg: Message, w: World, evm: Evm) returns (w0: World, c: EvmCall)
    requires var intrinsic := Intrinsic(msg.data, msg.accessList, msg.to.None?, ctx.homestead, ctx.istanbul);
             intrinsic.Some? && intrinsic.value <= msg.gas
    ensures var intrinsic := Intrinsic(msg.data, msg.accessList, msg.to.None?, ctx.homestead, ctx.istanbul);
            var bought := Credit(w, msg.from, -(msg.gas * msg.gasPrice));
            Asked(ctx, msg, w, w0, c) && evm(w0, c) == Run(msg, bought, msg.gas - intrinsic.value, evm)
  {
    hide Intrinsic;
    var gas := msg.gas - Intrinsic(msg.data, msg.accessList, msg.to.None?, ctx.homestead, ctx.istanbul).value;
    var bought := Credit(w, msg.from, -(msg.gas * msg.gasPrice));
    w0 := if msg.to.None? then bought
          else bought.(nonces := bought.nonces[msg.from := (NonceOf(bought, msg.from) + 1) % TWO_64]);
    c := EvmCall(msg.to.None?, msg.from, if msg.to.None? then 0 else msg.to.value, msg.data, gas, msg.value);
  }

  lemma SettleDoes(ctx: Context, msg: Message, r: EvmResult, pool: nat, t: After)
    requires WellFormed(ctx, msg) && r.gas <= msg.gas && t == Settle(ctx, msg, r, pool) && t.outcome.Executed?
    ensures Settled(ctx, msg, r, t) && t.pool + t.outcome.usedGas == pool + msg.gas
  {
  }

  /** The nonce does not matter to the second transition. */
  lemma TestIgnoresNonce(ctx: Context, msg: Message, w: World, pool: nat, evm: Evm, nonce: nat)
    requires WellFormed(ctx, msg) && Sound(evm) && nonce < TWO_64
    ensures TransitionTest(ctx, msg.(nonce := nonce), w, pool, evm) == TransitionTest(ctx, msg, w, pool, evm)
  {
    hide ExecuteTest, Sound, Credit;
    if pool >= msg.gas {
      ExecuteIgnoresNonce(ctx, msg, Credit(w, msg.from, -(msg.gas * msg.gasPrice)), pool - msg.gas, evm, nonce);
    }
  }

  lemma ExecuteIgnoresNonce(ctx: Context, msg: Message, w: World, pool: nat, evm: Evm, nonce: nat)
    requires WellFormed(ctx, msg) && Sound(evm) && nonce < TWO_64
    ensures ExecuteTest(ctx, msg.(nonce := nonce), w, pool, evm) == ExecuteTest(ctx, msg, w, pool, evm)
  {
    hide Intrinsic, Settle;
    SameExecution(ctx, msg, w, pool, evm);
    SameExecution(ctx, msg.(nonce := nonce), w, pool, evm);
    hide ExecuteTest;
    var intrinsic := Intrinsic(msg.data, msg.accessList, msg.to.None?, ctx.homestead, ctx.istanbul);
    IntrinsicNat(msg.data, msg.accessList, msg.to.None?, ctx.homestead, ctx.istanbul);
    if intrinsic.Some? && intrinsic.value <= msg.gas {
      var r := Run(msg, w, msg.gas - intrinsic.value, evm);
      assert r == Run(msg.(nonce := nonce), w, msg.gas - intrinsic.value, evm) && r.gas <= msg.gas;
      SettleIgnoresNonce(ctx, msg, r, pool, nonce);
    }
  }

  lemma SettleIgnoresNonce(ctx: Context, msg: Message, r: EvmResult, pool: nat, nonce: nat)
    requires WellFormed(ctx, msg) && nonce < TWO_64 && r.gas <= msg.gas
    ensures Settle(ctx, msg.(nonce := nonce), r, pool) == Settle(ctx, msg, r, pool)
  {
  }

  /** Gas is conserved: what a message uses is what the pool loses. The refund is at most a fifth of the gas used
      before it, or half of it before London. */
  lemma GasConserved(ctx: Context, msg: Message, w: World, pool: nat, evm: Evm, t: After)
    requires WellFormed(ctx, msg) && Sound(evm) && Gives(ctx, msg, w, pool, evm, t) && t.outcome.Executed?
    ensures t.pool + t.outcome.usedGas == pool && t.outcome.usedGas <= msg.gas
    ensures exists r :: Ran(ctx, msg, w, pool, evm, t, r) && r.gas <= msg.gas
                        && 0 <= msg.gas - r.gas - t.outcome.usedGas <= (msg.gas - r.gas) / Quotient(ctx)
  {
    hide Gives, Sound, Run, Intrinsic, Credit;
    var r := ExecutedRan(ctx, msg, w, pool, evm, t);
    var u := msg.gas - r.gas;
    assert Refund(ctx, u, r.refund) <= u / Quotient(ctx) <= u;
  }

  /** A transition changes the sum of all balances by what the sender pays for the gas used and the coinbase does
      not get. */
  lemma EtherConserved(ctx: Context, msg: Message, w: World, pool: nat, evm: Evm, t: After)
    requires WellFormed(ctx, msg) && Sound(evm) && Gives(ctx, msg, w, pool, evm, t) && t.outcome.Executed?
    ensures Ether(t.world.balances) == Ether(w.balances) - t.outcome.usedGas * (msg.gasPrice - EffectiveTip(ctx, msg))
  {
    hide Gives, Sound, Run, Intrinsic, Credit, Ether, Refund, EffectiveTip;
    var r := ExecutedRan(ctx, msg, w, pool, evm, t);
    var used, tip := t.outcome.usedGas, EffectiveTip(ctx, msg);
    var gas := msg.gas - used;
    CreditEther(r.world, msg.from, gas * msg.gasPrice);
    CreditEther(Credit(r.world, msg.from, gas * msg.gasPrice), ctx.coinbase, used * tip);
    Distribute(msg.gas, used, msg.gasPrice, tip);
  }

  lemma Distribute(limit: int, used: int, price: int, tip: int)
    ensures (limit - used) * price - limit * price + used * tip == -(used * (price - tip))
  {
  }

  /** Before London no ether is made or burnt. */
  lemma NothingBurnt(ctx: Context, msg: Message, w: World, pool: nat, evm: Evm, t: After)
    requires WellFormed(ctx, msg) && Sound(evm) && Gives(ctx, msg, w, pool, evm, t) && t.outcome.Executed?
    requires !ctx.london
    ensures Ether(t.world.balances) == Ether(w.balances)
  {
    hide Gives, Sound, Ether;
    EtherConserved(ctx, msg, w, pool, evm, t);
  }

  /** From London on, with the effective gas price of EIP-1559, exactly the base fee of the gas used is burnt. */
  lemma BaseFeeBurnt(ctx: Context, msg: Message, w: World, pool: nat, evm: Evm, t: After)
    requires WellFormed(ctx, msg) && Sound(evm) && Gives(ctx, msg, w, pool, evm, t) && t.outcome.Executed? && ctx.london
    requires msg.gasPrice == Min(msg.tipCap.value + ctx.baseFee, msg.feeCap.value) && msg.feeCap.value >= ctx.baseFee
    ensures Ether(t.world.balances) == Ether(w.balances) - t.outcome.usedGas * ctx.baseFee
  {
    hide Gives, Sound, Ether;
    EtherConserved(ctx, msg, w, pool, evm, t);
    assert msg.gasPrice - EffectiveTip(ctx, msg) == ctx.baseFee;
  }

  /** Buying gas overdraws no sender with the funds asked for if and only if those funds cover the price of the gas. */
  lemma NeverOverdrawn(msg: Message)
    ensures (forall w: World :: Balance(w, msg.from) >= Wanted(msg) ==>
               Balance(w, msg.from) - msg.gas * msg.gasPrice >= 0)
            <==> msg.gas * msg.gasPrice <= Wanted(msg)
  {
    var w := World(map[msg.from := Wanted(msg)], map[], {}, 0);
    assert Balance(w, msg.from) == Wanted(msg);
  }

  /** They do without a fee cap, with one that the price does not exceed, and beyond that exactly when the value makes
      up for the difference; with a cap not below the price the value is left too. */
  lemma SenderCanPay(msg: Message)
    ensures msg.feeCap.None? ==> msg.gas * msg.gasPrice <= Wanted(msg)
    ensures msg.feeCap.Some? ==>
              (msg.gas * msg.gasPrice <= Wanted(msg) <==> msg.gas * (msg.gasPrice - msg.feeCap.value) <= msg.value)
    ensures msg.feeCap.Some? && msg.gasPrice <= msg.feeCap.value ==> Wanted(msg) - msg.gas * msg.gasPrice >= msg.value
  {
    if msg.feeCap.Some? {
      Apart(msg.gas, msg.gasPrice, msg.feeCap.value);
    }
  }

  lemma Apart(gas: nat, a: int, b: int)
    ensures gas * (a - b) == gas * a - gas * b && (a <= b ==> gas * (a - b) <= 0)
  {
  }

  /** A price above the cap that the value does not make up for: a transition goes through and leaves the sender
      with less than nothing. */
  lemma Overdrawn(from: Address, to: Address, coinbase: Address)
    requires from != coinbase
    ensures exists ctx, msg, w, pool, evm ::
              && WellFormed(ctx, msg) && Sound(evm) && Transition(ctx, msg, w, pool, evm).outcome.Executed?
              && msg.from == from && Balance(w, from) >= 0
              && Balance(Transition(ctx, msg, w, pool, evm).world, from) < 0
  {
    var ctx := Context(true, true, false, false, 0, coinbase);
    var msg := Message(from, Some(to), 0, TX_GAS, 2, Some(1), Some(1), 0, [], [], false);
    var w := World(map[from := TX_GAS], map[], {}, 0);
    IdleIsSound();
    assert Balance(w, from) == TX_GAS == Wanted(msg);
    assert Intrinsic([], [], false, true, true) == Some(TX_GAS);
    var bought := Credit(w, from, -(2 * TX_GAS));
    assert Balance(bought, from) == -TX_GAS;
    var t := Transition(ctx, msg, w, TX_GAS, Idle);
    assert t == Execute(ctx, msg, bought, 0, Idle);
    assert t.outcome == Executed(TX_GAS, false) && Balance(t.world, from) == -TX_GAS;
  }

  /** A machine that does nothing. */
  function Idle(w: World, c: EvmCall): EvmResult {
    EvmResult(w, c.gas, 0, false, 0)
  }

  lemma IdleIsSound()
    ensures Sound(Idle)
  {
  }

  lemma ExecuteCovered(ctx: Context, msg: Message, w: World, pool: nat, evm: Evm)
    requires WellFormed(ctx, msg) && Sound(evm) && Balance(w, msg.from) >= msg.value
    ensures Execute(ctx, msg, w, pool, evm).outcome != Rejected(InsufficientFundsForTransfer)
  {
    hide Intrinsic, Run;
  }

  /** With a fee cap not below the price, no transition fails for the funds to transfer. */
  lemma TransferCovered(ctx: Context, msg: Message, w: World, pool: nat, evm: Evm)
    requires WellFormed(ctx, msg) && Sound(evm) && msg.feeCap.Some? && msg.gasPrice <= msg.feeCap.value
    ensures Transition(ctx, msg, w, pool, evm).outcome != Rejected(InsufficientFundsForTransfer)
    ensures TransitionTest(ctx, msg, w, pool, evm).outcome != Rejected(InsufficientFundsForTransfer)
  {
    hide Execute, ExecuteTest, Sound, Wanted;
    if Balance(w, msg.from) >= Wanted(msg) && pool >= msg.gas {
      SenderCanPay(msg);
      var bought := Credit(w, msg.from, -(msg.gas * msg.gasPrice));
      assert Balance(bought, msg.from) >= msg.value;
      ExecuteCovered(ctx, msg, bought, pool - msg.gas, evm);
      SameExecution(ctx, msg, bought, pool - msg.gas, evm);
    }
  }
}

/** StateTransition of core/state_transition.go. */
module StateTransitions {
  import opened Integers
  import opened Transactions
  import opened Gas
  import opened Transitions

  class StateTransition {
    const gp: GasPool
    const ctx: Context
    const msg: Message
    const evm: Evm
    var gas: nat
    var initialGas: nat
    var state: World

    ghost predicate Valid()
      reads this, gp
    {
      gp.Valid() && WellFormed(ctx, msg) && Sound(evm)
    }

    constructor (gp: GasPool, ctx: Context, msg: Message, evm: Evm, state: World)
      requires gp.Valid() && WellFormed(ctx, msg) && Sound(evm)
      ensures Valid() && this.gp == gp && this.ctx == ctx && this.msg == msg && this.evm == evm && this.state == state
      ensures gas == 0 && initialGas == 0
    {
      this.gp, this.ctx, this.msg, this.evm, this.state := gp, ctx, msg, evm, state;
      gas, initialGas := 0, 0;
    }

    /** buyGas; on an error nothing has changed. */
    method BuyGas() returns (err: Option<Error>)
      requires Valid() && gas == 0
      modifies this, gp
      ensures Valid()
      ensures err == (if Balance(old(state), msg.from) < Wanted(msg) then Some(InsufficientFunds)
                      else if old(gp.gas) < msg.gas then Some(GasLimitReached) else None)
      ensures err.Some? ==> state == old(state) && gp.gas == old(gp.gas)
      ensures err.None? ==>
                && gas == initialGas == msg.gas && gp.gas == old(gp.gas) - msg.gas
                && state == Credit(old(state), msg.from, -(msg.gas * msg.gasPrice))
    {
      var mgval := msg.gas * msg.gasPrice;
      var balanceCheck := mgval;
      if msg.feeCap.Some? {
        balanceCheck := msg.gas * msg.feeCap.value + msg.value;
      }
      if Balance(state, msg.from) < balanceCheck {
        return Some(InsufficientFunds);
      }
      var ok := gp.SubGas(msg.gas);
      if !ok {
        return Some(GasLimitReached);
      }
      gas := gas + msg.gas;
      initialGas := msg.gas;
      state := Credit(state, msg.from, -mgval);
      return None;
    }

    /** refundGas gives the sender and the pool back what is left and what is refunded. The pool cannot overflow: it
        gets no more than was bought from it. */
    method RefundGas(refundQuotient: nat, refund: nat)
      requires Valid() && gas <= initialGas && gp.gas + initialGas < TWO_64 && refundQuotient == Quotient(ctx)
      modifies this`gas, this`state, gp
      ensures Valid() && gas == old(gas) + Refund(ctx, initialGas - old(gas), refund) <= initialGas
      ensures gp.gas == old(gp.gas) + gas && state == Credit(old(state), msg.from, gas * msg.gasPrice)
    {
      var r := (initialGas - gas) / refundQuotient;
      if r > refund {
        r := refund;
      }
      gas := gas + r;
      state := Credit(state, msg.from, gas * msg.gasPrice);
      gp.AddGas(gas);
    }

    /** preCheck: the nonce, the rules, and the gas. */
    method PreCheck() returns (err: Option<Error>)
      requires Valid() && gas == 0
      modifies this, gp
      ensures Valid()
      ensures err.Some? ==>
                && state == old(state) && gp.gas == old(gp.gas)
                && Transition(ctx, msg, old(state), old(gp.gas), evm) == After(state, gp.gas, Rejected(err.value))
      ensures err.None? ==>
                && gas == initialGas == msg.gas && gp.gas == old(gp.gas) - msg.gas
                && Transition(ctx, msg, old(state), old(gp.gas), evm) == Execute(ctx, msg, state, gp.gas, evm)
    {
      hide Execute, Sound;
      if !msg.isFake {
        var stNonce := NonceOf(state, msg.from);
        if stNonce < msg.nonce {
          return Some(NonceTooHigh);
        } else if stNonce > msg.nonce {
          return Some(NonceTooLow);
        } else if (stNonce + 1) % TWO_64 < stNonce {
          return Some(NonceMax);
        }
        if msg.from in state.contracts {
          return Some(SenderNoEOA);
        }
      }
      if ctx.london {
        if !ctx.noBaseFee || msg.feeCap.value != 0 || msg.tipCap.value != 0 {
          if Oversized(msg.feeCap.value) {
            return Some(FeeCapVeryHigh);
          }
          if Oversized(msg.tipCap.value) {
            return Some(TipVeryHigh);
          }
          if msg.feeCap.value < msg.tipCap.value {
            return Some(TipAboveFeeCap);
          }
          if msg.feeCap.value < ctx.baseFee {
            return Some(FeeCapTooLow);
          }
        }
      }
      err := BuyGas();
    }

    /** preCheckSu: the rules and the gas. */
    method PreCheckSu() returns (err: Option<Error>)
      requires Valid() && gas == 0
      modifies this, gp
      ensures Valid()
      ensures err.Some? ==>
                && state == old(state) && gp.gas == old(gp.gas)
                && TransitionTest(ctx, msg, old(state), old(gp.gas), evm) == After(state, gp.gas, Rejected(err.value))
      ensures err.None? ==>
                && gas == initialGas == msg.gas && gp.gas == old(gp.gas) - msg.gas
                && TransitionTest(ctx, msg, old(state), old(gp.gas), evm) == ExecuteTest(ctx, msg, state, gp.gas, evm)
    {
      hide ExecuteTest, Sound;
      if !msg.isFake {
        if msg.from in state.contracts {
          return Some(SenderNoEOA);
        }
      }
      if ctx.london {
        if !ctx.noBaseFee || msg.feeCap.value != 0 || msg.tipCap.value != 0 {
          if Oversized(msg.feeCap.value) {
            return Some(FeeCapVeryHigh);
          }
          if Oversized(msg.tipCap.value) {
            return Some(TipVeryHigh);
          }
          if msg.feeCap.value < msg.tipCap.value {
            return Some(TipAboveFeeCap);
          }
          if msg.feeCap.value < ctx.baseFee {
            return Some(FeeCapTooLow);
          }
        }
      }
      err := BuyGas();
    }

    /** TransitionDb computes the transition. */
    method TransitionDb() returns (outcome: Outcome)
      requires Valid() && gas == 0
      modifies this, gp
      ensures Valid() && After(state, gp.gas, outcome) == Transition(ctx, msg, old(state), old(gp.gas), evm)
    {
      hide Execute, Sound, Transition;
      var err := PreCheck();
      if err.Some? {
        return Rejected(err.value);
      }
      outcome := AfterGas();
    }

    /** TransitionDb, once gas is bought. */
    method AfterGas() returns (outcome: Outcome)
      requires Valid() && gas == initialGas == msg.gas && gp.gas + msg.gas < TWO_64
      modifies this, gp
      ensures Valid() && After(state, gp.gas, outcome) == Execute(ctx, msg, old(state), old(gp.gas), evm)
    {
      hide Intrinsic, Settle, Run, Sound;
      var intrinsic := IntrinsicGas(msg.data, msg.accessList, msg.to.None?, ctx.homestead, ctx.istanbul);
      if intrinsic.None? {
        return Rejected(GasUintOverflow);
      }
      if gas < intrinsic.value {
        return Rejected(IntrinsicGasTooLow);
      }
      IntrinsicNat(msg.data, msg.accessList, msg.to.None?, ctx.homestead, ctx.istanbul);
      gas := gas - intrinsic.value;
      if msg.value > 0 && Balance(state, msg.from) < msg.value {
        return Rejected(InsufficientFundsForTransfer);
      }
      var r := RunMachine();
      outcome := SettleUp(r);
    }

    /** TransitionDb, the call or the creation. */
    method RunMachine() returns (r: EvmResult)
      requires Valid() && gas <= msg.gas
      modifies this`state, this`gas
      ensures r == Run(msg, old(state), old(gas), evm) && state == r.world && gas == r.gas <= msg.gas
    {
      if msg.to.None? {
        r := evm(state, EvmCall(true, msg.from, 0, msg.data, gas, msg.value));
      } else {
        state := state.(nonces := state.nonces[msg.from := (NonceOf(state, msg.from) + 1) % TWO_64]);
        r := evm(state, EvmCall(false, msg.from, msg.to.value, msg.data, gas, msg.value));
      }
      state, gas := r.world, r.gas;
    }

    /** TransitionDb, the refund and the reward. */
    method SettleUp(r: EvmResult) returns (outcome: Outcome)
      requires Valid() && state == r.world && gas == r.gas <= initialGas == msg.gas && gp.gas + msg.gas < TWO_64
      modifies this, gp
      ensures Valid() && After(state, gp.gas, outcome) == Settle(ctx, msg, r, old(gp.gas))
    {
      hide Sound, Refund;
      if !ctx.london {
        RefundGas(2, r.refund);
      } else {
        RefundGas(5, r.refund);
      }
      var effectiveTip := msg.gasPrice;
      if ctx.london {
        effectiveTip := Min(msg.tipCap.value, msg.feeCap.value - ctx.baseFee);
      }
      state := Credit(state, ctx.coinbase, (initialGas - gas) * effectiveTip);
      if r.callStack > 0 {
        return Rejected(CallStackLeft);
      }
      return Executed(initialGas - gas, r.failed);
    }

    /** TransitionDbTest computes its own transition. */
    method TransitionDbTest() returns (outcome: Outcome)
      requires Valid() && gas == 0
      modifies this, gp
      ensures Valid() && After(state, gp.gas, outcome) == TransitionTest(ctx, msg, old(state), old(gp.gas), evm)
    {
      hide ExecuteTest, Sound, TransitionTest;
      var err := PreCheckSu();
      if err.Some? {
        return Rejected(err.value);
      }
      outcome := AfterGasTest();
    }

    /** TransitionDbTest, once gas is bought. */
    method AfterGasTest() returns (outcome: Outcome)
      requires Valid() && gas == initialGas == msg.gas && gp.gas + msg.gas < TWO_64
      modifies this, gp
      ensures Valid() && After(state, gp.gas, outcome) == ExecuteTest(ctx, msg, old(state), old(gp.gas), evm)
    {
      hide Intrinsic, SettleTest;
      var contractCreation := msg.to.None?;
      var intrinsic := IntrinsicGas(msg.data, msg.accessList, contractCreation, ctx.homestead, ctx.istanbul);
      if intrinsic.None? {
        return Rejected(GasUintOverflow);
      }
      if gas < intrinsic.value {
        return Rejected(IntrinsicGasTooLow);
      }
      IntrinsicNat(msg.data, msg.accessList, contractCreation, ctx.homestead, ctx.istanbul);
      gas := gas - intrinsic.value;
      if msg.value > 0 && !(Balance(state, msg.from) >= msg.value) {
        return Rejected(InsufficientFundsForTransfer);
      }
      var r;
      if contractCreation {
        r := evm(state, EvmCall(true, msg.from, 0, msg.data, gas, msg.value));
      } else {
        state := state.(nonces := state.nonces[msg.from := (NonceOf(state, msg.from) + 1) % TWO_64]);
        r := evm(state, EvmCall(false, msg.from, msg.to.value, msg.data, gas, msg.value));
      }
      state, gas := r.world, r.gas;
      outcome := SettleUpTest(r);
    }

    /** TransitionDbTest, the refund and the reward. */
    method SettleUpTest(r: EvmResult) returns (outcome: Outcome)
      requires Valid() && state == r.world && gas == r.gas <= initialGas == msg.gas && gp.gas + msg.gas < TWO_64
      modifies this, gp
      ensures Valid() && After(state, gp.gas, outcome) == SettleTest(ctx, msg, r, old(gp.gas))
    {
      hide Sound;
      if !ctx.london {
        RefundGas(2, r.refund);
      } else {
        RefundGas(5, r.refund);
      }
      var effectiveTip := msg.gasPrice;
      if ctx.london {
        effectiveTip := Min(msg.tipCap.value, msg.feeCap.value - ctx.baseFee);
      }
      state := Credit(state, ctx.coinbase, (initialGas - gas) * effectiveTip);
      if r.callStack > 0 {
        return Rejected(CallStackLeft);
      }
      return Executed(initialGas - gas, r.failed);
    }
  }

  /** Both transitions of a message from the same state and with the same gas in the pool: unless the first fails for
      the nonce, they give the same result and leave the same state and the same gas. */
  method RunBoth(gp: GasPool, gp': GasPool, ctx: Context, msg: Message, evm: Evm, state: World)
    returns (outcome: Outcome, outcome': Outcome, after: World, after': World)
    requires gp != gp' && gp.Valid() && gp'.gas == gp.gas && WellFormed(ctx, msg) && Sound(evm)
    modifies gp, gp'
    ensures IsNonceError(outcome) || (outcome' == outcome && after' == after && gp'.gas == gp.gas)
  {
    hide Transition, TransitionTest, Sound;
    var st := new StateTransition(gp, ctx, msg, evm, state);
    var st' := new StateTransition(gp', ctx, msg, evm, state);
    outcome := st.TransitionDb();
    outcome' := st'.TransitionDbTest();
    after, after' := st.state, st'.state;
    SameWithoutNonceChecks(ctx, msg, state, old(gp.gas), evm);
  }
}

/** Process of core/state_processor.go: the transactions of a block in turn. */
module StateProcessors {
  import opened Integers
  import opened Transactions
  import opened Gas
  import opened Transitions
  import opened StateTransitions

  datatype Receipt = Receipt(cumulativeGasUsed: nat, gasUsed: nat, successful: bool)

  /** The gas the first n receipts report. */
  function GasOf(receipts: seq<Receipt>, n: nat): nat
    requires n <= |receipts|
  {
    if n == 0 then 0 else GasOf(receipts, n - 1) + receipts[n - 1].gasUsed
  }

  /** Each receipt's cumulative gas is the sum of the gas used up to it, and within the limit. */
  ghost predicate Cumulative(receipts: seq<Receipt>, limit: nat) {
    forall i :: 0 <= i < |receipts| ==> receipts[i].cumulativeGasUsed == GasOf(receipts, i + 1) <= limit
  }

  lemma {:induction false} GasOfPrefix(a: seq<Receipt>, b: seq<Receipt>, n: nat)
    requires n <= |a| && n <= |b| && a[..n] == b[..n]
    ensures GasOf(a, n) == GasOf(b, n)
  {
    if n > 0 {
      assert a[..n - 1] == a[..n][..n - 1] && b[..n - 1] == b[..n][..n - 1];
      assert a[n - 1] == a[..n][n - 1] && b[n - 1] == b[..n][n - 1];
      GasOfPrefix(a, b, n - 1);
    }
  }

  lemma ReceiptAdded(receipts: seq<Receipt>, r: Receipt, limit: nat)
    requires Cumulative(receipts, limit) && r.cumulativeGasUsed == GasOf(receipts, |receipts|) + r.gasUsed <= limit
    ensures Cumulative(receipts + [r], limit) && GasOf(receipts + [r], |receipts| + 1) == r.cumulativeGasUsed
  {
    var more := receipts + [r];
    forall i | 0 <= i < |more| ensures more[i].cumulativeGasUsed == GasOf(more, i + 1) <= limit {
      if i < |receipts| {
        GasOfPrefix(more, receipts, i + 1);
      } else {
        GasOfPrefix(more, receipts, |receipts|);
      }
    }
    GasOfPrefix(more, receipts, |receipts|);
  }

  /** One transaction of a block, from one world to the next, with the gas that those before it left. */
  ghost predicate Applied(ctx: Context, msg: Message, w: World, w': World, pool: nat, r: Receipt, evm: Evm,
                          finalise: World -> World)
    requires WellFormed(ctx, msg) && Sound(evm)
  {
    var t := Transition(ctx, msg, w, pool, evm);
    t.outcome == Executed(r.gasUsed, !r.successful) && w' == finalise(t.world)
  }

  /** The worlds between the transactions of a block that goes through. */
  ghost predicate Replayed(ctx: Context, gasLimit: nat, txs: seq<Option<Message>>, worlds: seq<World>,
                           receipts: seq<Receipt>, n: nat,
                           evm: Evm, finalise: World -> World)
    requires Sound(evm)
  {
    && n <= |txs| && n <= |receipts| && |worlds| == n + 1
    && forall i :: 0 <= i < n ==>
         && txs[i].Some? && WellFormed(ctx, txs[i].value) && GasOf(receipts, i) <= gasLimit
         && Applied(ctx, txs[i].value, worlds[i], worlds[i + 1], gasLimit - GasOf(receipts, i), receipts[i], evm,
                    finalise)
  }

  lemma ReplayedMore(ctx: Context, gasLimit: nat, txs: seq<Option<Message>>, worlds: seq<World>, receipts: seq<Receipt>,
                     n: nat,
                     evm: Evm, finalise: World -> World, w: World, r: Receipt)
    requires Sound(evm) && Replayed(ctx, gasLimit, txs, worlds, receipts, n, evm, finalise) && n == |receipts| < |txs|
    requires txs[n].Some? && WellFormed(ctx, txs[n].value) && GasOf(receipts, n) <= gasLimit
    requires Applied(ctx, txs[n].value, worlds[n], w, gasLimit - GasOf(receipts, n), r, evm, finalise)
    ensures Replayed(ctx, gasLimit, txs, worlds + [w], receipts + [r], n + 1, evm, finalise)
  {
    hide Applied, GasOf, Sound;
    forall i | 0 <= i <= n ensures GasOf(receipts + [r], i) == GasOf(receipts, i) {
      GasOfPrefix(receipts + [r], receipts, i);
    }
  }

  /** Every message of a block that goes through is due in the world that those before it left. */
  lemma AllDue(ctx: Context, gasLimit: nat, txs: seq<Option<Message>>, worlds: seq<World>, receipts: seq<Receipt>,
               n: nat, evm: Evm, finalise: World -> World)
    requires Sound(evm) && Replayed(ctx, gasLimit, txs, worlds, receipts, n, evm, finalise)
    ensures forall i :: 0 <= i < n ==> Due(txs[i].value, worlds[i])
  {
    hide Sound, Transition, GasOf, Due;
    forall i | 0 <= i < n ensures Due(txs[i].value, worlds[i]) {
      assert Applied(ctx, txs[i].value, worlds[i], worlds[i + 1], gasLimit - GasOf(receipts, i), receipts[i], evm,
                     finalise);
      ExecutedIfPasses(ctx, txs[i].value, worlds[i], gasLimit - GasOf(receipts, i), evm);
    }
  }

  /** A machine that lowers no nonce and raises that of the creator of a contract. */
  ghost predicate Advances(evm: Evm) {
    forall w: World, c: EvmCall :: Raised(w, evm(w, c).world, c)
  }

  ghost predicate Raised(w: World, w': World, c: EvmCall) {
    (forall a :: NonceOf(w', a) >= NonceOf(w, a)) && (c.create ==> NonceOf(w', c.caller) > NonceOf(w, c.caller))
  }

  /** A transaction of a block takes its sender's nonce, and gives none back. */
  lemma NonceTaken(ctx: Context, msg: Message, w: World, w': World, pool: nat, r: Receipt, evm: Evm,
                   finalise: World -> World)
    requires WellFormed(ctx, msg) && Sound(evm) && Advances(evm) && !msg.isFake
    requires forall w: World :: finalise(w).nonces == w.nonces
    requires Applied(ctx, msg, w, w', pool, r, evm, finalise)
    ensures NonceOf(w, msg.from) == msg.nonce < NonceOf(w', msg.from)
    ensures forall a: Address :: NonceOf(w, a) <= NonceOf(w', a)
  {
    hide Sound, Transition, Intrinsic, Settled;
    ExecutedIfPasses(ctx, msg, w, pool, evm);
    var t := Transition(ctx, msg, w, pool, evm);
    var w0, c, res := ExecutedDoes(ctx, msg, w, pool, evm, t);
    SameNonces(ctx, msg, res, t);
    assert w'.nonces == t.world.nonces == res.world.nonces;
    TakenBy(ctx, msg, w, w0, c, res.world);
  }

  lemma TakenBy(ctx: Context, msg: Message, w: World, w0: World, c: EvmCall, w': World)
    requires Asked(ctx, msg, w, w0, c) && Raised(w0, w', c) && NonceOf(w, msg.from) == msg.nonce < MAX_UINT64
    ensures msg.nonce < NonceOf(w', msg.from) && forall a: Address :: NonceOf(w, a) <= NonceOf(w', a)
  {
    hide Intrinsic;
    assert (msg.nonce + 1) % TWO_64 == msg.nonce + 1;
    forall a: Address ensures NonceOf(w, a) <= NonceOf(w', a) {
      assert NonceOf(w0, a) <= NonceOf(w', a);
    }
  }

  lemma SameNonces(ctx: Context, msg: Message, r: EvmResult, t: After)
    requires WellFormed(ctx, msg) && t.outcome.Executed? && Settled(ctx, msg, r, t)
    ensures t.world.nonces == r.world.nonces
  {
  }

  lemma {:induction false} NoncesRise(ctx: Context, gasLimit: nat, txs: seq<Option<Message>>, worlds: seq<World>,
                                      receipts: seq<Receipt>, n: nat, evm: Evm, finalise: World -> World,
                                      i: nat, j: nat, a: Address)
    requires Sound(evm) && Advances(evm) && Replayed(ctx, gasLimit, txs, worlds, receipts, n, evm, finalise)
    requires forall w: World :: finalise(w).nonces == w.nonces
    requires (forall k :: 0 <= k < n ==> !txs[k].value.isFake) && i <= j <= n
    ensures NonceOf(worlds[i], a) <= NonceOf(worlds[j], a)
    decreases j
  {
    hide Sound, Advances, Applied, GasOf;
    if i < j {
      NoncesRise(ctx, gasLimit, txs, worlds, receipts, n, evm, finalise, i, j - 1, a);
      NonceTaken(ctx, txs[j - 1].value, worlds[j - 1], worlds[j], gasLimit - GasOf(receipts, j - 1), receipts[j - 1],
                 evm,
                 finalise);
    }
  }

  /** No message runs twice in a block that goes through: messages of one sender have rising nonces. */
  lemma NoReplay(ctx: Context, gasLimit: nat, txs: seq<Option<Message>>, worlds: seq<World>, receipts: seq<Receipt>,
                 n: nat, evm: Evm, finalise: World -> World, i: nat, j: nat)
    requires Sound(evm) && Advances(evm) && Replayed(ctx, gasLimit, txs, worlds, receipts, n, evm, finalise)
    requires forall w: World :: finalise(w).nonces == w.nonces
    requires (forall k :: 0 <= k < n ==> !txs[k].value.isFake) && i < j < n && txs[i].value.from == txs[j].value.from
    ensures txs[i].value.nonce < txs[j].value.nonce
  {
    hide Sound, Advances, Applied, GasOf;
    NonceTaken(ctx, txs[i].value, worlds[i], worlds[i + 1], gasLimit - GasOf(receipts, i), receipts[i], evm, finalise);
    NoncesRise(ctx, gasLimit, txs, worlds, receipts, n, evm, finalise, i + 1, j, txs[i].value.from);
    NonceTaken(ctx, txs[j].value, worlds[j], worlds[j + 1], gasLimit - GasOf(receipts, j), receipts[j], evm, finalise);
  }

  /** What the first n transactions burn. */
  function Burnt(ctx: Context, txs: seq<Option<Message>>, receipts: seq<Receipt>, n: nat): int
    requires n <= |txs| && n <= |receipts| && forall i :: 0 <= i < n ==> txs[i].Some? && WellFormed(ctx, txs[i].value)
  {
    if n == 0 then 0
    else
      var msg := txs[n - 1].value;
      Burnt(ctx, txs, receipts, n - 1) + receipts[n - 1].gasUsed * (msg.gasPrice - EffectiveTip(ctx, msg))
  }

  /** Over a whole block too, the sum of all balances falls by exactly what its transactions burn. */
  lemma {:induction false} BlockEtherConserved(ctx: Context, gasLimit: nat, txs: seq<Option<Message>>,
                                               worlds: seq<World>,
                                               receipts: seq<Receipt>, n: nat, evm: Evm, finalise: World -> World)
    requires Sound(evm) && Replayed(ctx, gasLimit, txs, worlds, receipts, n, evm, finalise)
    requires forall w: World :: Ether(finalise(w).balances) == Ether(w.balances)
    ensures Ether(worlds[n].balances) == Ether(worlds[0].balances) - Burnt(ctx, txs, receipts, n)
  {
    hide Sound, Transition, Ether, GasOf, EffectiveTip;
    if n > 0 {
      BlockEtherConserved(ctx, gasLimit, txs, worlds[..n], receipts, n - 1, evm, finalise);
      var msg := txs[n - 1].value;
      assert Applied(ctx, msg, worlds[n - 1], worlds[n], gasLimit - GasOf(receipts, n - 1), receipts[n - 1], evm,
                     finalise);
      EtherConserved(ctx, msg, worlds[n - 1], gasLimit - GasOf(receipts, n - 1), evm,
                     Transition(ctx, msg, worlds[n - 1], gasLimit - GasOf(receipts, n - 1), evm));
    }
  }

  /** applyTransaction: the gas counter grows by what the pool loses. `finalise` stands for the state's clean-up. */
  method ApplyTransaction(ctx: Context, msg: Message, gp: GasPool, world: World, usedGas: nat, evm: Evm,
                          finalise: World -> World)
    returns (world': World, usedGas': nat, r: Option<Receipt>)
    requires gp.Valid() && WellFormed(ctx, msg) && Sound(evm) && gp.gas + usedGas < TWO_64
    modifies gp
    ensures gp.Valid()
    ensures r.None? <==> Transition(ctx, msg, world, old(gp.gas), evm).outcome.Rejected?
    ensures r.Some? ==>
              && gp.gas + usedGas' == old(gp.gas) + usedGas && usedGas' == usedGas + r.value.gasUsed
              && r.value.cumulativeGasUsed == usedGas' && r.value.gasUsed <= msg.gas
              && Applied(ctx, msg, world, world', old(gp.gas), r.value, evm, finalise)
  {
    hide Transition, Sound;
    var st := new StateTransition(gp, ctx, msg, evm, world);
    var outcome := st.TransitionDb();
    world', usedGas' := st.state, usedGas;
    if outcome.Rejected? {
      return world', usedGas', None;
    }
    GasConserved(ctx, msg, world, old(gp.gas), evm, Transition(ctx, msg, world, old(gp.gas), evm));
    world' := finalise(world');
    usedGas' := usedGas + outcome.usedGas;
    return world', usedGas', Some(Receipt(usedGas', outcome.usedGas, !outcome.failed));
  }

  /** Process: in a block that goes through, the gas pool and the gas used always add up to the gas limit, and the
      receipts' cumulative gas is the running sum, within the limit. None is a transaction without a valid sender. */
  method Process(ctx: Context, gasLimit: nat, txs: seq<Option<Message>>, world: World, evm: Evm,
                 finalise: World -> World)
    returns (receipts: seq<Receipt>, usedGas: nat, ok: bool, world': World, ghost worlds: seq<World>,
             ghost applied: seq<Receipt>)
    requires gasLimit < TWO_64 && Sound(evm)
    requires forall i :: 0 <= i < |txs| && txs[i].Some? ==> WellFormed(ctx, txs[i].value)
    ensures ok ==>
              && |receipts| == |txs| && Cumulative(receipts, gasLimit)
              && usedGas == GasOf(receipts, |receipts|) <= gasLimit
    ensures ok ==>
              && Replayed(ctx, gasLimit, txs, worlds, receipts, |txs|, evm, finalise) && worlds[0] == world
              && worlds[|txs|] == world'
    ensures ok ==> forall i :: 0 <= i < |txs| ==> txs[i].Some? && Due(txs[i].value, worlds[i])
    ensures !ok ==>
              var n := |applied|;
              && n < |txs| && Replayed(ctx, gasLimit, txs, worlds, applied, n, evm, finalise) && worlds[0] == world
              && GasOf(applied, n) <= gasLimit
              && (txs[n].Some? ==>
                    Transition(ctx, txs[n].value, worlds[n], gasLimit - GasOf(applied, n), evm).outcome.Rejected?)
  {
    hide Sound, Cumulative, GasOf, Replayed, Applied, Transition;
    NoReceipts(gasLimit);
    receipts, usedGas, world', worlds := [], 0, world, [world];
    StartReplay(ctx, gasLimit, txs, world, evm, finalise);
    var gp := new GasPool();
    gp.AddGas(gasLimit);
    for i := 0 to |txs|
      invariant fresh(gp) && gp.Valid() && gp.gas + usedGas == gasLimit
      invariant |receipts| == i && Cumulative(receipts, gasLimit) && usedGas == GasOf(receipts, i)
      invariant |worlds| == i + 1 && worlds[0] == world && worlds[i] == world'
      invariant Replayed(ctx, gasLimit, txs, worlds, receipts, i, evm, finalise)
    {
      if txs[i].None? {
        return [], 0, false, world', worlds, receipts;
      }
      var before, r := usedGas, None;
      world', usedGas, r := ApplyTransaction(ctx, txs[i].value, gp, world', usedGas, evm, finalise);
      if r.None? {
        return [], 0, false, world', worlds, receipts;
      }
      ReceiptAdded(receipts, r.value, gasLimit);
      ReplayedMore(ctx, gasLimit, txs, worlds, receipts, i, evm, finalise, world', r.value);
      worlds := worlds + [world'];
      receipts := receipts + [r.value];
    }
    AllDue(ctx, gasLimit, txs, worlds, receipts, |txs|, evm, finalise);
    ReplayedAll(ctx, gasLimit, txs, worlds, receipts, |txs|, evm, finalise);
    return receipts, usedGas, true, world', worlds, receipts;
  }

  lemma ReplayedAll(ctx: Context, gasLimit: nat, txs: seq<Option<Message>>, worlds: seq<World>, receipts: seq<Receipt>,
                    n: nat, evm: Evm, finalise: World -> World)
    requires Sound(evm) && Replayed(ctx, gasLimit, txs, worlds, receipts, n, evm, finalise)
    ensures |worlds| == n + 1 && n <= |txs| && forall i :: 0 <= i < n ==> txs[i].Some?
  {
    hide Applied, Sound, GasOf;
  }

  lemma StartReplay(ctx: Context, gasLimit: nat, txs: seq<Option<Message>>, world: World, evm: Evm,
                    finalise: World -> World)
    requires Sound(evm)
    ensures Replayed(ctx, gasLimit, txs, [world], [], 0, evm, finalise)
  {
  }

  lemma NoReceipts(limit: nat)
    ensures Cumulative([], limit) && GasOf([], 0) == 0
  {
  }
}

/** core/state_transition.go, core/gaspool.go and core/state_processor.go: the gas and the
    ether of a block's transactions. */
module Gas {
  import opened Numbers
  import opened Options

  type Address = nat

  const MAX_UINT64: nat := 0xffff_ffff_ffff_ffff
  const TX_GAS: nat := 21000
  const TX_GAS_CONTRACT_CREATION: nat := 53000
  const TX_DATA_ZERO_GAS: nat := 4
  const TX_DATA_NON_ZERO_GAS: nat := 68

  // Balances

  type Balances = map<Address, nat>

  function BalanceOf(b: Balances, a: Address): nat {
    if a in b then b[a] else 0
  }

  /** The ether of all accounts. */
  ghost function Total(b: Balances): nat {
    Sum(b)
  }

  /** Setting one balance changes the total by the difference. */
  lemma TotalSet(b: Balances, a: Address, v: nat)
    ensures Total(b[a := v]) == Total(b) - BalanceOf(b, a) + v
  {
    SumSet(b, a, v);
  }

  /** The ether that an amount of gas costs. */
  function Fee(gas: nat, price: nat): nat {
    gas * price
  }

  lemma FeeSplits(left: nat, used: nat, price: nat)
    ensures Fee(left + used, price) == Fee(left, price) + Fee(used, price)
  {
  }

  /** AddBalance */
  function Credit(w: World, a: Address, amount: nat): World {
    w.(balances := w.balances[a := BalanceOf(w.balances, a) + amount])
  }

  /** SubBalance */
  function Debit(w: World, a: Address, amount: nat): World
    requires amount <= BalanceOf(w.balances, a)
  {
    w.(balances := w.balances[a := BalanceOf(w.balances, a) - amount])
  }

  /** A balance changed by an amount, and no other one and no nonce did. */
  ghost predicate Shifted(w: World, w': World, a: Address, amount: int) {
    && (forall x :: BalanceOf(w'.balances, x) == BalanceOf(w.balances, x) + if x == a then amount else 0)
    && w'.nonces == w.nonces
  }

  lemma CreditShifts(w: World, a: Address, gas: nat, price: nat)
    ensures Shifted(w, Credit(w, a, Fee(gas, price)), a, gas * price)
  {
  }

  lemma DebitShifts(w: World, a: Address, gas: nat, price: nat)
    requires Fee(gas, price) <= BalanceOf(w.balances, a)
    ensures Shifted(w, Debit(w, a, Fee(gas, price)), a, -(gas * price))
  {
  }

  lemma CreditTotal(w: World, a: Address, amount: nat)
    ensures Total(Credit(w, a, amount).balances) == Total(w.balances) + amount
  {
    hide Total;
    TotalSet(w.balances, a, BalanceOf(w.balances, a) + amount);
  }

  lemma DebitTotal(w: World, a: Address, amount: nat)
    requires amount <= BalanceOf(w.balances, a)
    ensures Total(Debit(w, a, amount).balances) == Total(w.balances) - amount
  {
    hide Total;
    TotalSet(w.balances, a, BalanceOf(w.balances, a) - amount);
  }

  // Intrinsic gas

  ghost function NonZero(data: seq<bv8>): nat
    decreases |data|
  {
    if data == [] then 0 else NonZero(data[..|data| - 1]) + if data[|data| - 1] != 0 then 1 else 0
  }

  /** The price of a transaction before it runs, as the Yellow Paper has it (section 6.2):
      a base and a price per byte. */
  ghost function Intrinsic(data: seq<bv8>, creation: bool, homestead: bool): nat {
    (if creation && homestead then TX_GAS_CONTRACT_CREATION else TX_GAS)
    + NonZero(data) * TX_DATA_NON_ZERO_GAS + (|data| - NonZero(data)) * TX_DATA_ZERO_GAS
  }

  lemma {:induction false} NonZeroBound(data: seq<bv8>)
    ensures NonZero(data) <= |data|
    decreases |data|
  {
    if data != [] {
      NonZeroBound(data[..|data| - 1]);
    }
  }

  /** IntrinsicGas fails just if the price does not fit in 64 bits. */
  method IntrinsicGas(data: seq<bv8>, creation: bool, homestead: bool) returns (r: Option<nat>)
    ensures var price := Intrinsic(data, creation, homestead);
      r == if price <= MAX_UINT64 then Some(price) else None
  {
    NonZeroBound(data);
    var gas := if creation && homestead then TX_GAS_CONTRACT_CREATION else TX_GAS;
    if |data| > 0 {
      var nz := 0;
      for i := 0 to |data|
        invariant nz == NonZero(data[..i])
      {
        assert data[..i + 1][..i] == data[..i];
        if data[i] != 0 {
          nz := nz + 1;
        }
      }
      assert data[..|data|] == data;
      Quotient(MAX_UINT64 - gas, TX_DATA_NON_ZERO_GAS, nz);
      if (MAX_UINT64 - gas) / TX_DATA_NON_ZERO_GAS < nz {
        return None;
      }
      gas := gas + nz * TX_DATA_NON_ZERO_GAS;
      var z := |data| - nz;
      Quotient(MAX_UINT64 - gas, TX_DATA_ZERO_GAS, z);
      if (MAX_UINT64 - gas) / TX_DATA_ZERO_GAS < z {
        return None;
      }
      gas := gas + z * TX_DATA_ZERO_GAS;
    }
    return Some(gas);
  }

  lemma Quotient(room: nat, price: nat, n: nat)
    requires price > 0
    ensures room / price < n <==> room < n * price
  {
    var q, r := room / price, room % price;
    assert room == q * price + r && 0 <= r < price;
    if q < n {
      assert (q + 1) * price <= n * price;
    } else {
      assert n * price <= q * price;
    }
  }

  // The gas pool

  class GasPool {
    var gas: nat

    constructor (limit: nat)
      requires limit <= MAX_UINT64
      ensures gas == limit
    {
      gas := limit;
    }

    /** AddGas, which panics above 64 bits. */
    method AddGas(amount: nat)
      requires gas + amount <= MAX_UINT64
      modifies this`gas
      ensures gas == old(gas) + amount
    {
      gas := gas + amount;
    }

    method SubGas(amount: nat) returns (ok: bool)
      modifies this`gas
      ensures ok <==> amount <= old(gas)
      ensures gas == if ok then old(gas) - amount else old(gas)
    {
      if gas < amount {
        return false;
      }
      gas := gas - amount;
      return true;
    }
  }

  // One transaction

  datatype Message = Message(from: Address, gasPrice: nat, gas: nat, nonce: nat, checkNonce: bool, data: seq<bv8>,
                             creation: bool)

  datatype World = World(balances: Balances, nonces: map<Address, nat>)

  function NonceOf(w: World, a: Address): nat {
    if a in w.nonces then w.nonces[a] else 0
  }

  /** What the EVM returns: the gas left, the refund counter, the new state, and whether it failed
      or could not move the value. */
  datatype Outcome = Outcome(gasLeft: nat, refund: nat, world: World, failed: bool, insufficient: bool)

  type EVM = (Message, World, nat) -> Outcome

  /** The EVM returns at most the gas it was given and moves ether without making or losing any. */
  ghost predicate Fair(evm: EVM) {
    forall m, w, g :: evm(m, w, g).gasLeft <= g && Total(evm(m, w, g).world.balances) == Total(w.balances)
  }

  datatype TxError =
    NoError | NonceTooHigh | NonceTooLow | InsufficientBalanceForGas | GasLimitReached | OutOfGas | InsufficientBalance

  class StateTransition {
    const gp: GasPool
    const msg: Message
    const coinbase: Address
    const homestead: bool
    const evm: EVM
    var gas: nat
    var initialGas: nat
    var world: World

    constructor (evm: EVM, msg: Message, gp: GasPool, coinbase: Address, homestead: bool, world: World)
      ensures this.evm == evm && this.msg == msg && this.gp == gp && this.coinbase == coinbase
      ensures this.homestead == homestead
      ensures gas == 0 && initialGas == 0 && this.world == world
    {
      this.evm, this.msg, this.gp, this.coinbase, this.homestead := evm, msg, gp, coinbase, homestead;
      gas, initialGas, this.world := 0, 0, world;
    }

    function GasUsed(): int
      reads this
    {
      initialGas - gas
    }

    method UseGas(amount: nat) returns (ok: bool)
      modifies this`gas
      ensures ok <==> amount <= old(gas)
      ensures gas == if ok then old(gas) - amount else old(gas)
    {
      if gas < amount {
        return false;
      }
      gas := gas - amount;
      return true;
    }

    /** buyGas takes the price of all the gas from the sender and the gas from the pool, or changes nothing. */
    method BuyGas() returns (err: TxError)
      requires gas == 0
      modifies this`gas, this`initialGas, this`world, gp
      ensures err == (if BalanceOf(old(world).balances, msg.from) < Fee(msg.gas, msg.gasPrice)
                      then InsufficientBalanceForGas
                      else if old(gp.gas) < msg.gas then GasLimitReached else NoError)
      ensures err == NoError ==>
        && gas == initialGas == msg.gas && gp.gas == old(gp.gas) - msg.gas
        && world == Debit(old(world), msg.from, Fee(msg.gas, msg.gasPrice))
        && Total(world.balances) == Total(old(world).balances) - Fee(msg.gas, msg.gasPrice)
        && Shifted(old(world), world, msg.from, -(msg.gas * msg.gasPrice))
      ensures err != NoError ==> unchanged(this) && unchanged(gp)
    {
      hide *;
      var mgval := Fee(msg.gas, msg.gasPrice);
      if BalanceOf(world.balances, msg.from) < mgval {
        return InsufficientBalanceForGas;
      }
      var ok := gp.SubGas(msg.gas);
      if !ok {
        return GasLimitReached;
      }
      gas := gas + msg.gas;
      initialGas := msg.gas;
      DebitTotal(world, msg.from, mgval);
      DebitShifts(world, msg.from, msg.gas, msg.gasPrice);
      world := Debit(world, msg.from, mgval);
      return NoError;
    }

    method PreCheck() returns (err: TxError)
      requires gas == 0
      modifies this`gas, this`initialGas, this`world, gp
      ensures err == NoError <==>
        && (msg.checkNonce ==> NonceOf(old(world), msg.from) == msg.nonce)
        && BalanceOf(old(world).balances, msg.from) >= Fee(msg.gas, msg.gasPrice) && old(gp.gas) >= msg.gas
      ensures err == PreCheckError(msg, old(world), old(gp.gas))
      ensures err == NonceTooHigh <==> msg.checkNonce && NonceOf(old(world), msg.from) < msg.nonce
      ensures err == NonceTooLow <==> msg.checkNonce && NonceOf(old(world), msg.from) > msg.nonce
      ensures err == NoError ==>
        && gas == initialGas == msg.gas && msg.gas <= old(gp.gas) && gp.gas == old(gp.gas) - msg.gas
        && world == Debit(old(world), msg.from, Fee(msg.gas, msg.gasPrice))
        && Total(world.balances) == Total(old(world).balances) - Fee(msg.gas, msg.gasPrice)
      ensures err != NoError ==> unchanged(this) && unchanged(gp)
    {
      hide Total;
      if msg.checkNonce {
        var nonce := NonceOf(world, msg.from);
        if nonce < msg.nonce {
          return NonceTooHigh;
        } else if nonce > msg.nonce {
          return NonceTooLow;
        }
      }
      err := BuyGas();
    }

    /** refundGas gives back the gas left and at most half of the gas used, to the sender and to the pool. */
    method RefundGas(counter: nat)
      requires gas <= initialGas && gp.gas + initialGas <= MAX_UINT64
      modifies this`gas, this`world, gp
      ensures gas == old(gas) + Min(counter, old(GasUsed()) / 2) && gas <= initialGas && 2 * GasUsed() >= old(GasUsed())
      ensures gp.gas == old(gp.gas) + gas && world == Credit(old(world), msg.from, Fee(gas, msg.gasPrice))
      ensures Total(world.balances) == Total(old(world).balances) + Fee(gas, msg.gasPrice)
      ensures Shifted(old(world), world, msg.from, gas * msg.gasPrice)
    {
      hide *;
      GasUsedIs();
      MinIs(counter, GasUsed() / 2);
      var refund := GasUsed() / 2;
      if refund > counter {
        refund := counter;
      }
      gas := gas + refund;
      GasUsedIs();
      var remaining := Fee(gas, msg.gasPrice);
      CreditTotal(world, msg.from, remaining);
      CreditShifts(world, msg.from, gas, msg.gasPrice);
      world := Credit(world, msg.from, remaining);
      GasUsedIs();
      gp.AddGas(gas);
    }

    /** The middle of TransitionDb: pays the intrinsic gas, takes up the nonce of a call and runs the EVM. */
    method RunMessage() returns (ok: bool, result: Outcome)
      requires gas == msg.gas <= MAX_UINT64 && Fair(evm)
      modifies this`gas, this`world
      ensures ok <==> Intrinsic(msg.data, msg.creation, homestead) <= msg.gas
      ensures !ok ==> unchanged(this)
      ensures ok ==>
        && result == evm(msg, TakenUp(old(world), msg), msg.gas - Intrinsic(msg.data, msg.creation, homestead))
        && gas == result.gasLeft <= msg.gas - Intrinsic(msg.data, msg.creation, homestead) && world == result.world
        && Total(world.balances) == Total(old(world).balances)
    {
      hide *;
      result := Outcome(0, 0, world, false, false);
      var intrinsic := IntrinsicGas(msg.data, msg.creation, homestead);
      if intrinsic.None? {
        return false, result;
      }
      ok := UseGas(intrinsic.value);
      if !ok {
        return;
      }
      TakenUpIs(world, msg);
      if !msg.creation {
        world := world.(nonces := world.nonces[msg.from := NonceOf(world, msg.from) + 1]);
      }
      FairAt(evm, msg, world, gas);
      result := evm(msg, world, gas);
      gas, world := result.gasLeft, result.world;
    }

    /** The end of TransitionDb: the refund, and the coinbase's share. */
    method Settle(counter: nat) returns (usedGas: nat)
      requires gas <= initialGas == msg.gas && gp.gas + initialGas <= MAX_UINT64
      modifies this`gas, this`world, gp
      ensures usedGas <= msg.gas && gp.gas == old(gp.gas) + msg.gas - usedGas
      ensures usedGas == msg.gas - old(gas) - Min(counter, (msg.gas - old(gas)) / 2)
      ensures var repaid := Credit(old(world), msg.from, Fee(msg.gas - usedGas, msg.gasPrice));
        world == Credit(repaid, coinbase, Fee(usedGas, msg.gasPrice))
      ensures Total(world.balances) == Total(old(world).balances) + Fee(msg.gas, msg.gasPrice)
    {
      hide *;
      GasUsedIs();
      RefundGas(counter);
      GasUsedIs();
      usedGas := GasUsed();
      FeeSplits(gas, usedGas, msg.gasPrice);
      CreditTotal(world, coinbase, Fee(usedGas, msg.gasPrice));
      world := Credit(world, coinbase, Fee(usedGas, msg.gasPrice));
    }

    /** TransitionDb: the pool loses just the gas used, which is at least half of what was used before the refund, and
        no ether is made or lost between the sender, the coinbase and the accounts the EVM touches. */
    method TransitionDb() returns (usedGas: nat, failed: bool, err: TxError)
      requires gas == 0 && Fair(evm) && gp.gas <= MAX_UINT64
      modifies this, gp
      ensures err == NoError ==>
        && usedGas <= msg.gas <= old(gp.gas) && gp.gas == old(gp.gas) - usedGas
        && Total(world.balances) == Total(old(world).balances)
        && Transition(evm, homestead, coinbase, msg, old(world), world, usedGas, failed)
        && Settled(evm, homestead, coinbase, msg, old(world), world, usedGas)
      ensures err == OutOfGas ==> Shifted(old(world), world, msg.from, -(msg.gas * msg.gasPrice))
      ensures err != NoError ==>
        usedGas == 0 && !failed && Fails(evm, homestead, msg, old(world), old(gp.gas), err, world, gp.gas)
    {
      hide *;
      err := PreCheck();
      if err != NoError {
        FailsAtOnce(evm, homestead, msg, world, gp.gas);
        return 0, false, err;
      }
      var ok, result := RunMessage();
      if !ok {
        FailsForGas(evm, homestead, msg, old(world), old(gp.gas));
        DebitShifts(old(world), msg.from, msg.gas, msg.gasPrice);
        return 0, false, OutOfGas;
      }
      HandedOver(old(world), msg);
      if result.insufficient {
        FailsForValue(evm, homestead, msg, old(world), old(gp.gas), result);
        return 0, false, InsufficientBalance;
      }
      usedGas := Settle(result.refund);
      TransitionIs(evm, homestead, coinbase, msg, old(world), world, usedGas, result.failed);
      Payments(evm, homestead, coinbase, msg, old(world), world, usedGas, result.failed);
      return usedGas, result.failed, NoError;
    }

    lemma GasUsedIs()
      ensures GasUsed() == initialGas - gas
    {
    }
  }

  lemma MinIs(a: nat, b: nat)
    ensures Min(a, b) == if a <= b then a else b
  {
  }

  /** The state the EVM is called with: the sender has paid for all its gas, and a call has taken up its nonce. */
  ghost function Handed(start: World, msg: Message): World
    requires BalanceOf(start.balances, msg.from) >= Fee(msg.gas, msg.gasPrice)
  {
    TakenUp(Debit(start, msg.from, Fee(msg.gas, msg.gasPrice)), msg)
  }

  ghost function TakenUp(w: World, msg: Message): World {
    if msg.creation then w else w.(nonces := w.nonces[msg.from := NonceOf(w, msg.from) + 1])
  }

  lemma TakenUpIs(w: World, msg: Message)
    ensures TakenUp(w, msg) ==
      if msg.creation then w else w.(nonces := w.nonces[msg.from := NonceOf(w, msg.from) + 1])
    ensures TakenUp(w, msg).balances == w.balances
  {
  }

  lemma HandedOver(start: World, msg: Message)
    requires BalanceOf(start.balances, msg.from) >= Fee(msg.gas, msg.gasPrice)
    ensures Handed(start, msg) == TakenUp(Debit(start, msg.from, Fee(msg.gas, msg.gasPrice)), msg)
  {
  }

  /** A message as section 6.2 of the Yellow Paper executes it: the gas is bought, the EVM runs on what the intrinsic
      gas leaves, up to half of what was spent comes back as refund, the sender gets the price of the rest and the
      coinbase that of the gas used. */
  ghost predicate Transition(evm: EVM, homestead: bool, coinbase: Address, msg: Message, w: World, w': World, used: nat,
                             failed: bool)
  {
    var intrinsic := Intrinsic(msg.data, msg.creation, homestead);
    && (msg.checkNonce ==> NonceOf(w, msg.from) == msg.nonce)
    && BalanceOf(w.balances, msg.from) >= Fee(msg.gas, msg.gasPrice) && intrinsic <= msg.gas && used <= msg.gas
    && var out := evm(msg, Handed(w, msg), msg.gas - intrinsic);
       && out.gasLeft <= msg.gas - intrinsic && failed == out.failed && !out.insufficient
       && used == msg.gas - out.gasLeft - Min(out.refund, (msg.gas - out.gasLeft) / 2)
       && var repaid := Credit(out.world, msg.from, Fee(msg.gas - used, msg.gasPrice));
          w' == Credit(repaid, coinbase, Fee(used, msg.gasPrice))
  }

  /** Account by account: the EVM starts from a state in which the sender has paid for all the gas and a
      call has taken up one nonce, and afterwards the sender has got the price of the gas left and the
      coinbase that of the gas used. */
  ghost predicate Settled(evm: EVM, homestead: bool, coinbase: Address, msg: Message, w: World, w': World, used: nat) {
    var intrinsic := Intrinsic(msg.data, msg.creation, homestead);
    && intrinsic <= msg.gas && used <= msg.gas && BalanceOf(w.balances, msg.from) >= Fee(msg.gas, msg.gasPrice)
    && var given := Handed(w, msg);
       && (forall a :: BalanceOf(given.balances, a) ==
             BalanceOf(w.balances, a) - if a == msg.from then msg.gas * msg.gasPrice else 0)
       && (forall a :: NonceOf(given, a) == NonceOf(w, a) + if a == msg.from && !msg.creation then 1 else 0)
       && var out := evm(msg, given, msg.gas - intrinsic).world;
          && (forall a :: BalanceOf(w'.balances, a) ==
                BalanceOf(out.balances, a) + (if a == msg.from then (msg.gas - used) * msg.gasPrice else 0)
                + (if a == coinbase then used * msg.gasPrice else 0))
          && w'.nonces == out.nonces
  }

  lemma Payments(evm: EVM, homestead: bool, coinbase: Address, msg: Message, w: World, w': World, used: nat,
                 failed: bool)
    requires Transition(evm, homestead, coinbase, msg, w, w', used, failed)
    ensures Settled(evm, homestead, coinbase, msg, w, w', used)
  {
    hide Intrinsic, Credit, Debit, Fee, BalanceOf, Min;
    var out := evm(msg, Handed(w, msg), msg.gas - Intrinsic(msg.data, msg.creation, homestead)).world;
    DebitShifts(w, msg.from, msg.gas, msg.gasPrice);
    CreditShifts(out, msg.from, msg.gas - used, msg.gasPrice);
    CreditShifts(Credit(out, msg.from, Fee(msg.gas - used, msg.gasPrice)), coinbase, used, msg.gasPrice);
  }

  /** What preCheck finds, in the order it looks. */
  function PreCheckError(msg: Message, w: World, pool: nat): TxError {
    if msg.checkNonce && NonceOf(w, msg.from) < msg.nonce then NonceTooHigh
    else if msg.checkNonce && NonceOf(w, msg.from) > msg.nonce then NonceTooLow
    else if BalanceOf(w.balances, msg.from) < Fee(msg.gas, msg.gasPrice) then InsufficientBalanceForGas
    else if pool < msg.gas then GasLimitReached
    else NoError
  }

  /** What a failed message leaves: before the gas is bought nothing has changed; afterwards the pool has lost all the
      gas of the message and the sender the price of it. */
  ghost predicate Fails(evm: EVM, homestead: bool, msg: Message, w: World, pool: nat, err: TxError, w': World,
                        pool': nat)
  {
    var intrinsic := Intrinsic(msg.data, msg.creation, homestead);
    if PreCheckError(msg, w, pool) != NoError then err == PreCheckError(msg, w, pool) && w' == w && pool' == pool
    else
      && pool' == pool - msg.gas
      && if msg.gas < intrinsic then err == OutOfGas && w' == Debit(w, msg.from, Fee(msg.gas, msg.gasPrice))
         else
           var out := evm(msg, Handed(w, msg), msg.gas - intrinsic);
           out.insufficient && err == InsufficientBalance && w' == out.world
  }

  lemma FailsAtOnce(evm: EVM, homestead: bool, msg: Message, w: World, pool: nat)
    requires PreCheckError(msg, w, pool) != NoError
    ensures Fails(evm, homestead, msg, w, pool, PreCheckError(msg, w, pool), w, pool)
    ensures PreCheckError(msg, w, pool) != OutOfGas
  {
  }

  lemma FailsForGas(evm: EVM, homestead: bool, msg: Message, w: World, pool: nat)
    requires PreCheckError(msg, w, pool) == NoError && msg.gas < Intrinsic(msg.data, msg.creation, homestead)
    ensures pool >= msg.gas && BalanceOf(w.balances, msg.from) >= Fee(msg.gas, msg.gasPrice)
    ensures Fails(evm, homestead, msg, w, pool, OutOfGas, Debit(w, msg.from, Fee(msg.gas, msg.gasPrice)),
                  pool - msg.gas)
  {
  }

  lemma FailsForValue(evm: EVM, homestead: bool, msg: Message, w: World, pool: nat, out: Outcome)
    requires PreCheckError(msg, w, pool) == NoError && msg.gas >= Intrinsic(msg.data, msg.creation, homestead)
    requires BalanceOf(w.balances, msg.from) >= Fee(msg.gas, msg.gasPrice)
    requires out == evm(msg, Handed(w, msg), msg.gas - Intrinsic(msg.data, msg.creation, homestead)) && out.insufficient
    ensures pool >= msg.gas && Fails(evm, homestead, msg, w, pool, InsufficientBalance, out.world, pool - msg.gas)
  {
  }

  lemma TransitionIs(evm: EVM, homestead: bool, coinbase: Address, msg: Message, w: World, w': World, used: nat,
                     failed: bool)
    requires var intrinsic := Intrinsic(msg.data, msg.creation, homestead);
      && (msg.checkNonce ==> NonceOf(w, msg.from) == msg.nonce)
      && BalanceOf(w.balances, msg.from) >= Fee(msg.gas, msg.gasPrice) && intrinsic <= msg.gas && used <= msg.gas
      && var out := evm(msg, Handed(w, msg), msg.gas - intrinsic);
         && out.gasLeft <= msg.gas - intrinsic && failed == out.failed && !out.insufficient
         && used == msg.gas - out.gasLeft - Min(out.refund, (msg.gas - out.gasLeft) / 2)
         && var repaid := Credit(out.world, msg.from, Fee(msg.gas - used, msg.gasPrice));
            w' == Credit(repaid, coinbase, Fee(used, msg.gasPrice))
    ensures Transition(evm, homestead, coinbase, msg, w, w', used, failed)
  {
  }

  /** At least half of the gas spent before the refund stays used, and at least half of the intrinsic gas. */
  lemma RefundIsHalf(evm: EVM, homestead: bool, coinbase: Address, msg: Message, w: World, w': World, used: nat,
                     failed: bool)
    requires Transition(evm, homestead, coinbase, msg, w, w', used, failed)
    ensures var intrinsic := Intrinsic(msg.data, msg.creation, homestead);
      var spent := msg.gas - evm(msg, Handed(w, msg), msg.gas - intrinsic).gasLeft;
      intrinsic <= spent <= 2 * used && used <= spent
  {
    hide Intrinsic, Handed, Credit, Fee;
  }

  lemma FairAt(evm: EVM, m: Message, w: World, g: nat)
    requires Fair(evm)
    ensures evm(m, w, g).gasLeft <= g && Total(evm(m, w, g).world.balances) == Total(w.balances)
  {
    hide Total;
  }

  // A block

  /** A receipt's gas fields. */
  datatype Receipt = Receipt(cumulativeGasUsed: nat, gasUsed: nat, failed: bool)

  ghost function SumUsed(receipts: seq<Receipt>): nat
    decreases |receipts|
  {
    if receipts == [] then 0 else SumUsed(receipts[..|receipts| - 1]) + receipts[|receipts| - 1].gasUsed
  }

  /** Each receipt's cumulative gas is the sum of the gas used up to it. */
  ghost predicate Cumulative(receipts: seq<Receipt>) {
    forall j :: 0 <= j < |receipts| ==> CumulativeAt(receipts, j)
  }

  ghost predicate CumulativeAt(receipts: seq<Receipt>, j: nat)
    requires j < |receipts|
  {
    receipts[j].cumulativeGasUsed == SumUsed(receipts[..j + 1])
  }

  /** What Process has done after some transactions: each moved the world from one state to the next, and the pool's gas
      and the gas used have always added up to the block's gas limit. */
  ghost predicate Processed(evm: EVM, txs: seq<Message>, gasLimit: nat, coinbase: Address, homestead: bool,
                            receipts: seq<Receipt>, worlds: seq<World>, pools: seq<nat>)
  {
    && |receipts| <= |txs| && |worlds| == |pools| == |receipts| + 1 && Cumulative(receipts)
    && (forall j :: 0 <= j < |receipts| ==>
          Transition(evm, homestead, coinbase, txs[j], worlds[j], worlds[j + 1], receipts[j].gasUsed,
                     receipts[j].failed))
    && (forall j :: 0 <= j < |receipts| ==> txs[j].gas <= pools[j])
    && forall j :: 0 <= j <= |receipts| ==> pools[j] + SumUsed(receipts[..j]) == gasLimit
  }

  /** Process, its gas and receipt bookkeeping. On an error it has stopped at the first transaction that fails. */
  method Process(evm: EVM, txs: seq<Message>, gasLimit: nat, coinbase: Address, homestead: bool, start: World)
    returns (receipts: seq<Receipt>, usedGas: nat, left: nat, world: World, err: TxError,
             ghost done: seq<Receipt>, ghost worlds: seq<World>, ghost pools: seq<nat>)
    requires Fair(evm) && gasLimit <= MAX_UINT64
    ensures err == NoError ==>
      && |receipts| == |txs| && Cumulative(receipts) && usedGas == SumUsed(receipts) && left + usedGas == gasLimit
      && Total(world.balances) == Total(start.balances)
      && forall j :: 0 <= j < |txs| ==> SumUsed(receipts[..j]) + txs[j].gas <= gasLimit
    ensures err != NoError ==> receipts == [] && usedGas == 0
    ensures Processed(evm, txs, gasLimit, coinbase, homestead, done, worlds, pools) && worlds[0] == start
    ensures err == NoError ==> receipts == done && worlds[|txs|] == world && pools[|txs|] == left
    ensures err != NoError ==>
      |done| < |txs| && Fails(evm, homestead, txs[|done|], worlds[|done|], pools[|done|], err, world, left)
  {
    hide Total, Fair, Transition, Processed, Fails;
    var gp := new GasPool(gasLimit);
    receipts, usedGas, world, left := [], 0, start, gasLimit;
    worlds, pools := [start], [gasLimit];
    NothingProcessed(evm, txs, gasLimit, coinbase, homestead, start);
    for i := 0 to |txs|
      invariant |receipts| == i && usedGas == SumUsed(receipts) && gp.gas + usedGas == gasLimit
      invariant Total(world.balances) == Total(start.balances) && fresh(gp)
      invariant |worlds| == |pools| == i + 1 && worlds[0] == start && worlds[i] == world && pools[i] == gp.gas
      invariant Processed(evm, txs, gasLimit, coinbase, homestead, receipts, worlds, pools)
    {
      var st := new StateTransition(evm, txs[i], gp, coinbase, homestead, world);
      var gas, failed;
      gas, failed, err := st.TransitionDb();
      if err != NoError {
        return [], 0, gp.gas, st.world, err, receipts, worlds, pools;
      }
      usedGas := usedGas + gas;
      OneMore(receipts, Receipt(usedGas, gas, failed));
      OneProcessed(evm, txs, gasLimit, coinbase, homestead, receipts, worlds, pools, st.world, gp.gas,
                   Receipt(usedGas, gas, failed));
      world := st.world;
      worlds, pools := worlds + [world], pools + [gp.gas];
      receipts := receipts + [Receipt(usedGas, gas, failed)];
    }
    ProcessedMeans(evm, txs, gasLimit, coinbase, homestead, receipts, worlds, pools);
    return receipts, usedGas, gp.gas, world, NoError, receipts, worlds, pools;
  }

  lemma ProcessedMeans(evm: EVM, txs: seq<Message>, gasLimit: nat, coinbase: Address, homestead: bool,
                       receipts: seq<Receipt>, worlds: seq<World>, pools: seq<nat>)
    requires Processed(evm, txs, gasLimit, coinbase, homestead, receipts, worlds, pools)
    ensures Cumulative(receipts) && |receipts| <= |txs|
    ensures forall j :: 0 <= j < |receipts| ==> SumUsed(receipts[..j]) + txs[j].gas <= gasLimit
  {
    hide Transition, SumUsed;
  }

  lemma NothingProcessed(evm: EVM, txs: seq<Message>, gasLimit: nat, coinbase: Address, homestead: bool, start: World)
    ensures Processed(evm, txs, gasLimit, coinbase, homestead, [], [start], [gasLimit])
  {
    assert forall j :: 0 <= j <= 0 ==> SumUsed([][..j]) == 0;
  }

  lemma OneProcessed(evm: EVM, txs: seq<Message>, gasLimit: nat, coinbase: Address, homestead: bool,
                     receipts: seq<Receipt>, worlds: seq<World>, pools: seq<nat>, world: World, pool: nat, r: Receipt)
    requires Processed(evm, txs, gasLimit, coinbase, homestead, receipts, worlds, pools) && |receipts| < |txs|
    requires var i := |receipts|;
      && Transition(evm, homestead, coinbase, txs[i], worlds[i], world, r.gasUsed, r.failed)
      && txs[i].gas <= pools[i] && pool == pools[i] - r.gasUsed && r.cumulativeGasUsed == SumUsed(receipts) + r.gasUsed
    ensures Processed(evm, txs, gasLimit, coinbase, homestead, receipts + [r], worlds + [world], pools + [pool])
  {
    hide Transition, Cumulative, SumUsed;
    OneMore(receipts, r);
    PoolsExtend(gasLimit, receipts, pools, pool, r);
  }

  lemma PoolsExtend(gasLimit: nat, receipts: seq<Receipt>, pools: seq<nat>, pool: nat, r: Receipt)
    requires |pools| == |receipts| + 1 && pool == pools[|receipts|] - r.gasUsed
    requires forall j :: 0 <= j <= |receipts| ==> pools[j] + SumUsed(receipts[..j]) == gasLimit
    ensures forall j :: 0 <= j <= |receipts| + 1 ==> (pools + [pool])[j] + SumUsed((receipts + [r])[..j]) == gasLimit
  {
    var i, more := |receipts|, receipts + [r];
    OneMore(receipts, r);
    hide SumUsed;
    assert receipts[..i] == receipts;
    forall j | 0 <= j <= i + 1
      ensures (pools + [pool])[j] + SumUsed(more[..j]) == gasLimit
    {
      if j <= i {
        assert more[..j] == receipts[..j];
      } else {
        assert more[..j] == more;
      }
    }
  }

  lemma OneMore(receipts: seq<Receipt>, r: Receipt)
    ensures SumUsed(receipts + [r]) == SumUsed(receipts) + r.gasUsed
    ensures Cumulative(receipts) && r.cumulativeGasUsed == SumUsed(receipts) + r.gasUsed ==> Cumulative(receipts + [r])
  {
    var more := receipts + [r];
    assert more[..|more| - 1] == receipts;
    hide SumUsed;
    if Cumulative(receipts) && r.cumulativeGasUsed == SumUsed(receipts) + r.gasUsed {
      forall j: nat | j < |more|
        ensures CumulativeAt(more, j)
      {
        if j < |receipts| {
          assert CumulativeAt(receipts, j);
          assert more[..j + 1] == receipts[..j + 1];
        } else {
          assert more[..j + 1] == more;
        }
      }
    }
  }

  /** So the gas used by each transaction is the difference of two cumulative values. */
  lemma UsedIsDifference(receipts: seq<Receipt>, j: nat)
    requires Cumulative(receipts) && j < |receipts|
    ensures receipts[j].gasUsed ==
      receipts[j].cumulativeGasUsed - if j == 0 then 0 else receipts[j - 1].cumulativeGasUsed
  {
    assert CumulativeAt(receipts, j);
    assert receipts[..j + 1][..j] == receipts[..j];
    if j > 0 {
      assert CumulativeAt(receipts, j - 1);
    } else {
      assert receipts[..j] == [] && SumUsed([]) == 0;
      assert receipts[..j + 1] == [receipts[0]] && SumUsed([receipts[0]]) == SumUsed([]) + receipts[0].gasUsed;
    }
  }
}

/** Depositing funds into an alias, up to the essence of the transaction. */
module Deposits {
  import opened Collections
  import opened Balances
  import opened BalanceCheck
  import opened Addresses
  import opened AddressChoice
  import opened Outputs
  import opened OutputManagement
  import opened Funding
  import opened FundingTheorems
  import opened History
  import opened Unlocking
  import opened NFT
  import opened Wallets
  import opened Outcomes

  datatype DepositError =
    | FundsMissing
    | TooManyFunds
    | AliasRefuses(reason: NFTError)
    | InputsPanic

  /** What is consumed besides the alias, and what is built from it. */
  datatype Deposit = Deposit(consumed: O, inputs: seq<OutputID>, newAliasBalance: Balances, remainder: Balances,
                             remainderAddress: Option<Address>)

  /** Everything in the wallet that could pay for a deposit. */
  ghost function Payable(ledger: Ledger, seed: Seed, last: nat, amount: Balances, now: Time): O {
    var own := WalletAddresses(seed, last);
    AllCandidates(ValueOutputs(UnspentOn(ledger, false, Elements(own))), Elements(own), amount, now)
  }

  ghost predicate IsPayment(consumed: O, payable: O, amount: Balances) {
    && Covers(Funds(consumed), amount)
    && 1 <= |consumed| <= MAX_INPUT_COUNT
    && (forall k | k in consumed :: k in payable && consumed[k] == payable[k])
  }

  ghost predicate CannotPay(payable: O, amount: Balances) {
    payable == map[] || !Covers(Funds(payable), amount)
  }

  ghost predicate IsCollectedFor(r: FundingResult, amount: Balances, payable: O) {
    && (r.InsufficientFunds? <==> CannotPay(payable, amount))
    && (r.TooManyOutputs? ==> |payable| > MAX_INPUT_COUNT)
    && (r.Funded? ==> IsPayment(r.outputs, payable, amount))
  }

  ghost function InputIDs(consumed: O, alias: Output): set<OutputID> {
    IDsOf(consumed) + {alias.ledgerOutput.id}
  }

  ghost function IDsOf(outputs: O): set<OutputID> {
    set k | k in outputs :: outputs[k].ledgerOutput.id
  }

  /** The new alias holds the amount besides what it held, and no colour is lost. */
  ghost predicate IsTopUp(newAliasBalance: Balances, remainder: Balances, consumed: Balances, alias: Balances,
                          amount: Balances) {
    && newAliasBalance == Plus(alias, amount)
    && SameAmounts(Plus(newAliasBalance, remainder), Plus(alias, consumed))
    && IsBalanced(Plus(alias, consumed), Plus(newAliasBalance, remainder))
  }

  /** Without address reuse, the remainder goes where a transfer of the consumed outputs alone would send it: the alias
      is not looked at. */
  ghost predicate IsReturnAddress(address: Option<Address>, reusableAddress: bool, seed: Seed, s: AddressState,
                                  consumed: O) {
    address.Some? && !reusableAddress && Exact(s) && AreKnown(consumed, seed, s.last) ==>
      address.value == seed.AddressOf(ToIndex(s, IndexesOf(AddressesIn(consumed))))
  }

  /** The alias and the remainder hold what the old alias and the consumed outputs held, and the inputs are those. */
  ghost predicate IsDeposit(d: Deposit, alias: Output, amount: Balances) {
    && IsTopUp(d.newAliasBalance, d.remainder, Funds(d.consumed), alias.ledgerOutput.balances, amount)
    && (d.remainderAddress.Some? <==> d.remainder != map[])
    && Ascending(d.inputs) && Elements(d.inputs) == InputIDs(d.consumed, alias)
  }

  /** How a deposit ends. Missing funds are reported exactly if all candidates together do not pay, too many outputs
      only if there are more candidates than one transaction can take. Everything else is decided by the alias and by
      the number of inputs. The refusal for a deposit that was not collected does not occur. */
  ghost predicate IsDepositOutcome(deposit: Option<Deposit>, err: Option<DepositError>, consumed: O, alias: Output,
                                   amount: Balances, payable: O) {
    && (err == Some(FundsMissing) <==> CannotPay(payable, amount))
    && (err == Some(TooManyFunds) ==> |payable| > MAX_INPUT_COUNT)
    && (err != Some(FundsMissing) && err != Some(TooManyFunds) ==>
          IsPayment(consumed, payable, amount) && err == Refusal(consumed, alias, amount))
    && (err.None? <==> deposit.Some?)
    && (deposit.Some? ==> deposit.value.consumed == consumed && IsDeposit(deposit.value, alias, amount))
  }

  ghost function Refusal(consumed: O, alias: Output, amount: Balances): Option<DepositError> {
    if !IsAboveDustThreshold(Plus(alias.ledgerOutput.balances, amount)) then Some(AliasRefuses(BelowDustThreshold))
    else if |InputIDs(consumed, alias)| > MAX_INPUT_COUNT then Some(InputsPanic)
    else None
  }

  /** Collects the funds, tops the alias up, and returns what is left to the wallet. */
  method PrepareDeposit(wallet: Wallet, alias: Output, amount: Balances, answer: Option<Ledger>, now: Time)
    returns (deposit: Option<Deposit>, err: Option<DepositError>, ghost consumed: O)
    requires wallet.Valid() && (answer.Some? ==> WellKeyed(answer.value)) && alias.ledgerOutput.AliasOutput?
    modifies wallet, wallet.addressManager, wallet.outputManager
    ensures wallet.Valid()
    ensures wallet.run == Asked(old(wallet.run), answer)
    ensures IsDepositOutcome(deposit, err, consumed, alias, amount,
              Payable(wallet.outputManager.ledger, wallet.addressManager.seed,
                      old(wallet.addressManager.lastAddressIndex), amount, now))
    ensures deposit.Some? && old(Exact(wallet.addressManager.State())) ==>
              && AreKnown(consumed, wallet.addressManager.seed, old(wallet.addressManager.lastAddressIndex))
              && IsReturnAddress(deposit.value.remainderAddress, wallet.reusableAddress, wallet.addressManager.seed,
                                 old(wallet.addressManager.State()), consumed)
  {
    var result := CollectForDeposit(wallet, amount, answer, now);
    deposit, err, consumed := AfterCollection(wallet, result, alias, amount,
        Payable(wallet.outputManager.ledger, wallet.addressManager.seed, wallet.addressManager.lastAddressIndex,
                amount, now));
  }

  /** The result of the collection decides how the deposit goes on. */
  method AfterCollection(wallet: Wallet, result: FundingResult, alias: Output, amount: Balances, ghost payable: O)
    returns (deposit: Option<Deposit>, err: Option<DepositError>, ghost consumed: O)
    requires wallet.Valid() && IsCollectedFor(result, amount, payable)
    modifies wallet.addressManager
    ensures wallet.Valid()
    ensures IsDepositOutcome(deposit, err, consumed, alias, amount, payable)
    ensures deposit.Some? ==>
              && result.Funded? && consumed == result.outputs
              && IsReturnAddress(deposit.value.remainderAddress, wallet.reusableAddress, wallet.addressManager.seed,
                                 old(wallet.addressManager.State()), consumed)
  {
    if !result.Funded? {
      deposit, consumed := None, map[];
      err := Some(if result.TooManyOutputs? then TooManyFunds else FundsMissing);
    } else {
      consumed := result.outputs;
      deposit, err := BuildDeposit(wallet, result.outputs, alias, amount);
      BuiltIsOutcome(result, deposit, err, alias, amount, payable);
    }
  }

  lemma BuiltIsOutcome(r: FundingResult, deposit: Option<Deposit>, err: Option<DepositError>, alias: Output,
                       amount: Balances, payable: O)
    requires r.Funded? && IsCollectedFor(r, amount, payable)
    requires err == Refusal(r.outputs, alias, amount) && (err.None? <==> deposit.Some?)
    requires deposit.Some? ==> deposit.value.consumed == r.outputs && IsDeposit(deposit.value, alias, amount)
    ensures IsDepositOutcome(deposit, err, r.outputs, alias, amount, payable)
  {
  }

  method CollectForDeposit(wallet: Wallet, amount: Balances, answer: Option<Ledger>, now: Time)
    returns (result: FundingResult)
    requires wallet.Valid() && (answer.Some? ==> WellKeyed(answer.value))
    modifies wallet, wallet.addressManager, wallet.outputManager
    ensures wallet.Valid()
    ensures wallet.run == Asked(old(wallet.run), answer)
    ensures wallet.addressManager.lastAddressIndex == old(wallet.addressManager.lastAddressIndex)
    ensures old(Exact(wallet.addressManager.State())) ==>
              wallet.addressManager.State() == old(wallet.addressManager.State())
    ensures result.Funded? ==>
              AreKnown(result.outputs, wallet.addressManager.seed, wallet.addressManager.lastAddressIndex)
    ensures IsCollectedFor(result, amount, Payable(wallet.outputManager.ledger, wallet.addressManager.seed,
                                                   wallet.addressManager.lastAddressIndex, amount, now))
  {
    ghost var asked, order;
    result, asked, order := wallet.CollectOutputsForFunding(amount, false, [], answer, now);
    PaymentOf(result, order, asked, wallet.outputManager.ledger, amount, now, wallet.addressManager.seed,
              wallet.addressManager.lastAddressIndex);
    PaidByOwn(result, order, asked, wallet.outputManager.ledger, amount, now, wallet.addressManager.seed,
              wallet.addressManager.lastAddressIndex);
  }

  lemma PaidByOwn(r: FundingResult, order: seq<Key>, asked: seq<Address>, ledger: Ledger, amount: Balances, now: Time,
                  seed: Seed, last: nat)
    requires IsScan(r, order, asked, ledger, false, amount, now)
    requires |asked| == last + 1 && forall i | 0 <= i < |asked| :: asked[i] == seed.AddressOf(i)
    ensures r.Funded? ==> AreKnown(r.outputs, seed, last)
  {
    if r.Funded? {
      ScanIsWhole(r, order, asked, ledger, amount, now, seed, last);
    }
  }

  lemma PaymentOf(r: FundingResult, order: seq<Key>, asked: seq<Address>, ledger: Ledger, amount: Balances, now: Time,
                  seed: Seed, last: nat)
    requires IsScan(r, order, asked, ledger, false, amount, now)
    requires |asked| == last + 1 && forall i | 0 <= i < |asked| :: asked[i] == seed.AddressOf(i)
    ensures IsCollectedFor(r, amount, Payable(ledger, seed, last, amount, now))
  {
    assert asked == WalletAddresses(seed, last);
    WholeWalletIsKnown(map[], asked, seed, last);
    var unspent := ValueOutputs(UnspentOn(ledger, false, Elements(asked)));
    InsufficientIff(r, order, asked, unspent, amount, now);
    if !r.InsufficientFunds? {
      CollectedCovers(r, order, asked, unspent, amount, now);
    }
  }

  /** Everything after the collection. */
  method BuildDeposit(wallet: Wallet, consumedOutputs: O, alias: Output, amount: Balances)
    returns (deposit: Option<Deposit>, err: Option<DepositError>)
    requires wallet.Valid() && Covers(Funds(consumedOutputs), amount)
    modifies wallet.addressManager
    ensures wallet.Valid()
    ensures err == Refusal(consumedOutputs, alias, amount)
    ensures err.None? <==> deposit.Some?
    ensures deposit.Some? ==> deposit.value.consumed == consumedOutputs && IsDeposit(deposit.value, alias, amount)
    ensures deposit.Some? ==>
              IsReturnAddress(deposit.value.remainderAddress, wallet.reusableAddress, wallet.addressManager.seed,
                              old(wallet.addressManager.State()), consumedOutputs)
  {
    var inputs := DepositInputs(consumedOutputs, alias);
    var newAliasBalance, remainder;
    newAliasBalance, remainder, err := TopUp(consumedOutputs, alias, amount);
    deposit := None;
    if err.None? {
      var remainderAddress := ReturnAddress(wallet, consumedOutputs, remainder);
      // the inputs are serialized for the first time when the unlock blocks are built
      if |inputs| > MAX_INPUT_COUNT {
        err := Some(InputsPanic);
      } else {
        deposit := Some(Deposit(consumedOutputs, inputs, newAliasBalance, remainder, remainderAddress));
      }
    }
  }

  /** The new balance of the alias, and what is left of the consumed funds. */
  method TopUp(consumedOutputs: O, alias: Output, amount: Balances)
    returns (newAliasBalance: Balances, remainder: Balances, err: Option<DepositError>)
    requires Covers(Funds(consumedOutputs), amount)
    ensures err == if IsAboveDustThreshold(Plus(alias.ledgerOutput.balances, amount)) then None
                   else Some(AliasRefuses(BelowDustThreshold))
    ensures err.None? ==>
              IsTopUp(newAliasBalance, remainder, Funds(consumedOutputs), alias.ledgerOutput.balances, amount)
  {
    var totalConsumed := TotalFundsInOutputs(consumedOutputs);
    var refusal;
    newAliasBalance, remainder, refusal := DepositBalances(alias.ledgerOutput.balances, amount, totalConsumed);
    DepositConserves(alias.ledgerOutput.balances, amount, totalConsumed);
    err := if refusal.None? then None else Some(AliasRefuses(refusal.value));
  }

  /** Where the remainder goes, if there is any. */
  method ReturnAddress(wallet: Wallet, consumedOutputs: O, remainder: Balances) returns (address: Option<Address>)
    requires wallet.Valid()
    modifies wallet.addressManager
    ensures wallet.Valid() && (address.Some? <==> remainder != map[])
    ensures IsReturnAddress(address, wallet.reusableAddress, wallet.addressManager.seed,
                            old(wallet.addressManager.State()), consumedOutputs)
  {
    address := None;
    if |remainder| != 0 {
      var chosen := wallet.ChooseRemainderAddress(consumedOutputs, ADDRESS_EMPTY);
      address := Some(chosen);
    }
  }

  method DepositInputs(consumedOutputs: O, alias: Output) returns (inputs: seq<OutputID>)
    ensures Ascending(inputs) && Elements(inputs) == InputIDs(consumedOutputs, alias)
    ensures |inputs| == |InputIDs(consumedOutputs, alias)|
  {
    var fromConsumed := BuildInputs(consumedOutputs);
    InsertKeepsOrder(fromConsumed, alias.ledgerOutput.id);
    InsertElements(fromConsumed, alias.ledgerOutput.id);
    inputs := Insert(fromConsumed, alias.ledgerOutput.id);
    DistinctCount(inputs);
  }

  // ---------------------------------------------------------------- what can go wrong

  /** A collection may take as many outputs as fit one transaction. The alias comes on top, and then one is
      too many. */
  lemma FullCollectionPanicsIff(consumed: O, alias: Output, amount: Balances)
    requires IDsDiffer(consumed) && |consumed| <= MAX_INPUT_COUNT
    requires forall k | k in consumed :: consumed[k].ledgerOutput.id != alias.ledgerOutput.id
    requires IsAboveDustThreshold(Plus(alias.ledgerOutput.balances, amount))
    ensures Refusal(consumed, alias, amount) == if |consumed| == MAX_INPUT_COUNT then Some(InputsPanic) else None
  {
    IDCount(consumed);
  }

  ghost predicate IDsDiffer(consumed: O) {
    forall j, k | j in consumed && k in consumed && consumed[j].ledgerOutput.id == consumed[k].ledgerOutput.id :: j == k
  }

  lemma {:induction false} IDCount(consumed: O)
    requires IDsDiffer(consumed)
    ensures |IDsOf(consumed)| == |consumed|
    decreases |consumed|
  {
    if consumed == map[] {
      assert IDsOf(consumed) == {};
    } else {
      var k :| k in consumed;
      var rest := consumed - {k};
      assert rest.Keys == consumed.Keys - {k};
      IDCount(rest);
      IDsRemove(consumed, k);
    }
  }

  lemma IDsRemove(consumed: O, k: Key)
    requires IDsDiffer(consumed) && k in consumed
    ensures IDsOf(consumed) == IDsOf(consumed - {k}) + {consumed[k].ledgerOutput.id}
    ensures consumed[k].ledgerOutput.id !in IDsOf(consumed - {k})
  {
    var rest := consumed - {k};
    forall id ensures id in IDsOf(consumed) <==> id in IDsOf(rest) || id == consumed[k].ledgerOutput.id {
      if id in IDsOf(consumed) {
        var j :| j in consumed && consumed[j].ledgerOutput.id == id;
        assert j == k || j in rest;
      }
    }
  }

  /** A deposit of 127 coins that the wallet holds one by one never comes about, although it has the funds. */
  lemma AllCoinsPanic(seed: Seed) returns (payable: O, amount: Balances, alias: Output)
    ensures |payable| == MAX_INPUT_COUNT && !CannotPay(payable, amount)
    ensures alias.ledgerOutput.AliasOutput? && IsAboveDustThreshold(alias.ledgerOutput.balances)
    ensures forall deposit, err, consumed | IsDepositOutcome(deposit, err, consumed, alias, amount, payable) ::
              err == Some(InputsPanic)
  {
    var a := seed.AddressOf(0);
    payable, amount := Coins(seed, MAX_INPUT_COUNT), map[ColorZIPP := MAX_INPUT_COUNT];
    alias := Output(a, AliasOutput(MAX_INPUT_COUNT, map[ColorZIPP := DUST_THRESHOLD_ALIAS_OUTPUT_ZIPP], a.addressBytes,
                                   a.addressBytes), true);
    AllCoinsPay(seed);
    forall deposit, err, consumed | IsDepositOutcome(deposit, err, consumed, alias, amount, payable)
      ensures err == Some(InputsPanic)
    {
      PaidByAllCoins(seed, consumed, amount, alias);
    }
  }

  lemma AllCoinsPay(seed: Seed)
    ensures |Coins(seed, MAX_INPUT_COUNT)| == MAX_INPUT_COUNT
    ensures !CannotPay(Coins(seed, MAX_INPUT_COUNT), map[ColorZIPP := MAX_INPUT_COUNT])
  {
    CoinsWorth(seed, MAX_INPUT_COUNT);
    EnoughToPay(Coins(seed, MAX_INPUT_COUNT), MAX_INPUT_COUNT);
  }

  lemma EnoughToPay(payable: O, n: nat)
    requires |payable| > 0 && Get(Funds(payable), ColorZIPP) == n
    ensures !CannotPay(payable, map[ColorZIPP := n])
  {
  }

  lemma PaidByAllCoins(seed: Seed, consumed: O, amount: Balances, alias: Output)
    requires IsPayment(consumed, Coins(seed, MAX_INPUT_COUNT), amount) && amount == map[ColorZIPP := MAX_INPUT_COUNT]
    requires alias.ledgerOutput.id == MAX_INPUT_COUNT && IsAboveDustThreshold(alias.ledgerOutput.balances)
    ensures Refusal(consumed, alias, amount) == Some(InputsPanic)
  {
    PartOfCoins(seed, consumed);
    assert amount[ColorZIPP] <= Get(Funds(consumed), ColorZIPP);
    FullCollectionPanicsIff(consumed, alias, amount);
  }

  lemma PartOfCoins(seed: Seed, consumed: O)
    requires forall k | k in consumed ::
               k in Coins(seed, MAX_INPUT_COUNT) && consumed[k] == Coins(seed, MAX_INPUT_COUNT)[k]
    ensures Get(Funds(consumed), ColorZIPP) == |consumed| && IDsDiffer(consumed)
    ensures forall k | k in consumed :: consumed[k].ledgerOutput.id < MAX_INPUT_COUNT
  {
    CoinsAddUp(consumed);
  }

  /** Marking the alias's address after the transaction burns the remainder exactly if that is where it went. */
  lemma RemainderSurvivesIff(s: AddressState, consumed: set<nat>, aliasIndex: nat)
    requires Exact(s) && Within(consumed, s.last)
    ensures ToIndex(s, consumed) !in s.spent + consumed + {aliasIndex} <==> aliasIndex != ToIndex(s, consumed)
  {
    ToIndexIsSafe(s, consumed);
  }

  /** The alias is on the first unspent address, and the deposit is paid from another one. */
  lemma RemainderBurned() returns (s: AddressState, consumed: set<nat>, aliasIndex: nat)
    ensures Exact(s) && Within(consumed, s.last) && aliasIndex <= s.last && aliasIndex !in s.spent
    ensures ToIndex(s, consumed) in s.spent + consumed + {aliasIndex}
  {
    s, consumed, aliasIndex := AddressState(1, {}, 0, 1), {1}, 0;
  }
}

/** The wallet: funding, building, marking and handing over transactions. */
module Wallets {
  import opened Collections
  import opened Balances
  import opened BalanceCheck
  import opened BalanceChecker
  import opened UnlockChecker
  import opened Addresses
  import opened AddressManagement
  import opened AddressChoice
  import opened Outputs
  import opened OutputManagement
  import opened Funding
  import opened FundingTheorems
  import opened Availability
  import opened Transactions
  import opened Conservation
  import opened Unlocking
  import opened History

  datatype WalletError =
    | NoDestination
    | NotEnoughFunds
    | ConsolidateFirst
    | NothingToConsolidate
    | OnlyOneOutput
    | NoConditionalFunds
    | ConnectorFailed
    | PledgeIDsUnknown
    | Malformed
    | Panicked // no error is returned: the program stops
    | Rejected
    | NotSent
    | NotConfirmed

  /** How the world reacts while one transaction is built and sent: the pledge identifiers are available, the clock
      shows a timestamp when it is sealed, the bytes can be read back, its signatures verify, the node takes the
      transaction, and it confirms it in time. */
  datatype Response =
    Response(pledgeIDs: bool, timestamp: Time, readsBack: bool, signatures: bool, isTaken: bool, confirms: bool)
  {
    /** The world refuses nothing. */
    predicate IsWilling() {
      pledgeIDs && readsBack && signatures && isTaken && confirms
    }
  }

  /** The world's part in a failure. */
  predicate IsRefusal(err: WalletError, response: Response) {
    match err
    case PledgeIDsUnknown => !response.pledgeIDs
    case Malformed => !response.readsBack
    case Rejected => !response.signatures
    case NotSent => !response.isTaken
    case NotConfirmed => !response.confirms
    case _ => false
  }

  /** The node behind the wallet. Its answers are arguments of the wallet's methods; it keeps what it was handed. */
  class Connector {
    var sent: seq<Sent>

    constructor ()
      ensures sent == []
    {
      sent := [];
    }

    method SendTransaction(s: Sent)
      modifies this
      ensures sent == old(sent) + [s]
    {
      sent := sent + [s];
    }
  }

  /** The addresses have been marked. If they all existed already, the wallet gains an address only if none
      was left. */
  ghost predicate IsMarked(s: AddressState, t: AddressState, addresses: set<Address>) {
    && t.spent == s.spent + IndexesOf(addresses)
    && (Within(IndexesOf(addresses), s.last) ==> t.last == Max(s.last, LeastFrom(t.spent, 0)))
  }

  lemma NothingMarked(s: AddressState)
    requires Exact(s)
    ensures IsMarked(s, s, {})
  {
    assert IndexesOf({}) == {};
    LeastIsUnique(s.spent, 0, s.first);
  }

  lemma MarkedOneMore(s: AddressState, t: AddressState, addresses: set<Address>, a: Address)
    requires Exact(s) && Exact(t) && IsMarked(s, t, addresses)
    ensures IsMarked(s, MarkSpent(t, a.index), addresses + {a})
  {
    assert IndexesOf(addresses + {a}) == IndexesOf(addresses) + {a.index};
    MarkKeepsExact(t, a.index);
    LeastGrows(t.spent, a.index);
  }

  lemma LeastGrows(spent: set<nat>, i: nat)
    ensures LeastFrom(spent, 0) <= LeastFrom(spent + {i}, 0)
  {
    var least := LeastFrom(spent + {i}, 0);
    assert least !in spent;
  }

  /** Choosing an address and then marking those that were spent from is one move. */
  lemma MarkedIsMoved(s: AddressState, t: AddressState, u: AddressState, addresses: set<Address>)
    requires Exact(s) && Within(IndexesOf(addresses), s.last)
    requires t == Touch(s, ToIndex(s, IndexesOf(addresses))) && Exact(u) && IsMarked(t, u, addresses)
    ensures u == Moved(s, IndexesOf(addresses))
  {
    ToIndexIsSafe(s, IndexesOf(addresses));
    ExactIsCanonical(u, Moved(s, IndexesOf(addresses)));
  }

  /** Value outputs as they are stored, none of them spent. */
  ghost predicate IsTakeable(consumed: O, ledger: Ledger) {
    IsUnspentPart(consumed, ledger) && forall k | k in consumed :: IsValueOutput(consumed[k].ledgerOutput)
  }

  /** Every output can be unlocked at the time with the key pair of the address that it is stored under. */
  ghost predicate AreUnlockable(consumed: O, seed: Seed, timestamp: Time) {
    forall k | k in consumed ::
      && IsValueOutput(consumed[k].ledgerOutput)
      && Unlocks(consumed[k].ledgerOutput, seed.AddressOf(k.address.index).addressBytes, timestamp)
  }

  /** No output is time-locked or belongs to somebody else at the time. */
  ghost predicate AreOpen(consumed: O, timestamp: Time) {
    forall k | k in consumed :: CanUnlock(k, consumed[k].ledgerOutput, timestamp)
  }

  /** Plain outputs are listed under the address that they are locked to. */
  ghost predicate AreListedByOwner(consumed: O) {
    forall k | k in consumed ::
      var o := consumed[k].ledgerOutput;
      o.SigLockedSingleOutput? || o.SigLockedColoredOutput? ==> o.address == k.address.addressBytes
  }

  /** The addresses that the outputs come from are addresses of the seed. */
  ghost predicate AreOwned(consumed: O, seed: Seed) {
    forall k | k in consumed :: k.address == seed.AddressOf(k.address.index)
  }

  /** For value outputs on own addresses, being unlockable is a matter of their locks alone. */
  lemma UnlockableIffOpen(consumed: O, seed: Seed, timestamp: Time)
    requires AreOwned(consumed, seed) && AreListedByOwner(consumed)
    requires forall k | k in consumed :: IsValueOutput(consumed[k].ledgerOutput)
    ensures AreUnlockable(consumed, seed, timestamp) <==> AreOpen(consumed, timestamp)
  {
    if AreUnlockable(consumed, seed, timestamp) {
      forall k | k in consumed ensures CanUnlock(k, consumed[k].ledgerOutput, timestamp) {
        assert k.address == seed.AddressOf(k.address.index);
      }
    }
  }

  lemma OpenIsUnlockable(consumed: O, seed: Seed, timestamp: Time)
    requires AreOpen(consumed, timestamp) && forall k | k in consumed :: IsValueOutput(consumed[k].ledgerOutput)
    ensures AreOwned(consumed, seed) && AreListedByOwner(consumed) ==> AreUnlockable(consumed, seed, timestamp)
  {
    if AreOwned(consumed, seed) && AreListedByOwner(consumed) {
      UnlockableIffOpen(consumed, seed, timestamp);
    }
  }

  /** Marking other outputs leaves these unspent. */
  lemma StillUnspent(consumed: O, ledger: Ledger, marked: set<Key>)
    requires IsTakeable(consumed, ledger) && consumed.Keys !! marked
    ensures IsTakeable(consumed, MarkedSpent(ledger, marked))
  {
  }

  function IndexesOf(addresses: set<Address>): set<nat> {
    set a | a in addresses :: a.index
  }

  /** The addresses belong to the wallet. */
  ghost predicate AreOwn(addresses: seq<Address>, seed: Seed, last: nat) {
    forall a | a in addresses :: a == seed.AddressOf(a.index) && a.index <= last
  }

  /** All consumed addresses belong to the wallet. */
  ghost predicate AreKnown(consumed: O, seed: Seed, last: nat) {
    forall a | a in AddressesIn(consumed) :: a == seed.AddressOf(a.index) && a.index <= last
  }

  class Wallet {
    const addressManager: AddressManager
    const outputManager: OutputManager
    const connector: Connector
    const reusableAddress: bool

    // everything that happened to the store and at the connector
    ghost var run: Run

    ghost predicate Valid()
      reads this, addressManager, outputManager, outputManager.records, connector
    {
      && outputManager.addressManager == addressManager
      && addressManager.Valid()
      && outputManager.Valid()
      && run.stateless == outputManager.optsStateless
      && outputManager.ledger == LedgerOf(run)
      && connector.sent == SentIn(run.events)
    }

    constructor (am: AddressManager, om: OutputManager, reusableAddress: bool, ghost run: Run)
      requires am.Valid() && om.Valid() && om.addressManager == am
      requires run.stateless == om.optsStateless && om.ledger == LedgerOf(run) && SentIn(run.events) == []
      ensures Valid() && addressManager == am && outputManager == om && fresh(connector)
      ensures this.reusableAddress == reusableAddress && this.run == run && connector.sent == []
    {
      this.addressManager := am;
      this.outputManager := om;
      this.connector := new Connector();
      this.reusableAddress := reusableAddress;
      this.run := run;
    }

    // -------------------------------------------------------------- addresses

    method ReceiveAddress() returns (address: Address)
      requires addressManager.Valid()
      modifies addressManager
      ensures addressManager.State() == old(addressManager.State())
      ensures address == addressManager.seed.AddressOf(addressManager.lastUnspentAddressIndex)
    {
      address := addressManager.LastUnspentAddress();
    }

    method RemainderAddress() returns (address: Address)
      requires addressManager.Valid()
      modifies addressManager
      ensures addressManager.State() == old(addressManager.State())
      ensures address == addressManager.seed.AddressOf(addressManager.firstUnspentAddressIndex)
    {
      address := addressManager.FirstUnspentAddress();
    }

    /** What the choice of an address promises if no address was given and addresses are not reused: an unspent address
        of the wallet that the consumed outputs do not come from. */
    ghost predicate IsSafeChoice(chosen: Address, consumed: O)
      reads addressManager
    {
      && chosen == addressManager.seed.AddressOf(chosen.index)
      && chosen.index <= addressManager.lastAddressIndex
      && chosen.index !in addressManager.State().spent
      && chosen !in AddressesIn(consumed)
    }

    /** The address that the case distinction leads to, and the address book once it has been asked for. */
    ghost predicate IsChosen(chosen: Address, s: AddressState, consumed: O)
      reads addressManager
    {
      && chosen == addressManager.seed.AddressOf(ToIndex(s, IndexesOf(AddressesIn(consumed))))
      && addressManager.State() == Touch(s, ToIndex(s, IndexesOf(AddressesIn(consumed))))
    }

    lemma ChosenIsSafe(chosen: Address, s: AddressState, consumed: O)
      requires Exact(s) && AreKnown(consumed, addressManager.seed, s.last) && IsChosen(chosen, s, consumed)
      ensures IsSafeChoice(chosen, consumed)
    {
      KnownIndexes(consumed, addressManager.seed, s.last);
      ToIndexIsSafe(s, IndexesOf(AddressesIn(consumed)));
    }

    /** Where the remainder goes, depending on the configuration and on where we are spending from. */
    method ChooseRemainderAddress(consumedOutputs: O, optionsRemainder: Address) returns (remainder: Address)
      requires addressManager.Valid()
      modifies addressManager
      ensures addressManager.Valid() && addressManager.State().spent == old(addressManager.State()).spent
      ensures addressManager.lastAddressIndex >= old(addressManager.lastAddressIndex)
      ensures old(Exact(addressManager.State())) ==> Exact(addressManager.State())
      ensures optionsRemainder != ADDRESS_EMPTY ==> remainder == optionsRemainder
      ensures optionsRemainder == ADDRESS_EMPTY && reusableAddress ==>
                remainder == addressManager.seed.AddressOf(addressManager.firstUnspentAddressIndex)
      ensures optionsRemainder == ADDRESS_EMPTY && !reusableAddress && old(Exact(addressManager.State())) &&
              AreKnown(consumedOutputs, addressManager.seed, old(addressManager.lastAddressIndex)) ==>
                IsChosen(remainder, old(addressManager.State()), consumedOutputs) &&
                IsSafeChoice(remainder, consumedOutputs)
    {
      if optionsRemainder == ADDRESS_EMPTY {
        if reusableAddress {
          remainder := RemainderAddress();
          return;
        }
        remainder := ChooseUnburned(consumedOutputs);
        if old(Exact(addressManager.State())) &&
            AreKnown(consumedOutputs, addressManager.seed, old(addressManager.lastAddressIndex)) {
          ChosenIsSafe(remainder, old(addressManager.State()), consumedOutputs);
        }
        return;
      }
      return optionsRemainder;
    }

    /** Where consolidated or claimed funds go. */
    method ChooseToAddress(consumedOutputs: O, optionsToAddress: Address) returns (toAddress: Address)
      requires addressManager.Valid()
      modifies addressManager
      ensures addressManager.Valid() && addressManager.State().spent == old(addressManager.State()).spent
      ensures addressManager.lastAddressIndex >= old(addressManager.lastAddressIndex)
      ensures old(Exact(addressManager.State())) ==> Exact(addressManager.State())
      ensures optionsToAddress != ADDRESS_EMPTY ==> toAddress == optionsToAddress
      ensures optionsToAddress == ADDRESS_EMPTY && reusableAddress ==>
                toAddress == addressManager.seed.AddressOf(addressManager.lastUnspentAddressIndex)
      ensures optionsToAddress == ADDRESS_EMPTY && !reusableAddress && old(Exact(addressManager.State())) &&
              AreKnown(consumedOutputs, addressManager.seed, old(addressManager.lastAddressIndex)) ==>
                IsChosen(toAddress, old(addressManager.State()), consumedOutputs)
    {
      if optionsToAddress == ADDRESS_EMPTY {
        if reusableAddress {
          toAddress := ReceiveAddress();
          return;
        }
        toAddress := ChooseUnburned(consumedOutputs);
        return;
      }
      return optionsToAddress;
    }

    /** The case distinction that both choices share. */
    method ChooseUnburned(consumedOutputs: O) returns (address: Address)
      requires addressManager.Valid()
      modifies addressManager
      ensures addressManager.Valid() && addressManager.State().spent == old(addressManager.State()).spent
      ensures addressManager.lastAddressIndex >= old(addressManager.lastAddressIndex)
      ensures old(Exact(addressManager.State())) ==> Exact(addressManager.State())
      ensures old(Exact(addressManager.State())) &&
              AreKnown(consumedOutputs, addressManager.seed, old(addressManager.lastAddressIndex)) ==>
                IsChosen(address, old(addressManager.State()), consumedOutputs)
    {
      if AreKnown(consumedOutputs, addressManager.seed, addressManager.lastAddressIndex) {
        KnownIndexes(consumedOutputs, addressManager.seed, addressManager.lastAddressIndex);
      }
      var remainderAddress := RemainderAddress();
      var receiveAddress := ReceiveAddress();
      var spendFromRemainderAddress := remainderAddress in AddressesIn(consumedOutputs);
      var spendFromReceiveAddress := receiveAddress in AddressesIn(consumedOutputs);
      if spendFromRemainderAddress && spendFromReceiveAddress {
        // both candidates are spent from
        address := addressManager.NewAddress();
        return;
      }
      if spendFromRemainderAddress && !spendFromReceiveAddress {
        // only the first one is
        return receiveAddress;
      }
      // the first one is untouched
      return remainderAddress;
    }

    // -------------------------------------------------------------- marking

    /** Remembers what a transaction uses up: its outputs, and without address reuse also their addresses. */
    method MarkOutputsAndAddressesSpent(consumedOutputs: O)
      requires addressManager.Valid() && outputManager.Valid()
      modifies addressManager, outputManager`ledger, outputManager.records
      ensures outputManager.records == old(outputManager.records)
      ensures addressManager.Valid() && outputManager.Valid()
      ensures addressManager.lastAddressIndex >= old(addressManager.lastAddressIndex)
      ensures outputManager.ledger == MarkedSpent(old(outputManager.ledger), consumedOutputs.Keys)
      ensures reusableAddress ==> addressManager.State() == old(addressManager.State())
      ensures old(Exact(addressManager.State())) ==> Exact(addressManager.State())
      ensures old(Exact(addressManager.State())) && !reusableAddress ==>
                IsMarked(old(addressManager.State()), addressManager.State(), AddressesIn(consumedOutputs))
    {
      // first the outputs
      ghost var ledger := outputManager.ledger;
      var todo := consumedOutputs.Keys;
      assert MarkedSpent(ledger, {}) == ledger;
      while todo != {}
        invariant todo <= consumedOutputs.Keys
        invariant outputManager.Valid() && addressManager.lastAddressIndex == old(addressManager.lastAddressIndex)
        invariant outputManager.ledger == MarkedSpent(ledger, consumedOutputs.Keys - todo)
        invariant addressManager.State() == old(addressManager.State())
      {
        var k :| k in todo;
        outputManager.MarkOutputSpent(k);
        MarkOneMore(ledger, consumedOutputs.Keys - todo, k);
        assert consumedOutputs.Keys - (todo - {k}) == consumedOutputs.Keys - todo + {k};
        todo := todo - {k};
      }
      assert consumedOutputs.Keys - todo == consumedOutputs.Keys;

      // then the addresses, unless they are reused
      if !reusableAddress {
        MarkAddressesSpent(AddressesIn(consumedOutputs));
      }
    }

    method MarkAddressesSpent(addresses: set<Address>)
      requires addressManager.Valid()
      modifies addressManager
      ensures addressManager.Valid() && addressManager.lastAddressIndex >= old(addressManager.lastAddressIndex)
      ensures old(Exact(addressManager.State())) ==>
                Exact(addressManager.State()) &&
                IsMarked(old(addressManager.State()), addressManager.State(), addresses)
    {
      if Exact(addressManager.State()) {
        NothingMarked(addressManager.State());
      }
      var left := addresses;
      assert addresses - left == {};
      while left != {}
        invariant left <= addresses && addressManager.Valid()
        invariant addressManager.lastAddressIndex >= old(addressManager.lastAddressIndex)
        invariant old(Exact(addressManager.State())) ==>
                    && Exact(addressManager.State())
                    && IsMarked(old(addressManager.State()), addressManager.State(), addresses - left)
      {
        var a :| a in left;
        if old(Exact(addressManager.State())) {
          MarkedOneMore(old(addressManager.State()), addressManager.State(), addresses - left, a);
        }
        addressManager.MarkAddressSpent(a.index);
        assert addresses - (left - {a}) == addresses - left + {a};
        left := left - {a};
      }
      assert addresses - left == addresses;
    }

    // -------------------------------------------------------------- refreshing and collecting

    /** Asks the node for news. */
    method Refresh(answer: Option<Ledger>) returns (ok: bool)
      requires Valid() && (answer.Some? ==> WellKeyed(answer.value))
      modifies this, addressManager, outputManager
      ensures Valid() && fresh(outputManager.records - old(outputManager.records))
      ensures ok <==> answer.Some?
      ensures run == Asked(old(run), answer)
      ensures addressManager.lastAddressIndex == old(addressManager.lastAddressIndex)
      ensures addressManager.State().spent == old(addressManager.State()).spent
      ensures old(Exact(addressManager.State())) ==> addressManager.State() == old(addressManager.State())
    {
      ok := outputManager.Refresh(answer);
      run := Asked(run, answer);
    }

    /** The addresses from index 0 up to the last one. */
    ghost predicate IsWholeWallet(addresses: seq<Address>)
      reads addressManager
    {
      && |addresses| == addressManager.lastAddressIndex + 1
      && (forall i | 0 <= i < |addresses| :: addresses[i] == addressManager.seed.AddressOf(i))
    }

    /** Collects unspent value outputs on the given addresses (on all addresses if none are given) until they fund the
        requirement. A failing refresh is ignored. */
    method CollectOutputsForFunding(fundingBalance: Balances, includePending: bool, addresses: seq<Address>,
                                    answer: Option<Ledger>, now: Time)
      returns (result: FundingResult, ghost asked: seq<Address>, ghost order: seq<Key>)
      requires Valid() && (answer.Some? ==> WellKeyed(answer.value))
      modifies this, addressManager, outputManager
      ensures Valid() && fresh(outputManager.records - old(outputManager.records))
      ensures connector.sent == old(connector.sent)
      ensures run == Asked(old(run), answer)
      ensures addressManager.lastAddressIndex == old(addressManager.lastAddressIndex)
      ensures addressManager.State().spent == old(addressManager.State()).spent
      ensures old(Exact(addressManager.State())) ==> addressManager.State() == old(addressManager.State())
      ensures addresses != [] ==> asked == addresses
      ensures addresses == [] ==> IsWholeWallet(asked)
      ensures IsScan(result, order, asked, outputManager.ledger, includePending, fundingBalance, now)
    {
      var _ := Refresh(answer);
      result, asked, order := CollectStored(fundingBalance, includePending, addresses, now);
    }

    /** The collection itself, after the refresh. */
    method CollectStored(fundingBalance: Balances, includePending: bool, addresses: seq<Address>, now: Time)
      returns (result: FundingResult, ghost asked: seq<Address>, ghost order: seq<Key>)
      requires Valid()
      modifies addressManager
      ensures Valid()
      ensures addressManager.lastAddressIndex == old(addressManager.lastAddressIndex)
      ensures addressManager.State().spent == old(addressManager.State()).spent
      ensures old(Exact(addressManager.State())) ==> addressManager.State() == old(addressManager.State())
      ensures addresses != [] ==> asked == addresses
      ensures addresses == [] ==> IsWholeWallet(asked)
      ensures IsScan(result, order, asked, outputManager.ledger, includePending, fundingBalance, now)
    {
      var list := addresses;
      if |list| == 0 {
        list := addressManager.Addresses();
      }
      var unspent;
      unspent, asked := outputManager.GetOutputs(includePending, list);
      var unspentOutputs := ValueOutputsOnly(unspent);
      result, order := Scan(list, unspentOutputs, fundingBalance, now);
    }

    // -------------------------------------------------------------- sealing and sending

    /** The common end of every transfer: inputs, unlock blocks, the checks, marking, and the hand-over. Whatever the
        node does with the transaction, its inputs stay marked. */
    method SealAndSend(consumedOutputs: O, outputs: seq<TxOutput>, response: Response)
      returns (tx: Option<Transaction>, err: Option<WalletError>, ghost handed: seq<Sent>)
      requires Valid() && IsTakeable(consumedOutputs, outputManager.ledger)
      modifies this, addressManager, outputManager`ledger, outputManager.records, connector
      ensures outputManager.records == old(outputManager.records)
      ensures Valid() && addressManager.lastAddressIndex >= old(addressManager.lastAddressIndex)
      ensures connector.sent == old(connector.sent) + handed
      ensures handed == [] || (|handed| == 1 && IsHandover(handed[0], consumedOutputs, outputs))
      ensures outputManager.ledger == if handed == [] then old(outputManager.ledger)
                                      else MarkedSpent(old(outputManager.ledger), consumedOutputs.Keys)
      ensures handed == [] ==> tx.None? && err.Some? && addressManager.State() == old(addressManager.State())
      ensures tx.Some? ==> handed != [] && handed[0].tx == tx.value
      ensures err.None? ==> tx.Some?
      ensures err.Some? ==> MayFailWith(consumedOutputs, outputs, err.value, response, addressManager.seed)
      ensures err.Some? && handed != [] ==> IsRefusal(err.value, response)
      ensures handed != [] && UniqueIDs(consumedOutputs) ==>
                AreUnlockable(consumedOutputs, addressManager.seed, response.timestamp)
      ensures old(Exact(addressManager.State())) ==> Exact(addressManager.State())
      ensures old(Exact(addressManager.State())) && !reusableAddress && handed != [] ==>
                IsMarked(old(addressManager.State()), addressManager.State(), AddressesIn(consumedOutputs))
    {
      var sealed, inputsInOrder;
      ghost var keys;
      sealed, inputsInOrder, keys := Seal(consumedOutputs, outputs);

      var objection := Check(Sent(sealed, consumedOutputs), keys, inputsInOrder, addressManager.seed, response);
      if objection.Some? {
        return None, objection, [];
      }
      handed := [Sent(sealed, consumedOutputs)];
      tx, err := HandOver(Sent(sealed, consumedOutputs), response);
    }

    /** Marks what a checked transaction consumes, and only then hands it over. */
    method HandOver(s: Sent, response: Response) returns (tx: Option<Transaction>, err: Option<WalletError>)
      requires Valid() && IsTakeable(s.consumed, outputManager.ledger) && IsProper(s)
      modifies this, addressManager, outputManager`ledger, outputManager.records, connector
      ensures outputManager.records == old(outputManager.records)
      ensures Valid() && addressManager.lastAddressIndex >= old(addressManager.lastAddressIndex)
      ensures connector.sent == old(connector.sent) + [s]
      ensures outputManager.ledger == MarkedSpent(old(outputManager.ledger), s.consumed.Keys)
      ensures tx == if response.isTaken then Some(s.tx) else None
      ensures err.None? <==> response.isTaken && response.confirms
      ensures err.Some? ==> IsRefusal(err.value, response)
      ensures old(Exact(addressManager.State())) ==> Exact(addressManager.State())
      ensures old(Exact(addressManager.State())) && !reusableAddress ==>
                IsMarked(old(addressManager.State()), addressManager.State(), AddressesIn(s.consumed))
    {
      Commit(s, HandedTo(run, s));
      tx := if response.isTaken then Some(s.tx) else None;
      err := if !response.isTaken then Some(NotSent) else if response.confirms then None else Some(NotConfirmed);
    }

    /** Marks and sends; the rest of the run is known beforehand. */
    method Commit(s: Sent, ghost next: Run)
      requires Valid()
      requires next.stateless == run.stateless && LedgerOf(next) == MarkedSpent(LedgerOf(run), s.consumed.Keys)
      requires SentIn(next.events) == SentIn(run.events) + [s]
      modifies this, addressManager, outputManager`ledger, outputManager.records, connector
      ensures outputManager.records == old(outputManager.records)
      ensures Valid() && addressManager.lastAddressIndex >= old(addressManager.lastAddressIndex)
      ensures connector.sent == old(connector.sent) + [s]
      ensures outputManager.ledger == MarkedSpent(old(outputManager.ledger), s.consumed.Keys)
      ensures old(Exact(addressManager.State())) ==> Exact(addressManager.State())
      ensures old(Exact(addressManager.State())) && !reusableAddress ==>
                IsMarked(old(addressManager.State()), addressManager.State(), AddressesIn(s.consumed))
    {
      run := next;
      MarkOutputsAndAddressesSpent(s.consumed);
      Send(s);
    }

    /** Sending leaves the store and the address book alone. */
    method Send(s: Sent)
      requires addressManager.Valid() && outputManager.Valid()
      modifies connector
      ensures addressManager.Valid() && outputManager.Valid()
      ensures connector.sent == old(connector.sent) + [s]
    {
      connector.SendTransaction(s);
    }

    /** Inputs, outputs and unlock blocks, before anything is checked. */
    method Seal(consumedOutputs: O, outputs: seq<TxOutput>)
      returns (sealed: Transaction, inputsInOrder: seq<LedgerOutput>, ghost keys: seq<Key>)
      requires Valid() && IsTakeable(consumedOutputs, outputManager.ledger)
      ensures sealed.outputs == outputs
      ensures IsSealed(Sent(sealed, consumedOutputs), keys, inputsInOrder)
      ensures 1 <= |consumedOutputs| <= MAX_INPUT_COUNT ==> HasLegalSize(sealed)
    {
      RunIsWellKeyed(run.events, run.stateless);
      var inputs := BuildInputs(consumedOutputs);
      var outputsByID := OutputsByID(consumedOutputs);
      InputsAreKnown(consumedOutputs, outputManager.ledger, inputs, outputsByID);
      var unlockBlocks, inputsAsOutputsInOrder := BuildUnlockBlocks(inputs, outputsByID);
      sealed := Transaction(inputs, outputs, unlockBlocks);
      InputCount(consumedOutputs, inputs);
      inputsInOrder := inputsAsOutputsInOrder;
      keys := KeysAlong(inputs, outputsByID);
      KeysAreConsumed(Sent(sealed, consumedOutputs), outputManager.ledger, outputsByID);
    }

    // -------------------------------------------------------------- transfers

    /** A transfer to the given destinations. */
    method SendFunds(options: SendFundsOptions, answer: Option<Ledger>, now: Time, response: Response)
      returns (tx: Option<Transaction>, err: Option<WalletError>, ghost handed: seq<Sent>, ghost asked: seq<Address>,
               ghost consumed: O, ghost remainder: Address)
      requires Valid() && (answer.Some? ==> WellKeyed(answer.value))
      modifies this, addressManager, outputManager, outputManager.records, connector
      ensures Valid() && fresh(outputManager.records - old(outputManager.records))
      ensures connector.sent == old(connector.sent) + handed
      ensures handed == [] || (|handed| == 1 && IsProper(handed[0]) && handed[0].consumed == consumed)
      ensures tx.Some? ==> handed != [] && handed[0].tx == tx.value
      ensures err.None? ==> tx.Some?
      // every failure has a reason, in the wallet or in the world
      ensures err.Some? && (options.sourceAddresses == [] || Distinct(options.sourceAddresses)) &&
              ProperDestinations(options.destinations) ==>
                || IsRefusal(err.value, response)
                || (handed == [] && IsShortage(err.value, options, asked, outputManager.ledger, now))
                || (handed == [] && IsFlaw(err.value) &&
                    !(IsBuildable(consumed, options, remainder) &&
                      AreUnlockable(consumed, addressManager.seed, response.timestamp)))
      // what is collected can be unlocked at the time of the collection
      ensures AreOwned(consumed, addressManager.seed) && AreListedByOwner(consumed) ==>
                AreUnlockable(consumed, addressManager.seed, now)
      ensures handed != [] && UniqueIDs(consumed) ==>
                AreUnlockable(consumed, addressManager.seed, response.timestamp)
      ensures options.sourceAddresses != [] && handed != [] ==> asked == options.sourceAddresses
      ensures options.sourceAddresses == [] && handed != [] ==> Distinct(asked)
      ensures old(Exact(addressManager.State())) ==> Exact(addressManager.State())
      // the consumed outputs pay for the destinations, and the outputs are the destinations and the remainder
      ensures handed != [] && Distinct(asked) && ProperDestinations(options.destinations) && Fits64(Funds(consumed)) ==>
                IsPaidOut(consumed, handed[0].tx.outputs, options, remainder)
      ensures handed != [] && Distinct(asked) && ProperDestinations(options.destinations) && IsOrdinary(consumed) ==>
                IsBuildable(consumed, options, remainder)
      // the remainder goes to an address that this transaction does not burn
      ensures handed != [] && options.remainderAddress == ADDRESS_EMPTY && !reusableAddress &&
              old(Exact(addressManager.State())) &&
              AreOwn(options.sourceAddresses, addressManager.seed, old(addressManager.lastAddressIndex)) ==>
                IsSafeChoice(remainder, consumed)
    {
      var consumedOutputs;
      consumedOutputs, err, asked := Gather(options, answer, now, response);
      tx, handed, consumed, remainder := None, [], map[], ADDRESS_EMPTY;
      if consumedOutputs.Some? {
        consumed := consumedOutputs.value;
        OpenIsUnlockable(consumed, addressManager.seed, now);
        tx, err, handed, remainder := Transfer(options, consumedOutputs.value, response);
      }
    }

    /** The beginning of a transfer: how much is needed, which outputs provide it, and who gets the mana. */
    method Gather(options: SendFundsOptions, answer: Option<Ledger>, now: Time, response: Response)
      returns (consumedOutputs: Option<O>, err: Option<WalletError>, ghost asked: seq<Address>)
      requires Valid() && (answer.Some? ==> WellKeyed(answer.value))
      modifies this, addressManager, outputManager
      ensures Valid() && fresh(outputManager.records - old(outputManager.records))
      ensures connector.sent == old(connector.sent)
      ensures consumedOutputs.None? ==> err.Some?
      ensures old(Exact(addressManager.State())) ==> addressManager.State() == old(addressManager.State())
      ensures consumedOutputs.Some? ==>
                IsTakeable(consumedOutputs.value, outputManager.ledger) && AreOpen(consumedOutputs.value, now)
      ensures consumedOutputs.Some? && options.sourceAddresses != [] ==> asked == options.sourceAddresses
      ensures consumedOutputs.Some? && options.sourceAddresses == [] ==> Distinct(asked)
      ensures addressManager.lastAddressIndex == old(addressManager.lastAddressIndex)
      ensures consumedOutputs.Some? &&
              AreOwn(options.sourceAddresses, addressManager.seed, addressManager.lastAddressIndex) ==>
                AreKnown(consumedOutputs.value, addressManager.seed, addressManager.lastAddressIndex)
      ensures consumedOutputs.Some? && Distinct(asked) && ProperDestinations(options.destinations) ==>
                Pays(consumedOutputs.value, options)
      ensures consumedOutputs.Some? && Distinct(asked) ==> 1 <= |consumedOutputs.value| <= MAX_INPUT_COUNT
      ensures consumedOutputs.None? && (options.sourceAddresses == [] || Distinct(options.sourceAddresses)) ==>
                IsShortage(err.value, options, asked, outputManager.ledger, now) || IsRefusal(err.value, response)
    {
      consumedOutputs, asked := None, [];
      if |options.destinations| == 0 {
        err := Some(NoDestination);
        return;
      }
      var requiredFunds := RequiredFunds(options.destinations);
      // Mint counts as ZIPP here
      var result;
      result, asked := CollectFor(options, requiredFunds, answer, now);
      if !result.Funded? {
        err := Some(if result.TooManyOutputs? then ConsolidateFirst else NotEnoughFunds);
        return;
      }
      // the mana has to go somewhere
      err := if response.pledgeIDs then None else Some(PledgeIDsUnknown);
      consumedOutputs := if response.pledgeIDs then Some(result.outputs) else None;
    }

    /** What a collection for a transfer says about the stored outputs. */
    method CollectFor(options: SendFundsOptions, requiredFunds: Balances, answer: Option<Ledger>, now: Time)
      returns (result: FundingResult, ghost asked: seq<Address>)
      requires Valid() && (answer.Some? ==> WellKeyed(answer.value))
      requires requiredFunds == Fold(Total(options.destinations))
      modifies this, addressManager, outputManager
      ensures Valid() && fresh(outputManager.records - old(outputManager.records))
      ensures connector.sent == old(connector.sent)
      ensures old(Exact(addressManager.State())) ==> addressManager.State() == old(addressManager.State())
      ensures options.sourceAddresses != [] ==> asked == options.sourceAddresses
      ensures options.sourceAddresses == [] ==> Distinct(asked)
      ensures result.Funded? ==> IsTakeable(result.outputs, outputManager.ledger) && AreOpen(result.outputs, now)
      ensures addressManager.lastAddressIndex == old(addressManager.lastAddressIndex)
      ensures result.Funded? &&
              AreOwn(options.sourceAddresses, addressManager.seed, addressManager.lastAddressIndex) ==>
                AreKnown(result.outputs, addressManager.seed, addressManager.lastAddressIndex)
      ensures result.Funded? && Distinct(asked) && ProperDestinations(options.destinations) ==>
              Pays(result.outputs, options)
      ensures result.Funded? && Distinct(asked) ==> 1 <= |result.outputs| <= MAX_INPUT_COUNT
      ensures !result.Funded? && Distinct(asked) ==>
                IsShortage(if result.TooManyOutputs? then ConsolidateFirst else NotEnoughFunds,
                           options, asked, outputManager.ledger, now)
    {
      ghost var order;
      result, asked, order := CollectOutputsForFunding(requiredFunds, options.usePendingOutputs,
                                                       options.sourceAddresses, answer, now);
      if options.sourceAddresses == [] {
        WholeWalletIsKnown(map[], asked, addressManager.seed, addressManager.lastAddressIndex);
      }
      ScanSummary(result, order, asked, outputManager.ledger, options, now);
      if result.Funded? {
        if options.sourceAddresses == [] {
          WholeWalletIsKnown(result.outputs, asked, addressManager.seed, addressManager.lastAddressIndex);
        } else if AreOwn(options.sourceAddresses, addressManager.seed, addressManager.lastAddressIndex) {
          OwnIsKnown(result.outputs, asked, addressManager.seed, addressManager.lastAddressIndex);
        }
      }
    }

    /** Everything after the collection. */
    method Transfer(options: SendFundsOptions, consumedOutputs: O, response: Response)
      returns (tx: Option<Transaction>, err: Option<WalletError>, ghost handed: seq<Sent>, ghost remainder: Address)
      requires Valid() && IsTakeable(consumedOutputs, outputManager.ledger)
      modifies this, addressManager, outputManager`ledger, outputManager.records, connector
      ensures Valid() && outputManager.records == old(outputManager.records)
      ensures connector.sent == old(connector.sent) + handed
      ensures handed == [] || (|handed| == 1 && IsProper(handed[0]) && handed[0].consumed == consumedOutputs)
      ensures tx.Some? ==> handed != [] && handed[0].tx == tx.value
      ensures err.None? ==> tx.Some?
      ensures old(Exact(addressManager.State())) ==> Exact(addressManager.State())
      ensures IsTransferOutcome(err, handed, consumedOutputs, options, remainder, response, addressManager.seed)
      ensures handed != [] && options.remainderAddress == ADDRESS_EMPTY && !reusableAddress &&
              old(Exact(addressManager.State())) &&
              AreKnown(consumedOutputs, addressManager.seed, old(addressManager.lastAddressIndex)) ==>
                IsSafeChoice(remainder, consumedOutputs)
    {
      var outputs, remainderAddress := PrepareOutputs(options, consumedOutputs);
      remainder := remainderAddress;
      if AreKnown(consumedOutputs, addressManager.seed, addressManager.lastAddressIndex) &&
          IsSafeChoice(remainder, consumedOutputs) {
        NotBurned(remainder, consumedOutputs, addressManager.seed, addressManager.lastAddressIndex);
      }
      tx, err, handed := SendOutputs(consumedOutputs, outputs, response);
      TransferOutcome(err, handed, consumedOutputs, outputs, options, remainder, response, addressManager.seed);
    }

    /** Seals and sends, unless building the outputs panics. */
    method SendOutputs(consumedOutputs: O, outputs: Option<seq<TxOutput>>, response: Response)
      returns (tx: Option<Transaction>, err: Option<WalletError>, ghost handed: seq<Sent>)
      requires Valid() && IsTakeable(consumedOutputs, outputManager.ledger)
      modifies this, addressManager, outputManager`ledger, outputManager.records, connector
      ensures outputManager.records == old(outputManager.records)
      ensures Valid() && addressManager.lastAddressIndex >= old(addressManager.lastAddressIndex)
      ensures connector.sent == old(connector.sent) + handed
      ensures handed == [] ==> tx.None? && err.Some?
      ensures tx.Some? ==> handed != [] && handed[0].tx == tx.value
      ensures err.None? ==> tx.Some?
      ensures IsSendResult(err, handed, consumedOutputs, outputs, response, addressManager.seed)
      ensures old(Exact(addressManager.State())) ==> Exact(addressManager.State())
      ensures old(Exact(addressManager.State())) && !reusableAddress && handed != [] ==>
                IsMarked(old(addressManager.State()), addressManager.State(), AddressesIn(consumedOutputs))
    {
      tx, err, handed := None, Some(Panicked), [];
      if outputs.Some? {
        tx, err, handed := SealAndSend(consumedOutputs, outputs.value, response);
      }
    }

    /** The middle of a transfer: the remainder address and the outputs. */
    method PrepareOutputs(options: SendFundsOptions, consumedOutputs: O)
      returns (outputs: Option<seq<TxOutput>>, remainder: Address)
      requires Valid()
      modifies addressManager
      ensures Valid() && addressManager.State().spent == old(addressManager.State()).spent
      ensures old(Exact(addressManager.State())) ==> Exact(addressManager.State())
      ensures options.remainderAddress == ADDRESS_EMPTY && !reusableAddress && old(Exact(addressManager.State())) &&
              AreKnown(consumedOutputs, addressManager.seed, old(addressManager.lastAddressIndex)) ==>
                IsSafeChoice(remainder, consumedOutputs) &&
                AreKnown(consumedOutputs, addressManager.seed, addressManager.lastAddressIndex)
      ensures Pays(consumedOutputs, options) ==> ArePrepared(consumedOutputs, outputs, options, remainder)
    {
      remainder := ChooseRemainderAddress(consumedOutputs, options.remainderAddress);
      outputs := OutputsFor(options, consumedOutputs, remainder);
    }

    // -------------------------------------------------------------- consolidating and claiming

    /** The outputs went to the chosen address, and the address book is the one after that move. */
    ghost predicate HasMoved(destination: Address, s: AddressState, consumed: O)
      requires Exact(s) && AreKnown(consumed, addressManager.seed, s.last)
      reads addressManager
    {
      KnownIndexes(consumed, addressManager.seed, s.last);
      && destination == addressManager.seed.AddressOf(ToIndex(s, IndexesOf(AddressesIn(consumed))))
      && addressManager.State() == Moved(s, IndexesOf(AddressesIn(consumed)))
    }

    lemma MovedIsSafe(destination: Address, s: AddressState, consumed: O)
      requires Exact(s) && AreKnown(consumed, addressManager.seed, s.last) && HasMoved(destination, s, consumed)
      ensures IsSafeChoice(destination, consumed)
    {
      KnownIndexes(consumed, addressManager.seed, s.last);
      ToIndexIsSafe(s, IndexesOf(AddressesIn(consumed)));
    }

    /** Moves everything that some outputs hold to one address. */
    method MoveAll(consumedOutputs: O, response: Response)
      returns (tx: Option<Transaction>, err: Option<WalletError>, ghost handed: seq<Sent>, ghost destination: Address)
      requires Valid() && IsTakeable(consumedOutputs, outputManager.ledger)
      modifies this, addressManager, outputManager`ledger, outputManager.records, connector
      ensures outputManager.records == old(outputManager.records)
      ensures Valid()
      ensures connector.sent == old(connector.sent) + handed
      ensures handed == [] || (|handed| == 1 && IsMove(handed[0], consumedOutputs, destination))
      ensures outputManager.ledger == if handed == [] then old(outputManager.ledger)
                                      else MarkedSpent(old(outputManager.ledger), consumedOutputs.Keys)
      ensures tx.Some? ==> handed != [] && handed[0].tx == tx.value
      ensures err.None? ==> tx.Some?
      ensures err.Some? ==> MayFail(consumedOutputs, err.value, response, addressManager.seed)
      ensures old(Exact(addressManager.State())) ==> Exact(addressManager.State())
      ensures handed != [] && UniqueIDs(consumedOutputs) ==>
                AreUnlockable(consumedOutputs, addressManager.seed, response.timestamp)
      ensures handed == [] ==> addressManager.State().spent == old(addressManager.State().spent)
      ensures handed != [] && !reusableAddress && old(Exact(addressManager.State())) &&
              AreKnown(consumedOutputs, addressManager.seed, old(addressManager.lastAddressIndex)) ==>
                HasMoved(destination, old(addressManager.State()), consumedOutputs)
    {
      var outputs, toAddress := ConsolidatedOutput(consumedOutputs);
      destination := toAddress;
      // who gets the mana
      if !response.pledgeIDs {
        return None, Some(PledgeIDsUnknown), [], toAddress;
      }
      MovingIsBalanced(consumedOutputs, toAddress);
      ghost var chosen := addressManager.State();
      tx, err, handed := SealAndSend(consumedOutputs, outputs, response);
      if handed != [] && !reusableAddress && old(Exact(addressManager.State())) &&
          AreKnown(consumedOutputs, addressManager.seed, old(addressManager.lastAddressIndex)) {
        KnownIndexes(consumedOutputs, addressManager.seed, old(addressManager.lastAddressIndex));
        MarkedIsMoved(old(addressManager.State()), chosen, addressManager.State(), AddressesIn(consumedOutputs));
      }
    }

    /** One output that takes all the funds. */
    method ConsolidatedOutput(consumedOutputs: O) returns (outputs: seq<TxOutput>, toAddress: Address)
      requires Valid()
      modifies addressManager
      ensures Valid() && addressManager.State().spent == old(addressManager.State()).spent
      ensures addressManager.lastAddressIndex >= old(addressManager.lastAddressIndex)
      ensures old(Exact(addressManager.State())) ==> Exact(addressManager.State())
      ensures outputs == [ColoredTxOutput(Funds(consumedOutputs), toAddress.addressBytes)]
      ensures !reusableAddress && old(Exact(addressManager.State())) &&
              AreKnown(consumedOutputs, addressManager.seed, old(addressManager.lastAddressIndex)) ==>
                IsChosen(toAddress, old(addressManager.State()), consumedOutputs)
    {
      var totalConsumedFunds := TotalFundsInOutputs(consumedOutputs);
      toAddress := ChooseToAddress(consumedOutputs, ADDRESS_EMPTY);
      SameBalances(DropZeros(totalConsumedFunds), totalConsumedFunds);
      outputs := SingleOutput(ColoredTxOutput(DropZeros(totalConsumedFunds), toAddress.addressBytes));
    }

    /** Sends one transaction per chunk and stops at the first failure. */
    method MoveChunks(chunks: seq<O>, responses: nat -> Response)
      returns (txs: seq<Transaction>, err: Option<WalletError>, ghost handed: seq<Sent>)
      requires Valid() && AreUnspentParts(chunks, outputManager.ledger)
      modifies this, addressManager, outputManager`ledger, outputManager.records, connector
      ensures Valid() && outputManager.records == old(outputManager.records)
      ensures connector.sent == old(connector.sent) + handed
      ensures AreMoves(handed, chunks)
      ensures err.None? ==> |handed| == |chunks| && txs == TransactionsOf(handed)
      ensures err.Some? ==> StopsAtFailure(chunks, |handed|, err.value, responses, addressManager.seed)
      ensures old(Exact(addressManager.State())) ==> Exact(addressManager.State())
      ensures !reusableAddress && old(Exact(addressManager.State())) &&
              AllKnown(chunks, addressManager.seed, old(addressManager.lastAddressIndex)) ==>
                HasSettled(addressManager.seed, old(addressManager.State()), addressManager.State(), chunks, handed)
    {
      txs, handed := [], [];
      ghost var before, s := connector.sent, addressManager.State();
      ghost var orderly := !reusableAddress && Exact(s) && AllKnown(chunks, addressManager.seed, s.last);
      if orderly {
        NothingInTurn(addressManager.seed, s, chunks);
      }
      err := None;
      assert chunks[0..] == chunks;
      var i := 0;
      while i < |chunks| && err.None?
        invariant Valid() && outputManager.records == old(outputManager.records) && i <= |chunks|
        invariant connector.sent == before + handed && AreMoves(handed, chunks)
        invariant err.None? ==>
                    |handed| == i && txs == TransactionsOf(handed) && AreUnspentParts(chunks[i..], outputManager.ledger)
        invariant err.Some? ==> StopsAtFailure(chunks, |handed|, err.value, responses, addressManager.seed)
        invariant old(Exact(addressManager.State())) ==> Exact(addressManager.State())
        invariant orderly ==> HasSettled(addressManager.seed, s, addressManager.State(), chunks, handed)
        invariant orderly && err.None? ==> IsAfter(addressManager.State(), s, chunks, i)
      {
        txs, err, handed := MoveNext(chunks, i, responses, txs, handed, before, orderly, s);
        i := i + 1;
      }
    }

    /** One round: the transactions so far if the pledge identifiers are unknown, and nothing if this one could not be
        built or was not taken. */
    method MoveNext(chunks: seq<O>, i: nat, responses: nat -> Response, txs: seq<Transaction>, ghost handed: seq<Sent>,
                    ghost before: seq<Sent>, ghost orderly: bool, ghost s: AddressState)
      returns (more: seq<Transaction>, err: Option<WalletError>, ghost all: seq<Sent>)
      requires Valid() && i < |chunks| && AreUnspentParts(chunks[i..], outputManager.ledger)
      requires AreMoves(handed, chunks) && |handed| == i && txs == TransactionsOf(handed)
      requires connector.sent == before + handed
      requires orderly ==> !reusableAddress && InTurn(addressManager.seed, s, chunks, handed)
      requires orderly ==> IsAfter(addressManager.State(), s, chunks, i)
      modifies this, addressManager, outputManager`ledger, outputManager.records, connector
      ensures Valid() && outputManager.records == old(outputManager.records) && connector.sent == before + all
      ensures handed <= all && AreMoves(all, chunks)
      ensures err.None? ==>
                |all| == i + 1 && more == TransactionsOf(all) && AreUnspentParts(chunks[i + 1..], outputManager.ledger)
      ensures err.Some? ==> StopsAtFailure(chunks, |all|, err.value, responses, addressManager.seed)
      ensures old(Exact(addressManager.State())) ==> Exact(addressManager.State())
      ensures orderly ==> HasSettled(addressManager.seed, s, addressManager.State(), chunks, all)
      ensures orderly && err.None? ==> IsAfter(addressManager.State(), s, chunks, i + 1)
    {
      assert chunks[i..][0] == chunks[i];
      var tx;
      ghost var sent, to;
      ghost var ledger := outputManager.ledger;
      if orderly {
        KnownLater(addressManager.seed, s, chunks, i);
      }
      tx, err, sent, to := MoveAll(chunks[i], responses(i));
      NextChunk(chunks, i, ledger, handed, sent, to);
      if orderly {
        NextInTurn(addressManager.seed, s, old(addressManager.State()), addressManager.State(), chunks, handed, sent,
                   to);
      }
      all := handed + sent;
      ConcatAssociates(before, handed, sent);
      more := if err == Some(PledgeIDsUnknown) then txs else if tx.None? then [] else txs + [tx.value];
    }

    /** Moves all available funds together. Where more outputs are collected than one transaction can take, every chunk
        becomes a transaction of its own, and the error about too many outputs is still reported at the end. */
    method ConsolidateFunds(answer: Option<Ledger>, secondAnswer: Option<Ledger>, now: Time, later: Time,
                            responses: nat -> Response)
      returns (txs: seq<Transaction>, err: Option<WalletError>, ghost handed: seq<Sent>, ghost collected: O,
               ghost chunks: seq<O>)
      requires Valid() && (answer.Some? ==> WellKeyed(answer.value)) &&
               (secondAnswer.Some? ==> WellKeyed(secondAnswer.value))
      modifies this, addressManager, outputManager, outputManager.records, connector
      ensures Valid() && fresh(outputManager.records - old(outputManager.records))
      ensures connector.sent == old(connector.sent) + handed
      ensures IsConsolidated(txs, err, handed, collected, chunks, responses, addressManager.seed, later)
      ensures secondAnswer.None? && now == later ==> err != Some(NotEnoughFunds)
      ensures old(Exact(addressManager.State())) ==> Exact(addressManager.State())
      // without address reuse, every chunk goes to the chosen address, and only the moved chunks' addresses are marked
      ensures !reusableAddress && old(Exact(addressManager.State())) && chunks != [] ==>
                HasSettled(addressManager.seed, old(addressManager.State()), addressManager.State(), chunks, handed)
    {
      var allOutputs;
      allOutputs, err := GatherAll(answer, secondAnswer, now, later);
      collected := if allOutputs.Some? then allOutputs.value else map[];
      txs, err, handed, chunks := MoveGathered(allOutputs, err, responses, later);
    }

    /** Moves what was gathered, if anything was. An error of the gathering that did not stop it is still reported. */
    method MoveGathered(allOutputs: Option<O>, gatherErr: Option<WalletError>, responses: nat -> Response,
                        ghost later: Time)
      returns (txs: seq<Transaction>, err: Option<WalletError>, ghost handed: seq<Sent>, ghost chunks: seq<O>)
      requires Valid()
      requires IsGathered(allOutputs, gatherErr, outputManager.ledger, addressManager.seed,
                          addressManager.lastAddressIndex, later)
      modifies this, addressManager, outputManager`ledger, outputManager.records, connector
      ensures Valid() && outputManager.records == old(outputManager.records)
      ensures connector.sent == old(connector.sent) + handed
      ensures IsConsolidated(txs, err, handed, if allOutputs.Some? then allOutputs.value else map[], chunks, responses,
                             addressManager.seed, later)
      ensures err.Some? ==>
                err == gatherErr || StopsAtFailure(chunks, |handed|, err.value, responses, addressManager.seed)
      ensures old(Exact(addressManager.State())) ==> Exact(addressManager.State())
      ensures !reusableAddress && old(Exact(addressManager.State())) && chunks != [] ==>
                HasSettled(addressManager.seed, old(addressManager.State()), addressManager.State(), chunks, handed)
    {
      txs, err, handed, chunks := [], gatherErr, [], [];
      if allOutputs.Some? {
        var chunkErr;
        txs, chunkErr, handed, chunks := MoveCollected(allOutputs.value, responses);
        MovedIsConsolidated(txs, chunkErr, gatherErr, handed, allOutputs.value, chunks, responses, addressManager.seed,
                            later);
        err := if chunkErr.Some? then chunkErr else gatherErr;
      }
    }

    /** The loop over the chunks. */
    method MoveCollected(allOutputs: O, responses: nat -> Response)
      returns (txs: seq<Transaction>, err: Option<WalletError>, ghost handed: seq<Sent>, ghost chunks: seq<O>)
      requires Valid() && IsTakeable(allOutputs, outputManager.ledger)
      modifies this, addressManager, outputManager`ledger, outputManager.records, connector
      ensures Valid() && outputManager.records == old(outputManager.records) &&
              connector.sent == old(connector.sent) + handed
      ensures chunks != [] && IsConsolidation(allOutputs, chunks, handed)
      ensures err.None? ==> |handed| == |chunks| && txs == TransactionsOf(handed)
      ensures err.Some? ==> StopsAtFailure(chunks, |handed|, err.value, responses, addressManager.seed)
      ensures old(Exact(addressManager.State())) ==> Exact(addressManager.State())
      ensures !reusableAddress && old(Exact(addressManager.State())) &&
              AreKnown(allOutputs, addressManager.seed, old(addressManager.lastAddressIndex)) ==>
                HasSettled(addressManager.seed, old(addressManager.State()), addressManager.State(), chunks, handed)
    {
      var consumedOutputsSlice := SplitIntoChunksOfMaxInputCount(allOutputs);
      chunks := consumedOutputsSlice;
      ChunksAreUnspent(allOutputs, chunks, outputManager.ledger);
      if AreKnown(allOutputs, addressManager.seed, addressManager.lastAddressIndex) {
        ChunksAreKnown(allOutputs, chunks, addressManager.seed, addressManager.lastAddressIndex);
      }
      txs, err, handed := MoveChunks(consumedOutputsSlice, responses);
      EmptyChunkStays(allOutputs, chunks, handed);
    }

    /** The beginning of a consolidation: the available balance, and outputs that hold it. */
    method GatherAll(answer: Option<Ledger>, secondAnswer: Option<Ledger>, now: Time, later: Time)
      returns (allOutputs: Option<O>, err: Option<WalletError>)
      requires Valid() && (answer.Some? ==> WellKeyed(answer.value)) &&
               (secondAnswer.Some? ==> WellKeyed(secondAnswer.value))
      modifies this, addressManager, outputManager
      ensures Valid() && fresh(outputManager.records - old(outputManager.records))
      ensures connector.sent == old(connector.sent)
      ensures addressManager.lastAddressIndex == old(addressManager.lastAddressIndex)
      ensures IsGathered(allOutputs, err, outputManager.ledger, addressManager.seed,
                         addressManager.lastAddressIndex, later)
      // the two scans agree: unless the store or the clock moved in between, there are enough funds
      ensures secondAnswer.None? && now == later ==> err != Some(NotEnoughFunds)
      ensures old(Exact(addressManager.State())) ==> addressManager.State() == old(addressManager.State())
    {
      var confirmedAvailableBalance;
      confirmedAvailableBalance, err := AvailableNow(answer, now);
      allOutputs := None;
      if err.None? {
        // the second scan
        allOutputs, err := CollectAll(confirmedAvailableBalance, secondAnswer, later);
      }
    }

    /** Collects what a consolidation moves. */
    method CollectAll(required: Balances, answer: Option<Ledger>, now: Time)
      returns (allOutputs: Option<O>, err: Option<WalletError>)
      requires Valid() && (answer.Some? ==> WellKeyed(answer.value))
      modifies this, addressManager, outputManager
      ensures Valid() && fresh(outputManager.records - old(outputManager.records))
      ensures connector.sent == old(connector.sent)
      ensures addressManager.lastAddressIndex == old(addressManager.lastAddressIndex)
      ensures IsGathered(allOutputs, err, outputManager.ledger, addressManager.seed,
                         addressManager.lastAddressIndex, now)
      ensures err == Some(NotEnoughFunds) && answer.None? ==>
                required == map[] ||
                required != old(Spendable(outputManager.ledger, addressManager.seed, addressManager.lastAddressIndex,
                                          now))
      ensures old(Exact(addressManager.State())) ==> addressManager.State() == old(addressManager.State())
    {
      ghost var ledger := outputManager.ledger;
      var result := CollectConfirmed(required, answer, now);
      assert answer.None? ==> outputManager.ledger == ledger;
      allOutputs, err := ForConsolidation(result);
    }

    /** What is consolidated: everything collected, unless that is a single output. */
    static method ForConsolidation(result: FundingResult) returns (allOutputs: Option<O>, err: Option<WalletError>)
      ensures allOutputs == if result.InsufficientFunds? || |result.outputs| == 1 then None else Some(result.outputs)
      ensures err == Some(NotEnoughFunds) <==> result.InsufficientFunds?
      ensures allOutputs.None? ==> err.Some?
      ensures allOutputs.Some? ==> (err.Some? <==> result.TooManyOutputs?)
    {
      if result.InsufficientFunds? {
        return None, Some(NotEnoughFunds);
      }
      var outputCount := OutputCount(result.outputs);
      if outputCount == 1 {
        return None, Some(OnlyOneOutput);
      }
      allOutputs := Some(result.outputs);
      err := if result.TooManyOutputs? then Some(ConsolidateFirst) else None;
    }

    /** Collects confirmed outputs from the whole wallet. */
    method CollectConfirmed(required: Balances, answer: Option<Ledger>, now: Time) returns (result: FundingResult)
      requires Valid() && (answer.Some? ==> WellKeyed(answer.value))
      modifies this, addressManager, outputManager
      ensures Valid() && fresh(outputManager.records - old(outputManager.records))
      ensures connector.sent == old(connector.sent)
      ensures run == Asked(old(run), answer)
      ensures addressManager.lastAddressIndex == old(addressManager.lastAddressIndex)
      ensures old(Exact(addressManager.State())) ==> addressManager.State() == old(addressManager.State())
      ensures IsWholeCollection(result, outputManager.ledger, required, now, addressManager.seed,
                                addressManager.lastAddressIndex)
    {
      ghost var asked, order;
      result, asked, order := CollectOutputsForFunding(required, false, [], answer, now);
      ScanCollectsWhole(result, order, asked, outputManager.ledger, required, now, addressManager.seed,
                        addressManager.lastAddressIndex);
    }

    /** The confirmed available balance after a refresh; an error if there is none. */
    method AvailableNow(answer: Option<Ledger>, now: Time)
      returns (confirmedBalance: Balances, err: Option<WalletError>)
      requires Valid() && (answer.Some? ==> WellKeyed(answer.value))
      modifies this, addressManager, outputManager
      ensures Valid() && fresh(outputManager.records - old(outputManager.records))
      ensures connector.sent == old(connector.sent)
      ensures old(Exact(addressManager.State())) ==> addressManager.State() == old(addressManager.State())
      ensures addressManager.lastAddressIndex == old(addressManager.lastAddressIndex)
      ensures err.None? ==>
                && confirmedBalance == Spendable(outputManager.ledger, addressManager.seed,
                                                 addressManager.lastAddressIndex, now)
                && confirmedBalance != map[]
      ensures err.Some? ==> err.value == if answer.None? then ConnectorFailed else NothingToConsolidate
    {
      var refreshed := Refresh(answer);
      confirmedBalance, err := map[], Some(ConnectorFailed);
      if refreshed {
        confirmedBalance := ConfirmedBalance(now);
        err := if confirmedBalance == map[] then Some(NothingToConsolidate) else None;
      }
    }

    /** The confirmed part of the available balance in the whole wallet. */
    method ConfirmedBalance(now: Time) returns (confirmedBalance: Balances)
      requires Valid()
      modifies addressManager
      ensures Valid() && (old(Exact(addressManager.State())) ==> addressManager.State() == old(addressManager.State()))
      ensures addressManager.lastAddressIndex == old(addressManager.lastAddressIndex)
      ensures confirmedBalance == Spendable(outputManager.ledger, addressManager.seed,
                                            addressManager.lastAddressIndex, now)
    {
      var unspent, pendingBalance;
      ghost var asked;
      unspent, asked := outputManager.GetOutputs(true, []);
      confirmedBalance, pendingBalance := AvailableBalance(unspent, now);
      assert asked == WalletAddresses(addressManager.seed, addressManager.lastAddressIndex);
    }

    /** Gathers all currently conditionally owned outputs and moves them in one transaction, however many there are. */
    method ClaimConditionalFunds(answer: Option<Ledger>, now: Time, later: Time, response: Response)
      returns (tx: Option<Transaction>, err: Option<WalletError>, ghost handed: seq<Sent>, ghost claimed: O,
               ghost destination: Address)
      requires Valid() && (answer.Some? ==> WellKeyed(answer.value))
      modifies this, addressManager, outputManager, outputManager.records, connector
      ensures Valid() && fresh(outputManager.records - old(outputManager.records))
      ensures connector.sent == old(connector.sent) + handed
      ensures answer.None? ==> tx.None? && err == Some(ConnectorFailed) && handed == []
      ensures answer.Some? ==> IsClaim(tx, err, handed, claimed, destination, later, response, addressManager.seed)
      ensures old(Exact(addressManager.State())) ==> Exact(addressManager.State())
      ensures handed != [] && !reusableAddress && old(Exact(addressManager.State())) ==>
                IsSafeChoice(destination, claimed)
      ensures answer.Some? ==>
                claimed == Claimed(Refreshed(old(outputManager.ledger), answer.value, outputManager.optsStateless),
                                   addressManager.seed, old(addressManager.lastAddressIndex), now, later)
    {
      tx, err, handed, claimed, destination := None, Some(ConnectorFailed), [], map[], ADDRESS_EMPTY;
      var refreshed := Refresh(answer);
      if refreshed {
        tx, err, handed, claimed, destination := Claim(now, later, response);
      }
    }

    /** Everything after the refresh. */
    method Claim(now: Time, later: Time, response: Response)
      returns (tx: Option<Transaction>, err: Option<WalletError>, ghost handed: seq<Sent>, ghost claimed: O,
               ghost destination: Address)
      requires Valid()
      modifies this, addressManager, outputManager`ledger, outputManager.records, connector
      ensures Valid() && outputManager.records == old(outputManager.records)
      ensures connector.sent == old(connector.sent) + handed
      ensures IsClaim(tx, err, handed, claimed, destination, later, response, addressManager.seed)
      ensures old(Exact(addressManager.State())) ==> Exact(addressManager.State())
      ensures handed != [] && !reusableAddress && old(Exact(addressManager.State())) ==>
                IsSafeChoice(destination, claimed)
      ensures claimed == old(Claimed(outputManager.ledger, addressManager.seed, addressManager.lastAddressIndex,
                                     now, later))
    {
      var consumedOutputs := Conditional(now, later);
      claimed := consumedOutputs;
      tx, err, handed, destination := None, Some(NoConditionalFunds), [], ADDRESS_EMPTY;
      if consumedOutputs != map[] {
        tx, err, handed, destination := MoveAll(consumedOutputs, response);
        if handed != [] && !reusableAddress && old(Exact(addressManager.State())) {
          MovedIsSafe(destination, old(addressManager.State()), consumedOutputs);
        }
      }
    }

    /** The confirmed outputs that are conditionally owned at the second point in time; none if there was no
        conditional balance at the first one. */
    method Conditional(now: Time, later: Time) returns (consumedOutputs: O)
      requires Valid()
      modifies addressManager
      ensures Valid() && (old(Exact(addressManager.State())) ==> addressManager.State() == old(addressManager.State()))
      ensures IsTakeable(consumedOutputs, outputManager.ledger)
      ensures addressManager.lastAddressIndex == old(addressManager.lastAddressIndex)
      ensures AreKnown(consumedOutputs, addressManager.seed, addressManager.lastAddressIndex)
      ensures consumedOutputs == Claimed(outputManager.ledger, addressManager.seed, addressManager.lastAddressIndex,
                                         now, later)
      ensures forall k | k in consumedOutputs ::
                consumedOutputs[k].confirmationStateReached && IsConditional(k, consumedOutputs[k].ledgerOutput, later)
    {
      var some := HasConditionalBalance(now);
      consumedOutputs := map[];
      if some {
        consumedOutputs := UnspentConditionalOutputs(later);
      }
      ClaimedAreOwn(outputManager.ledger, addressManager.seed, addressManager.lastAddressIndex, now, later);
    }

    /** Every confirmed output of the wallet that is conditionally owned. */
    method UnspentConditionalOutputs(now: Time) returns (outputs: O)
      requires Valid()
      modifies addressManager
      ensures Valid() && (old(Exact(addressManager.State())) ==> addressManager.State() == old(addressManager.State()))
      ensures addressManager.lastAddressIndex == old(addressManager.lastAddressIndex)
      ensures outputs == Claimable(outputManager.ledger, addressManager.seed, addressManager.lastAddressIndex, now)
    {
      var addresses := addressManager.Addresses();
      var unspent;
      ghost var asked;
      unspent, asked := outputManager.GetOutputs(false, addresses);
      outputs := ConditionalOutputsOnly(unspent, now);
      assert addresses == WalletAddresses(addressManager.seed, addressManager.lastAddressIndex);
    }

    /** Whether any confirmed output is conditionally owned. */
    method HasConditionalBalance(now: Time) returns (some: bool)
      requires Valid()
      modifies addressManager
      ensures addressManager.lastAddressIndex == old(addressManager.lastAddressIndex)
      ensures Valid() && (old(Exact(addressManager.State())) ==> addressManager.State() == old(addressManager.State()))
      ensures some <==>
              Claimable(outputManager.ledger, addressManager.seed, addressManager.lastAddressIndex, now) != map[]
    {
      var unspent;
      ghost var asked;
      unspent, asked := outputManager.GetOutputs(true, []);
      var balance := ConditionalOutputsOnly(unspent, now);
      assert asked == WalletAddresses(addressManager.seed, addressManager.lastAddressIndex);
      some := HasConfirmed(balance, outputManager.ledger, addressManager.seed, addressManager.lastAddressIndex, now);
    }
  }

  /** A wallet from an imported state. The node is asked twice before the wallet is used; None stands for the
      panic if it does not answer. */
  method NewWallet(seed: Seed, lastAddressIndex: nat, spentAddresses: seq<bv8>, reusableAddress: bool, stateless: bool,
                   answer: Option<Ledger>, secondAnswer: Option<Ledger>)
    returns (wallet: Option<Wallet>)
    requires (answer.Some? ==> WellKeyed(answer.value)) && (secondAnswer.Some? ==> WellKeyed(secondAnswer.value))
    ensures wallet.Some? <==> answer.Some? && secondAnswer.Some?
    ensures wallet.Some? ==>
              && fresh(wallet.value) && fresh(wallet.value.connector) && wallet.value.Valid()
              && fresh(wallet.value.addressManager) && fresh(wallet.value.outputManager)
              && fresh(wallet.value.outputManager.records)
    ensures wallet.Some? ==>
              && wallet.value.reusableAddress == reusableAddress
              && wallet.value.run == Asked(Asked(Trace([], stateless), answer), secondAnswer)
    ensures wallet.Some? ==>
              && wallet.value.addressManager.seed == seed
              && wallet.value.addressManager.State() ==
                 TouchAll(TouchAll(Rebuilt(lastAddressIndex, SpentSet(spentAddresses))))
  {
    var am := new AddressManager(seed, lastAddressIndex, spentAddresses);
    var manager := NewRefreshed(am, stateless, answer, secondAnswer);
    wallet := None;
    if manager.Some? {
      ghost var run := Asked(Asked(Trace([], stateless), answer), secondAnswer);
      AskedTwice(stateless, answer.value, secondAnswer.value);
      var w := new Wallet(am, manager.value, reusableAddress, run);
      wallet := Some(w);
    }
  }

  lemma AskedTwice(stateless: bool, answer: Ledger, secondAnswer: Ledger)
    requires WellKeyed(answer) && WellKeyed(secondAnswer)
    ensures var run := Asked(Asked(Trace([], stateless), Some(answer)), Some(secondAnswer));
            && run.stateless == stateless && SentIn(run.events) == []
            && LedgerOf(run) == Refreshed(Refreshed(map[], answer, stateless), secondAnswer, stateless)
  {
  }

  /** The address book of a new wallet is exact if and only if no bit of the imported slice lies above the larger of the
      last index and the first free one. */
  lemma NewWalletIsExactIff(last: nat, spent: set<nat>)
    ensures var s := TouchAll(TouchAll(Rebuilt(last, spent)));
            s.spent == spent && (Exact(s) <==> NoneAbove(spent, Max(last, LeastFrom(spent, 0))))
  {
    TouchAllIsExact(Rebuilt(last, spent));
    TouchAllIsExact(TouchAll(Rebuilt(last, spent)));
  }

  /** The addresses of a wallet in order. */
  ghost function WalletAddresses(seed: Seed, last: nat): seq<Address> {
    seq(last + 1, i requires 0 <= i <= last => seed.AddressOf(i))
  }

  /** The confirmed available balance of a whole wallet. */
  ghost function Spendable(ledger: Ledger, seed: Seed, last: nat, now: Time): Balances {
    Funds(Available(UnspentOn(ledger, true, Elements(WalletAddresses(seed, last))), true, now))
  }

  /** Every confirmed output that the whole wallet owns conditionally. */
  ghost function Claimable(ledger: Ledger, seed: Seed, last: nat, now: Time): O {
    ConditionalOutputs(UnspentOn(ledger, false, Elements(WalletAddresses(seed, last))), now)
  }

  /** What a claim moves: nothing if no balance was found at the first point in time, and everything at the second one
      otherwise. */
  ghost function Claimed(ledger: Ledger, seed: Seed, last: nat, now: Time, later: Time): O {
    if Claimable(ledger, seed, last, now) == map[] then map[] else Claimable(ledger, seed, last, later)
  }

  lemma ClaimedAreOwn(ledger: Ledger, seed: Seed, last: nat, now: Time, later: Time)
    ensures var claimed := Claimed(ledger, seed, last, now, later);
            && AreKnown(claimed, seed, last) && IsTakeable(claimed, ledger)
            && (forall k | k in claimed ::
                  claimed[k].confirmationStateReached && IsConditional(k, claimed[k].ledgerOutput, later))
  {
    var claimed := Claimed(ledger, seed, last, now, later);
    WholeWalletIsKnown(claimed, WalletAddresses(seed, last), seed, last);
  }

  method HasConfirmed(balance: O, ghost ledger: Ledger, ghost seed: Seed, ghost last: nat, ghost now: Time)
    returns (some: bool)
    requires balance == ConditionalOutputs(UnspentOn(ledger, true, Elements(WalletAddresses(seed, last))), now)
    ensures some <==> Claimable(ledger, seed, last, now) != map[]
  {
    some := exists k :: k in balance && balance[k].confirmationStateReached;
    ConfirmedIsClaimable(balance, ledger, Elements(WalletAddresses(seed, last)), now);
  }

  lemma ConfirmedIsClaimable(balance: O, ledger: Ledger, asked: set<Address>, now: Time)
    requires balance == ConditionalOutputs(UnspentOn(ledger, true, asked), now)
    ensures (exists k :: k in balance && balance[k].confirmationStateReached) <==>
            ConditionalOutputs(UnspentOn(ledger, false, asked), now) != map[]
  {
    var claimable := ConditionalOutputs(UnspentOn(ledger, false, asked), now);
    if claimable != map[] {
      var k :| k in claimable;
      assert k in balance && balance[k].confirmationStateReached;
    }
    if k :| k in balance && balance[k].confirmationStateReached {
      assert k in claimable;
    }
  }

  /** Asking for the whole available balance never fails for lack of funds. */
  lemma SpendableIsCollected(r: FundingResult, order: seq<Key>, asked: seq<Address>, ledger: Ledger,
                             required: Balances, now: Time,
                             seed: Seed, last: nat)
    requires IsScan(r, order, asked, ledger, false, required, now)
    requires |asked| == last + 1 && forall i | 0 <= i < |asked| :: asked[i] == seed.AddressOf(i)
    requires required == Spendable(ledger, seed, last, now) && required != map[]
    ensures !r.InsufficientFunds?
  {
    assert asked == WalletAddresses(seed, last);
    WholeWalletIsKnown(map[], asked, seed, last);
    FundsPositive(Available(UnspentOn(ledger, true, Elements(asked)), true, now));
    var c :| c in required;
    assert required[c] > 0;
    AvailableIsSpendable(ledger, asked, false, required, now, order, r);
  }

  method SingleOutput(output: TxOutput) returns (outputs: seq<TxOutput>)
    ensures outputs == [output]
  {
    assert WithoutDuplicates([output]) == [output];
    var packed := NewOutputs([output]);
    outputs := packed.value;
  }

  /** Moving outputs fails only if the world refuses, if there are none or too many of them, if they are not as the
      ledger holds them, or if one of them cannot be unlocked at the time. */
  ghost predicate MayFail(consumed: O, err: WalletError, response: Response, seed: Seed) {
    || IsRefusal(err, response)
    || (err == Panicked && (consumed == map[] || |consumed| > MAX_INPUT_COUNT))
    || (err == Rejected && !(IsOrdinary(consumed) && AreUnlockable(consumed, seed, response.timestamp)))
  }

  ghost predicate MayFailWith(consumed: O, outputs: seq<TxOutput>, err: WalletError, response: Response, seed: Seed) {
    MayFail(consumed, err, response, seed) || (err == Rejected && !IsBalanced(Funds(consumed), OutputsTotal(outputs)))
  }

  lemma MovingIsBalanced(consumed: O, to: Address)
    ensures OutputsTotal([ColoredTxOutput(Funds(consumed), to.addressBytes)]) == Funds(consumed)
  {
    OutputsTotalOne(ColoredTxOutput(Funds(consumed), to.addressBytes));
  }

  /** One transaction that moves all funds of some outputs to one address. */
  ghost predicate IsMove(s: Sent, consumed: O, to: Address) {
    IsProper(s) && s.consumed == consumed && s.tx.outputs == [ColoredTxOutput(Funds(consumed), to.addressBytes)]
  }

  /** The result of a claim: only confirmed outputs with a fallback option that the wallet can unlock are moved, all
      of them by one transaction, and a failure means that there is nothing to claim, too much, or that the world
      refuses. */
  ghost predicate IsClaim(tx: Option<Transaction>, err: Option<WalletError>, handed: seq<Sent>, claimed: O,
                          destination: Address, later: Time, response: Response, seed: Seed) {
    && (handed == [] || (|handed| == 1 && IsMove(handed[0], claimed, destination)))
    && (forall k | k in claimed ::
          claimed[k].confirmationStateReached && IsConditional(k, claimed[k].ledgerOutput, later))
    && (tx.Some? ==> handed != [] && handed[0].tx == tx.value)
    && (err.None? ==> tx.Some?)
    && AreOwned(claimed, seed)
    && (handed != [] && UniqueIDs(claimed) ==> AreUnlockable(claimed, seed, response.timestamp))
    && (err.Some? ==> if claimed == map[] then err == Some(NoConditionalFunds)
                      else MayFail(claimed, err.value, response, seed))
  }

  ghost predicate StopsAtFailure(chunks: seq<O>, moved: nat, err: WalletError, responses: nat -> Response, seed: Seed) {
    exists i :: 0 <= i < |chunks| && i <= moved <= i + 1 && MayFail(chunks[i], err, responses(i), seed)
  }

  ghost predicate IsMoveSomewhere(s: Sent, consumed: O) {
    exists to :: IsMove(s, consumed, to)
  }

  ghost predicate AreUnspentParts(chunks: seq<O>, ledger: Ledger) {
    && (forall i | 0 <= i < |chunks| :: IsTakeable(chunks[i], ledger))
    && (forall i, j | 0 <= i < j < |chunks| :: chunks[i].Keys !! chunks[j].Keys)
  }

  /** The result of a consolidation. Nothing is sent unless there are at least two outputs to move, all of them open;
      the transactions move the chunks one by one until the first failure; and even if all were moved, an error
      remains if there was more than one. */
  ghost predicate IsConsolidated(txs: seq<Transaction>, err: Option<WalletError>, handed: seq<Sent>, collected: O,
                                 chunks: seq<O>, responses: nat -> Response, seed: Seed, later: Time) {
    if chunks == [] then
      txs == [] && handed == [] && collected == map[] && err.Some?
    else
      && |collected| > 1 && AreOwned(collected, seed) && AreOpen(collected, later)
      && (forall k | k in collected :: IsValueOutput(collected[k].ledgerOutput))
      && IsConsolidation(collected, chunks, handed)
      && (|handed| < |chunks| || |collected| > MAX_INPUT_COUNT ==> err.Some?)
      && (err.Some? ==> |collected| > MAX_INPUT_COUNT || StopsAtFailure(chunks, |handed|, err.value, responses, seed))
      && (err.None? ==> txs == TransactionsOf(handed))
  }

  /** What a consolidation has to move: at least two outputs of the wallet, all of them open, and an error if
      they are too many for one transaction. */
  ghost predicate IsGathered(allOutputs: Option<O>, err: Option<WalletError>, ledger: Ledger, seed: Seed, last: nat,
                             later: Time) {
    match allOutputs
    case None => err.Some?
    case Some(all) =>
      && |all| > 1 && (err.Some? <==> |all| > MAX_INPUT_COUNT)
      && IsTakeable(all, ledger) && AreOpen(all, later) && AreKnown(all, seed, last)
  }

  lemma MovedIsConsolidated(txs: seq<Transaction>, chunkErr: Option<WalletError>, err: Option<WalletError>,
                            handed: seq<Sent>, collected: O, chunks: seq<O>, responses: nat -> Response, seed: Seed,
                            later: Time)
    requires |collected| > 1 && AreOwned(collected, seed) && AreOpen(collected, later)
    requires forall k | k in collected :: IsValueOutput(collected[k].ledgerOutput)
    requires chunks != [] && IsConsolidation(collected, chunks, handed)
    requires chunkErr.None? ==> |handed| == |chunks| && txs == TransactionsOf(handed)
    requires chunkErr.Some? ==> StopsAtFailure(chunks, |handed|, chunkErr.value, responses, seed)
    requires err.Some? <==> |collected| > MAX_INPUT_COUNT
    ensures IsConsolidated(txs, if chunkErr.Some? then chunkErr else err, handed, collected, chunks, responses, seed,
                           later)
  {
  }

  /** The first chunks have been moved, each by a transaction of its own. */
  ghost predicate AreMoves(handed: seq<Sent>, chunks: seq<O>) {
    && |handed| <= |chunks|
    && (forall i | 0 <= i < |handed| :: IsMoveSomewhere(handed[i], chunks[i]))
  }

  function TransactionsOf(handed: seq<Sent>): seq<Transaction> {
    seq(|handed|, i requires 0 <= i < |handed| => handed[i].tx)
  }

  /** The indexes that each chunk spends from. */
  ghost function IndexSets(chunks: seq<O>): seq<set<nat>> {
    seq(|chunks|, i requires 0 <= i < |chunks| => IndexesOf(AddressesIn(chunks[i])))
  }

  ghost predicate AllKnown(chunks: seq<O>, seed: Seed, last: nat) {
    forall i | 0 <= i < |chunks| :: AreKnown(chunks[i], seed, last)
  }

  /** Every moved chunk went to the address that was chosen after the moves before it. */
  ghost predicate InTurn(seed: Seed, s: AddressState, chunks: seq<O>, handed: seq<Sent>) {
    && Exact(s) && AllKnown(chunks, seed, s.last) && AllWithin(IndexSets(chunks), s.last) && |handed| <= |chunks|
    && (forall i | 0 <= i < |handed| ::
          IsMove(handed[i], chunks[i], seed.AddressOf(Destination(s, IndexSets(chunks), i))))
  }

  /** The address book as the first n moves leave it. */
  ghost predicate IsAfter(t: AddressState, s: AddressState, chunks: seq<O>, n: nat) {
    && Exact(s) && AllWithin(IndexSets(chunks), s.last) && n <= |chunks|
    && t == After(s, IndexSets(chunks)[..n])
  }

  /** And exactly the addresses of the moved chunks have been marked. */
  ghost predicate HasSettled(seed: Seed, s: AddressState, t: AddressState, chunks: seq<O>, handed: seq<Sent>) {
    InTurn(seed, s, chunks, handed) && t.spent == s.spent + Union(IndexSets(chunks)[..|handed|])
  }

  lemma NothingInTurn(seed: Seed, s: AddressState, chunks: seq<O>)
    requires Exact(s) && AllKnown(chunks, seed, s.last)
    ensures InTurn(seed, s, chunks, []) && IsAfter(s, s, chunks, 0)
    ensures HasSettled(seed, s, s, chunks, [])
  {
    assert IndexSets(chunks)[..0] == [];
    forall i | 0 <= i < |chunks| ensures Within(IndexSets(chunks)[i], s.last) {
      KnownIndexes(chunks[i], seed, s.last);
    }
  }

  lemma KnownLater(seed: Seed, s: AddressState, chunks: seq<O>, i: nat)
    requires i < |chunks| && Exact(s) && AllKnown(chunks, seed, s.last) && AllWithin(IndexSets(chunks), s.last)
    ensures Exact(After(s, IndexSets(chunks)[..i])) && AreKnown(chunks[i], seed, After(s, IndexSets(chunks)[..i]).last)
  {
  }

  lemma NextInTurn(seed: Seed, s: AddressState, t: AddressState, u: AddressState, chunks: seq<O>, handed: seq<Sent>,
                   sent: seq<Sent>, to: Address)
    requires InTurn(seed, s, chunks, handed) && |handed| < |chunks|
    requires IsAfter(t, s, chunks, |handed|) && Within(IndexSets(chunks)[|handed|], t.last)
    requires sent == [] ==> u.spent == t.spent
    requires sent == [] || |sent| == 1
    requires sent != [] ==>
               && IsMove(sent[0], chunks[|handed|], to)
               && to == seed.AddressOf(ToIndex(t, IndexSets(chunks)[|handed|]))
               && u == Moved(t, IndexSets(chunks)[|handed|])
    ensures HasSettled(seed, s, u, chunks, handed + sent)
    ensures sent != [] ==> IsAfter(u, s, chunks, |handed| + 1)
  {
    if sent == [] {
      assert handed + sent == handed;
    } else {
      var n, all := |handed|, handed + sent;
      NextMove(s, IndexSets(chunks), n);
      forall i | 0 <= i < |all|
        ensures IsMove(all[i], chunks[i], seed.AddressOf(Destination(s, IndexSets(chunks), i)))
      {
        assert all[i] == if i == n then sent[0] else handed[i];
      }
    }
  }

  lemma ChunksAreKnown(collected: O, chunks: seq<O>, seed: Seed, last: nat)
    requires IsPartition(chunks, collected) && AreKnown(collected, seed, last)
    ensures AllKnown(chunks, seed, last)
  {
  }

  lemma NextChunk(chunks: seq<O>, i: nat, ledger: Ledger, handed: seq<Sent>, sent: seq<Sent>, to: Address)
    requires i < |chunks| && AreUnspentParts(chunks[i..], ledger)
    requires AreMoves(handed, chunks) && |handed| == i
    requires sent == [] || (|sent| == 1 && IsMove(sent[0], chunks[i], to))
    ensures AreMoves(handed + sent, chunks)
    ensures AreUnspentParts(chunks[i + 1..], MarkedSpent(ledger, chunks[i].Keys))
    ensures |sent| == 1 ==> TransactionsOf(handed + sent) == TransactionsOf(handed) + [sent[0].tx]
  {
    NextIsFirst(chunks, i, ledger);
    MovesGrow(chunks, handed, sent, to);
    TransactionsGrow(handed, sent);
  }

  lemma NextIsFirst(chunks: seq<O>, i: nat, ledger: Ledger)
    requires i < |chunks| && AreUnspentParts(chunks[i..], ledger)
    ensures AreUnspentParts(chunks[i + 1..], MarkedSpent(ledger, chunks[i].Keys))
  {
    var rest := chunks[i..];
    OthersAreUnspent(rest, ledger);
    assert rest[1..] == chunks[i + 1..] && rest[0] == chunks[i];
  }

  lemma TransactionsGrow(handed: seq<Sent>, sent: seq<Sent>)
    ensures |sent| == 1 ==> TransactionsOf(handed + sent) == TransactionsOf(handed) + [sent[0].tx]
  {
  }

  /** Marking the first chunk leaves the others unspent. */
  lemma OthersAreUnspent(chunks: seq<O>, ledger: Ledger)
    requires chunks != [] && AreUnspentParts(chunks, ledger)
    ensures AreUnspentParts(chunks[1..], MarkedSpent(ledger, chunks[0].Keys))
  {
    var others := chunks[1..];
    forall j | 0 <= j < |others| ensures IsTakeable(others[j], MarkedSpent(ledger, chunks[0].Keys)) {
      assert others[j] == chunks[j + 1] && chunks[0].Keys !! chunks[j + 1].Keys;
      StillUnspent(others[j], ledger, chunks[0].Keys);
    }
  }

  lemma MovesGrow(chunks: seq<O>, handed: seq<Sent>, sent: seq<Sent>, to: Address)
    requires AreMoves(handed, chunks) && |handed| < |chunks|
    requires sent == [] || (|sent| == 1 && IsMove(sent[0], chunks[|handed|], to))
    ensures AreMoves(handed + sent, chunks)
  {
    var more := handed + sent;
    forall j | 0 <= j < |more| ensures IsMoveSomewhere(more[j], chunks[j]) {
      assert more[j] == if j < |handed| then handed[j] else sent[0];
    }
  }

  lemma ChunksAreUnspent(collected: O, chunks: seq<O>, ledger: Ledger)
    requires IsPartition(chunks, collected) && IsTakeable(collected, ledger)
    ensures AreUnspentParts(chunks, ledger)
  {
    forall i | 0 <= i < |chunks| ensures IsTakeable(chunks[i], ledger) {
      forall k | k in chunks[i]
        ensures k in ledger && ledger[k] == Entry(chunks[i][k], false) && IsValueOutput(chunks[i][k].ledgerOutput)
      {
        assert k in collected && collected[k] == chunks[i][k];
      }
    }
  }

  lemma EmptyChunkStays(collected: O, chunks: seq<O>, handed: seq<Sent>)
    requires IsPartition(chunks, collected) && AreMoves(handed, chunks)
    requires |collected| <= MAX_INPUT_COUNT ==> chunks == [collected]
    requires |collected| > MAX_INPUT_COUNT ==> |chunks| == |collected| / MAX_INPUT_COUNT + 1
    requires forall i | 0 <= i < |chunks| :: |chunks[i]| == ChunkSize(|collected|, i)
    ensures IsConsolidation(collected, chunks, handed)
  {
    forall i | 0 <= i < |handed| ensures chunks[i] != map[] {
      MovedIsNotEmpty(handed[i], chunks[i]);
    }
    if |collected| > MAX_INPUT_COUNT && |collected| % MAX_INPUT_COUNT == 0 {
      var last := |chunks| - 1;
      EmptyChunkIff(|collected|, last);
      assert |chunks[last]| == 0;
    }
  }

  lemma MovedIsNotEmpty(s: Sent, consumed: O)
    requires IsMoveSomewhere(s, consumed)
    ensures consumed != map[]
  {
    assert s.tx.inputs[0] in Elements(s.tx.inputs);
  }

  /** What a consolidation did: the collected outputs in chunks, and the moves of the first chunks. An empty last chunk
      is never moved, because the serializer rejects a transaction without inputs. */
  ghost predicate IsConsolidation(collected: O, chunks: seq<O>, handed: seq<Sent>) {
    && IsPartition(chunks, collected)
    && (|collected| <= MAX_INPUT_COUNT ==> chunks == [collected])
    && (|collected| > MAX_INPUT_COUNT ==> |chunks| == |collected| / MAX_INPUT_COUNT + 1)
    && (forall i | 0 <= i < |chunks| :: |chunks[i]| == ChunkSize(|collected|, i))
    && AreMoves(handed, chunks)
    && (|collected| > MAX_INPUT_COUNT && |collected| % MAX_INPUT_COUNT == 0 ==> |handed| < |chunks|)
  }

  /** The consumed outputs hold what the destinations get. */
  ghost predicate Pays(consumed: O, options: SendFundsOptions) {
    IsFunded(Funds(consumed), options.destinations)
  }

  /** No two outputs of the transfer would be identical, their number is within bounds, and the inputs are as the
      ledger holds them. */
  ghost predicate IsBuildable(consumed: O, options: SendFundsOptions, remainder: Address) {
    var rest := Remainder(Funds(consumed), options.destinations);
    IsOrdinary(consumed) && NoTwins(options, rest, remainder) && FitsOutputs(options, rest)
  }

  /** What the prepared outputs of a funded transfer are, and when they can be handed over. */
  ghost predicate ArePrepared(consumed: O, outputs: Option<seq<TxOutput>>, options: SendFundsOptions,
                              remainder: Address) {
    && (outputs.Some? && Fits64(Funds(consumed)) ==> IsPaidOut(consumed, outputs.value, options, remainder))
    && (IsOrdinary(consumed) ==>
          ((outputs.Some? && IsBalanced(Funds(consumed), OutputsTotal(outputs.value))) <==>
           IsBuildable(consumed, options, remainder)))
  }

  method OutputsFor(options: SendFundsOptions, consumedOutputs: O, remainder: Address)
    returns (outputs: Option<seq<TxOutput>>)
    ensures Pays(consumedOutputs, options) ==> ArePrepared(consumedOutputs, outputs, options, remainder)
  {
    var totalConsumedFunds := TotalFundsInOutputs(consumedOutputs);
    var rest;
    ghost var order;
    outputs, rest, order := BuildOutputs(options, totalConsumedFunds, remainder);
    if Pays(consumedOutputs, options) {
      PaidOut(options, consumedOutputs, outputs, rest, remainder, order);
    }
  }

  /** The consumed outputs pay, and the outputs are the remainder and the destinations, without repetitions. */
  ghost predicate IsPaidOut(consumed: O, outputs: seq<TxOutput>, options: SendFundsOptions, remainder: Address) {
    && IsFunded(Funds(consumed), options.destinations)
    && (exists order ::
          && IsPermutationOf(order, options.destinations.Keys)
          && outputs == WithoutDuplicates(BuiltList(options, Funds(consumed), remainder, order)))
  }

  lemma PaidOut(options: SendFundsOptions, consumed: O, outputs: Option<seq<TxOutput>>, rest: Balances,
                remainder: Address, order: seq<Address>)
    requires IsPermutationOf(order, options.destinations.Keys) && Pays(consumed, options)
    requires outputs == Packed(OutputsList(options, rest, remainder, order))
    requires Fits64(Funds(consumed)) ==> rest == Minus(Funds(consumed), Fold(Total(options.destinations)))
    ensures ArePrepared(consumed, outputs, options, remainder)
  {
    if IsOrdinary(consumed) {
      OrdinaryFits(Funds(consumed), Funds(consumed));
    }
    if Fits64(Funds(consumed)) {
      assert outputs == Packed(BuiltList(options, Funds(consumed), remainder, order));
      PackedAndBalancedIff(options, Funds(consumed), remainder, order);
    }
  }

  ghost predicate IsSendResult(err: Option<WalletError>, handed: seq<Sent>, consumed: O, outputs: Option<seq<TxOutput>>,
                               response: Response, seed: Seed) {
    && (outputs.None? ==> handed == [] && err == Some(Panicked))
    && (outputs.Some? ==>
          && (handed == [] || (|handed| == 1 && IsHandover(handed[0], consumed, outputs.value)))
          && (handed != [] && UniqueIDs(consumed) ==> AreUnlockable(consumed, seed, response.timestamp))
          && (err.Some? ==> MayFailWith(consumed, outputs.value, err.value, response, seed)))
    && (err.Some? && handed != [] ==> IsRefusal(err.value, response))
  }

  /** The checks reject the transaction, or the program panics while it is built. */
  predicate IsFlaw(err: WalletError) {
    err == Rejected || err == Panicked
  }

  /** Why a transfer failed, and what one that was handed over pays out. */
  ghost predicate IsTransferOutcome(err: Option<WalletError>, handed: seq<Sent>, consumed: O, options: SendFundsOptions,
                                    remainder: Address, response: Response, seed: Seed) {
    && (err.Some? && handed != [] ==> IsRefusal(err.value, response))
    && (handed != [] && UniqueIDs(consumed) ==> AreUnlockable(consumed, seed, response.timestamp))
    && (Pays(consumed, options) ==>
          && (err.Some? ==> MayFail(consumed, err.value, response, seed) ||
                            (IsFlaw(err.value) && !IsBuildable(consumed, options, remainder)))
          && (handed != [] && Fits64(Funds(consumed)) ==> IsPaidOut(consumed, handed[0].tx.outputs, options, remainder))
          && (handed != [] && IsOrdinary(consumed) ==> IsBuildable(consumed, options, remainder)))
  }

  /** A transfer that passed the balance check has no identical outputs. */
  lemma TransferOutcome(err: Option<WalletError>, handed: seq<Sent>, consumed: O, outputs: Option<seq<TxOutput>>,
                        options: SendFundsOptions, remainder: Address, response: Response, seed: Seed)
    requires IsSendResult(err, handed, consumed, outputs, response, seed)
    requires Pays(consumed, options) ==> ArePrepared(consumed, outputs, options, remainder)
    ensures IsTransferOutcome(err, handed, consumed, options, remainder, response, seed)
  {
    if handed != [] && IsOrdinary(consumed) {
      ProperConserves(handed[0]);
    }
  }

  ghost predicate IsHandover(s: Sent, consumed: O, outputs: seq<TxOutput>) {
    IsProper(s) && s.consumed == consumed && s.tx.outputs == outputs
  }

  /** The result of scanning what the store lists as unspent value outputs on some addresses. */
  ghost predicate IsScan(r: FundingResult, order: seq<Key>, asked: seq<Address>, ledger: Ledger, includePending: bool,
                         required: Balances, now: Time) {
    IsCollection(r, order, asked, ValueOutputs(UnspentOn(ledger, includePending, Elements(asked))), required, now)
  }

  method Scan(addresses: seq<Address>, unspentOutputs: O, required: Balances, now: Time)
    returns (result: FundingResult, ghost order: seq<Key>)
    ensures IsCollection(result, order, addresses, unspentOutputs, required, now)
  {
    var visit := VisitOrder(addresses, unspentOutputs);
    forall k | k in visit ensures k in unspentOutputs {
      VisitedKeys(visit, addresses, unspentOutputs, k);
    }
    result := CollectAlong(visit, unspentOutputs, required, now);
    order := visit;
  }

  lemma ScanIsUnspentPart(r: FundingResult, order: seq<Key>, asked: seq<Address>, ledger: Ledger, includePending: bool,
                          required: Balances, now: Time)
    requires IsScan(r, order, asked, ledger, includePending, required, now) && !r.InsufficientFunds?
    ensures IsTakeable(r.outputs, ledger)
    ensures AddressesIn(r.outputs) <= Elements(asked)
    ensures AreOpen(r.outputs, now)
  {
    var unspent := ValueOutputs(UnspentOn(ledger, includePending, Elements(asked)));
    CandidateKeys(order, unspent, required, now);
    var n := ChosenPrefix(r, Candidates(order, unspent, required, now), unspent, required);
    forall k | k in r.outputs ensures k in order && IsCandidate(k, unspent[k], required, now) {
      assert k in Elements(Candidates(order, unspent, required, now)[..n]);
    }
    forall k | k in r.outputs ensures k.address in asked {
      VisitedKeys(order, asked, unspent, k);
    }
  }

  lemma ScanIsWhole(r: FundingResult, order: seq<Key>, asked: seq<Address>, ledger: Ledger, required: Balances,
                    now: Time,
                    seed: Seed, last: nat)
    requires IsScan(r, order, asked, ledger, false, required, now) && !r.InsufficientFunds?
    requires |asked| == last + 1 && forall i | 0 <= i < |asked| :: asked[i] == seed.AddressOf(i)
    ensures IsTakeable(r.outputs, ledger) && AreKnown(r.outputs, seed, last) && AreOpen(r.outputs, now)
    ensures 1 <= |r.outputs| && (r.TooManyOutputs? <==> |r.outputs| > MAX_INPUT_COUNT)
  {
    ScanIsUnspentPart(r, order, asked, ledger, false, required, now);
    WholeWalletIsKnown(r.outputs, asked, seed, last);
    CollectedCovers(r, order, asked, ValueOutputs(UnspentOn(ledger, false, Elements(asked))), required, now);
  }

  /** What a collection of confirmed outputs from the whole wallet promises. */
  ghost predicate IsWholeCollection(r: FundingResult, ledger: Ledger, required: Balances, now: Time, seed: Seed,
                                    last: nat) {
    if r.InsufficientFunds? then
      required == map[] || required != Spendable(ledger, seed, last, now)
    else
      && IsTakeable(r.outputs, ledger)
      && AreKnown(r.outputs, seed, last)
      && AreOpen(r.outputs, now)
      && 1 <= |r.outputs|
      && (r.TooManyOutputs? <==> |r.outputs| > MAX_INPUT_COUNT)
  }

  lemma ScanCollectsWhole(r: FundingResult, order: seq<Key>, asked: seq<Address>, ledger: Ledger, required: Balances,
                          now: Time,
                          seed: Seed, last: nat)
    requires IsScan(r, order, asked, ledger, false, required, now)
    requires |asked| == last + 1 && forall i | 0 <= i < |asked| :: asked[i] == seed.AddressOf(i)
    ensures IsWholeCollection(r, ledger, required, now, seed, last)
  {
    if !r.InsufficientFunds? {
      ScanIsWhole(r, order, asked, ledger, required, now, seed, last);
    } else if required == Spendable(ledger, seed, last, now) && required != map[] {
      SpendableIsCollected(r, order, asked, ledger, required, now, seed, last);
    }
  }

  lemma ScanCount(r: FundingResult, order: seq<Key>, asked: seq<Address>, ledger: Ledger, includePending: bool,
                  required: Balances, now: Time)
    requires IsScan(r, order, asked, ledger, includePending, required, now) && r.Funded? && Distinct(asked)
    ensures 1 <= |r.outputs| <= MAX_INPUT_COUNT
  {
    CollectedCovers(r, order, asked, ValueOutputs(UnspentOn(ledger, includePending, Elements(asked))), required, now);
  }

  /** Everything that could fund a transfer. */
  ghost function Fundable(options: SendFundsOptions, asked: seq<Address>, ledger: Ledger, now: Time): O {
    AllCandidates(ValueOutputs(UnspentOn(ledger, options.usePendingOutputs, Elements(asked))), Elements(asked),
                  Fold(Total(options.destinations)), now)
  }

  /** The wallet's part in a failure: nothing is asked for, all candidates together do not pay, or there are more
      candidates than one transaction can take. */
  ghost predicate IsShortage(err: WalletError, options: SendFundsOptions, asked: seq<Address>, ledger: Ledger,
                             now: Time) {
    match err
    case NoDestination => options.destinations == map[]
    case NotEnoughFunds =>
      var all := Fundable(options, asked, ledger, now);
      all == map[] || !Covers(Funds(all), Fold(Total(options.destinations)))
    case ConsolidateFirst => |Fundable(options, asked, ledger, now)| > MAX_INPUT_COUNT
    case _ => false
  }

  lemma ScanFalls(r: FundingResult, order: seq<Key>, asked: seq<Address>, ledger: Ledger, includePending: bool,
                  required: Balances, now: Time)
    requires IsScan(r, order, asked, ledger, includePending, required, now) && !r.Funded? && Distinct(asked)
    ensures var all := AllCandidates(ValueOutputs(UnspentOn(ledger, includePending, Elements(asked))),
                                     Elements(asked), required, now);
            if r.TooManyOutputs? then |all| > MAX_INPUT_COUNT else all == map[] || !Covers(Funds(all), required)
  {
    var unspent := ValueOutputs(UnspentOn(ledger, includePending, Elements(asked)));
    if r.TooManyOutputs? {
      CollectedCovers(r, order, asked, unspent, required, now);
    } else {
      InsufficientIff(r, order, asked, unspent, required, now);
    }
  }

  lemma ScanSummary(r: FundingResult, order: seq<Key>, asked: seq<Address>, ledger: Ledger, options: SendFundsOptions,
                    now: Time)
    requires IsScan(r, order, asked, ledger, options.usePendingOutputs, Fold(Total(options.destinations)), now)
    ensures r.Funded? ==>
              IsTakeable(r.outputs, ledger) && AddressesIn(r.outputs) <= Elements(asked) && AreOpen(r.outputs, now)
    ensures r.Funded? && Distinct(asked) && ProperDestinations(options.destinations) ==> Pays(r.outputs, options)
    ensures r.Funded? && Distinct(asked) ==> 1 <= |r.outputs| <= MAX_INPUT_COUNT
    ensures !r.Funded? && Distinct(asked) ==>
              IsShortage(if r.TooManyOutputs? then ConsolidateFirst else NotEnoughFunds, options, asked, ledger, now)
  {
    var required := Fold(Total(options.destinations));
    if r.Funded? {
      ScanIsUnspentPart(r, order, asked, ledger, options.usePendingOutputs, required, now);
    }
    if Distinct(asked) {
      if r.Funded? {
        ScanPays(r, order, asked, ledger, options.usePendingOutputs, required, now);
        ScanCount(r, order, asked, ledger, options.usePendingOutputs, required, now);
      } else {
        ScanFalls(r, order, asked, ledger, options.usePendingOutputs, required, now);
      }
    }
  }

  lemma ScanPays(r: FundingResult, order: seq<Key>, asked: seq<Address>, ledger: Ledger, includePending: bool,
                 required: Balances, now: Time)
    requires IsScan(r, order, asked, ledger, includePending, required, now) && !r.InsufficientFunds?
    requires Distinct(asked)
    ensures Covers(Funds(r.outputs), required) && Positive(Funds(r.outputs))
  {
    CollectedCovers(r, order, asked, ValueOutputs(UnspentOn(ledger, includePending, Elements(asked))), required, now);
    FundsPositive(r.outputs);
  }

  /** An address of the wallet is spent from exactly if its index is. */
  lemma KnownIndexes(consumed: O, seed: Seed, last: nat)
    requires AreKnown(consumed, seed, last)
    ensures Within(IndexesOf(AddressesIn(consumed)), last)
    ensures forall i: nat :: i in IndexesOf(AddressesIn(consumed)) <==> seed.AddressOf(i) in AddressesIn(consumed)
  {
    forall i: nat | seed.AddressOf(i) in AddressesIn(consumed) ensures i in IndexesOf(AddressesIn(consumed)) {
      assert seed.AddressOf(i).index == i;
    }
  }

  /** A wallet address that no consumed output comes from is not marked when these outputs are spent. */
  lemma NotBurned(chosen: Address, consumed: O, seed: Seed, last: nat)
    requires AreKnown(consumed, seed, last)
    requires chosen == seed.AddressOf(chosen.index) && chosen !in AddressesIn(consumed)
    ensures chosen.index !in IndexesOf(AddressesIn(consumed))
  {
    forall a | a in AddressesIn(consumed) ensures a.index != chosen.index {
      assert a == seed.AddressOf(a.index);
    }
  }

  lemma OwnIsKnown(consumed: O, addresses: seq<Address>, seed: Seed, last: nat)
    requires AreOwn(addresses, seed, last) && AddressesIn(consumed) <= Elements(addresses)
    ensures AreKnown(consumed, seed, last)
  {
    forall a | a in AddressesIn(consumed) ensures a == seed.AddressOf(a.index) && a.index <= last {
      assert a in Elements(addresses);
    }
  }

  lemma WholeWalletIsKnown(consumed: O, addresses: seq<Address>, seed: Seed, last: nat)
    requires |addresses| == last + 1 && forall i | 0 <= i < |addresses| :: addresses[i] == seed.AddressOf(i)
    requires AddressesIn(consumed) <= Elements(addresses)
    ensures AreKnown(consumed, seed, last)
    ensures Distinct(addresses)
  {
    forall i, j | 0 <= i < j < |addresses| ensures addresses[i] != addresses[j] {
      assert addresses[i].index == i && addresses[j].index == j;
    }
    forall a | a in AddressesIn(consumed) ensures a == seed.AddressOf(a.index) && a.index <= last {
      assert a in Elements(addresses);
    }
  }

  lemma InputsAreKnown(consumed: O, ledger: Ledger, inputs: seq<OutputID>, byID: map<OutputID, Output>)
    requires WellKeyed(ledger) && IsTakeable(consumed, ledger)
    requires Elements(inputs) == set k | k in consumed :: consumed[k].ledgerOutput.id
    requires byID.Keys == set k | k in consumed :: k.id
    ensures forall id | id in inputs :: id in byID
    ensures Elements(inputs) == set k | k in consumed :: k.id
  {
    assert forall k | k in consumed :: consumed[k].ledgerOutput.id == k.id;
    forall id | id in inputs ensures id in byID {
      assert id in Elements(inputs);
    }
  }

  /** At most one input per consumed output. */
  lemma InputCount(consumed: O, inputs: seq<OutputID>)
    requires Ascending(inputs) && Elements(inputs) == set k | k in consumed :: k.id
    ensures |inputs| <= |consumed| && (consumed != map[] ==> inputs != [])
  {
    DistinctCount(inputs);
    ImageCount(consumed.Keys);
    assert Elements(inputs) == set k | k in consumed.Keys :: k.id;
    if consumed != map[] {
      var k :| k in consumed;
      assert k.id in Elements(inputs);
    }
  }

  lemma {:induction false} ImageCount(keys: set<Key>)
    ensures |set k | k in keys :: k.id| <= |keys|
  {
    if keys == {} {
      assert (set k | k in keys :: k.id) == {};
    } else {
      var k :| k in keys;
      ImageCount(keys - {k});
      assert (set j | j in keys :: j.id) == (set j | j in keys - {k} :: j.id) + {k.id};
    }
  }

  ghost function KeysAlong(inputs: seq<OutputID>, byID: map<OutputID, Output>): seq<Key>
    requires forall id | id in inputs :: id in byID
  {
    seq(|inputs|, i requires 0 <= i < |inputs| => Key(byID[inputs[i]].address, inputs[i]))
  }

  /** What the loop over the inputs finds are the consumed outputs themselves, under their own addresses. */
  lemma KeysAreConsumed(s: Sent, ledger: Ledger, byID: map<OutputID, Output>)
    requires WellKeyed(ledger) && IsTakeable(s.consumed, ledger)
    requires forall id | id in s.tx.inputs :: id in byID
    requires forall id | id in byID :: exists k :: k in s.consumed && k.id == id && s.consumed[k] == byID[id]
    ensures var keys := KeysAlong(s.tx.inputs, byID);
            && AreConsumed(s, keys)
            && OwnersAlong(keys) == OwnersOf(s.tx.inputs, byID)
            && (forall i | 0 <= i < |keys| :: ObjectsOf(s.tx.inputs, byID)[i] == s.consumed[keys[i]].ledgerOutput)
  {
    var keys := KeysAlong(s.tx.inputs, byID);
    forall i | 0 <= i < |keys| ensures keys[i] in s.consumed && s.consumed[keys[i]] == byID[s.tx.inputs[i]] {
      var id := s.tx.inputs[i];
      assert id in s.tx.inputs;
      var k :| k in s.consumed && k.id == id && s.consumed[k] == byID[id];
      assert ledger[k].output.address == k.address;
      assert k == keys[i];
    }
  }

  function ObjectBalances(objects: seq<LedgerOutput>): seq<Balances> {
    seq(|objects|, i requires 0 <= i < |objects| => objects[i].balances)
  }

  /** A transaction whose inputs and unlock blocks fit what it consumes. */
  ghost predicate IsSealed(s: Sent, keys: seq<Key>, inputsInOrder: seq<LedgerOutput>) {
    && Ascending(s.tx.inputs)
    && SpendsItsInputs(s)
    && AreConsumed(s, keys)
    && (HasLegalSize(s.tx) ==> UnlocksEach(s.tx.unlockBlocks, OwnersAlong(keys)))
    && |inputsInOrder| == |keys|
    && (forall i | 0 <= i < |keys| :: inputsInOrder[i] == s.consumed[keys[i]].ledgerOutput)
  }

  /** Outputs as the ledger holds them: no identifier under two addresses, none without coins, and not more coins than
      fit an uint64. */
  ghost predicate IsOrdinary(consumed: O) {
    && UniqueIDs(consumed)
    && (forall k | k in consumed :: consumed[k].ledgerOutput.balances != map[])
    && Amount(Funds(consumed)) <= MAX_UINT64
  }

  /** The balance check of a sealed transaction. For ordinary outputs it passes exactly if the built outputs hold what
      is consumed. */
  method CheckBalances(s: Sent, ghost keys: seq<Key>, inputsInOrder: seq<LedgerOutput>) returns (valid: bool)
    requires IsSealed(s, keys, inputsInOrder) && HasLegalSize(s.tx)
    ensures valid ==> IsProper(s)
    ensures IsOrdinary(s.consumed) ==> (valid <==> IsBalanced(Funds(s.consumed), OutputsTotal(s.tx.outputs)))
  {
    assert BalancesAlong(keys, s.consumed) == ObjectBalances(inputsInOrder);
    valid := TransactionBalancesValid(ObjectBalances(inputsInOrder), BalancesIn(s.tx.outputs));
    if valid {
      assert IsAuthorized(s, keys);
    }
    if IsOrdinary(s.consumed) {
      InputsHoldAll(s, keys);
      assert keys[0] in keys;
      assert (ObjectBalances(inputsInOrder) + BalancesIn(s.tx.outputs))[0] == ObjectBalances(inputsInOrder)[0];
      OrdinaryFits(Funds(s.consumed), OutputsTotal(s.tx.outputs));
    }
  }

  /** The unlock check of a sealed transaction. Unless an identifier occurs twice, it passes exactly if the signatures
      verify and everything that is consumed can be unlocked at the time. */
  method CheckUnlocks(s: Sent, ghost keys: seq<Key>, inputsInOrder: seq<LedgerOutput>, seed: Seed, response: Response)
    returns (valid: bool)
    requires IsSealed(s, keys, inputsInOrder) && HasLegalSize(s.tx)
    requires forall k | k in s.consumed :: IsValueOutput(s.consumed[k].ledgerOutput)
    ensures response.signatures && AreUnlockable(s.consumed, seed, response.timestamp) ==> valid
    ensures valid && UniqueIDs(s.consumed) ==>
              response.signatures && AreUnlockable(s.consumed, seed, response.timestamp)
  {
    forall i | 0 <= i < |keys| ensures keys[i] in s.consumed {
      assert keys[i] in keys;
    }
    valid := UnlockBlocksValid(inputsInOrder, s.tx.unlockBlocks, OwnersAlong(keys), seed, response.timestamp,
                               response.signatures);
    if valid && UniqueIDs(s.consumed) {
      InputsAreAll(s, keys);
      forall k | k in s.consumed
        ensures Unlocks(s.consumed[k].ledgerOutput, seed.AddressOf(k.address.index).addressBytes, response.timestamp)
      {
        var i :| 0 <= i < |keys| && keys[i] == k;
        assert OwnersAlong(keys)[i] == k.address;
        assert Unlocks(inputsInOrder[i], seed.AddressOf(OwnersAlong(keys)[i].index).addressBytes, response.timestamp);
      }
      assert Unlocks(inputsInOrder[0], seed.AddressOf(OwnersAlong(keys)[0].index).addressBytes, response.timestamp);
    }
  }

  lemma RejectionHasReason(s: Sent, seed: Seed, response: Response)
    requires !(IsOrdinary(s.consumed) && IsBalanced(Funds(s.consumed), OutputsTotal(s.tx.outputs))) ||
             !(response.signatures && AreUnlockable(s.consumed, seed, response.timestamp))
    ensures MayFailWith(s.consumed, s.tx.outputs, Rejected, response, seed)
  {
  }

  /** The checks before anything is marked; None if there is no objection. */
  method Check(s: Sent, ghost keys: seq<Key>, inputsInOrder: seq<LedgerOutput>, seed: Seed, response: Response)
    returns (err: Option<WalletError>)
    requires IsSealed(s, keys, inputsInOrder)
    requires forall k | k in s.consumed :: IsValueOutput(s.consumed[k].ledgerOutput)
    requires 1 <= |s.consumed| <= MAX_INPUT_COUNT ==> HasLegalSize(s.tx)
    ensures err.None? ==> IsProper(s)
    ensures err.None? && UniqueIDs(s.consumed) ==> AreUnlockable(s.consumed, seed, response.timestamp)
    ensures err.Some? ==> MayFailWith(s.consumed, s.tx.outputs, err.value, response, seed)
  {
    // encoding a transaction without inputs, or with too many of them, panics
    if !HasLegalSize(s.tx) {
      return Some(Panicked);
    }
    // the encoded bytes must be readable again
    if !response.readsBack {
      return Some(Malformed);
    }
    // balances first, then unlock blocks
    var balancesValid := CheckBalances(s, keys, inputsInOrder);
    var unlocksValid := CheckUnlocks(s, keys, inputsInOrder, seed, response);
    if !balancesValid || !unlocksValid {
      RejectionHasReason(s, seed, response);
      return Some(Rejected);
    }
    err := None;
  }

  lemma OrdinaryFits(consumed: Balances, created: Balances)
    requires Amount(consumed) <= MAX_UINT64
    ensures Passes(consumed, created) <==> IsBalanced(consumed, created)
  {
    forall c | c in consumed ensures consumed[c] < TWO_TO_THE_64 {
      AmountUpdate(consumed, c, 0);
    }
    AmountByTint(created);
  }

  lemma MarkOneMore(ledger: Ledger, marked: set<Key>, k: Key)
    ensures MarkedSpent(MarkedSpent(ledger, marked), {k}) == MarkedSpent(ledger, marked + {k})
  {
  }
}

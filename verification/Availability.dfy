/** The available balance, and why it can always be spent. */
module Availability {
  import opened Collections
  import opened Balances
  import opened Addresses
  import opened Outputs
  import opened OutputManagement
  import opened Funding
  import opened FundingTheorems

  /** Which outputs count. The case for single-balance outputs has an empty body, so they do not. */
  predicate IsAvailable(k: Key, o: LedgerOutput, now: Time) {
    match o
    case SigLockedSingleOutput(_, _, _) => false
    case SigLockedColoredOutput(_, _, _) => true
    case ExtendedLockedOutput(_, _, _, _, _, _) =>
      !o.TimeLockedNow(now) && k.address.addressBytes == o.UnlockAddressNow(now)
    case AliasOutput(_, _, _, _) => false
  }

  ghost function Available(unspent: O, confirmed: bool, now: Time): (r: O)
    ensures forall k :: k in r <==> k in unspent && Counts(k, unspent[k], confirmed, now)
    ensures forall k | k in r :: r[k] == unspent[k]
  {
    Only(unspent, set k | k in unspent && Counts(k, unspent[k], confirmed, now))
  }

  predicate Counts(k: Key, output: Output, confirmed: bool, now: Time) {
    output.confirmationStateReached == confirmed && IsAvailable(k, output.ledgerOutput, now)
  }

  /** Adds up the available outputs, confirmed and pending ones apart. */
  method AvailableBalance(unspent: O, now: Time) returns (confirmedBalance: Balances, pendingBalance: Balances)
    ensures confirmedBalance == Funds(Available(unspent, true, now))
    ensures pendingBalance == Funds(Available(unspent, false, now))
  {
    confirmedBalance, pendingBalance := map[], map[];
    var todo := unspent.Keys;
    ghost var done: O := map[];
    while todo != {}
      invariant todo <= unspent.Keys && done == Only(unspent, unspent.Keys - todo)
      invariant confirmedBalance == Funds(Available(done, true, now))
      invariant pendingBalance == Funds(Available(done, false, now))
    {
      var k :| k in todo;
      var output := unspent[k];
      AvailableStep(done, k, output, true, now);
      AvailableStep(done, k, output, false, now);
      var counts := false;
      match output.ledgerOutput {
        case SigLockedSingleOutput(_, _, _) =>
        case SigLockedColoredOutput(_, _, _) =>
          counts := true;
        case ExtendedLockedOutput(_, _, _, _, _, _) =>
          // timelocked funds are not available, and we have to own the output now
          counts := !output.ledgerOutput.TimeLockedNow(now) &&
                    k.address.addressBytes == output.ledgerOutput.UnlockAddressNow(now);
        case AliasOutput(_, _, _, _) =>
      }
      if counts {
        if output.confirmationStateReached {
          confirmedBalance := AddAll(confirmedBalance, output.ledgerOutput.balances);
        } else {
          pendingBalance := AddAll(pendingBalance, output.ledgerOutput.balances);
        }
      }
      todo := todo - {k};
      done := done[k := output];
    }
    assert done == unspent;
  }

  lemma AvailableStep(done: O, k: Key, output: Output, confirmed: bool, now: Time)
    requires k !in done
    ensures Funds(Available(done[k := output], confirmed, now)) ==
            if output.confirmationStateReached == confirmed && IsAvailable(k, output.ledgerOutput, now)
            then Plus(Funds(Available(done, confirmed, now)), output.ledgerOutput.balances)
            else Funds(Available(done, confirmed, now))
  {
    AvailableGrows(done, k, output, confirmed, now);
    if output.confirmationStateReached == confirmed && IsAvailable(k, output.ledgerOutput, now) {
      FundsInsert(Available(done, confirmed, now), k, output);
    }
  }

  lemma AvailableGrows(done: O, k: Key, output: Output, confirmed: bool, now: Time)
    requires k !in done
    ensures Available(done[k := output], confirmed, now) ==
            if output.confirmationStateReached == confirmed && IsAvailable(k, output.ledgerOutput, now)
            then Available(done, confirmed, now)[k := output]
            else Available(done, confirmed, now)
  {
  }

  /** Two independent scans agree on what is spendable: at a fixed time and store, a requirement that asks for
      something and that the confirmed available balance covers is never refused for lack of funds. */
  lemma AvailableIsSpendable(ledger: Ledger, addresses: seq<Address>, includePending: bool, required: Balances,
                             now: Time,
                             order: seq<Key>, r: FundingResult)
    requires Distinct(addresses)
    requires Covers(Funds(Available(UnspentOn(ledger, true, Elements(addresses)), true, now)), required)
    requires exists c :: c in required && required[c] > 0
    requires IsCollection(r, order, addresses, ValueOutputs(UnspentOn(ledger, includePending, Elements(addresses))),
                          required, now)
    ensures !r.InsufficientFunds?
  {
    var unspent := ValueOutputs(UnspentOn(ledger, includePending, Elements(addresses)));
    var available := Available(UnspentOn(ledger, true, Elements(addresses)), true, now);
    var candidates := AllCandidates(unspent, Elements(addresses), required, now);
    AvailableIsListed(ledger, Elements(addresses), includePending, now);
    forall c | c in required ensures Get(Funds(available), c) <= Get(Funds(candidates), c) {
      ColourOfCandidates(available, unspent, Elements(addresses), required, now, c);
    }
    NotNothing(candidates, required);
    InsufficientIff(r, order, addresses, unspent, required, now);
  }

  lemma NotNothing(outputs: O, required: Balances)
    requires Covers(Funds(outputs), required) && exists c :: c in required && required[c] > 0
    ensures outputs != map[]
  {
    var c :| c in required && required[c] > 0;
    assert Get(Funds(outputs), c) > 0;
  }

  /** Available outputs are among the listed value outputs. */
  ghost predicate AreListed(available: O, unspent: O, addresses: set<Address>, now: Time) {
    forall k | k in available ::
      k in unspent && k.address in addresses && unspent[k] == available[k] &&
          IsAvailable(k, available[k].ledgerOutput, now)
  }

  lemma AvailableIsListed(ledger: Ledger, addresses: set<Address>, includePending: bool, now: Time)
    ensures AreListed(Available(UnspentOn(ledger, true, addresses), true, now),
                      ValueOutputs(UnspentOn(ledger, includePending, addresses)), addresses, now)
  {
  }

  /** Every available output that holds a required colour is a candidate, and the others do not matter for it. */
  lemma ColourOfCandidates(available: O, unspent: O, addresses: set<Address>, required: Balances, now: Time, c: Color)
    requires c in required && AreListed(available, unspent, addresses, now)
    ensures Get(Funds(available), c) <= Get(Funds(AllCandidates(unspent, addresses, required, now)), c)
  {
    SplitByColour(available, c);
    HoldersAreCandidates(available, unspent, addresses, required, now, c);
    FundsOfPart(Holding(available, c, true), AllCandidates(unspent, addresses, required, now), c);
  }

  lemma HoldersAreCandidates(available: O, unspent: O, addresses: set<Address>, required: Balances, now: Time, c: Color)
    requires c in required && AreListed(available, unspent, addresses, now)
    ensures forall k | k in Holding(available, c, true) ::
              k in AllCandidates(unspent, addresses, required, now) &&
              AllCandidates(unspent, addresses, required, now)[k] == available[k]
  {
    forall k | k in Holding(available, c, true) ensures IsCandidate(k, unspent[k], required, now) {
      assert c in unspent[k].ledgerOutput.balances && c in required;
    }
  }

  ghost function Holding(outputs: O, c: Color, holds: bool): (r: O)
    ensures forall k :: k in r <==> k in outputs && (c in outputs[k].ledgerOutput.balances) == holds
    ensures forall k | k in r :: r[k] == outputs[k]
  {
    Only(outputs, set k | k in outputs && (c in outputs[k].ledgerOutput.balances) == holds)
  }

  lemma SplitByColour(outputs: O, c: Color)
    ensures Get(Funds(outputs), c) == Get(Funds(Holding(outputs, c, true)), c)
  {
    assert outputs == Holding(outputs, c, true) + Holding(outputs, c, false);
    FundsUnion(Holding(outputs, c, true), Holding(outputs, c, false));
    TotalKeys(BalancesOf(Holding(outputs, c, false)), c);
  }

  // ---------------------------------------------------------------- what the balance leaves out

  /** The value outputs that a collection may take at the given time. */
  ghost function Collectable(unspent: O, confirmed: bool, now: Time): (r: O)
    ensures forall k :: k in r <==> k in unspent && IsCollectable(k, unspent[k], confirmed, now)
    ensures forall k | k in r :: r[k] == unspent[k]
  {
    Only(unspent, set k | k in unspent && IsCollectable(k, unspent[k], confirmed, now))
  }

  predicate IsCollectable(k: Key, output: Output, confirmed: bool, now: Time) {
    && output.confirmationStateReached == confirmed
    && IsValueOutput(output.ledgerOutput)
    && CanUnlock(k, output.ledgerOutput, now)
  }

  predicate IsSkipped(output: Output, confirmed: bool) {
    output.confirmationStateReached == confirmed && output.ledgerOutput.SigLockedSingleOutput?
  }

  ghost function Skipped(unspent: O, confirmed: bool): (r: O)
    ensures forall k :: k in r <==> k in unspent && IsSkipped(unspent[k], confirmed)
    ensures forall k | k in r :: r[k] == unspent[k]
  {
    Only(unspent, set k | k in unspent && IsSkipped(unspent[k], confirmed))
  }

  /** The balance is all that can be collected if and only if the single-balance outputs hold nothing. */
  lemma AvailableIsAllIff(unspent: O, confirmed: bool, now: Time)
    ensures SameAmounts(Funds(Available(unspent, confirmed, now)), Funds(Collectable(unspent, confirmed, now))) <==>
            forall k | k in unspent && IsSkipped(unspent[k], confirmed) :: unspent[k].ledgerOutput.balances == map[]
  {
    var available, skipped := Available(unspent, confirmed, now), Skipped(unspent, confirmed);
    SameMap(available + skipped, Collectable(unspent, confirmed, now));
    FundsUnion(available, skipped);
    HoldsNothingIff(skipped);
  }

  lemma HoldsNothingIff(outputs: O)
    ensures (forall c :: Get(Funds(outputs), c) == 0) <==>
            forall k | k in outputs :: outputs[k].ledgerOutput.balances == map[]
  {
    FundsPositive(outputs);
    forall c {
      TotalKeys(BalancesOf(outputs), c);
    }
    forall k | k in outputs && outputs[k].ledgerOutput.balances != map[]
      ensures exists c :: Get(Funds(outputs), c) != 0
    {
      var c :| c in BalancesOf(outputs)[k];
      assert c in Funds(outputs) && Get(Funds(outputs), c) > 0;
    }
  }

  /** One coin in a single-balance output can be collected, and the balance is zero. */
  lemma OneCoinNotCounted(k: Key, now: Time) returns (unspent: O)
    ensures unspent.Keys == {k} && Collectable(unspent, true, now) == unspent
    ensures Get(Funds(unspent), ColorZIPP) == 1 && Funds(Available(unspent, true, now)) == map[]
  {
    var none: O := map[];
    var output := Output(k.address, SigLockedSingleOutput(k.id, map[ColorZIPP := 1], k.address.addressBytes), true);
    unspent := none[k := output];
    FundsInsert(none, k, output);
    assert Available(unspent, true, now) == none;
  }
}

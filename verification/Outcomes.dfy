/** When transfers, consolidations and claims succeed in a world that refuses nothing. */
module Outcomes {
  import opened Collections
  import opened Balances
  import opened BalanceCheck
  import opened BalanceChecker
  import opened Addresses
  import opened Outputs
  import opened Funding
  import opened Transactions
  import opened History
  import opened Wallets

  // ---------------------------------------------------------------- transfers

  /** A paid transfer of ordinary outputs is handed over if and only if its outputs can be built and its inputs can be
      unlocked at its time. */
  lemma TransferSucceedsIff(err: Option<WalletError>, handed: seq<Sent>, consumed: O, options: SendFundsOptions,
                            remainder: Address, response: Response, seed: Seed)
    requires IsTransferOutcome(err, handed, consumed, options, remainder, response, seed) && response.IsWilling()
    requires err.None? ==> handed != []
    requires Pays(consumed, options) && IsOrdinary(consumed) && 1 <= |consumed| <= MAX_INPUT_COUNT
    ensures handed != [] <==>
              IsBuildable(consumed, options, remainder) && AreUnlockable(consumed, seed, response.timestamp)
  {
  }

  // ---------------------------------------------------------------- consolidations

  /** A consolidation of ordinary outputs that are still open when they are moved ends without an error if and only if
      one transaction can take them all. */
  lemma ConsolidationSucceedsIff(txs: seq<Transaction>, err: Option<WalletError>, handed: seq<Sent>, collected: O,
                                 chunks: seq<O>, responses: nat -> Response, seed: Seed, later: Time)
    requires IsConsolidated(txs, err, handed, collected, chunks, responses, seed, later) && chunks != []
    requires IsOrdinary(collected) && AreListedByOwner(collected)
    requires responses(0).IsWilling() && AreOpen(collected, responses(0).timestamp)
    ensures err.None? <==> |collected| <= MAX_INPUT_COUNT
  {
    if |collected| <= MAX_INPUT_COUNT {
      UnlockableIffOpen(collected, seed, responses(0).timestamp);
      NoReasonToStop(collected, |handed|, responses, seed);
    }
  }

  lemma NoReasonToStop(moved: O, handed: nat, responses: nat -> Response, seed: Seed)
    requires responses(0).IsWilling() && IsOrdinary(moved) && AreUnlockable(moved, seed, responses(0).timestamp)
    requires 1 <= |moved| <= MAX_INPUT_COUNT
    ensures forall err :: !StopsAtFailure([moved], handed, err, responses, seed)
  {
    NoReasonToFail(moved, responses(0), seed);
  }

  lemma NoReasonToFail(moved: O, response: Response, seed: Seed)
    requires response.IsWilling() && IsOrdinary(moved) && AreUnlockable(moved, seed, response.timestamp)
    requires 1 <= |moved| <= MAX_INPUT_COUNT
    ensures forall err :: !MayFail(moved, err, response, seed)
  {
  }

  /** A number of coins on the first address of a wallet. */
  ghost function Coins(seed: Seed, n: nat): (r: O)
    ensures r.Keys == set i: nat | i < n :: Key(seed.AddressOf(0), i)
    ensures forall k | k in r :: r[k] == CoinOf(seed, k)
  {
    Tabulate(set i: nat | i < n :: Key(seed.AddressOf(0), i), k => CoinOf(seed, k))
  }

  function CoinOf(seed: Seed, k: Key): Output {
    Output(k.address, SigLockedColoredOutput(k.id, map[ColorZIPP := 1], k.address.addressBytes), true)
  }

  lemma CoinsGrow(seed: Seed, n: nat)
    ensures Key(seed.AddressOf(0), n) !in Coins(seed, n)
    ensures Coins(seed, n + 1) == Coins(seed, n)[Key(seed.AddressOf(0), n) := CoinOf(seed, Key(seed.AddressOf(0), n))]
  {
    var k := Key(seed.AddressOf(0), n);
    SameMap(Coins(seed, n + 1), Coins(seed, n)[k := CoinOf(seed, k)]);
  }

  lemma {:induction false} CoinsCount(seed: Seed, n: nat)
    ensures |Coins(seed, n)| == n
  {
    if n == 0 {
      assert Coins(seed, 0) == map[];
    } else {
      CoinsCount(seed, n - 1);
      CoinsGrow(seed, n - 1);
    }
  }

  /** One coin each: the coins are as many as the outputs. */
  lemma {:induction false} CoinsAddUp(outputs: O)
    requires forall k | k in outputs :: outputs[k].ledgerOutput.balances == map[ColorZIPP := 1]
    ensures Amount(Funds(outputs)) == Get(Funds(outputs), ColorZIPP) == |outputs|
    decreases |outputs|
  {
    if outputs == map[] {
      assert Funds(outputs) == map[];
    } else {
      var k :| k in outputs;
      var rest := outputs - {k};
      assert rest.Keys == outputs.Keys - {k} && rest[k := outputs[k]] == outputs;
      CoinsAddUp(rest);
      FundsInsert(rest, k, outputs[k]);
      OneCoin(outputs[k].ledgerOutput.balances);
      AmountPlus(Funds(rest), outputs[k].ledgerOutput.balances);
    }
  }

  lemma CoinsWorth(seed: Seed, n: nat)
    ensures |Coins(seed, n)| == Get(Funds(Coins(seed, n)), ColorZIPP) == Amount(Funds(Coins(seed, n))) == n
  {
    CoinsCount(seed, n);
    CoinsAddUp(Coins(seed, n));
  }

  lemma OneCoin(coin: Balances)
    requires coin == map[ColorZIPP := 1]
    ensures Amount(coin) == 1
  {
    AmountRemove(coin, ColorZIPP);
    assert coin - {ColorZIPP} == map[];
  }

  /** For 128 ordinary open coins every consolidation ends with an error, whatever the world does. */
  lemma OneCoinTooMany(seed: Seed) returns (collected: O)
    ensures |collected| == MAX_INPUT_COUNT + 1 && IsOrdinary(collected)
    ensures AreListedByOwner(collected) && AreOwned(collected, seed) && forall t :: AreOpen(collected, t)
    ensures forall txs, err, handed, chunks, responses, later |
              IsConsolidated(txs, err, handed, collected, chunks, responses, seed, later) :: err.Some?
  {
    collected := Coins(seed, MAX_INPUT_COUNT + 1);
    CoinsCount(seed, MAX_INPUT_COUNT + 1);
    CoinsAreOrdinary(seed, MAX_INPUT_COUNT + 1);
    CoinsAreOpen(seed, MAX_INPUT_COUNT + 1);
    TooManyErrs(collected, seed);
  }

  lemma CoinsAreOrdinary(seed: Seed, n: nat)
    requires n <= MAX_UINT64
    ensures IsOrdinary(Coins(seed, n))
  {
    CoinsWorth(seed, n);
    CoinsAreDistinct(seed, n);
  }

  lemma CoinsAreDistinct(seed: Seed, n: nat)
    ensures UniqueIDs(Coins(seed, n))
    ensures forall k | k in Coins(seed, n) :: Coins(seed, n)[k].ledgerOutput.balances != map[]
  {
    assert ColorZIPP in map[ColorZIPP := 1];
  }

  lemma CoinsAreOpen(seed: Seed, n: nat)
    ensures var r := Coins(seed, n);
            AreListedByOwner(r) && AreOwned(r, seed) && forall t :: AreOpen(r, t)
  {
  }

  lemma TooManyErrs(collected: O, seed: Seed)
    requires |collected| > MAX_INPUT_COUNT
    ensures forall txs, err, handed, chunks, responses, later |
              IsConsolidated(txs, err, handed, collected, chunks, responses, seed, later) :: err.Some?
  {
  }

  // ---------------------------------------------------------------- claims

  /** A claim of ordinary outputs that fit one transaction is handed over if and only if none of them is time-locked or
      belongs to somebody else when the transaction is sealed. */
  lemma ClaimSucceedsIff(tx: Option<Transaction>, err: Option<WalletError>, handed: seq<Sent>, claimed: O,
                         destination: Address, later: Time, response: Response, seed: Seed)
    requires IsClaim(tx, err, handed, claimed, destination, later, response, seed) && response.IsWilling()
    requires IsOrdinary(claimed) && 1 <= |claimed| <= MAX_INPUT_COUNT
    ensures handed != [] <==> AreOpen(claimed, response.timestamp)
  {
    UnlockableIffOpen(claimed, seed, response.timestamp);
  }

  /** If the clock has not moved since the outputs were picked, only their time locks matter. */
  lemma ClaimSucceedsIffNoTimeLock(tx: Option<Transaction>, err: Option<WalletError>, handed: seq<Sent>, claimed: O,
                                   destination: Address, later: Time, response: Response, seed: Seed)
    requires IsClaim(tx, err, handed, claimed, destination, later, response, seed) && response.IsWilling()
    requires IsOrdinary(claimed) && 1 <= |claimed| <= MAX_INPUT_COUNT && response.timestamp == later
    ensures handed != [] <==> forall k | k in claimed :: !claimed[k].ledgerOutput.TimeLockedNow(later)
  {
    ClaimSucceedsIff(tx, err, handed, claimed, destination, later, response, seed);
  }

  /** A transfer with a lock and a fallback option makes an output that is claimed and cannot be unlocked. */
  lemma LockedButConditional(seed: Seed) returns (claimed: O, k: Key)
    ensures claimed.Keys == {k} && AreOwned(claimed, seed) && IsOrdinary(claimed)
    ensures claimed[k].confirmationStateReached && IsConditional(k, claimed[k].ledgerOutput, 5)
    ensures claimed[k].ledgerOutput.TimeLockedNow(5) && !AreOpen(claimed, 5)
  {
    var a := seed.AddressOf(0);
    k := Key(a, 0);
    var coin: Balances := map[ColorZIPP := 1];
    var output := Output(a, ExtendedLockedOutput(0, coin, a.addressBytes, Some([]), 10, 20), true);
    var none: O := map[];
    claimed := none[k := output];
    assert CanUnlock(k, output.ledgerOutput, 5) == false;
    FundsInsert(none, k, output);
    OneCoin(coin);
    PlusNone(coin);
    assert Funds(none) == map[];
  }
}

/** Collecting outputs until a requirement is met. */
module Funding {
  import opened Collections
  import opened Balances
  import opened Addresses
  import opened Outputs

  datatype FundingResult =
    | Funded(outputs: OutputsByAddressAndOutputID)
    | TooManyOutputs(outputs: OutputsByAddressAndOutputID)
    | InsufficientFunds

  // ---------------------------------------------------------------- the order of the scan

  function KeysOn(unspent: O, address: Address): set<Key> {
    set k | k in unspent && k.address == address
  }

  /** One address after the other; the outputs under an address in an order the program cannot choose. */
  ghost predicate IsVisitOrder(order: seq<Key>, addresses: seq<Address>, unspent: O)
    decreases |addresses|
  {
    if addresses == [] then
      order == []
    else
      exists n :: 0 <= n <= |order| && IsVisitOrder(order[..n], addresses[..|addresses| - 1], unspent) &&
        IsRange(order[n..], KeysOn(unspent, addresses[|addresses| - 1]))
  }

  ghost predicate IsRange(order: seq<Key>, keys: set<Key>) {
    Distinct(order) && Elements(order) == keys
  }

  method VisitOrder(addresses: seq<Address>, unspent: O) returns (order: seq<Key>)
    ensures IsVisitOrder(order, addresses, unspent)
  {
    order := [];
    for i := 0 to |addresses|
      invariant IsVisitOrder(order, addresses[..i], unspent)
    {
      var part := SomeOrder(KeysOn(unspent, addresses[i]));
      var grown := order + part;
      assert grown[..|order|] == order && grown[|order|..] == part;
      assert addresses[..i + 1][..i] == addresses[..i];
      order := grown;
    }
    assert addresses[..|addresses|] == addresses;
  }

  lemma {:induction false} VisitedKeys(order: seq<Key>, addresses: seq<Address>, unspent: O, k: Key)
    requires IsVisitOrder(order, addresses, unspent)
    ensures k in order <==> k in unspent && k.address in addresses
    decreases |addresses|
  {
    if addresses != [] {
      var front, last := addresses[..|addresses| - 1], addresses[|addresses| - 1];
      var n :| 0 <= n <= |order| && IsVisitOrder(order[..n], front, unspent) &&
          IsRange(order[n..], KeysOn(unspent, last));
      VisitedKeys(order[..n], front, unspent, k);
      assert order == order[..n] + order[n..] && addresses == front + [last];
      assert k in order[n..] <==> k in Elements(order[n..]);
    }
  }

  /** If no address is listed twice, no output is visited twice. */
  lemma {:induction false} VisitedOnce(order: seq<Key>, addresses: seq<Address>, unspent: O)
    requires IsVisitOrder(order, addresses, unspent) && Distinct(addresses)
    ensures Distinct(order)
    decreases |addresses|
  {
    if addresses != [] {
      var front, last := addresses[..|addresses| - 1], addresses[|addresses| - 1];
      var n :| 0 <= n <= |order| && IsVisitOrder(order[..n], front, unspent) &&
          IsRange(order[n..], KeysOn(unspent, last));
      VisitedOnce(order[..n], front, unspent);
      forall i, j | 0 <= i < n <= j < |order| ensures order[i] != order[j] {
        VisitedKeys(order[..n], front, unspent, order[i]);
        assert order[i] in order[..n] && order[j] in order[n..];
        assert order[j] in Elements(order[n..]);
        assert last !in front;
      }
      assert forall i | 0 <= i < n :: order[..n][i] == order[i];
      assert forall j | n <= j < |order| :: order[n..][j - n] == order[j];
    }
  }

  // ---------------------------------------------------------------- candidates

  /** An extended output that is time-locked or belongs to somebody else at the moment is skipped. */
  predicate CanUnlock(k: Key, o: LedgerOutput, now: Time) {
    o.ExtendedLockedOutput? ==> !o.TimeLockedNow(now) && o.UnlockAddressNow(now) == k.address.addressBytes
  }

  predicate Contributes(o: LedgerOutput, required: Balances) {
    exists c :: c in o.balances && c in required
  }

  predicate IsCandidate(k: Key, o: Output, required: Balances, now: Time) {
    CanUnlock(k, o.ledgerOutput, now) && Contributes(o.ledgerOutput, required)
  }

  /** The contributing outputs in the order of the scan. */
  ghost function Candidates(order: seq<Key>, unspent: O, required: Balances, now: Time): seq<Key>
    requires forall k | k in order :: k in unspent
  {
    if order == [] then []
    else
      var front, last := Candidates(order[..|order| - 1], unspent, required, now), order[|order| - 1];
      if IsCandidate(last, unspent[last], required, now) then front + [last] else front
  }

  lemma {:induction false} CandidateKeys(order: seq<Key>, unspent: O, required: Balances, now: Time)
    requires forall k | k in order :: k in unspent
    ensures forall k :: k in Candidates(order, unspent, required, now) <==>
                        k in order && IsCandidate(k, unspent[k], required, now)
    ensures Distinct(order) ==> Distinct(Candidates(order, unspent, required, now))
  {
    if order != [] {
      var front, last := order[..|order| - 1], order[|order| - 1];
      assert order == front + [last];
      CandidateKeys(front, unspent, required, now);
    }
  }

  lemma {:induction false} CandidatesPrefix(order: seq<Key>, n: nat, unspent: O, required: Balances, now: Time)
    requires forall k | k in order :: k in unspent
    requires n <= |order|
    ensures Candidates(order[..n], unspent, required, now) <= Candidates(order, unspent, required, now)
  {
    if n == |order| {
      assert order[..n] == order;
    } else {
      var front := order[..|order| - 1];
      CandidatesPrefix(front, n, unspent, required, now);
      assert front[..n] == order[..n];
    }
  }

  function BalancesAlong(keys: seq<Key>, unspent: O): seq<Balances>
    requires forall k | k in keys :: k in unspent
  {
    seq(|keys|, i requires 0 <= i < |keys| => unspent[keys[i]].ledgerOutput.balances)
  }

  /** Whether the outputs visited so far add up to the requirement; an output visited twice counts twice. */
  ghost predicate Suffices(keys: seq<Key>, unspent: O, required: Balances)
    requires forall k | k in keys :: k in unspent
  {
    Covers(Sum(BalancesAlong(keys, unspent)), required)
  }

  /** The outcome in terms of the list of candidates alone: the first sufficient prefix if it is short enough, too many
      outputs if only a longer list suffices, and a failure if there is no candidate or all together do not suffice. */
  ghost predicate IsOutcome(result: FundingResult, candidates: seq<Key>, unspent: O, required: Balances, max: nat)
    requires forall k | k in candidates :: k in unspent
  {
    match result
    case Funded(outputs) =>
      exists n: nat :: IsFirstSufficient(n, candidates, unspent, required) && n <= max &&
        outputs == Only(unspent, Elements(candidates[..n]))
    case TooManyOutputs(outputs) =>
      && max < |candidates| && Suffices(candidates, unspent, required)
      && (forall n | 1 <= n <= max :: !Suffices(candidates[..n], unspent, required))
      && outputs == Only(unspent, Elements(candidates))
    case InsufficientFunds =>
      candidates == [] || !Suffices(candidates, unspent, required)
  }

  ghost predicate IsFirstSufficient(n: nat, candidates: seq<Key>, unspent: O, required: Balances)
    requires forall k | k in candidates :: k in unspent
  {
    && 1 <= n <= |candidates|
    && Suffices(candidates[..n], unspent, required)
    && (forall m | 1 <= m < n :: !Suffices(candidates[..m], unspent, required))
  }

  // ---------------------------------------------------------------- the scan

  /** Checks if collected has at least the target funds. */
  method EnoughCollected(collected: Balances, target: Balances) returns (enough: bool)
    ensures enough <==> Covers(collected, target)
  {
    var todo := target.Keys;
    while todo != {}
      invariant todo <= target.Keys
      invariant forall c | c in target && c !in todo :: target[c] <= Get(collected, c)
    {
      var c :| c in todo;
      if Get(collected, c) < target[c] {
        return false;
      }
      todo := todo - {c};
    }
    return true;
  }

  /** Adds the colours of one output that are asked for. */
  method CollectFrom(collected: Balances, balances: Balances, required: Balances)
    returns (result: Balances, contributing: bool)
    ensures forall c | c in required :: Get(result, c) == Get(collected, c) + Get(balances, c)
    ensures forall c | c !in required :: Get(result, c) == Get(collected, c)
    ensures contributing <==> exists c :: c in balances && c in required
  {
    result, contributing := collected, false;
    var todo := balances.Keys;
    while todo != {}
      invariant todo <= balances.Keys
      invariant forall c | c in required :: Get(result, c) == Get(collected, c) + if c in todo then 0
                else Get(balances, c)
      invariant forall c | c !in required :: Get(result, c) == Get(collected, c)
      invariant contributing <==> exists c :: c in balances && c !in todo && c in required
    {
      var c :| c in todo;
      if c in required {
        result := result[c := Get(result, c) + balances[c]];
        contributing := true;
      }
      todo := todo - {c};
    }
  }

  /** Scans the unspent value outputs in the given order. */
  method CollectAlong(order: seq<Key>, unspent: O, required: Balances, now: Time) returns (result: FundingResult)
    requires forall k | k in order :: k in unspent
    ensures forall k | k in Candidates(order, unspent, required, now) :: k in unspent
    ensures IsOutcome(result, Candidates(order, unspent, required, now), unspent, required, MAX_INPUT_COUNT)
  {
    CandidateKeys(order, unspent, required, now);
    ghost var all := Candidates(order, unspent, required, now);
    var collected: Balances := map[];
    var outputsToConsume: O := map[];
    var numOfCollectedOutputs := 0;
    ghost var seen: seq<Key> := [];
    for i := 0 to |order|
      invariant seen == Candidates(order[..i], unspent, required, now)
      invariant numOfCollectedOutputs == |seen|
      invariant IsProgress(collected, outputsToConsume, seen, all, unspent, required)
    {
      var k := order[i];
      var output := unspent[k];
      NextCandidate(order, i, unspent, required, now);
      if output.ledgerOutput.ExtendedLockedOutput? {
        if output.ledgerOutput.TimeLockedNow(now) ||
            output.ledgerOutput.UnlockAddressNow(now) != k.address.addressBytes {
          // nobody could sign for it now
          continue;
        }
      }
      var contributingOutput;
      ghost var previous := collected;
      collected, contributingOutput := CollectFrom(collected, output.ledgerOutput.balances, required);
      if contributingOutput {
        // it becomes an input
        ProgressMore(previous, collected, outputsToConsume, seen, k, all, unspent, required);
        outputsToConsume := outputsToConsume[k := output];
        numOfCollectedOutputs := numOfCollectedOutputs + 1;
        seen := seen + [k];
        var enough := EnoughCollected(collected, required);
        if enough && numOfCollectedOutputs <= MAX_INPUT_COUNT {
          return Funded(outputsToConsume);
        }
      } else {
        NothingMore(previous, collected, outputsToConsume, seen, output.ledgerOutput.balances, all, unspent, required);
      }
    }
    assert order[..|order|] == order;
    CollectedSuffices(collected, seen, unspent, required);
    NotYetAtEnd(all, unspent, required);
    var enough := EnoughCollected(collected, required);
    if enough && numOfCollectedOutputs > MAX_INPUT_COUNT {
      return TooManyOutputs(outputsToConsume);
    }
    return InsufficientFunds;
  }

  lemma NextCandidate(order: seq<Key>, i: nat, unspent: O, required: Balances, now: Time)
    requires i < |order| && forall k | k in order :: k in unspent
    ensures var seen := Candidates(order[..i], unspent, required, now);
            Candidates(order[..i + 1], unspent, required, now) ==
            if IsCandidate(order[i], unspent[order[i]], required, now) then seen + [order[i]] else seen
    ensures Candidates(order[..i + 1], unspent, required, now) <= Candidates(order, unspent, required, now)
  {
    assert order[..i + 1][..i] == order[..i];
    CandidatesPrefix(order, i + 1, unspent, required, now);
  }

  /** Where the scan stands: the candidates seen so far, what they add up to, and that it is not enough yet. */
  ghost predicate IsProgress(collected: Balances, taken: O, seen: seq<Key>, all: seq<Key>, unspent: O,
                             required: Balances) {
    && (forall k | k in all :: k in unspent) && seen <= all
    && (forall k | k in seen :: k in unspent)
    && taken == Only(unspent, Elements(seen))
    && IsCollected(collected, seen, unspent, required)
    && NotYet(seen, unspent, required)
  }

  lemma ProgressMore(previous: Balances, collected: Balances, taken: O, seen: seq<Key>, k: Key, all: seq<Key>,
                     unspent: O,
                     required: Balances)
    requires IsProgress(previous, taken, seen, all, unspent, required)
    requires k in unspent && seen + [k] <= all
    requires forall c | c in required ::
               Get(collected, c) == Get(previous, c) + Get(unspent[k].ledgerOutput.balances, c)
    ensures if Covers(collected, required) && |seen| < MAX_INPUT_COUNT
            then IsOutcome(Funded(taken[k := unspent[k]]), all, unspent, required, MAX_INPUT_COUNT)
            else IsProgress(collected, taken[k := unspent[k]], seen + [k], all, unspent, required)
  {
    SeenGrows(seen, k, unspent);
    CollectedGrows(previous, collected, seen, k, unspent, required);
    CollectedSuffices(collected, seen + [k], unspent, required);
    if Covers(collected, required) && |seen| < MAX_INPUT_COUNT {
      FirstSufficient(seen, k, all, unspent, required);
    } else {
      StillNotYet(seen, k, unspent, required);
    }
  }

  lemma NothingMore(previous: Balances, collected: Balances, taken: O, seen: seq<Key>, balances: Balances,
                    all: seq<Key>,
                    unspent: O, required: Balances)
    requires IsProgress(previous, taken, seen, all, unspent, required)
    requires !exists c :: c in balances && c in required
    requires forall c | c in required :: Get(collected, c) == Get(previous, c) + Get(balances, c)
    ensures IsProgress(collected, taken, seen, all, unspent, required)
  {
  }

  /** The running sum agrees with the outputs seen so far on every colour that is asked for. */
  ghost predicate IsCollected(collected: Balances, seen: seq<Key>, unspent: O, required: Balances)
    requires forall k | k in seen :: k in unspent
  {
    forall c | c in required :: Get(collected, c) == Get(Sum(BalancesAlong(seen, unspent)), c)
  }

  ghost predicate NotYet(seen: seq<Key>, unspent: O, required: Balances)
    requires forall k | k in seen :: k in unspent
  {
    forall n | 1 <= n <= |seen| && n <= MAX_INPUT_COUNT :: !Suffices(seen[..n], unspent, required)
  }

  lemma CollectedGrows(previous: Balances, collected: Balances, seen: seq<Key>, k: Key, unspent: O, required: Balances)
    requires k in unspent && (forall j | j in seen :: j in unspent)
    requires IsCollected(previous, seen, unspent, required)
    requires forall c | c in required ::
               Get(collected, c) == Get(previous, c) + Get(unspent[k].ledgerOutput.balances, c)
    ensures IsCollected(collected, seen + [k], unspent, required)
  {
    SeenGrows(seen, k, unspent);
  }

  lemma CollectedSuffices(collected: Balances, seen: seq<Key>, unspent: O, required: Balances)
    requires forall k | k in seen :: k in unspent
    requires IsCollected(collected, seen, unspent, required)
    ensures Covers(collected, required) <==> Suffices(seen, unspent, required)
  {
  }

  lemma FirstSufficient(before: seq<Key>, k: Key, all: seq<Key>, unspent: O, required: Balances)
    requires forall j | j in all :: j in unspent
    requires before + [k] <= all && |before| < MAX_INPUT_COUNT
    requires k in unspent && (forall j | j in before :: j in unspent)
    requires NotYet(before, unspent, required) && Suffices(before + [k], unspent, required)
    ensures IsFirstSufficient(|before| + 1, all, unspent, required)
    ensures all[..|before| + 1] == before + [k]
  {
    assert all[..|before| + 1] == before + [k];
    forall m | 1 <= m < |before| + 1 ensures !Suffices(all[..m], unspent, required) {
      assert all[..m] == before[..m];
      assert !Suffices(before[..m], unspent, required);
    }
  }

  lemma StillNotYet(before: seq<Key>, k: Key, unspent: O, required: Balances)
    requires k in unspent && (forall j | j in before :: j in unspent)
    requires NotYet(before, unspent, required)
    requires |before| < MAX_INPUT_COUNT ==> !Suffices(before + [k], unspent, required)
    ensures NotYet(before + [k], unspent, required)
  {
    var seen := before + [k];
    forall n | 1 <= n <= |seen| && n <= MAX_INPUT_COUNT ensures !Suffices(seen[..n], unspent, required) {
      assert if n == |seen| then seen[..n] == seen else seen[..n] == before[..n];
    }
  }

  lemma NotYetAtEnd(all: seq<Key>, unspent: O, required: Balances)
    requires forall j | j in all :: j in unspent
    requires NotYet(all, unspent, required)
    ensures 1 <= |all| <= MAX_INPUT_COUNT ==> !Suffices(all, unspent, required)
  {
    assert all[..|all|] == all;
  }

  lemma SeenGrows(seen: seq<Key>, k: Key, unspent: O)
    requires k in unspent && forall j | j in seen :: j in unspent
    ensures Elements(seen + [k]) == Elements(seen) + {k}
    ensures Only(unspent, Elements(seen + [k])) == Only(unspent, Elements(seen))[k := unspent[k]]
    ensures Sum(BalancesAlong(seen + [k], unspent)) ==
            Plus(Sum(BalancesAlong(seen, unspent)), unspent[k].ledgerOutput.balances)
  {
    assert Elements(seen + [k]) == Elements(seen) + {k};
    OnlyGrows(unspent, Elements(seen), k);
    SumGrows(seen, k, unspent);
  }

  lemma SumGrows(seen: seq<Key>, k: Key, unspent: O)
    requires k in unspent && forall j | j in seen :: j in unspent
    ensures Sum(BalancesAlong(seen + [k], unspent)) ==
            Plus(Sum(BalancesAlong(seen, unspent)), unspent[k].ledgerOutput.balances)
  {
    assert BalancesAlong(seen + [k], unspent) == BalancesAlong(seen, unspent) + [unspent[k].ledgerOutput.balances];
    SumSnoc(BalancesAlong(seen, unspent), unspent[k].ledgerOutput.balances);
  }
}

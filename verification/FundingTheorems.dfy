/** What a successful, an overlong and a failed collection mean, in any order of the scan. */
module FundingTheorems {
  import opened Collections
  import opened Balances
  import opened Addresses
  import opened Outputs
  import opened Funding

  /** All candidates on the given addresses, without any order. */
  ghost function AllCandidates(unspent: O, addresses: set<Address>, required: Balances, now: Time): (r: O)
    ensures forall k :: k in r <==> k in unspent && k.address in addresses && IsCandidate(k, unspent[k], required, now)
    ensures forall k | k in r :: r[k] == unspent[k]
  {
    Only(unspent, set k | k in unspent && k.address in addresses && IsCandidate(k, unspent[k], required, now))
  }

  /** The running sum over outputs that are visited once is the sum of the set. */
  lemma {:induction false} SumAlongIsFunds(keys: seq<Key>, unspent: O)
    requires Distinct(keys) && forall k | k in keys :: k in unspent
    ensures Sum(BalancesAlong(keys, unspent)) == Funds(Only(unspent, Elements(keys)))
  {
    if keys == [] {
      assert Only(unspent, Elements(keys)) == map[];
    } else {
      var front, last := keys[..|keys| - 1], keys[|keys| - 1];
      assert keys == front + [last];
      SumAlongIsFunds(front, unspent);
      SeenGrows(front, last, unspent);
      FundsInsert(Only(unspent, Elements(front)), last, unspent[last]);
    }
  }

  /** The list of candidates decides the result. */
  lemma OutcomeIsUnique(r: FundingResult, s: FundingResult, candidates: seq<Key>, unspent: O, required: Balances)
    requires forall k | k in candidates :: k in unspent
    requires IsOutcome(r, candidates, unspent, required, MAX_INPUT_COUNT)
    requires IsOutcome(s, candidates, unspent, required, MAX_INPUT_COUNT)
    ensures r == s
  {
    assert candidates[..|candidates|] == candidates;
    if r.Funded? {
      FundedSuffices(r, candidates, unspent, required);
    }
    if s.Funded? {
      FundedSuffices(s, candidates, unspent, required);
    }
  }

  /** A sufficient prefix makes the whole list sufficient. */
  lemma FundedSuffices(r: FundingResult, candidates: seq<Key>, unspent: O, required: Balances)
    requires forall k | k in candidates :: k in unspent
    requires IsOutcome(r, candidates, unspent, required, MAX_INPUT_COUNT) && r.Funded?
    ensures candidates != [] && Suffices(candidates, unspent, required)
  {
    var n: nat :| IsFirstSufficient(n, candidates, unspent, required);
    var all := BalancesAlong(candidates, unspent);
    assert all[..n] == BalancesAlong(candidates[..n], unspent);
    forall c | c in required {
      SumPrefix(all, n, c);
    }
  }

  /** With distinct addresses, what is returned really holds the required funds, consists of candidates, and respects
      the limit exactly if no error is reported. */
  lemma CollectedCovers(r: FundingResult, order: seq<Key>, addresses: seq<Address>, unspent: O, required: Balances,
                        now: Time)
    requires Distinct(addresses) && IsVisitOrder(order, addresses, unspent)
    requires forall k | k in order :: k in unspent
    requires forall k | k in Candidates(order, unspent, required, now) :: k in unspent
    requires IsOutcome(r, Candidates(order, unspent, required, now), unspent, required, MAX_INPUT_COUNT)
    requires !r.InsufficientFunds?
    ensures Covers(Funds(r.outputs), required)
    ensures forall k | k in r.outputs ::
              k in AllCandidates(unspent, Elements(addresses), required, now) && r.outputs[k] == unspent[k]
    ensures r.Funded? ==> 1 <= |r.outputs| <= MAX_INPUT_COUNT
    ensures r.TooManyOutputs? ==>
              |r.outputs| > MAX_INPUT_COUNT && r.outputs == AllCandidates(unspent, Elements(addresses), required, now)
  {
    var candidates := Candidates(order, unspent, required, now);
    CandidateKeys(order, unspent, required, now);
    VisitedOnce(order, addresses, unspent);
    var n := ChosenPrefix(r, candidates, unspent, required);
    SumAlongIsFunds(candidates[..n], unspent);
    OnlyCount(candidates[..n], unspent);
    PrefixIsPart(candidates, n, order, addresses, unspent, required, now);
  }

  lemma ChosenPrefix(r: FundingResult, candidates: seq<Key>, unspent: O, required: Balances) returns (n: nat)
    requires forall k | k in candidates :: k in unspent
    requires IsOutcome(r, candidates, unspent, required, MAX_INPUT_COUNT) && !r.InsufficientFunds?
    ensures n <= |candidates| && r.outputs == Only(unspent, Elements(candidates[..n]))
    ensures Suffices(candidates[..n], unspent, required)
    ensures if r.Funded? then 1 <= n <= MAX_INPUT_COUNT else n == |candidates| > MAX_INPUT_COUNT
  {
    assert candidates[..|candidates|] == candidates;
    if r.Funded? {
      n :| IsFirstSufficient(n, candidates, unspent, required) && n <= MAX_INPUT_COUNT &&
        r.outputs == Only(unspent, Elements(candidates[..n]));
    } else {
      n := |candidates|;
    }
  }

  lemma PrefixIsPart(candidates: seq<Key>, n: nat, order: seq<Key>, addresses: seq<Address>, unspent: O,
                     required: Balances, now: Time)
    requires IsVisitOrder(order, addresses, unspent) && n <= |candidates|
    requires forall k :: k in candidates <==> k in order && k in unspent && IsCandidate(k, unspent[k], required, now)
    ensures forall k | k in Only(unspent, Elements(candidates[..n])) ::
              k in AllCandidates(unspent, Elements(addresses), required, now)
    ensures n == |candidates| ==>
              Only(unspent, Elements(candidates[..n])) == AllCandidates(unspent, Elements(addresses), required, now)
  {
    forall k {
      VisitedKeys(order, addresses, unspent, k);
    }
    if n == |candidates| {
      assert candidates[..n] == candidates;
      AllAlong(candidates, order, addresses, unspent, required, now);
    }
  }

  lemma OnlyCount(keys: seq<Key>, unspent: O)
    requires Distinct(keys) && forall k | k in keys :: k in unspent
    ensures |Only(unspent, Elements(keys))| == |keys|
  {
    DistinctCount(keys);
    assert Only(unspent, Elements(keys)).Keys == Elements(keys);
  }

  /** The candidates along the scan are all candidates. */
  lemma AllAlong(candidates: seq<Key>, order: seq<Key>, addresses: seq<Address>, unspent: O, required: Balances,
                 now: Time)
    requires IsVisitOrder(order, addresses, unspent)
    requires forall k :: k in candidates <==> k in order && k in unspent && IsCandidate(k, unspent[k], required, now)
    ensures Only(unspent, Elements(candidates)) == AllCandidates(unspent, Elements(addresses), required, now)
  {
    forall k {
      VisitedKeys(order, addresses, unspent, k);
    }
    SameMap(Only(unspent, Elements(candidates)), AllCandidates(unspent, Elements(addresses), required, now));
  }

  /** With distinct addresses, a failure is reported exactly if there is no candidate or all candidates together do not
      hold the required funds, whatever order the outputs are visited in. */
  lemma InsufficientIff(r: FundingResult, order: seq<Key>, addresses: seq<Address>, unspent: O, required: Balances,
                        now: Time)
    requires Distinct(addresses) && IsVisitOrder(order, addresses, unspent)
    requires forall k | k in order :: k in unspent
    requires forall k | k in Candidates(order, unspent, required, now) :: k in unspent
    requires IsOutcome(r, Candidates(order, unspent, required, now), unspent, required, MAX_INPUT_COUNT)
    ensures r.InsufficientFunds? <==>
              var all := AllCandidates(unspent, Elements(addresses), required, now);
              all == map[] || !Covers(Funds(all), required)
  {
    var candidates := Candidates(order, unspent, required, now);
    CandidateKeys(order, unspent, required, now);
    VisitedOnce(order, addresses, unspent);
    var all := AllCandidates(unspent, Elements(addresses), required, now);
    AllAlong(candidates, order, addresses, unspent, required, now);
    SumAlongIsFunds(candidates, unspent);
    if candidates != [] {
      assert candidates[0] in all;
    }
    if r.Funded? {
      FundedSuffices(r, candidates, unspent, required);
    }
  }

  // ---------------------------------------------------------------- duplicate addresses

  /** No successful collection over these addresses ever returns less than what was required. */
  ghost predicate FundingIsSound(addresses: seq<Address>) {
    forall unspent: O, required: Balances, now: Time, order: seq<Key>, r: FundingResult ::
      IsCollection(r, order, addresses, unspent, required, now) && r.Funded? ==> Covers(Funds(r.outputs), required)
  }

  ghost predicate IsCollection(r: FundingResult, order: seq<Key>, addresses: seq<Address>, unspent: O,
                               required: Balances, now: Time) {
    && IsVisitOrder(order, addresses, unspent)
    && (forall k | k in order :: k in unspent)
    && (forall k | k in Candidates(order, unspent, required, now) :: k in unspent)
    && IsOutcome(r, Candidates(order, unspent, required, now), unspent, required, MAX_INPUT_COUNT)
  }

  /** The scan trusts its address list: it is sound if and only if no address is listed twice. */
  lemma SoundIffDistinct(addresses: seq<Address>)
    ensures FundingIsSound(addresses) <==> Distinct(addresses)
  {
    if Distinct(addresses) {
      forall unspent: O, required: Balances, now: Time, order: seq<Key>, r: FundingResult |
        IsCollection(r, order, addresses, unspent, required, now) && r.Funded?
        ensures Covers(Funds(r.outputs), required)
      {
        CollectedCovers(r, order, addresses, unspent, required, now);
      }
    } else {
      var unspent, required, order, r := CountedTwice(addresses);
      assert IsCollection(r, order, addresses, unspent, required, 0);
    }
  }

  function Coin(a: Address): Output {
    Output(a, SigLockedColoredOutput(0, map[ColorZIPP := 1], a.addressBytes), true)
  }

  /** The only output of the wallet once for every time its address is listed. */
  ghost function Visits(addresses: seq<Address>, k: Key): seq<Key> {
    if addresses == [] then []
    else
      var front := Visits(addresses[..|addresses| - 1], k);
      if addresses[|addresses| - 1] == k.address then front + [k] else front
  }

  lemma {:induction false} VisitsAreAnOrder(addresses: seq<Address>, k: Key, unspent: O)
    requires unspent.Keys == {k} && IsCandidate(k, unspent[k], map[ColorZIPP := 2], 0)
    ensures IsVisitOrder(Visits(addresses, k), addresses, unspent)
    ensures forall j | j in Visits(addresses, k) :: j == k
    ensures Candidates(Visits(addresses, k), unspent, map[ColorZIPP := 2], 0) == Visits(addresses, k)
  {
    if addresses != [] {
      var front, last := addresses[..|addresses| - 1], addresses[|addresses| - 1];
      VisitsAreAnOrder(front, k, unspent);
      var order, n := Visits(addresses, k), |Visits(front, k)|;
      assert order[..n] == Visits(front, k);
      assert IsRange(order[n..], KeysOn(unspent, last)) by {
        assert order[n..] == if last == k.address then [k] else [];
      }
    }
  }

  lemma {:induction false} VisitsCount(addresses: seq<Address>, k: Key)
    ensures k.address in addresses ==> |Visits(addresses, k)| >= 1
    ensures forall i, j | 0 <= i < j < |addresses| && addresses[i] == addresses[j] == k.address ::
            |Visits(addresses, k)| >= 2
  {
    if addresses != [] {
      var front := addresses[..|addresses| - 1];
      VisitsCount(front, k);
      forall i, j | 0 <= i < j < |addresses| && addresses[i] == addresses[j] == k.address
        ensures |Visits(addresses, k)| >= 2
      {
        assert addresses[i] == front[i] && front[i] in front;
        if j < |front| {
          assert addresses[j] == front[j];
        }
      }
    }
  }

  /** A single coin on an address that is listed twice pays for a requirement of two. */
  lemma CountedTwice(addresses: seq<Address>)
    returns (unspent: O, required: Balances, order: seq<Key>, r: FundingResult)
    requires !Distinct(addresses)
    ensures IsCollection(r, order, addresses, unspent, required, 0)
    ensures r.Funded? && !Covers(Funds(r.outputs), required)
  {
    var i, j :| 0 <= i < j < |addresses| && addresses[i] == addresses[j];
    var k := Key(addresses[i], 0);
    unspent := map[k := Coin(addresses[i])];
    required := map[ColorZIPP := 2];
    assert ColorZIPP in unspent[k].ledgerOutput.balances && ColorZIPP in required;
    order := Visits(addresses, k);
    VisitsAreAnOrder(addresses, k, unspent);
    VisitsCount(addresses, k);
    r := Funded(unspent);
    CoinCountsTwice(order, k, unspent);
    OneCoinOnly(k, unspent);
  }

  lemma CoinCountsTwice(order: seq<Key>, k: Key, unspent: O)
    requires unspent == map[k := Coin(k.address)]
    requires |order| >= 2 && forall j | j in order :: j == k
    ensures IsOutcome(Funded(unspent), order, unspent, map[ColorZIPP := 2], MAX_INPUT_COUNT)
  {
    assert order[0] in order && order[1] in order;
    assert order[..1] == [k] && order[..2] == [k, k];
    var coin: Balances := map[ColorZIPP := 1];
    assert BalancesAlong([k], unspent) == [coin];
    assert BalancesAlong([k, k], unspent) == [coin] + [coin];
    SumOfOne(coin);
    SumSnoc([coin], coin);
    assert Get(coin, ColorZIPP) == 1 && Get(Sum([coin] + [coin]), ColorZIPP) == 2;
    assert IsFirstSufficient(2, order, unspent, map[ColorZIPP := 2]);
    assert k in Elements([k, k]);
    OnlyAll(unspent, Elements(order[..2]));
  }

  lemma OneCoinOnly(k: Key, unspent: O)
    requires unspent == map[k := Coin(k.address)]
    ensures Get(Funds(unspent), ColorZIPP) == 1
  {
    var none: O := map[];
    assert unspent == none[k := Coin(k.address)];
    FundsInsert(none, k, Coin(k.address));
  }
}

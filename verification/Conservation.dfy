/** Conservation: the outputs built for a transfer hold, colour by colour, what its inputs held. */
module Conservation {
  import opened Collections
  import opened Balances
  import opened BalanceCheck
  import opened Addresses
  import opened Outputs
  import opened Transactions
  import opened Numerals

  function BalancesIn(outputs: seq<TxOutput>): seq<Balances> {
    seq(|outputs|, i requires 0 <= i < |outputs| => outputs[i].balances)
  }

  ghost function OutputsTotal(outputs: seq<TxOutput>): Balances {
    Sum(BalancesIn(outputs))
  }

  lemma OutputsTotalSnoc(outputs: seq<TxOutput>, o: TxOutput)
    ensures OutputsTotal(outputs + [o]) == Plus(OutputsTotal(outputs), o.balances)
  {
    assert BalancesIn(outputs + [o]) == BalancesIn(outputs) + [o.balances];
    SumSnoc(BalancesIn(outputs), o.balances);
  }

  /** Destinations as the send options build them: at least one colour each, and no amount of zero. */
  ghost predicate ProperDestinations(destinations: map<Address, Balances>) {
    forall a | a in destinations :: Positive(destinations[a]) && destinations[a] != map[]
  }

  ghost predicate IsFunded(consumed: Balances, destinations: map<Address, Balances>) {
    && Positive(consumed)
    && ProperDestinations(destinations)
    && Covers(consumed, Fold(Total(destinations)))
  }

  ghost function Remainder(consumed: Balances, destinations: map<Address, Balances>): Balances {
    Minus(consumed, Fold(Total(destinations)))
  }

  /** The list of outputs before identical ones are filtered. */
  ghost function BuiltList(options: SendFundsOptions, consumed: Balances, remainderAddress: Address,
                           order: seq<Address>): seq<TxOutput>
    requires IsPermutationOf(order, options.destinations.Keys)
  {
    OutputsList(options, Remainder(consumed, options.destinations), remainderAddress, order)
  }

  lemma {:induction false} SumOfDestinations(options: SendFundsOptions, order: seq<Address>)
    requires Distinct(order) && forall a | a in order :: a in options.destinations
    requires ProperDestinations(options.destinations)
    ensures OutputsTotal(DestinationList(options, order)) == Total(Only(options.destinations, Elements(order)))
  {
    if order == [] {
      assert Only(options.destinations, Elements(order)) == map[];
    } else {
      var front, last := order[..|order| - 1], order[|order| - 1];
      assert order == front + [last];
      SumOfDestinations(options, front);
      var b := options.destinations[last];
      assert DropZeros(b) == b;
      OutputsTotalSnoc(DestinationList(options, front), DestinationOutput(options, last, b));
      OneDestinationMore(options, front, last);
    }
  }

  lemma OneDestinationMore(options: SendFundsOptions, front: seq<Address>, last: Address)
    requires last in options.destinations && last !in front
    ensures Total(Only(options.destinations, Elements(front + [last]))) ==
            Plus(Total(Only(options.destinations, Elements(front))), options.destinations[last])
  {
    TotalInsert(Only(options.destinations, Elements(front)), last, options.destinations[last]);
    OnlyGrows(options.destinations, Elements(front), last);
    assert Elements(front + [last]) == Elements(front) + {last};
  }

  lemma OutputsTotalOne(o: TxOutput)
    ensures OutputsTotal([o]) == o.balances
  {
    assert BalancesIn([o]) == [o.balances];
    SumOfOne(o.balances);
  }

  lemma OutputsTotalConcat(head: seq<TxOutput>, tail: seq<TxOutput>)
    ensures OutputsTotal(head + tail) == Plus(OutputsTotal(head), OutputsTotal(tail))
  {
    assert BalancesIn(head + tail) == BalancesIn(head) + BalancesIn(tail);
    SumConcat(BalancesIn(head), BalancesIn(tail));
  }

  lemma SumOfRemainder(rest: Balances, remainderAddress: Address, tail: seq<TxOutput>)
    requires Positive(rest)
    ensures OutputsTotal(RemainderList(rest, remainderAddress) + tail) == Plus(rest, OutputsTotal(tail))
  {
    SameBalances(DropZeros(rest), rest);
    OutputsTotalConcat(RemainderList(rest, remainderAddress), tail);
    if rest != map[] {
      OutputsTotalOne(ColoredTxOutput(rest, remainderAddress.addressBytes));
    } else {
      assert OutputsTotal([]) == map[];
    }
  }

  /** The list holds the remainder and the destinations. */
  lemma BuiltTotal(options: SendFundsOptions, consumed: Balances, remainderAddress: Address, order: seq<Address>)
    requires IsPermutationOf(order, options.destinations.Keys) && IsFunded(consumed, options.destinations)
    ensures OutputsTotal(BuiltList(options, consumed, remainderAddress, order)) ==
            Plus(Remainder(consumed, options.destinations), Total(options.destinations))
  {
    SumOfDestinations(options, order);
    OnlyAll(options.destinations, Elements(order));
    SumOfRemainder(Remainder(consumed, options.destinations), remainderAddress, DestinationList(options, order));
  }

  /** Colour by colour: every own colour keeps its amount, and ZIPP pays for what is minted. */
  lemma ConservesColours(options: SendFundsOptions, consumed: Balances, remainderAddress: Address, order: seq<Address>)
    requires IsPermutationOf(order, options.destinations.Keys) && IsFunded(consumed, options.destinations)
    ensures var total := OutputsTotal(BuiltList(options, consumed, remainderAddress, order));
            && (forall c | !IsFresh(c) :: Get(total, c) == Get(consumed, c))
            && Get(total, ColorZIPP) + Get(total, ColorMint) == Get(consumed, ColorZIPP) + Get(consumed, ColorMint)
            && Amount(total) == Amount(consumed)
  {
    var total := OutputsTotal(BuiltList(options, consumed, remainderAddress, order));
    BuiltTotal(options, consumed, remainderAddress, order);
    ShareOut(consumed, Total(options.destinations));
    SameTintSameAmount(total, consumed);
  }

  lemma ShareOut(consumed: Balances, spent: Balances)
    requires Positive(consumed) && Covers(consumed, Fold(spent))
    ensures var total := Plus(Minus(consumed, Fold(spent)), spent);
            && (forall c | !IsFresh(c) :: Get(total, c) == Get(consumed, c))
            && Get(total, ColorZIPP) + Get(total, ColorMint) == Get(consumed, ColorZIPP) + Get(consumed, ColorMint)
  {
    forall c ensures Get(Minus(consumed, Fold(spent)), c) + Get(Fold(spent), c) == Get(consumed, c) {
      assert c in Fold(spent) ==> Fold(spent)[c] <= Get(consumed, c);
    }
  }

  lemma SameTintSameAmount(a: Balances, b: Balances)
    requires forall c | !IsFresh(c) :: Get(a, c) == Get(b, c)
    requires Get(a, ColorZIPP) + Get(a, ColorMint) == Get(b, ColorZIPP) + Get(b, ColorMint)
    ensures Amount(a) == Amount(b)
  {
    forall c ensures Get(Tinted(a), c) == Get(Tinted(b), c) {
      assert IsFresh(c) || Get(a, c) == Get(b, c);
    }
    AmountSame(Tinted(a), Tinted(b));
    AmountByTint(a);
    AmountByTint(b);
  }

  /** A remainder output is built exactly if some colour is left over, and it holds exactly what is left over. */
  lemma RemainderIffLeftOver(consumed: Balances, destinations: map<Address, Balances>)
    requires IsFunded(consumed, destinations)
    ensures Remainder(consumed, destinations) != map[] <==> exists c ::
            Get(Fold(Total(destinations)), c) < Get(consumed, c)
    ensures Positive(Remainder(consumed, destinations))
  {
    if c :| Get(Fold(Total(destinations)), c) < Get(consumed, c) {
      assert c in Remainder(consumed, destinations);
    }
    if c :| c in Remainder(consumed, destinations) {
      assert Get(Fold(Total(destinations)), c) < Get(consumed, c);
    }
  }

  // ---------------------------------------------------------------- identical outputs

  /** Every output holds something, and no entry is zero. */
  ghost predicate AreProper(s: seq<TxOutput>) {
    forall i | 0 <= i < |s| :: Positive(s[i].balances) && s[i].balances != map[]
  }

  /** Filtering identical outputs keeps the total exactly if there were none. */
  lemma {:induction false} FilterLoses(s: seq<TxOutput>)
    requires AreProper(s)
    ensures forall o :: o in WithoutDuplicates(s) <==> o in s
    ensures Distinct(s) <==> WithoutDuplicates(s) == s
    ensures !Distinct(s) ==> Amount(OutputsTotal(WithoutDuplicates(s))) < Amount(OutputsTotal(s))
    ensures Distinct(s) ==> Amount(OutputsTotal(WithoutDuplicates(s))) == Amount(OutputsTotal(s))
  {
    if s != [] {
      var front, last := s[..|s| - 1], s[|s| - 1];
      assert s == front + [last];
      FilterLoses(front);
      OutputsTotalSnoc(front, last);
      AmountPlus(OutputsTotal(front), last.balances);
      AmountPositive(last.balances);
      assert Distinct(s) <==> Distinct(front) && last !in front;
      if last !in front {
        OutputsTotalSnoc(WithoutDuplicates(front), last);
        AmountPlus(OutputsTotal(WithoutDuplicates(front)), last.balances);
      } else {
        FilterCounts(front);
      }
    }
  }

  /** No destination repeats another one, and the remainder does not repeat a destination. */
  ghost predicate NoTwins(options: SendFundsOptions, rest: Balances, remainderAddress: Address) {
    && AllDiffer(options.destinations)
    && (options.IsPlain() && rest != map[] ==>
          forall a | a in options.destinations ::
            a.addressBytes != remainderAddress.addressBytes || options.destinations[a] != rest)
  }

  lemma {:induction false} DestinationAt(options: SendFundsOptions, order: seq<Address>)
    requires forall a | a in order :: a in options.destinations
    requires ProperDestinations(options.destinations)
    ensures |DestinationList(options, order)| == |order|
    ensures forall i | 0 <= i < |order| ::
              && DestinationList(options, order)[i] == DestinationOutput(options, order[i],
                  options.destinations[order[i]])
              && DestinationList(options, order)[i].balances == options.destinations[order[i]]
              && DestinationList(options, order)[i].address == order[i].addressBytes
  {
    if order != [] {
      var front, last := order[..|order| - 1], order[|order| - 1];
      DestinationAt(options, front);
      assert order == front + [last];
      assert DropZeros(options.destinations[last]) == options.destinations[last];
    }
  }

  /** No two destinations share address bytes and amounts. */
  ghost predicate AllDiffer(destinations: map<Address, Balances>) {
    forall a, b | a in destinations && b in destinations && a != b ::
      a.addressBytes != b.addressBytes || destinations[a] != destinations[b]
  }

  lemma DestinationsDistinct(options: SendFundsOptions, order: seq<Address>)
    requires IsPermutationOf(order, options.destinations.Keys) && ProperDestinations(options.destinations)
    ensures Distinct(DestinationList(options, order)) <==> AllDiffer(options.destinations)
  {
    if Distinct(DestinationList(options, order)) {
      DistinctDiffer(options, order);
    }
    if AllDiffer(options.destinations) {
      DifferDistinct(options, order);
    }
  }

  lemma DistinctDiffer(options: SendFundsOptions, order: seq<Address>)
    requires IsPermutationOf(order, options.destinations.Keys) && ProperDestinations(options.destinations)
    requires Distinct(DestinationList(options, order))
    ensures AllDiffer(options.destinations)
  {
    forall a, b | a in options.destinations && b in options.destinations && a != b
      ensures a.addressBytes != b.addressBytes || options.destinations[a] != options.destinations[b]
    {
      assert a in Elements(order) && b in Elements(order);
      var i, j :| 0 <= i < |order| && order[i] == a && 0 <= j < |order| && order[j] == b;
      OutputsDiffer(options, order, i, j);
      SameOutput(options, a, b);
    }
  }

  lemma OutputsDiffer(options: SendFundsOptions, order: seq<Address>, i: nat, j: nat)
    requires (forall a | a in order :: a in options.destinations) && ProperDestinations(options.destinations)
    requires i < |order| && j < |order| && i != j && Distinct(DestinationList(options, order))
    ensures DestinationOutput(options, order[i], options.destinations[order[i]]) !=
            DestinationOutput(options, order[j], options.destinations[order[j]])
  {
    DestinationAt(options, order);
    var list := DestinationList(options, order);
    assert list[i] != list[j];
  }

  lemma SameOutput(options: SendFundsOptions, a: Address, b: Address)
    requires a in options.destinations && b in options.destinations
    ensures a.addressBytes == b.addressBytes && options.destinations[a] == options.destinations[b] ==>
              DestinationOutput(options, a, options.destinations[a]) ==
              DestinationOutput(options, b, options.destinations[b])
  {
  }

  lemma DifferDistinct(options: SendFundsOptions, order: seq<Address>)
    requires IsPermutationOf(order, options.destinations.Keys) && ProperDestinations(options.destinations)
    requires AllDiffer(options.destinations)
    ensures Distinct(DestinationList(options, order))
  {
    DestinationAt(options, order);
    var list := DestinationList(options, order);
    forall i, j | 0 <= i < j < |list| ensures list[i] != list[j] {
      var a, b := order[i], order[j];
      assert a in order && b in order && a != b;
    }
  }

  lemma RemainderRepeats(options: SendFundsOptions, rest: Balances, remainderAddress: Address, order: seq<Address>)
    requires IsPermutationOf(order, options.destinations.Keys) && ProperDestinations(options.destinations)
    requires Positive(rest)
    ensures ColoredTxOutput(DropZeros(rest), remainderAddress.addressBytes) in DestinationList(options, order) <==>
            options.IsPlain() &&
            exists a :: a in options.destinations && a.addressBytes == remainderAddress.addressBytes &&
                options.destinations[a] == rest
  {
    DestinationAt(options, order);
    var list := DestinationList(options, order);
    assert DropZeros(rest) == rest;
    var remainder := ColoredTxOutput(rest, remainderAddress.addressBytes);
    if remainder in list {
      var i :| 0 <= i < |list| && list[i] == remainder;
      assert order[i] in order;
    }
    if options.IsPlain() {
      if a :| && a in options.destinations
              && a.addressBytes == remainderAddress.addressBytes
              && options.destinations[a] == rest {
        assert a in Elements(order);
        var i :| 0 <= i < |order| && order[i] == a;
        assert list[i] == remainder;
      }
    }
  }

  lemma DistinctIffNoTwins(options: SendFundsOptions, consumed: Balances, remainderAddress: Address,
                           order: seq<Address>)
    requires IsPermutationOf(order, options.destinations.Keys) && IsFunded(consumed, options.destinations)
    ensures Distinct(BuiltList(options, consumed, remainderAddress, order)) <==>
            NoTwins(options, Remainder(consumed, options.destinations), remainderAddress)
  {
    var rest := Remainder(consumed, options.destinations);
    var tail := DestinationList(options, order);
    DestinationsDistinct(options, order);
    RemainderRepeats(options, rest, remainderAddress, order);
    DistinctAfterHead(RemainderList(rest, remainderAddress), tail);
  }

  lemma DistinctAfterHead(head: seq<TxOutput>, tail: seq<TxOutput>)
    requires |head| <= 1
    ensures Distinct(head + tail) <==> Distinct(tail) && (head == [] || head[0] !in tail)
  {
    var all := head + tail;
    if head == [] {
      assert all == tail;
    } else {
      assert all == [head[0]] + tail;
      DistinctCons(head[0], tail, all);
      DistinctUncons(head[0], tail, all);
    }
  }

  lemma DistinctCons(x: TxOutput, tail: seq<TxOutput>, all: seq<TxOutput>)
    requires all == [x] + tail
    ensures Distinct(tail) && x !in tail ==> Distinct(all)
  {
    assert forall i | 1 <= i < |all| :: all[i] == tail[i - 1];
  }

  lemma DistinctUncons(x: TxOutput, tail: seq<TxOutput>, all: seq<TxOutput>)
    requires all == [x] + tail
    ensures Distinct(all) ==> Distinct(tail) && x !in tail
  {
    if Distinct(all) {
      forall i | 0 <= i < |tail| ensures tail[i] != x {
        assert all[0] != all[i + 1];
      }
      forall i, j | 0 <= i < j < |tail| ensures tail[i] != tail[j] {
        assert all[i + 1] != all[j + 1];
      }
    }
  }

  /** The built transaction passes the ledger's balance check if and only if no two of its outputs are identical: of
      identical outputs only one survives, and its twin's coins are missing. */
  lemma BalancedIffNoTwins(options: SendFundsOptions, consumed: Balances, remainderAddress: Address,
                           order: seq<Address>)
    requires IsPermutationOf(order, options.destinations.Keys) && IsFunded(consumed, options.destinations)
    ensures var outputs := WithoutDuplicates(BuiltList(options, consumed, remainderAddress, order));
            IsBalanced(consumed, OutputsTotal(outputs)) <==>
            NoTwins(options, Remainder(consumed, options.destinations), remainderAddress)
  {
    var list := BuiltList(options, consumed, remainderAddress, order);
    ConservesColours(options, consumed, remainderAddress, order);
    DistinctIffNoTwins(options, consumed, remainderAddress, order);
    AllProper(options, consumed, remainderAddress, order);
    FilterLoses(list);
  }

  /** One output per destination, and one for the remainder if there is any. */
  function OutputsNeeded(options: SendFundsOptions, rest: Balances): nat {
    |options.destinations| + if rest == map[] then 0 else 1
  }

  ghost predicate FitsOutputs(options: SendFundsOptions, rest: Balances) {
    MIN_OUTPUT_COUNT <= OutputsNeeded(options, rest) <= MAX_OUTPUT_COUNT
  }

  lemma BuiltLength(options: SendFundsOptions, consumed: Balances, remainderAddress: Address, order: seq<Address>)
    requires IsPermutationOf(order, options.destinations.Keys) && IsFunded(consumed, options.destinations)
    ensures |BuiltList(options, consumed, remainderAddress, order)| ==
            OutputsNeeded(options, Remainder(consumed, options.destinations))
  {
    DestinationAt(options, order);
    DistinctCount(order);
  }

  /** The outputs of a funded transfer can be built and pass the balance check if and only if no two of them are
      identical and their number is within bounds. */
  lemma PackedAndBalancedIff(options: SendFundsOptions, consumed: Balances, remainderAddress: Address,
                             order: seq<Address>)
    requires IsPermutationOf(order, options.destinations.Keys) && IsFunded(consumed, options.destinations)
    ensures var outputs := Packed(BuiltList(options, consumed, remainderAddress, order));
            var rest := Remainder(consumed, options.destinations);
            (outputs.Some? && IsBalanced(consumed, OutputsTotal(outputs.value))) <==>
            NoTwins(options, rest, remainderAddress) && FitsOutputs(options, rest)
  {
    BalancedIffNoTwins(options, consumed, remainderAddress, order);
    BuiltLength(options, consumed, remainderAddress, order);
    DistinctIffNoTwins(options, consumed, remainderAddress, order);
    AllProper(options, consumed, remainderAddress, order);
    FilterLoses(BuiltList(options, consumed, remainderAddress, order));
  }

  /** The different outputs of a transfer, whatever the order in which the destinations are visited. */
  ghost function DifferentOutputs(options: SendFundsOptions, rest: Balances, remainderAddress: Address): set<TxOutput> {
    Elements(RemainderList(rest, remainderAddress)) + OutputsOf(options, options.destinations.Keys)
  }

  ghost function OutputsOf(options: SendFundsOptions, addresses: set<Address>): set<TxOutput>
    requires addresses <= options.destinations.Keys
  {
    set a | a in addresses :: DestinationOutput(options, a, options.destinations[a])
  }

  /** The program panics exactly if the number of different outputs is out of bounds. They are fewer than the
      destinations and the remainder exactly if some of these are identical. */
  lemma PanicsIff(options: SendFundsOptions, consumed: Balances, remainderAddress: Address, order: seq<Address>)
    requires IsPermutationOf(order, options.destinations.Keys) && IsFunded(consumed, options.destinations)
    ensures var rest := Remainder(consumed, options.destinations);
            var count := |DifferentOutputs(options, rest, remainderAddress)|;
            && (Packed(BuiltList(options, consumed, remainderAddress, order)).None? <==>
                !(MIN_OUTPUT_COUNT <= count <= MAX_OUTPUT_COUNT))
            && count <= OutputsNeeded(options, rest)
            && (count == OutputsNeeded(options, rest) <==> NoTwins(options, rest, remainderAddress))
  {
    BuiltLength(options, consumed, remainderAddress, order);
    BuiltElements(options, consumed, remainderAddress, order);
    DistinctIffNoTwins(options, consumed, remainderAddress, order);
    FilterCounts(BuiltList(options, consumed, remainderAddress, order));
  }

  lemma BuiltElements(options: SendFundsOptions, consumed: Balances, remainderAddress: Address, order: seq<Address>)
    requires IsPermutationOf(order, options.destinations.Keys) && IsFunded(consumed, options.destinations)
    ensures Elements(BuiltList(options, consumed, remainderAddress, order)) ==
            DifferentOutputs(options, Remainder(consumed, options.destinations), remainderAddress)
  {
    var head := RemainderList(Remainder(consumed, options.destinations), remainderAddress);
    DestinationElements(options, order);
    ElementsConcat(head, DestinationList(options, order));
  }

  lemma ElementsConcat(s: seq<TxOutput>, t: seq<TxOutput>)
    ensures Elements(s + t) == Elements(s) + Elements(t)
  {
  }

  lemma {:induction false} DestinationElements(options: SendFundsOptions, order: seq<Address>)
    requires Elements(order) <= options.destinations.Keys
    ensures (forall a | a in order :: a in options.destinations)
    ensures Elements(DestinationList(options, order)) == OutputsOf(options, Elements(order))
  {
    assert forall a | a in order :: a in Elements(order);
    if order != [] {
      var front, last := order[..|order| - 1], order[|order| - 1];
      assert order == front + [last];
      assert Elements(order) == Elements(front) + {last};
      DestinationElements(options, front);
      ElementsConcat(DestinationList(options, front), [DestinationOutput(options, last, options.destinations[last])]);
    }
  }

  /** Filtering leaves one of each kind. */
  lemma {:induction false} FilterCounts(s: seq<TxOutput>)
    ensures Elements(WithoutDuplicates(s)) == Elements(s) && |WithoutDuplicates(s)| == |Elements(s)| <= |s|
    ensures |Elements(s)| == |s| <==> Distinct(s)
  {
    if s != [] {
      var front, last := s[..|s| - 1], s[|s| - 1];
      assert s == front + [last];
      FilterCounts(front);
      assert Elements(s) == Elements(front) + {last};
      assert Distinct(s) <==> Distinct(front) && last !in front;
    }
  }

  function OneByteAddress(i: nat): Address
    requires i < 256
  {
    Address([ByteOf(i)], i)
  }

  /** One coin for each of 128 different addresses, and nothing left over: funded, and without identical outputs, but
      the program panics. */
  lemma OneCoinEach(a: Address) returns (options: SendFundsOptions, consumed: Balances, order: seq<Address>)
    ensures |options.destinations| == MAX_OUTPUT_COUNT + 1
    ensures IsPermutationOf(order, options.destinations.Keys) && IsFunded(consumed, options.destinations)
    ensures NoTwins(options, Remainder(consumed, options.destinations), a)
    ensures Packed(BuiltList(options, consumed, a, order)).None?
  {
    order := seq(MAX_OUTPUT_COUNT + 1, i requires 0 <= i < 256 => OneByteAddress(i));
    assert Distinct(order);
    DistinctCount(order);
    var coin: Balances := map[ColorZIPP := 1];
    var destinations := Tabulate(Elements(order), k => coin);
    options := SendFundsOptions(destinations, a, ZERO_TIME, None, ZERO_TIME, false, []);
    assert forall b | b in order :: b in Elements(order);
    consumed := Fold(Total(destinations));
    ExactlyFunded(destinations);
    DifferentBytes(order, destinations);
    PanicsIff(options, consumed, a, order);
  }

  /** Consuming exactly what the destinations get. */
  lemma ExactlyFunded(destinations: map<Address, Balances>)
    requires ProperDestinations(destinations)
    ensures IsFunded(Fold(Total(destinations)), destinations)
    ensures Remainder(Fold(Total(destinations)), destinations) == map[]
  {
    TotalPositive(destinations);
    FoldAt(Total(destinations));
    var consumed := Fold(Total(destinations));
    forall c | c in consumed ensures 0 < consumed[c] {
      assert Get(consumed, c) == consumed[c];
    }
    SameBalances(Remainder(consumed, destinations), map[]);
  }

  lemma DifferentBytes(order: seq<Address>, destinations: map<Address, Balances>)
    requires destinations.Keys == Elements(order)
    requires forall i | 0 <= i < |order| :: i < 256 && order[i] == OneByteAddress(i)
    ensures forall a, b | a in destinations && b in destinations && a != b :: a.addressBytes != b.addressBytes
  {
    forall a, b | a in destinations && b in destinations && a != b ensures a.addressBytes != b.addressBytes {
      var i, j :| 0 <= i < |order| && order[i] == a && 0 <= j < |order| && order[j] == b;
      assert ByteOf(i) as int == i && ByteOf(j) as int == j;
    }
  }

  lemma AllProper(options: SendFundsOptions, consumed: Balances, remainderAddress: Address, order: seq<Address>)
    requires IsPermutationOf(order, options.destinations.Keys) && IsFunded(consumed, options.destinations)
    ensures AreProper(BuiltList(options, consumed, remainderAddress, order))
  {
    var rest := Remainder(consumed, options.destinations);
    assert Positive(rest) by {
      RemainderIffLeftOver(consumed, options.destinations);
    }
    RemainderProper(rest, remainderAddress);
    DestinationsProper(options, order);
    ProperConcat(RemainderList(rest, remainderAddress), DestinationList(options, order));
  }

  lemma RemainderProper(rest: Balances, remainderAddress: Address)
    requires Positive(rest)
    ensures AreProper(RemainderList(rest, remainderAddress))
  {
    SameBalances(DropZeros(rest), rest);
  }

  lemma ProperConcat(head: seq<TxOutput>, tail: seq<TxOutput>)
    requires AreProper(head) && AreProper(tail)
    ensures AreProper(head + tail)
  {
  }

  lemma DestinationsProper(options: SendFundsOptions, order: seq<Address>)
    requires forall a | a in order :: a in options.destinations
    requires ProperDestinations(options.destinations)
    ensures AreProper(DestinationList(options, order))
  {
    DestinationAt(options, order);
    var list := DestinationList(options, order);
    forall i | 0 <= i < |list| ensures Positive(list[i].balances) && list[i].balances != map[] {
      assert order[i] in order;
    }
  }

  /** Sending half of the collected coins to the address that also takes the remainder. */
  lemma HalfToOwnRemainder(a: Address)
    ensures var options := SendFundsOptions(map[a := map[ColorZIPP := 5]], a, ZERO_TIME, None, ZERO_TIME, false, []);
            var consumed: Balances := map[ColorZIPP := 10];
            && IsFunded(consumed, options.destinations)
            && IsPermutationOf([a], options.destinations.Keys)
            && !IsBalanced(consumed, OutputsTotal(WithoutDuplicates(BuiltList(options, consumed, a, [a]))))
  {
    var options := SendFundsOptions(map[a := map[ColorZIPP := 5]], a, ZERO_TIME, None, ZERO_TIME, false, []);
    var consumed: Balances := map[ColorZIPP := 10];
    var none: map<Address, Balances> := map[];
    assert options.destinations == none[a := map[ColorZIPP := 5]];
    TotalInsert(none, a, map[ColorZIPP := 5]);
    assert Total(options.destinations) == map[ColorZIPP := 5];
    assert Remainder(consumed, options.destinations) == map[ColorZIPP := 5];
    assert IsPermutationOf([a], options.destinations.Keys) by {
      assert a in [a];
    }
    BalancedIffNoTwins(options, consumed, a, [a]);
  }
}

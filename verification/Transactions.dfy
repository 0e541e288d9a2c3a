/** What a transfer needs and creates: the required funds, the outputs, and the remainder. */
module Transactions {
  import opened Collections
  import opened Balances
  import opened Addresses
  import opened Outputs

  // ---------------------------------------------------------------- required funds

  /** Fresh coins are coloured from ZIPP, so a Mint amount is paid for in ZIPP. */
  function Base(c: Color): Color {
    if c == ColorMint then ColorZIPP else c
  }

  /** The balances with all Mint amounts counted as ZIPP. */
  function Fold(b: Balances): Balances {
    if ColorMint in b then (b - {ColorMint})[ColorZIPP := Get(b, ColorZIPP) + b[ColorMint]] else b
  }

  lemma FoldPlus(a: Balances, b: Balances)
    ensures Fold(Plus(a, b)) == Plus(Fold(a), Fold(b))
  {
    FoldAt(a);
    FoldAt(b);
    FoldAt(Plus(a, b));
    SameBalances(Fold(Plus(a, b)), Plus(Fold(a), Fold(b)));
  }

  lemma FoldAt(b: Balances)
    ensures forall c :: c in Fold(b) <==> c != ColorMint && (c in b || (c == ColorZIPP && ColorMint in b))
    ensures forall c :: Get(Fold(b), c) ==
                        if c == ColorMint then 0 else Get(b, c) + if c == ColorZIPP then Get(b, ColorMint) else 0
  {
  }

  lemma FoldInsert(b: Balances, c: Color, amount: nat)
    requires c !in b
    ensures Fold(b[c := amount]) == Plus(Fold(b), map[Base(c) := amount])
  {
    FoldAt(b);
    FoldAt(b[c := amount]);
    SameBalances(Fold(b[c := amount]), Plus(Fold(b), map[Base(c) := amount]));
  }

  /** The inner loop over one destination. */
  method AddRequired(acc: Balances, coloredBalances: Balances) returns (r: Balances)
    ensures r == Plus(acc, Fold(coloredBalances))
  {
    r := acc;
    var todo := coloredBalances.Keys;
    ghost var done: Balances := map[];
    PlusNone(acc);
    while todo != {}
      invariant todo <= coloredBalances.Keys
      invariant forall c :: c in done <==> c in coloredBalances && c !in todo
      invariant forall c | c in done :: done[c] == coloredBalances[c]
      invariant r == Plus(acc, Fold(done))
    {
      var color :| color in todo;
      var amount := coloredBalances[color];
      RequiredStep(acc, done, color, amount);
      // minting is paid for in ZIPP
      var base := if color == ColorMint then ColorZIPP else color;
      r := r[base := Get(r, base) + amount];
      todo := todo - {color};
      done := done[color := amount];
    }
    SameMap(done, coloredBalances);
  }

  lemma PlusSingle(b: Balances, c: Color, amount: nat)
    ensures Plus(b, map[c := amount]) == b[c := Get(b, c) + amount]
  {
    SameBalances(Plus(b, map[c := amount]), b[c := Get(b, c) + amount]);
  }

  lemma RequiredStep(acc: Balances, done: Balances, c: Color, amount: nat)
    requires c !in done
    ensures var r := Plus(acc, Fold(done));
            Plus(acc, Fold(done[c := amount])) == r[Base(c) := Get(r, Base(c)) + amount]
  {
    FoldInsert(done, c, amount);
    PlusAssociates(acc, Fold(done), map[Base(c) := amount]);
    PlusSingle(Plus(acc, Fold(done)), Base(c), amount);
  }

  /** How much funds are needed to fund the transfer. */
  method RequiredFunds(destinations: map<Address, Balances>) returns (requiredFunds: Balances)
    ensures requiredFunds == Fold(Total(destinations))
  {
    requiredFunds := map[];
    var todo := destinations.Keys;
    ghost var done: map<Address, Balances> := map[];
    while todo != {}
      invariant done.Keys == destinations.Keys - todo && todo <= destinations.Keys
      invariant forall a | a in done :: done[a] == destinations[a]
      invariant requiredFunds == Fold(Total(done))
    {
      var a :| a in todo;
      TotalInsert(done, a, destinations[a]);
      FoldPlus(Total(done), destinations[a]);
      requiredFunds := AddRequired(requiredFunds, destinations[a]);
      todo := todo - {a};
      done := done[a := destinations[a]];
    }
    assert done == destinations;
  }

  // ---------------------------------------------------------------- outputs

  datatype SendFundsOptions = SendFundsOptions(
    destinations: map<Address, Balances>,
    remainderAddress: Address,
    lockUntil: Time,
    fallbackAddress: Option<LedgerAddress>,
    fallbackDeadline: Time,
    usePendingOutputs: bool,
    sourceAddresses: seq<Address>)
  {
    predicate IsPlain() {
      lockUntil == ZERO_TIME && fallbackDeadline == ZERO_TIME && fallbackAddress.None?
    }
  }

  datatype TxOutput =
    | ColoredTxOutput(balances: Balances, address: LedgerAddress)
    | ExtendedTxOutput(balances: Balances, address: LedgerAddress, timelock: Time,
                       fallbackAddress: Option<LedgerAddress>, fallbackDeadline: Time)

  /** What is left of a when b is taken away, without empty entries. */
  ghost function Minus(a: Balances, b: Balances): (r: Balances)
    ensures forall c {:trigger c in r} :: c in r <==> Get(b, c) < Get(a, c)
    ensures forall c {:trigger Get(r, c)} :: Get(r, c) == if Get(b, c) < Get(a, c) then Get(a, c) - Get(b, c) else 0
  {
    Tabulate((set c | c in a && Get(b, c) < a[c]), c requires Get(b, c) < Get(a, c) => Get(a, c) - Get(b, c))
  }

  lemma MinusMinus(a: Balances, b: Balances, c: Balances)
    requires Covers(a, Plus(b, c))
    ensures Minus(Minus(a, b), c) == Minus(a, Plus(b, c))
    ensures Covers(Minus(a, b), c) && Covers(a, b)
  {
    assert forall d | d in b :: d in Plus(b, c) && b[d] <= Plus(b, c)[d];
    forall d | d in c ensures c[d] <= Get(Minus(a, b), d) {
      assert Plus(b, c)[d] == Get(b, d) + c[d];
    }
    SameBalances(Minus(Minus(a, b), c), Minus(a, Plus(b, c)));
  }

  /** Subtracts from one entry as uint64 does, and deletes the entry when it reaches zero. */
  function TakeFrom(b: Balances, c: Color, amount: nat): Balances {
    var left := Sub64(Get(b, c), amount);
    if left == 0 then b - {c} else b[c := left]
  }

  /** Takes one destination's amounts out of the consumed funds. */
  method SpendOn(coloredBalances: Balances, consumedFunds: Balances) returns (outputs: Balances, rest: Balances)
    ensures outputs == coloredBalances
    ensures Positive(consumedFunds) && Fits64(consumedFunds) && Covers(consumedFunds, Fold(coloredBalances)) ==>
              rest == Minus(consumedFunds, Fold(coloredBalances))
  {
    outputs, rest := map[], consumedFunds;
    var todo := coloredBalances.Keys;
    ghost var safe := Positive(consumedFunds) && Fits64(consumedFunds) && Covers(consumedFunds, Fold(coloredBalances));
    assert safe ==> rest == Minus(consumedFunds, Fold(outputs));
    while todo != {}
      invariant outputs.Keys == coloredBalances.Keys - todo && todo <= coloredBalances.Keys
      invariant forall c | c in outputs :: outputs[c] == coloredBalances[c]
      invariant safe ==> rest == Minus(consumedFunds, Fold(outputs))
    {
      var color :| color in todo;
      var amount := coloredBalances[color];
      if safe {
        SpendStep(consumedFunds, coloredBalances, outputs, color);
      }
      outputs := outputs[color := Get(outputs, color) + amount];
      if color == ColorMint {
        rest := TakeFrom(rest, ColorZIPP, amount);
      } else {
        rest := TakeFrom(rest, color, amount);
      }
      todo := todo - {color};
    }
    assert outputs == coloredBalances;
  }

  lemma TakeFromMinus(consumed: Balances, spent: Balances, c: Color, amount: nat)
    requires Positive(consumed) && Fits64(consumed)
    requires Get(spent, c) + amount <= Get(consumed, c)
    ensures TakeFrom(Minus(consumed, spent), c, amount) == Minus(consumed, Plus(spent, map[c := amount]))
  {
    PlusSingle(spent, c, amount);
    MinusMore(consumed, spent, c, amount);
    TakeFromFits(Minus(consumed, spent), c, amount);
  }

  lemma TakeFromFits(b: Balances, c: Color, amount: nat)
    requires amount <= Get(b, c) < TWO_TO_THE_64
    ensures TakeFrom(b, c, amount) == if Get(b, c) - amount == 0 then b - {c} else b[c := Get(b, c) - amount]
  {
    SmallModulus(Get(b, c) - amount);
  }

  lemma MinusMore(consumed: Balances, spent: Balances, c: Color, amount: nat)
    requires Positive(consumed)
    requires Get(spent, c) + amount <= Get(consumed, c)
    ensures Get(Minus(consumed, spent), c) == Get(consumed, c) - Get(spent, c)
    ensures var left := Get(consumed, c) - Get(spent, c) - amount;
            Minus(consumed, spent[c := Get(spent, c) + amount]) ==
            if left == 0 then Minus(consumed, spent) - {c} else Minus(consumed, spent)[c := left]
  {
    var left := Get(consumed, c) - Get(spent, c) - amount;
    var less := if left == 0 then Minus(consumed, spent) - {c} else Minus(consumed, spent)[c := left];
    SameBalances(Minus(consumed, spent[c := Get(spent, c) + amount]), less);
  }

  lemma SpendStep(consumed: Balances, all: Balances, done: Balances, c: Color)
    requires Positive(consumed) && Fits64(consumed) && Covers(consumed, Fold(all))
    requires c in all && c !in done && forall d | d in done :: d in all && done[d] == all[d]
    ensures TakeFrom(Minus(consumed, Fold(done)), Base(c), all[c]) == Minus(consumed, Fold(done[c := all[c]]))
  {
    FoldInsert(done, c, all[c]);
    assert Base(c) in Fold(all) && Get(Fold(done), Base(c)) + all[c] <= Fold(all)[Base(c)];
    TakeFromMinus(consumed, Fold(done), Base(c), all[c]);
  }

  /** The output for one destination. */
  function DestinationOutput(options: SendFundsOptions, a: Address, balances: Balances): TxOutput {
    if options.IsPlain() then
      ColoredTxOutput(DropZeros(balances), a.addressBytes)
    else
      var hasFallback := options.fallbackDeadline != ZERO_TIME && options.fallbackAddress.Some?;
      ExtendedTxOutput(DropZeros(balances), a.addressBytes, options.lockUntil,
                       if hasFallback then options.fallbackAddress else None,
                       if hasFallback then options.fallbackDeadline else ZERO_TIME)
  }

  function DestinationList(options: SendFundsOptions, order: seq<Address>): seq<TxOutput>
    requires forall a | a in order :: a in options.destinations
  {
    if order == [] then []
    else
      var last := order[|order| - 1];
      DestinationList(options, order[..|order| - 1]) + [DestinationOutput(options, last, options.destinations[last])]
  }

  function RemainderList(rest: Balances, remainderAddress: Address): seq<TxOutput> {
    if rest == map[] then [] else [ColoredTxOutput(DropZeros(rest), remainderAddress.addressBytes)]
  }

  /** The list before duplicates are filtered: the remainder if anything is left, then one output per destination. */
  function OutputsList(options: SendFundsOptions, rest: Balances, remainderAddress: Address,
                       order: seq<Address>): seq<TxOutput>
    requires forall a | a in order :: a in options.destinations
  {
    RemainderList(rest, remainderAddress) + DestinationList(options, order)
  }

  /** Keeps the first of several identical outputs. */
  function WithoutDuplicates(s: seq<TxOutput>): seq<TxOutput> {
    if s == [] then []
    else
      var front := WithoutDuplicates(s[..|s| - 1]);
      if s[|s| - 1] in front then front else front + [s[|s| - 1]]
  }

  const MIN_OUTPUT_COUNT: nat := 1

  const MAX_OUTPUT_COUNT: nat := 127

  /** The outputs of a transaction; None stands for the panic on a number of outputs that is out of bounds. */
  function Packed(s: seq<TxOutput>): Option<seq<TxOutput>> {
    if MIN_OUTPUT_COUNT <= |WithoutDuplicates(s)| <= MAX_OUTPUT_COUNT then Some(WithoutDuplicates(s)) else None
  }

  /** Filters identical outputs and panics if too few or too many are left. The byte order that the result is sorted
      in is not part of this model. */
  method NewOutputs(optionalOutputs: seq<TxOutput>) returns (outputs: Option<seq<TxOutput>>)
    ensures outputs == Packed(optionalOutputs)
  {
    var filtered := [];
    for i := 0 to |optionalOutputs|
      invariant filtered == WithoutDuplicates(optionalOutputs[..i])
    {
      assert optionalOutputs[..i + 1][..i] == optionalOutputs[..i];
      if optionalOutputs[i] in filtered {
        continue;
      }
      filtered := filtered + [optionalOutputs[i]];
    }
    assert optionalOutputs[..|optionalOutputs|] == optionalOutputs;
    if |filtered| < MIN_OUTPUT_COUNT {
      return None;
    }
    if |filtered| > MAX_OUTPUT_COUNT {
      return None;
    }
    outputs := Some(filtered);
  }

  /** Builds outputs for the destinations and, if anything is left of the consumed funds, for the remainder. */
  method BuildOutputs(options: SendFundsOptions, consumedFunds: Balances, remainderAddress: Address)
    returns (outputs: Option<seq<TxOutput>>, rest: Balances, ghost order: seq<Address>)
    ensures IsPermutationOf(order, options.destinations.Keys)
    ensures outputs == Packed(OutputsList(options, rest, remainderAddress, order))
    ensures Positive(consumedFunds) && Fits64(consumedFunds) &&
            Covers(consumedFunds, Fold(Total(options.destinations))) ==>
              rest == Minus(consumedFunds, Fold(Total(options.destinations)))
  {
    // every destination takes its amounts out of the consumed funds
    var outputsByColor;
    outputsByColor, rest := SpendOnAll(options.destinations, consumedFunds);

    // whatever is left goes first
    var outputsSlice: seq<TxOutput> := [];
    if |rest| != 0 {
      outputsSlice := [ColoredTxOutput(DropZeros(rest), remainderAddress.addressBytes)];
    }
    order := [];
    var addresses := SomeOrder(outputsByColor.Keys);
    forall a | a in addresses ensures a in options.destinations {
      assert a in Elements(addresses);
    }
    for i := 0 to |addresses|
      invariant outputsSlice == OutputsList(options, rest, remainderAddress, addresses[..i])
    {
      var addr := addresses[i];
      var output := DestinationOutput(options, addr, outputsByColor[addr]);
      PrefixStep(addresses, i);
      assert (addresses[..i] + [addr])[..i] == addresses[..i];
      outputsSlice := outputsSlice + [output];
    }
    assert addresses[..|addresses|] == addresses;
    order := addresses;
    outputs := NewOutputs(outputsSlice);
  }

  ghost predicate IsPermutationOf(order: seq<Address>, addresses: set<Address>)
    ensures IsPermutationOf(order, addresses) ==> forall a | a in order :: a in addresses
  {
    && Distinct(order)
    && Elements(order) == addresses
    && (forall a | a in order :: a in Elements(order))
  }

  /** The loop over the destinations. */
  method SpendOnAll(destinations: map<Address, Balances>, consumedFunds: Balances)
    returns (outputsByColor: map<Address, Balances>, rest: Balances)
    ensures outputsByColor == destinations
    ensures Positive(consumedFunds) && Fits64(consumedFunds) && Covers(consumedFunds, Fold(Total(destinations))) ==>
              rest == Minus(consumedFunds, Fold(Total(destinations)))
  {
    outputsByColor, rest := map[], consumedFunds;
    ghost var safe := Positive(consumedFunds) && Fits64(consumedFunds) &&
        Covers(consumedFunds, Fold(Total(destinations)));
    var todo := destinations.Keys;
    assert safe ==> rest == Minus(consumedFunds, Fold(Total(outputsByColor)));
    while todo != {}
      invariant outputsByColor.Keys == destinations.Keys - todo && todo <= destinations.Keys
      invariant forall a | a in outputsByColor :: outputsByColor[a] == destinations[a]
      invariant safe ==> rest == Minus(consumedFunds, Fold(Total(outputsByColor)))
    {
      var walletAddress :| walletAddress in todo;
      if safe {
        NextDestination(consumedFunds, destinations, outputsByColor, walletAddress);
      }
      var copied;
      copied, rest := SpendOn(destinations[walletAddress], rest);
      outputsByColor := outputsByColor[walletAddress := copied];
      todo := todo - {walletAddress};
    }
    assert outputsByColor == destinations;
  }

  lemma NextDestination(consumed: Balances, all: map<Address, Balances>, done: map<Address, Balances>, a: Address)
    requires Positive(consumed) && Fits64(consumed) && Covers(consumed, Fold(Total(all)))
    requires a in all && a !in done && forall d | d in done :: d in all && done[d] == all[d]
    ensures var rest := Minus(consumed, Fold(Total(done)));
            Positive(rest) && Fits64(rest) && Covers(rest, Fold(all[a])) &&
            Minus(rest, Fold(all[a])) == Minus(consumed, Fold(Total(done[a := all[a]])))
  {
    var more := done[a := all[a]];
    TotalInsert(done, a, all[a]);
    FoldPlus(Total(done), all[a]);
    PartIsCovered(consumed, all, more);
    MinusMinus(consumed, Fold(Total(done)), Fold(all[a]));
  }

  lemma PartIsCovered(consumed: Balances, all: map<Address, Balances>, part: map<Address, Balances>)
    requires Covers(consumed, Fold(Total(all)))
    requires forall d | d in part :: d in all && part[d] == all[d]
    ensures Covers(consumed, Fold(Total(part)))
  {
    forall c | c in Fold(Total(part)) ensures Fold(Total(part))[c] <= Get(consumed, c) {
      TotalOfPart(part, all, c);
      TotalOfPart(part, all, ColorZIPP);
      TotalOfPart(part, all, ColorMint);
      assert Fold(Total(part))[c] <= Get(Fold(Total(all)), c);
    }
  }
}

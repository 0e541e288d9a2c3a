/** The evil wallet's way of splitting balances over the outputs of a transaction. */
module EvilWallet {
  import opened Collections
  import opened Balances
  import opened BalanceCheck

  type OutputID = nat

  type Alias = string

  ghost function SumOf(s: seq<nat>): nat {
    if s == [] then 0 else SumOf(s[..|s| - 1]) + s[|s| - 1]
  }

  lemma SumOfSnoc(s: seq<nat>, n: nat)
    ensures SumOf(s + [n]) == SumOf(s) + n
  {
    assert (s + [n])[..|s|] == s;
  }

  /** Adds on uint64. */
  function Add64(a: nat, b: nat): nat {
    (a + b) % TWO_TO_THE_64
  }

  ghost function Shares(share: nat, n: nat): seq<nat> {
    seq(n, _ => share)
  }

  lemma {:induction false} SumOfShares(share: nat, n: nat)
    ensures SumOf(Shares(share, n)) == n * share
  {
    if n != 0 {
      SumOfShares(share, n - 1);
      assert Shares(share, n) == Shares(share, n - 1) + [share];
      SumOfSnoc(Shares(share, n - 1), share);
    }
  }

  lemma MulMonotone(a: nat, b: nat, q: nat)
    requires a <= b
    ensures a * q <= b * q
  {
  }

  lemma DivisionRest(balance: nat, n: nat)
    requires 0 < n
    ensures balance == n * (balance / n) + balance % n && balance % n < n
  {
  }

  /** Before the last share there is always enough left for one more; the last one takes the rest of the division. */
  lemma SharesLeave(balance: nat, n: nat, i: nat, q: nat)
    requires i < n && q == balance / n
    ensures SumOf(Shares(q, i)) + q <= balance
    ensures i == n - 1 ==> q <= balance - SumOf(Shares(q, i)) < q + n
  {
    SumOfShares(q, i);
    DivisionRest(balance, n);
    MulMonotone(i + 1, n, q);
    assert (i + 1) * q == i * q + q;
  }

  /** All shares but the last are equal, and the last one exceeds them by less than their number. */
  ghost predicate AreEqualShares(shares: seq<nat>) {
    && (forall i, j | 0 <= i < j < |shares| - 1 :: shares[i] == shares[j])
    && (forall i | 0 <= i < |shares| - 1 :: shares[i] <= shares[|shares| - 1] < shares[i] + |shares|)
  }

  lemma LastShare(q: nat, i: nat, last: nat)
    requires i > 0 ==> q <= last < q + i + 1
    ensures AreEqualShares(Shares(q, i) + [last])
  {
  }

  /** Splits the balance: at least one share, the shares add up exactly, and the last one exceeds the equal others by
      less than their number. */
  method SplitBalanceEqually(splitNumber: int, balance: nat) returns (outputBalances: seq<nat>)
    requires balance < TWO_TO_THE_64
    ensures |outputBalances| == if splitNumber < 1 then 1 else splitNumber
    ensures SumOf(outputBalances) == balance
    ensures AreEqualShares(outputBalances)
  {
    outputBalances := [];
    var totalBalance := 0;
    // all shares but the last
    var i := 0;
    ghost var q := if splitNumber < 1 then 0 else balance / splitNumber;
    assert Shares(q, 0) == [];
    while i < splitNumber - 1
      invariant 0 <= i && (if splitNumber < 1 then i == 0 else i <= splitNumber - 1)
      invariant outputBalances == Shares(q, i) && totalBalance == SumOf(outputBalances)
    {
      SharesLeave(balance, splitNumber, i, q);
      SmallModulus(totalBalance + q);
      OneMoreShare(q, i);
      outputBalances := outputBalances + [balance / splitNumber];
      totalBalance := Add64(totalBalance, outputBalances[i]);
      i := i + 1;
    }
    if splitNumber >= 1 {
      SharesLeave(balance, splitNumber, i, q);
    }
    SmallModulus(balance - totalBalance);
    var lastBalance := Sub64(balance, totalBalance);
    assert lastBalance == balance - SumOf(outputBalances);
    SumOfSnoc(outputBalances, lastBalance);
    LastShare(q, i, lastBalance);
    outputBalances := outputBalances + [lastBalance];
  }

  lemma OneMoreShare(q: nat, i: nat)
    ensures Shares(q, i + 1) == Shares(q, i) + [q] && SumOf(Shares(q, i + 1)) == SumOf(Shares(q, i)) + q
  {
    assert Shares(q, i + 1) == Shares(q, i) + [q];
    SumOfSnoc(Shares(q, i), q);
  }

  // ---------------------------------------------------------------- options

  datatype Options = Options(
    aliasInputs: set<Alias>,
    inputs: seq<OutputID>,
    aliasOutputs: map<Alias, Balances>,
    outputs: seq<Balances>)
  {
    predicate AreInputsProvidedWithoutAliases() {
      |inputs| > 0
    }

    predicate AreOutputsProvidedWithoutAliases() {
      |outputs| > 0
    }

    /** Inputs and outputs are given, and neither mixes aliases with direct ones. */
    predicate CheckInputsAndOutputs() {
      && ((|inputs| > 0) != (aliasInputs != {}))
      && ((|outputs| > 0) != (aliasOutputs != map[]))
    }

    ghost predicate IsBalanceProvided() {
      exists a :: a in aliasOutputs && Holds(aliasOutputs[a])
    }
  }

  predicate Holds(b: Balances) {
    exists c :: c in b && b[c] > 0
  }

  method IsBalanceProvided(o: Options) returns (provided: bool)
    ensures provided <==> o.IsBalanceProvided()
  {
    provided := false;
    var todo := o.aliasOutputs.Keys;
    while todo != {}
      invariant todo <= o.aliasOutputs.Keys
      invariant provided <==> exists a :: a in o.aliasOutputs && a !in todo && Holds(o.aliasOutputs[a])
    {
      var a :| a in todo;
      if Holds(o.aliasOutputs[a]) {
        provided := true;
      }
      todo := todo - {a};
    }
  }

  /** What the output manager and the alias manager know about the inputs. */
  datatype Known = Known(outputs: map<OutputID, Balances>, inputOfAlias: map<Alias, OutputID>)

  /** The managers agree with each other: whatever is referred to is tracked. */
  ghost predicate Tracks(known: Known, o: Options) {
    && (forall id | id in o.inputs :: id in known.outputs)
    && (forall a | a in o.aliasInputs && a in known.inputOfAlias :: known.inputOfAlias[a] in known.outputs)
  }

  ghost predicate KnowsInputs(o: Options, known: Known) {
    Tracks(known, o) && o.aliasInputs <= known.inputOfAlias.Keys
  }

  /** The wallet is asked to find the balances itself. */
  ghost predicate LeavesBalances(o: Options) {
    !o.AreOutputsProvidedWithoutAliases() && !o.IsBalanceProvided()
  }

  ghost function AliasBalances(aliases: set<Alias>, known: Known): (r: map<Alias, Balances>)
    requires forall a | a in aliases :: a in known.inputOfAlias && known.inputOfAlias[a] in known.outputs
    ensures r.Keys == aliases
    ensures forall a | a in r :: r[a] == known.outputs[known.inputOfAlias[a]]
  {
    Tabulate(aliases, a requires a in known.inputOfAlias && known.inputOfAlias[a] in known.outputs =>
                        known.outputs[known.inputOfAlias[a]])
  }

  function InputBalances(inputs: seq<OutputID>, known: Known): seq<Balances>
    requires forall id | id in inputs :: id in known.outputs
  {
    seq(|inputs|, i requires 0 <= i < |inputs| => known.outputs[inputs[i]])
  }

  ghost function AliasAmount(o: Options, known: Known): nat
    requires KnowsInputs(o, known)
  {
    Amount(Total(AliasBalances(o.aliasInputs, known)))
  }

  ghost function DirectAmount(o: Options, known: Known): nat
    requires KnowsInputs(o, known)
  {
    Amount(Sum(InputBalances(o.inputs, known)))
  }

  /** All coins in the inputs. */
  ghost function InputAmount(o: Options, known: Known): nat
    requires KnowsInputs(o, known)
  {
    AliasAmount(o, known) + DirectAmount(o, known)
  }

  method AddAmount(sum: nat, b: Balances) returns (r: nat)
    ensures r == sum + Amount(b)
  {
    r := sum;
    var todo := b.Keys;
    ghost var done: Balances := map[];
    while todo != {}
      invariant done.Keys == b.Keys - todo && todo <= b.Keys
      invariant forall c | c in done :: done[c] == b[c]
      invariant r == sum + Amount(done)
    {
      var c :| c in todo;
      AmountUpdate(done, c, b[c]);
      r := r + b[c];
      todo := todo - {c};
      done := done[c := b[c]];
    }
    assert done == b;
  }

  /** Adds up what a list of balances holds. */
  method AddAmounts(sum: nat, list: seq<Balances>) returns (r: nat)
    ensures r == sum + Amount(Sum(list))
  {
    r := sum;
    for i := 0 to |list|
      invariant r == sum + Amount(Sum(list[..i]))
    {
      PrefixStep(list, i);
      SumSnoc(list[..i], list[i]);
      AmountPlus(Sum(list[..i]), list[i]);
      r := AddAmount(r, list[i]);
    }
    assert list[..|list|] == list;
  }

  method AddAliasAmounts(sum: nat, o: Options, known: Known) returns (r: nat)
    requires KnowsInputs(o, known)
    ensures r == sum + AliasAmount(o, known)
  {
    r := sum;
    ghost var all := AliasBalances(o.aliasInputs, known);
    var todo := o.aliasInputs;
    ghost var done: map<Alias, Balances> := map[];
    while todo != {}
      invariant done.Keys == o.aliasInputs - todo && todo <= o.aliasInputs
      invariant forall a | a in done :: done[a] == all[a]
      invariant r == sum + Amount(Total(done))
    {
      var a :| a in todo;
      var balances := known.outputs[known.inputOfAlias[a]];
      TotalInsert(done, a, balances);
      AmountPlus(Total(done), balances);
      r := AddAmount(r, balances);
      todo := todo - {a};
      done := done[a := balances];
    }
    assert done == all;
  }

  // ---------------------------------------------------------------- outputs

  /** If the outputs have aliases but no balances, the balance of the inputs is split over them. An input alias that is
      not known is an error then. */
  method UpdateOutputBalances(o: Options, known: Known) returns (aliasOutputs: map<Alias, Balances>, ok: bool)
    requires o.CheckInputsAndOutputs() && Tracks(known, o)
    requires KnowsInputs(o, known) ==> InputAmount(o, known) < TWO_TO_THE_64
    ensures ok <==> (LeavesBalances(o) ==> KnowsInputs(o, known))
    ensures !ok || !LeavesBalances(o) ==> aliasOutputs == o.aliasOutputs
    ensures ok && LeavesBalances(o) ==>
              aliasOutputs.Keys == o.aliasOutputs.Keys && Amount(Total(aliasOutputs)) == InputAmount(o, known)
    ensures ok && LeavesBalances(o) ==>
              exists order, shares :: AreShares(aliasOutputs, order, shares) && AreEqualShares(shares)
  {
    aliasOutputs, ok := o.aliasOutputs, true;
    if o.AreOutputsProvidedWithoutAliases() {
      return;
    }
    var provided := IsBalanceProvided(o);
    if !provided {
      var totalBalance;
      totalBalance, ok := TotalBalance(o, known);
      if ok {
        var balances := SplitBalanceEqually(|o.outputs| + |o.aliasOutputs|, totalBalance);
        ghost var order;
        aliasOutputs, order := Assign(o.aliasOutputs, balances);
      }
    }
  }

  /** The balance of all inputs, unless an alias is unknown. */
  method TotalBalance(o: Options, known: Known) returns (totalBalance: nat, ok: bool)
    requires o.CheckInputsAndOutputs() && Tracks(known, o)
    ensures ok <==> KnowsInputs(o, known)
    ensures ok ==> totalBalance == InputAmount(o, known)
  {
    totalBalance, ok := 0, true;
    if o.AreInputsProvidedWithoutAliases() {
      totalBalance := AddAmounts(totalBalance, InputBalances(o.inputs, known));
      assert AliasBalances(o.aliasInputs, known) == map[];
    } else {
      if exists a :: a in o.aliasInputs && a !in known.inputOfAlias {
        return 0, false;
      }
      totalBalance := AddAliasAmounts(totalBalance, o, known);
      assert InputBalances(o.inputs, known) == [];
    }
  }

  /** Every alias gets one of the shares, and every share goes to one alias. */
  ghost predicate AreShares(result: map<Alias, Balances>, order: seq<Alias>, balances: seq<nat>) {
    && |order| == |balances| && Distinct(order) && Elements(order) == result.Keys
    && (forall i | 0 <= i < |order| ::
          order[i] in result && result[order[i]] == DropZeros(map[ColorZIPP := balances[i]]))
  }

  /** Hands the shares out in an arbitrary order of the aliases. */
  method Assign(aliasOutputs: map<Alias, Balances>, balances: seq<nat>)
    returns (result: map<Alias, Balances>, ghost order: seq<Alias>)
    requires |balances| == |aliasOutputs|
    ensures result.Keys == aliasOutputs.Keys
    ensures AreShares(result, order, balances)
    ensures Amount(Total(result)) == SumOf(balances)
  {
    var aliases := SomeOrder(aliasOutputs.Keys);
    result := map[];
    for i := 0 to |aliases|
      invariant HasShares(result, aliases, balances, i)
      invariant Amount(Total(result)) == SumOf(balances[..i])
    {
      PrefixStep(balances, i);
      OneShareMore(result, aliases, balances, i);
      OneShareAmount(result, aliases[i], balances[..i], balances[i]);
      result := result[aliases[i] := DropZeros(map[ColorZIPP := balances[i]])];
    }
    assert aliases[..|aliases|] == aliases && balances[..|balances|] == balances;
    order := aliases;
  }

  /** The first aliases have their shares. */
  ghost predicate HasShares(result: map<Alias, Balances>, order: seq<Alias>, balances: seq<nat>, n: nat) {
    && n <= |order| == |balances|
    && result.Keys == Elements(order[..n])
    && (forall i | 0 <= i < n :: order[i] in result && result[order[i]] == DropZeros(map[ColorZIPP := balances[i]]))
  }

  lemma OneShareMore(result: map<Alias, Balances>, order: seq<Alias>, balances: seq<nat>, n: nat)
    requires HasShares(result, order, balances, n) && n < |order| && Distinct(order)
    ensures HasShares(result[order[n] := DropZeros(map[ColorZIPP := balances[n]])], order, balances, n + 1)
    ensures order[n] !in result
  {
    PrefixStep(order, n);
    assert order[n] !in order[..n];
    assert Elements(order[..n + 1]) == Elements(order[..n]) + {order[n]};
  }

  lemma OneShareAmount(result: map<Alias, Balances>, a: Alias, shares: seq<nat>, n: nat)
    requires a !in result && Amount(Total(result)) == SumOf(shares)
    ensures Amount(Total(result[a := DropZeros(map[ColorZIPP := n])])) == SumOf(shares + [n])
  {
    var share := DropZeros(map[ColorZIPP := n]);
    SumOfSnoc(shares, n);
    ShareAmount(n);
    TotalInsert(result, a, share);
    AmountPlus(Total(result), share);
  }

  lemma ShareAmount(n: nat)
    ensures Amount(DropZeros(map[ColorZIPP := n])) == n
  {
    var none: Balances := map[];
    AmountUpdate(none, ColorZIPP, n);
    if n == 0 {
      assert DropZeros(map[ColorZIPP := n]) == none;
    } else {
      assert DropZeros(map[ColorZIPP := n]) == none[ColorZIPP := n];
    }
  }

  /** The outputs: those given directly, or one per alias in an arbitrary order. */
  method PrepareOutputs(o: Options, aliasOutputs: map<Alias, Balances>) returns (outputs: seq<Balances>)
    ensures o.AreOutputsProvidedWithoutAliases() ==> outputs == o.outputs
    ensures !o.AreOutputsProvidedWithoutAliases() ==> Sum(outputs) == Total(aliasOutputs)
  {
    if o.AreOutputsProvidedWithoutAliases() {
      return o.outputs;
    }
    outputs := [];
    var todo := aliasOutputs.Keys;
    ghost var done: map<Alias, Balances> := map[];
    while todo != {}
      invariant done.Keys == aliasOutputs.Keys - todo && todo <= aliasOutputs.Keys
      invariant forall a | a in done :: done[a] == aliasOutputs[a]
      invariant Sum(outputs) == Total(done)
    {
      var a :| a in todo;
      TotalInsert(done, a, aliasOutputs[a]);
      SumSnoc(outputs, aliasOutputs[a]);
      outputs := outputs + [aliasOutputs[a]];
      todo := todo - {a};
      done := done[a := aliasOutputs[a]];
    }
    assert done == aliasOutputs;
  }

  /** Adds a remainder exactly if the outputs hold less than the inputs. */
  method PrepareRemainderOutput(o: Options, outputs: seq<Balances>, known: Known) returns (remainder: nat, added: bool)
    requires KnowsInputs(o, known)
    ensures added <==> Amount(Sum(outputs)) < InputAmount(o, known)
    ensures added ==> Amount(Sum(outputs)) + remainder == InputAmount(o, known)
  {
    var inputBalance := 0;
    inputBalance := AddAliasAmounts(inputBalance, o, known);
    inputBalance := AddAmounts(inputBalance, InputBalances(o.inputs, known));
    var outputBalance := AddAmounts(0, outputs);
    remainder, added := 0, false;
    // what is missing goes back to an input address
    if outputBalance < inputBalance {
      remainder := inputBalance - outputBalance;
      added := true;
    }
  }

  /** The outputs of a transaction. Where the balances are left to the wallet, they hold exactly what the inputs hold
      and no remainder is added. */
  method BuildOutputs(o: Options, known: Known) returns (outputs: seq<Balances>, remainder: nat, added: bool, ok: bool)
    requires o.CheckInputsAndOutputs() && Tracks(known, o)
    requires !LeavesBalances(o) ==> KnowsInputs(o, known)
    requires KnowsInputs(o, known) ==> InputAmount(o, known) < TWO_TO_THE_64
    ensures ok <==> KnowsInputs(o, known)
    ensures ok && LeavesBalances(o) ==> !added && Amount(Sum(outputs)) == InputAmount(o, known)
    ensures ok && Amount(Sum(outputs)) <= InputAmount(o, known) ==>
              Amount(Sum(outputs)) + (if added then remainder else 0) == InputAmount(o, known)
  {
    var aliasOutputs;
    aliasOutputs, ok := UpdateOutputBalances(o, known);
    if !ok {
      return [], 0, false, false;
    }
    outputs := PrepareOutputs(o, aliasOutputs);
    remainder, added := PrepareRemainderOutput(o, outputs, known);
  }

  /** Splitting the output of one address: the amounts of the new outputs add up to its balance. */
  method HandleInputOutputDuringSplitOutputs(splitNumber: int, balance: Balances) returns (amounts: seq<nat>)
    requires Amount(balance) < TWO_TO_THE_64
    ensures SumOf(amounts) == Amount(balance)
    ensures |amounts| == if splitNumber < 1 then 1 else splitNumber
  {
    var inputBalance := AddAmount(0, balance);
    amounts := SplitBalanceEqually(splitNumber, inputBalance);
  }
}

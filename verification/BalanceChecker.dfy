/** The ledger's balance check on uint64, with the guards against overflow. */
module BalanceChecker {
  import opened Collections
  import opened Balances
  import opened BalanceCheck

  const MAX_UINT64: nat := TWO_TO_THE_64 - 1

  function SafeAddUint64(a: nat, b: nat): (nat, bool)
    requires a <= MAX_UINT64
  {
    ((a + b) % TWO_TO_THE_64, MAX_UINT64 - a >= b)
  }

  function SafeSubUint64(a: nat, b: nat): (nat, bool) {
    (Sub64(a, b), b <= a)
  }

  /** What the outputs recolour. */
  function Fresh(b: Balances): nat {
    Get(b, ColorZIPP) + Get(b, ColorMint)
  }

  /** What the check decides: the amounts fit, no own colour appears from nowhere, and no coin appears or
      disappears. */
  ghost predicate Passes(consumed: Balances, created: Balances) {
    Fits64(consumed) && Fresh(created) <= MAX_UINT64 && IsBalanced(consumed, created)
  }

  /** The coins of one input; an input without any leaves the verdict as it is. */
  method AddCoins(consumed: Balances, input: Balances, before: bool) returns (coins: Balances, valid: bool)
    requires Fits64(consumed)
    ensures valid == if input == map[] then before else Fits64(Plus(consumed, input))
    ensures valid || input == map[] ==> coins == Plus(consumed, input) && Fits64(coins)
  {
    coins, valid := consumed, before;
    var todo := input.Keys;
    while todo != {}
      invariant todo <= input.Keys && (todo != input.Keys ==> valid) && (todo == input.Keys ==> valid == before)
      invariant Fits64(coins)
      invariant forall c :: c in coins <==> c in consumed || (c in input && c !in todo)
      invariant forall c :: Get(coins, c) == Get(consumed, c) + if c in todo then 0 else Get(input, c)
    {
      var color :| color in todo;
      var sum := SafeAddUint64(Get(coins, color), input[color]);
      if !sum.1 {
        assert Plus(consumed, input)[color] > MAX_UINT64;
        return coins, false;
      }
      SmallModulus(Get(coins, color) + input[color]);
      coins, valid := coins[color := sum.0], true;
      todo := todo - {color};
    }
    SameBalances(coins, Plus(consumed, input));
  }

  /** Takes the coins of one output out of the consumed ones, unless it recolours them. */
  method SpendCoins(coins: Balances, recolored: nat, output: Balances, before: bool)
    returns (left: Balances, moreRecolored: nat, valid: bool)
    requires recolored <= MAX_UINT64 && Fits64(coins)
    ensures output == map[] ==> left == coins && moreRecolored == recolored && valid == before
    ensures output != map[] ==> (valid <==> recolored + Fresh(output) <= MAX_UINT64 && Covers(coins, Tinted(output)))
    ensures valid ==>
              IsSpent(left, coins, output) && moreRecolored == recolored + Fresh(output) <= MAX_UINT64 && Fits64(left)
  {
    left, moreRecolored, valid := coins, recolored, before;
    var todo := output.Keys;
    ghost var done: Balances := map[];
    while todo != {}
      invariant todo <= output.Keys && done.Keys == output.Keys - todo && (forall c | c in done :: done[c] == output[c])
      invariant if done == map[] then left == coins && valid == before else valid
      invariant IsSpending(left, coins, moreRecolored, recolored, done)
    {
      var color :| color in todo;
      SpendsMore(left, coins, moreRecolored, recolored, done, output, color);
      left, moreRecolored, valid := SpendColor(left, moreRecolored, color, output[color]);
      if !valid {
        return;
      }
      todo := todo - {color};
      done := done[color := output[color]];
    }
    assert done == output;
  }

  /** Coins of the base colour and freshly minted ones are recoloured; any other colour has to be there already. */
  method SpendColor(coins: Balances, recolored: nat, color: Color, balance: nat)
    returns (left: Balances, moreRecolored: nat, valid: bool)
    requires recolored <= MAX_UINT64 && Fits64(coins)
    ensures valid <==> CanSpend(coins, recolored, color, balance)
    ensures valid ==> left == if IsFresh(color) then coins else coins[color := Get(coins, color) - balance]
    ensures valid ==> moreRecolored == if IsFresh(color) then recolored + balance else recolored
  {
    left, moreRecolored := coins, recolored;
    if IsFresh(color) {
      var sum := SafeAddUint64(recolored, balance);
      if sum.1 {
        SmallModulus(recolored + balance);
      }
      moreRecolored, valid := sum.0, sum.1;
    } else {
      var difference := SafeSubUint64(Get(coins, color), balance);
      if difference.1 {
        SmallModulus(Get(coins, color) - balance);
      }
      left, valid := coins[color := difference.0], difference.1;
    }
  }

  ghost predicate CanSpend(coins: Balances, recolored: nat, color: Color, balance: nat) {
    if IsFresh(color) then recolored + balance <= MAX_UINT64 else balance <= Get(coins, color)
  }

  /** The coins of some entries of an output have been taken out or recoloured. */
  ghost predicate IsSpending(left: Balances, coins: Balances, moreRecolored: nat, recolored: nat, done: Balances) {
    && Fits64(left) && IsSpent(left, coins, done) && Covers(coins, Tinted(done))
    && moreRecolored == recolored + Fresh(done) <= MAX_UINT64
  }

  lemma Recolors(left: Balances, coins: Balances, moreRecolored: nat, recolored: nat, done: Balances,
                 output: Balances, c: Color)
    requires c in output && c !in done && IsFresh(c) && forall d | d in done :: d in output && done[d] == output[d]
    requires IsSpending(left, coins, moreRecolored, recolored, done)
    ensures moreRecolored + output[c] <= recolored + Fresh(output)
    ensures moreRecolored + output[c] <= MAX_UINT64 ==>
              IsSpending(left, coins, moreRecolored + output[c], recolored, done[c := output[c]])
  {
    assert Tinted(done[c := output[c]]) == Tinted(done);
  }

  lemma Deducts(left: Balances, coins: Balances, moreRecolored: nat, recolored: nat, done: Balances, output: Balances,
                c: Color)
    requires c in output && c !in done && !IsFresh(c) && forall d | d in done :: d in output && done[d] == output[d]
    requires IsSpending(left, coins, moreRecolored, recolored, done)
    ensures output[c] > Get(left, c) ==> !Covers(coins, Tinted(output))
    ensures output[c] <= Get(left, c) ==>
              IsSpending(left[c := Get(left, c) - output[c]], coins, moreRecolored, recolored, done[c := output[c]])
  {
    assert Tinted(done[c := output[c]]) == Tinted(done)[c := output[c]];
    assert Get(left, c) + Get(Tinted(done), c) == Get(coins, c);
    assert c in Tinted(output);
    forall d ensures Get(Tinted(done[c := output[c]]), d) == if d == c then output[c] else Get(Tinted(done), d) {
    }
  }

  lemma SpendsMore(left: Balances, coins: Balances, moreRecolored: nat, recolored: nat, done: Balances,
                   output: Balances, c: Color)
    requires c in output && c !in done && forall d | d in done :: d in output && done[d] == output[d]
    requires IsSpending(left, coins, moreRecolored, recolored, done)
    ensures !CanSpend(left, moreRecolored, c, output[c]) ==>
              recolored + Fresh(output) > MAX_UINT64 || !Covers(coins, Tinted(output))
    ensures CanSpend(left, moreRecolored, c, output[c]) ==>
              IsSpending(if IsFresh(c) then left else left[c := Get(left, c) - output[c]], coins,
                         if IsFresh(c) then moreRecolored + output[c] else moreRecolored, recolored,
                         done[c := output[c]])
  {
    if IsFresh(c) {
      Recolors(left, coins, moreRecolored, recolored, done, output, c);
    } else {
      Deducts(left, coins, moreRecolored, recolored, done, output, c);
    }
  }

  ghost predicate IsSpent(left: Balances, coins: Balances, output: Balances) {
    forall c :: Get(left, c) + Get(Tinted(output), c) == Get(coins, c)
  }

  /** Adds up what is left. */
  method SumOfCoins(coins: Balances) returns (sum: nat, fits: bool)
    ensures fits <==> Amount(coins) <= MAX_UINT64
    ensures fits ==> sum == Amount(coins)
  {
    sum, fits := 0, true;
    var todo := coins.Keys;
    ghost var done: Balances := map[];
    while todo != {}
      invariant todo <= coins.Keys && done.Keys == coins.Keys - todo && (forall c | c in done :: done[c] == coins[c])
      invariant fits && sum == Amount(done) <= MAX_UINT64
    {
      var color :| color in todo;
      AmountUpdate(done, color, coins[color]);
      PartAmount(done[color := coins[color]], coins);
      var more := SafeAddUint64(sum, coins[color]);
      if !more.1 {
        return sum, false;
      }
      SmallModulus(sum + coins[color]);
      sum := more.0;
      done := done[color := coins[color]];
      todo := todo - {color};
    }
    SameMap(done, coins);
  }

  lemma {:induction false} PartAmount(part: Balances, whole: Balances)
    requires forall c | c in part :: c in whole && part[c] == whole[c]
    ensures Amount(part) <= Amount(whole)
    decreases |part|
  {
    if part != map[] {
      var c :| c in part;
      assert (part - {c}).Keys == part.Keys - {c};
      AmountRemove(part, c);
      AmountRemove(whole, c);
      PartAmount(part - {c}, whole - {c});
    }
  }

  /** Checks if the sum of the balance changes equals zero. The verdict starts out negative, so that the check also
      fails if the first input (or the first output, if there is no input) holds nothing. */
  method TransactionBalancesValid(inputs: seq<Balances>, outputs: seq<Balances>) returns (valid: bool)
    ensures valid <==>
              (inputs + outputs == [] || (inputs + outputs)[0] != map[]) && Passes(Sum(inputs), Sum(outputs))
  {
    valid := false;
    var consumedCoins: Balances := map[];
    for i := 0 to |inputs|
      invariant consumedCoins == Sum(inputs[..i]) && Fits64(consumedCoins)
      invariant valid == (i > 0)
      invariant i > 0 ==> inputs[0] != map[]
    {
      PrefixStep(inputs, i);
      SumSnoc(inputs[..i], inputs[i]);
      consumedCoins, valid := AddCoins(consumedCoins, inputs[i], valid);
      if !valid {
        if Fits64(Sum(inputs)) {
          PrefixFits(inputs, i + 1);
        }
        return;
      }
    }
    assert inputs[..|inputs|] == inputs;
    valid := OutputsValid(consumedCoins, outputs, valid);
  }

  lemma PrefixFits(inputs: seq<Balances>, n: nat)
    requires n <= |inputs| && Fits64(Sum(inputs))
    ensures Fits64(Sum(inputs[..n]))
  {
    forall c | c in Sum(inputs[..n]) ensures Sum(inputs[..n])[c] < TWO_TO_THE_64 {
      SumPrefix(inputs, n, c);
      assert Get(Sum(inputs), c) < TWO_TO_THE_64;
    }
  }

  /** The second half of the check, with the verdict on the inputs. */
  method OutputsValid(consumed: Balances, outputs: seq<Balances>, before: bool) returns (valid: bool)
    requires Fits64(consumed)
    ensures valid <==> (before || outputs == [] || outputs[0] != map[]) && Passes(consumed, Sum(outputs))
  {
    var coins, recoloredCoins := consumed, 0;
    valid := before;
    for i := 0 to |outputs|
      invariant valid == (before || i > 0)
      invariant i > 0 ==> before || outputs[0] != map[]
      invariant Fits64(coins) && IsSpent(coins, consumed, Sum(outputs[..i]))
      invariant recoloredCoins == Fresh(Sum(outputs[..i])) <= MAX_UINT64
    {
      PrefixStep(outputs, i);
      SumSnoc(outputs[..i], outputs[i]);
      SpentMore(coins, consumed, Sum(outputs[..i]), outputs[i]);
      ghost var earlier := coins;
      coins, recoloredCoins, valid := SpendCoins(coins, recoloredCoins, outputs[i], valid);
      if !valid {
        if outputs[i] != map[] {
          FailsAsAWhole(earlier, consumed, outputs, i);
        }
        return;
      }
    }
    assert outputs[..|outputs|] == outputs;
    LeftOver(coins, consumed, Sum(outputs));
    var unspentCoins, fits := SumOfCoins(coins);
    valid := fits && unspentCoins == recoloredCoins;
  }

  lemma SpentMore(coins: Balances, consumed: Balances, spent: Balances, output: Balances)
    requires IsSpent(coins, consumed, spent)
    ensures forall left: Balances | IsSpent(left, coins, output) :: IsSpent(left, consumed, Plus(spent, output))
    ensures Fresh(Plus(spent, output)) == Fresh(spent) + Fresh(output)
  {
    forall c ensures Get(Tinted(Plus(spent, output)), c) == Get(Tinted(spent), c) + Get(Tinted(output), c) {
    }
  }

  /** If one output overdraws a colour or recolours too much, the check fails for all outputs together. */
  lemma FailsAsAWhole(coins: Balances, consumed: Balances, outputs: seq<Balances>, i: nat)
    requires i < |outputs| && IsSpent(coins, consumed, Sum(outputs[..i]))
    requires Fresh(Sum(outputs[..i])) + Fresh(outputs[i]) > MAX_UINT64 || !Covers(coins, Tinted(outputs[i]))
    ensures !Passes(consumed, Sum(outputs))
  {
    PrefixStep(outputs, i);
    SumSnoc(outputs[..i], outputs[i]);
    var sofar := Sum(outputs[..i + 1]);
    if Fresh(Sum(outputs[..i])) + Fresh(outputs[i]) > MAX_UINT64 {
      SumPrefix(outputs, i + 1, ColorZIPP);
      SumPrefix(outputs, i + 1, ColorMint);
    } else {
      var c :| c in Tinted(outputs[i]) && Tinted(outputs[i])[c] > Get(coins, c);
      SumPrefix(outputs, i + 1, c);
      assert Get(coins, c) + Get(Tinted(Sum(outputs[..i])), c) == Get(consumed, c);
      assert Get(sofar, c) > Get(consumed, c) && !IsFresh(c);
    }
  }

  /** What is left equals what is recoloured exactly if the whole is balanced. */
  lemma LeftOver(coins: Balances, consumed: Balances, created: Balances)
    requires IsSpent(coins, consumed, created)
    ensures Amount(coins) == Fresh(created) <==> IsBalanced(consumed, created)
  {
    forall c ensures Get(Plus(coins, Tinted(created)), c) == Get(consumed, c) {
      assert Get(coins, c) + Get(Tinted(created), c) == Get(consumed, c);
    }
    AmountSame(Plus(coins, Tinted(created)), consumed);
    AmountPlus(coins, Tinted(created));
    AmountByTint(created);
    forall c | !IsFresh(c) ensures Get(created, c) <= Get(consumed, c) {
      assert Get(Tinted(created), c) == Get(created, c);
      assert Get(coins, c) + Get(Tinted(created), c) == Get(consumed, c);
    }
  }
}

/** Balances of aliases: withdrawing, depositing, and withdrawing everything before a destruction. */
module NFT {
  import opened Collections
  import opened Balances
  import opened BalanceCheck
  import opened Transactions

  const DUST_THRESHOLD_ALIAS_OUTPUT_ZIPP: nat := 100

  datatype NFTError =
    | WithdrawsTooMuch(color: Color)
    | LeavesDust
    | BelowDustThreshold
    | DepositNotConsumed

  predicate IsAboveDustThreshold(b: Balances) {
    ColorZIPP in b && b[ColorZIPP] >= DUST_THRESHOLD_ALIAS_OUTPUT_ZIPP
  }

  predicate IsExactDustMinimum(b: Balances) {
    b == map[ColorZIPP := DUST_THRESHOLD_ALIAS_OUTPUT_ZIPP]
  }

  // ---------------------------------------------------------------- withdrawal

  /** When a withdrawal is accepted: no held colour is overdrawn, and enough ZIPP stays. Colours that the alias does
      not hold are not looked at. */
  ghost predicate IsAccepted(alias: Balances, withdraw: Balances) {
    && (forall c | c in alias :: Get(withdraw, c) <= alias[c])
    && Get(withdraw, ColorZIPP) + DUST_THRESHOLD_ALIAS_OUTPUT_ZIPP <= Get(alias, ColorZIPP)
  }

  /** Computes what stays in the alias, or why the withdrawal is refused. */
  method WithdrawBalances(balancesOfAlias: Balances, withdrawBalances: Balances)
    returns (newAliasBalance: Balances, err: Option<NFTError>)
    requires Positive(balancesOfAlias)
    ensures err.None? <==> IsAccepted(balancesOfAlias, withdrawBalances)
    ensures err.None? ==> newAliasBalance == Minus(balancesOfAlias, withdrawBalances) && Positive(newAliasBalance)
  {
    newAliasBalance := map[];
    var todo := balancesOfAlias.Keys;
    ghost var done: Balances := map[];
    // every held colour in turn
    while todo != {}
      invariant todo <= balancesOfAlias.Keys
      invariant forall c :: c in done <==> c in balancesOfAlias && c !in todo
      invariant forall c | c in done :: done[c] == balancesOfAlias[c] && Get(withdrawBalances, c) <= done[c]
      invariant ColorZIPP in done ==>
                Get(withdrawBalances, ColorZIPP) + DUST_THRESHOLD_ALIAS_OUTPUT_ZIPP <= done[ColorZIPP]
      invariant newAliasBalance == Minus(done, withdrawBalances)
    {
      var color :| color in todo;
      var balance := balancesOfAlias[color];
      if balance < Get(withdrawBalances, color) {
        return newAliasBalance, Some(WithdrawsTooMuch(color));
      }
      WithdrawStep(done, withdrawBalances, color, balance);
      newAliasBalance := newAliasBalance[color := balance - Get(withdrawBalances, color)];
      if newAliasBalance[color] == 0 {
        newAliasBalance := newAliasBalance - {color};
      }
      if color == ColorZIPP && Get(newAliasBalance, color) < DUST_THRESHOLD_ALIAS_OUTPUT_ZIPP {
        return newAliasBalance, Some(LeavesDust);
      }
      todo := todo - {color};
      done := done[color := balance];
    }
    SameMap(done, balancesOfAlias);
    // setting the balances of the next alias checks the threshold once more
    if !IsAboveDustThreshold(newAliasBalance) {
      return newAliasBalance, Some(BelowDustThreshold);
    }
    err := None;
  }

  lemma WithdrawStep(done: Balances, withdraw: Balances, c: Color, balance: nat)
    requires c !in done && Get(withdraw, c) <= balance
    ensures var kept := Minus(done, withdraw)[c := balance - Get(withdraw, c)];
            Minus(done[c := balance], withdraw) == if balance == Get(withdraw, c) then kept - {c} else kept
  {
    if balance == Get(withdraw, c) {
      NothingKept(done, withdraw, c, balance);
    } else {
      SomethingKept(done, withdraw, c, balance);
    }
  }

  lemma NothingKept(done: Balances, withdraw: Balances, c: Color, balance: nat)
    requires c !in done && Get(withdraw, c) == balance
    ensures Minus(done[c := balance], withdraw) == Minus(done, withdraw)[c := 0] - {c}
  {
    var more, kept := Minus(done[c := balance], withdraw), Minus(done, withdraw)[c := 0] - {c};
    forall d ensures (d in more <==> d in kept) && Get(more, d) == Get(kept, d) {
      assert d != c ==> Get(done[c := balance], d) == Get(done, d);
    }
    SameBalances(more, kept);
  }

  lemma SomethingKept(done: Balances, withdraw: Balances, c: Color, balance: nat)
    requires c !in done && Get(withdraw, c) < balance
    ensures Minus(done[c := balance], withdraw) == Minus(done, withdraw)[c := balance - Get(withdraw, c)]
  {
    SameBalances(Minus(done[c := balance], withdraw), Minus(done, withdraw)[c := balance - Get(withdraw, c)]);
  }

  /** An accepted withdrawal conserves every colour that the alias holds, and conserves all colours if and only if only
      held colours are withdrawn. That is also exactly when the transaction passes the ledger's balance check. */
  lemma WithdrawalConservesIff(alias: Balances, withdraw: Balances)
    requires Positive(alias) && IsAccepted(alias, withdraw)
    ensures forall c | c in alias :: Get(Minus(alias, withdraw), c) + Get(withdraw, c) == alias[c]
    ensures SameAmounts(Plus(Minus(alias, withdraw), withdraw), alias) <==> OnlyHeld(alias, withdraw)
    ensures IsBalanced(alias, Plus(Minus(alias, withdraw), withdraw)) <==> OnlyHeld(alias, withdraw)
  {
    var rest := Minus(alias, withdraw);
    var created := Plus(rest, withdraw);
    if OnlyHeld(alias, withdraw) {
      forall c ensures Get(created, c) == Get(alias, c) {
        assert c in alias || Get(withdraw, c) == 0;
      }
      AmountSame(created, alias);
    } else {
      var c :| c in withdraw && withdraw[c] > 0 && c !in alias;
      assert Get(created, c) > Get(alias, c);
      HeldPartIsAll(alias, withdraw);
      MoreOfOne(created, alias, c);
    }
  }

  /** An alias with 200 ZIPP lets go of five coins of a colour that it does not hold. */
  lemma WithdrawsUnheld() returns (alias: Balances, withdraw: Balances)
    ensures Positive(alias) && IsAboveDustThreshold(alias) && IsAccepted(alias, withdraw)
    ensures !OnlyHeld(alias, withdraw) && !IsBalanced(alias, Plus(Minus(alias, withdraw), withdraw))
  {
    alias, withdraw := map[ColorZIPP := 200], map[Colored(1) := 5];
    assert withdraw[Colored(1)] == 5 && Colored(1) !in alias;
    WithdrawalConservesIff(alias, withdraw);
  }

  ghost predicate OnlyHeld(alias: Balances, withdraw: Balances) {
    forall c | c in withdraw && withdraw[c] > 0 :: c in alias
  }

  lemma HeldPartIsAll(alias: Balances, withdraw: Balances)
    requires Positive(alias) && IsAccepted(alias, withdraw)
    ensures forall c :: Get(alias, c) <= Get(Plus(Minus(alias, withdraw), withdraw), c)
  {
  }

  lemma MoreOfOne(more: Balances, less: Balances, c: Color)
    requires forall d :: Get(less, d) <= Get(more, d)
    requires Get(less, c) < Get(more, c)
    ensures Amount(less) < Amount(more)
  {
    var extra := Minus(more, less);
    forall d ensures Get(Plus(less, extra), d) == Get(more, d) {
      assert Get(less, d) <= Get(more, d);
    }
    AmountSame(Plus(less, extra), more);
    AmountPlus(less, extra);
    AmountUpdate(extra, c, 0);
  }

  // ---------------------------------------------------------------- destruction

  /** What a destruction withdraws first: everything but the dust minimum, computed on uint64. */
  function DestroyWithdrawal(alias: Balances): Balances {
    alias[ColorZIPP := Sub64(Get(alias, ColorZIPP), DUST_THRESHOLD_ALIAS_OUTPUT_ZIPP)]
  }

  /** The withdrawal of a destruction is accepted if and only if the alias holds at least the dust minimum; then it is
      balanced and leaves exactly the dust minimum, so that the alias can be destroyed. */
  lemma DestroyLeavesDustIff(alias: Balances)
    requires Positive(alias) && Fits64(alias)
    ensures IsAccepted(alias, DestroyWithdrawal(alias)) <==> IsAboveDustThreshold(alias)
    ensures IsAboveDustThreshold(alias) ==>
              && IsExactDustMinimum(Minus(alias, DestroyWithdrawal(alias)))
              && IsBalanced(alias, Plus(Minus(alias, DestroyWithdrawal(alias)), DestroyWithdrawal(alias)))
  {
    var zipp := Get(alias, ColorZIPP);
    if zipp >= DUST_THRESHOLD_ALIAS_OUTPUT_ZIPP {
      SmallModulus(zipp - DUST_THRESHOLD_ALIAS_OUTPUT_ZIPP);
      DustIsLeft(alias, DestroyWithdrawal(alias));
    } else {
      WrapsAround(zipp);
    }
  }

  lemma DustIsLeft(alias: Balances, withdraw: Balances)
    requires Get(alias, ColorZIPP) >= DUST_THRESHOLD_ALIAS_OUTPUT_ZIPP
    requires withdraw == alias[ColorZIPP := Get(alias, ColorZIPP) - DUST_THRESHOLD_ALIAS_OUTPUT_ZIPP]
    requires Positive(alias)
    ensures IsAccepted(alias, withdraw) && IsExactDustMinimum(Minus(alias, withdraw))
    ensures IsBalanced(alias, Plus(Minus(alias, withdraw), withdraw))
  {
    WithdrawalConservesIff(alias, withdraw);
    var dust: Balances := map[ColorZIPP := DUST_THRESHOLD_ALIAS_OUTPUT_ZIPP];
    forall c ensures Get(Minus(alias, withdraw), c) == Get(dust, c) && (c in Minus(alias, withdraw) <==> c in dust) {
      assert c != ColorZIPP ==> Get(withdraw, c) == Get(alias, c);
    }
    SameBalances(Minus(alias, withdraw), dust);
  }

  lemma WrapsAround(n: nat)
    requires n < DUST_THRESHOLD_ALIAS_OUTPUT_ZIPP
    ensures Sub64(n, DUST_THRESHOLD_ALIAS_OUTPUT_ZIPP) == n - DUST_THRESHOLD_ALIAS_OUTPUT_ZIPP + TWO_TO_THE_64
  {
  }

  // ---------------------------------------------------------------- deposit

  /** Deducts from one entry, and deletes the entry when nothing is left. */
  method Deducted(b: Balances, c: Color, amount: nat) returns (r: Balances)
    requires amount <= Get(b, c)
    ensures r == if Get(b, c) - amount == 0 then b - {c} else b[c := Get(b, c) - amount]
  {
    r := b[c := Get(b, c) - amount];
    if r[c] <= 0 {
      r := r - {c};
    }
  }

  /** Computes the balance of the topped-up alias and what remains of the funds consumed for the deposit. */
  method DepositBalances(balancesOfAlias: Balances, depositBalances: Balances, consumed: Balances)
    returns (newAliasBalance: Balances, remainder: Balances, err: Option<NFTError>)
    requires Positive(consumed)
    ensures err.None? <==>
              IsAboveDustThreshold(Plus(balancesOfAlias, depositBalances)) && Covers(consumed, depositBalances)
    ensures err == Some(BelowDustThreshold) <==> !IsAboveDustThreshold(Plus(balancesOfAlias, depositBalances))
    ensures err == Some(DepositNotConsumed) <==>
              IsAboveDustThreshold(Plus(balancesOfAlias, depositBalances)) && !Covers(consumed, depositBalances)
    ensures err.None? ==> newAliasBalance == Plus(balancesOfAlias, depositBalances)
    ensures err.None? ==> remainder == Minus(consumed, depositBalances)
  {
    remainder := consumed;
    newAliasBalance := AddAll(balancesOfAlias, depositBalances);
    if !IsAboveDustThreshold(newAliasBalance) {
      return newAliasBalance, remainder, Some(BelowDustThreshold);
    }
    // take the deposit out of what was consumed
    remainder, err := DeductAll(consumed, depositBalances);
  }

  method DeductAll(consumed: Balances, depositBalances: Balances) returns (remainder: Balances, err: Option<NFTError>)
    requires Positive(consumed)
    ensures err.None? <==> Covers(consumed, depositBalances)
    ensures err.Some? ==> err.value == DepositNotConsumed
    ensures err.None? ==> remainder == Minus(consumed, depositBalances)
  {
    remainder := consumed;
    var todo := depositBalances.Keys;
    ghost var done: Balances := map[];
    SameBalances(Minus(consumed, done), consumed);
    while todo != {}
      invariant todo <= depositBalances.Keys
      invariant forall c :: c in done <==> c in depositBalances && c !in todo
      invariant forall c | c in done :: done[c] == depositBalances[c] && done[c] <= Get(consumed, c)
      invariant remainder == Minus(consumed, done)
    {
      var color :| color in todo;
      var balance := depositBalances[color];
      DepositStep(consumed, done, color, balance);
      if Get(remainder, color) < balance {
        assert depositBalances[color] > Get(consumed, color);
        return remainder, Some(DepositNotConsumed);
      }
      remainder := Deducted(remainder, color, balance);
      todo := todo - {color};
      done := done[color := balance];
    }
    SameMap(done, depositBalances);
    err := None;
  }

  lemma DepositStep(consumed: Balances, done: Balances, c: Color, amount: nat)
    requires c !in done && Positive(consumed)
    ensures Get(Minus(consumed, done), c) == Get(consumed, c)
    ensures amount <= Get(consumed, c) ==>
              Minus(consumed, done[c := amount]) ==
              if Get(consumed, c) - amount == 0 then Minus(consumed, done) - {c}
              else Minus(consumed, done)[c := Get(consumed, c) - amount]
  {
    if amount <= Get(consumed, c) {
      MinusMore(consumed, done, c, amount);
    }
  }

  /** A deposit conserves every colour: the new alias and the remainder hold what the old alias and the consumed
      outputs held. */
  lemma DepositConserves(alias: Balances, deposit: Balances, consumed: Balances)
    requires Positive(consumed) && Covers(consumed, deposit)
    ensures SameAmounts(Plus(Plus(alias, deposit), Minus(consumed, deposit)), Plus(alias, consumed))
    ensures IsBalanced(Plus(alias, consumed), Plus(Plus(alias, deposit), Minus(consumed, deposit)))
  {
    var before, after := Plus(alias, consumed), Plus(Plus(alias, deposit), Minus(consumed, deposit));
    forall c ensures Get(after, c) == Get(before, c) {
      assert c in deposit ==> deposit[c] <= Get(consumed, c);
    }
    AmountSame(after, before);
  }
}

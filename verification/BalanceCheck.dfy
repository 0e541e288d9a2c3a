/** The ledger's check that a transaction neither creates nor loses coins. */
module BalanceCheck {
  import opened Balances

  /** All coins together, whatever their colour. */
  ghost function Amount(b: Balances): nat
    decreases |b|
  {
    if b == map[] then 0
    else
      var c :| c in b;
      assert |b - {c}| < |b| by { assert (b - {c}).Keys == b.Keys - {c}; }
      Amount(b - {c}) + b[c]
  }

  lemma {:induction false} AmountRemove(b: Balances, c: Color)
    requires c in b
    ensures Amount(b) == Amount(b - {c}) + b[c]
    decreases |b|
  {
    var d :| d in b && Amount(b) == Amount(b - {d}) + b[d];
    if d != c {
      assert (b - {d}).Keys == b.Keys - {d} && (b - {c}).Keys == b.Keys - {c};
      assert b - {c} - {d} == b - {d} - {c};
      AmountRemove(b - {d}, c);
      AmountRemove(b - {c}, d);
    }
  }

  /** Changing one entry changes the amount by the difference. */
  lemma AmountUpdate(b: Balances, c: Color, n: nat)
    ensures Amount(b[c := n]) == Amount(b) - Get(b, c) + n
    ensures Get(b, c) <= Amount(b)
  {
    AmountRemove(b[c := n], c);
    if c in b {
      AmountRemove(b, c);
      assert b[c := n] - {c} == b - {c};
    } else {
      assert b[c := n] - {c} == b;
    }
  }

  lemma {:induction false} AmountPlus(a: Balances, b: Balances)
    ensures Amount(Plus(a, b)) == Amount(a) + Amount(b)
    decreases |b|
  {
    if b == map[] {
      assert Plus(a, b) == a;
    } else {
      var c :| c in b;
      assert (b - {c}).Keys == b.Keys - {c};
      AmountPlus(a, b - {c});
      AmountRemove(b, c);
      AmountUpdate(Plus(a, b - {c}), c, Get(a, c) + b[c]);
      PlusOneMore(a, b, c);
    }
  }

  lemma PlusOneMore(a: Balances, b: Balances, c: Color)
    requires c in b
    ensures Plus(a, b) == Plus(a, b - {c})[c := Get(a, c) + b[c]]
    ensures Get(Plus(a, b - {c}), c) == Get(a, c)
  {
  }

  /** Only the amounts per colour matter, not whether a zero entry is present. */
  lemma {:induction false} AmountSame(a: Balances, b: Balances)
    requires SameAmounts(a, b)
    ensures Amount(a) == Amount(b)
    decreases |a|
  {
    if a == map[] {
      forall c ensures Get(b, c) == 0 {
        assert Get(a, c) == Get(b, c);
      }
      AmountZero(b);
    } else {
      var c :| c in a;
      AmountRemove(a, c);
      if c in b {
        AmountRemove(b, c);
      }
      forall d ensures Get(a - {c}, d) == Get(b - {c}, d) {
        assert Get(a, d) == Get(b, d);
      }
      assert (a - {c}).Keys == a.Keys - {c};
      AmountSame(a - {c}, b - {c});
      assert Get(a, c) == Get(b, c);
      if c !in b {
        assert b - {c} == b;
      }
    }
  }

  lemma {:induction false} AmountZero(b: Balances)
    requires forall c :: Get(b, c) == 0
    ensures Amount(b) == 0
    decreases |b|
  {
    if b != map[] {
      var c :| c in b;
      assert (b - {c}).Keys == b.Keys - {c};
      assert Get(b, c) == 0;
      AmountRemove(b, c);
      forall d ensures Get(b - {c}, d) == 0 {
        assert Get(b, d) == 0;
      }
      AmountZero(b - {c});
    }
  }

  lemma {:induction false} AmountPositive(b: Balances)
    requires Positive(b) && b != map[]
    ensures Amount(b) > 0
  {
    var c :| c in b;
    AmountRemove(b, c);
  }

  predicate IsFresh(c: Color) {
    c == ColorZIPP || c == ColorMint
  }

  /** The part with a colour of its own. */
  function Tinted(b: Balances): Balances {
    b - {ColorZIPP, ColorMint}
  }

  lemma AmountByTint(b: Balances)
    ensures Amount(b) == Amount(Tinted(b)) + Get(b, ColorZIPP) + Get(b, ColorMint)
  {
    var noZipp := b - {ColorZIPP};
    if ColorZIPP in b {
      AmountRemove(b, ColorZIPP);
    } else {
      assert noZipp == b;
    }
    if ColorMint in noZipp {
      AmountRemove(noZipp, ColorMint);
      assert noZipp - {ColorMint} == Tinted(b);
    } else {
      assert noZipp == Tinted(b);
    }
  }

  /** What the check is for: no own colour appears from nowhere, and no coin appears or disappears. */
  ghost predicate IsBalanced(consumed: Balances, created: Balances) {
    && (forall c | !IsFresh(c) :: Get(created, c) <= Get(consumed, c))
    && Amount(consumed) == Amount(created)
  }
}

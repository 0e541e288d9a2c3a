/** What the wallet has handed to the node so far, and why no output is in it twice. */
module History {
  import opened Collections
  import opened Balances
  import opened BalanceCheck
  import opened Addresses
  import opened Outputs
  import opened OutputManagement
  import opened Funding
  import opened FundingTheorems
  import opened Transactions
  import opened Conservation
  import opened Unlocking

  datatype Transaction = Transaction(inputs: seq<OutputID>, outputs: seq<TxOutput>, unlockBlocks: seq<UnlockBlock>)

  /** A transaction handed to the connector, with the stored outputs that it was built from. */
  datatype Sent = Sent(tx: Transaction, consumed: O)

  /** Entries are stored under their own address and identifier, as the connector reports them. */
  ghost predicate WellKeyed(ledger: Ledger) {
    forall k | k in ledger :: ledger[k].output.address == k.address && ledger[k].output.ledgerOutput.id == k.id
  }

  ghost predicate SpendsItsInputs(s: Sent) {
    Elements(s.tx.inputs) == set k | k in s.consumed :: k.id
  }

  const MIN_INPUT_COUNT: nat := 1

  /** The serializer accepts between MIN_INPUT_COUNT and MAX_INPUT_COUNT inputs. */
  predicate HasLegalSize(tx: Transaction) {
    MIN_INPUT_COUNT <= |tx.inputs| <= MAX_INPUT_COUNT
  }

  /** The consumed outputs that the inputs refer to, in the order of the inputs. */
  ghost predicate AreConsumed(s: Sent, keys: seq<Key>) {
    && |keys| == |s.tx.inputs|
    && (forall k | k in keys :: k in s.consumed)
    && (forall i | 0 <= i < |keys| :: keys[i].id == s.tx.inputs[i])
  }

  ghost function OwnersAlong(keys: seq<Key>): seq<Address> {
    seq(|keys|, i requires 0 <= i < |keys| => keys[i].address)
  }

  /** Every input has its unlock block, and the outputs hold what the inputs hold. */
  ghost predicate IsAuthorized(s: Sent, keys: seq<Key>) {
    && AreConsumed(s, keys)
    && UnlocksEach(s.tx.unlockBlocks, OwnersAlong(keys))
    && IsBalanced(Sum(BalancesAlong(keys, s.consumed)), OutputsTotal(s.tx.outputs))
  }

  /** What every transaction has to satisfy that is handed over. */
  ghost predicate IsProper(s: Sent) {
    && Ascending(s.tx.inputs)
    && SpendsItsInputs(s)
    && HasLegalSize(s.tx)
    && (exists keys :: IsAuthorized(s, keys))
  }

  /** No identifier occurs under two addresses. */
  ghost predicate UniqueIDs<V>(m: map<Key, V>) {
    forall j, k | j in m && k in m && j.id == k.id :: j == k
  }

  /** If no identifier occurs under two addresses, the inputs are all that is consumed. */
  lemma InputsAreAll(s: Sent, keys: seq<Key>)
    requires SpendsItsInputs(s) && AreConsumed(s, keys) && UniqueIDs(s.consumed)
    ensures forall k | k in s.consumed :: k in keys
  {
    forall k | k in s.consumed ensures k in keys {
      assert k.id in Elements(s.tx.inputs);
      var i :| 0 <= i < |keys| && s.tx.inputs[i] == k.id;
      assert keys[i] in keys;
    }
  }

  lemma InputsHoldAll(s: Sent, keys: seq<Key>)
    requires Ascending(s.tx.inputs) && SpendsItsInputs(s) && AreConsumed(s, keys) && UniqueIDs(s.consumed)
    ensures Sum(BalancesAlong(keys, s.consumed)) == Funds(s.consumed)
  {
    assert Distinct(keys);
    InputsAreAll(s, keys);
    SumAlongIsFunds(keys, s.consumed);
    OnlyAll(s.consumed, Elements(keys));
  }

  /** A transaction that is handed over conserves the coins that it consumes. */
  lemma ProperConserves(s: Sent)
    requires IsProper(s) && UniqueIDs(s.consumed)
    ensures IsBalanced(Funds(s.consumed), OutputsTotal(s.tx.outputs))
  {
    var keys :| IsAuthorized(s, keys);
    InputsHoldAll(s, keys);
  }

  /** Outputs as they are stored, none of them spent. */
  ghost predicate IsUnspentPart(consumed: O, ledger: Ledger) {
    forall k | k in consumed :: k in ledger && ledger[k] == Entry(consumed[k], false)
  }

  // ---------------------------------------------------------------- runs

  /** What changes the store: an answer of the node is merged, or a transaction is marked and handed over. */
  datatype Event =
    | Answered(answer: Ledger)
    | Handed(s: Sent)

  ghost function LedgerAfter(events: seq<Event>, stateless: bool): Ledger {
    if events == [] then map[]
    else LedgerNext(LedgerAfter(events[..|events| - 1], stateless), events[|events| - 1], stateless)
  }

  ghost function LedgerNext(before: Ledger, event: Event, stateless: bool): Ledger {
    match event
    case Answered(answer) => Refreshed(before, answer, stateless)
    case Handed(s) => MarkedSpent(before, s.consumed.Keys)
  }

  ghost function SentIn(events: seq<Event>): seq<Sent> {
    if events == [] then []
    else
      var before := SentIn(events[..|events| - 1]);
      match events[|events| - 1]
      case Answered(_) => before
      case Handed(s) => before + [s]
  }

  /** The node may answer anything; the wallet hands over only what its store lists as unspent at that moment. */
  ghost predicate IsRun(events: seq<Event>, stateless: bool) {
    forall i: nat | i < |events| :: IsAllowed(events, i, stateless)
  }

  ghost predicate IsAllowed(events: seq<Event>, i: nat, stateless: bool)
    requires i < |events|
  {
    MayFollow(events[..i], events[i], stateless)
  }

  ghost predicate MayFollow(before: seq<Event>, event: Event, stateless: bool) {
    match event
    case Answered(answer) => WellKeyed(answer)
    case Handed(s) => IsProper(s) && IsUnspentPart(s.consumed, LedgerAfter(before, stateless))
  }

  lemma RunBefore(events: seq<Event>, stateless: bool)
    requires IsRun(events, stateless) && events != []
    ensures IsRun(events[..|events| - 1], stateless)
    ensures MayFollow(events[..|events| - 1], events[|events| - 1], stateless)
  {
    var front := events[..|events| - 1];
    assert IsAllowed(events, |events| - 1, stateless);
    forall i: nat | i < |front| ensures IsAllowed(front, i, stateless) {
      assert front[..i] == events[..i];
      assert IsAllowed(events, i, stateless);
    }
  }

  lemma RunContinues(events: seq<Event>, event: Event, stateless: bool)
    requires IsRun(events, stateless) && MayFollow(events, event, stateless)
    ensures IsRun(events + [event], stateless)
  {
    forall i: nat | i < |events + [event]| ensures IsAllowed(events + [event], i, stateless) {
      OneStep(events, event, i, stateless);
    }
  }

  lemma OneStep(events: seq<Event>, event: Event, i: nat, stateless: bool)
    requires i <= |events| && MayFollow(events, event, stateless)
    requires i < |events| ==> IsAllowed(events, i, stateless)
    ensures IsAllowed(events + [event], i, stateless)
  {
    assert (events + [event])[..i] == events[..i];
    if i == |events| {
      assert events[..i] == events;
    }
  }

  lemma AfterOneMore(events: seq<Event>, event: Event, stateless: bool)
    ensures LedgerAfter(events + [event], stateless) == LedgerNext(LedgerAfter(events, stateless), event, stateless)
    ensures SentIn(events + [event]) == if event.Handed? then SentIn(events) + [event.s] else SentIn(events)
  {
    assert (events + [event])[..|events|] == events;
  }

  lemma RunAnswered(events: seq<Event>, answer: Ledger, stateless: bool)
    requires IsRun(events, stateless) && WellKeyed(answer)
    ensures IsRun(events + [Answered(answer)], stateless)
    ensures LedgerAfter(events + [Answered(answer)], stateless) == Refreshed(LedgerAfter(events, stateless), answer,
            stateless)
    ensures SentIn(events + [Answered(answer)]) == SentIn(events)
  {
    RunContinues(events, Answered(answer), stateless);
    AfterOneMore(events, Answered(answer), stateless);
  }

  lemma RunHanded(events: seq<Event>, s: Sent, stateless: bool)
    requires IsRun(events, stateless) && IsProper(s) && IsUnspentPart(s.consumed, LedgerAfter(events, stateless))
    ensures IsRun(events + [Handed(s)], stateless)
    ensures LedgerAfter(events + [Handed(s)], stateless) == MarkedSpent(LedgerAfter(events, stateless), s.consumed.Keys)
    ensures SentIn(events + [Handed(s)]) == SentIn(events) + [s]
  {
    RunContinues(events, Handed(s), stateless);
    AfterOneMore(events, Handed(s), stateless);
  }

  datatype Trace = Trace(events: seq<Event>, stateless: bool)

  /** A run of a wallet in one of the two modes. */
  type Run = t: Trace | IsRun(t.events, t.stateless) witness Trace([], false)

  ghost function LedgerOf(run: Run): Ledger {
    LedgerAfter(run.events, run.stateless)
  }

  /** The run goes on with an answer of the node, if there is one. */
  ghost function Asked(run: Run, answer: Option<Ledger>): (more: Run)
    requires answer.Some? ==> WellKeyed(answer.value)
    ensures more.stateless == run.stateless && SentIn(more.events) == SentIn(run.events)
    ensures LedgerOf(more) == if answer.Some? then Refreshed(LedgerOf(run), answer.value, run.stateless)
            else LedgerOf(run)
  {
    match answer
    case None => run
    case Some(ledger) =>
      RunAnswered(run.events, ledger, run.stateless);
      Trace(run.events + [Answered(ledger)], run.stateless)
  }

  /** The run goes on with a transaction. */
  ghost function HandedTo(run: Run, s: Sent): (more: Run)
    requires IsProper(s) && IsUnspentPart(s.consumed, LedgerOf(run))
    ensures more.stateless == run.stateless && SentIn(more.events) == SentIn(run.events) + [s]
    ensures LedgerOf(more) == MarkedSpent(LedgerOf(run), s.consumed.Keys)
  {
    RunHanded(run.events, s, run.stateless);
    Trace(run.events + [Handed(s)], run.stateless)
  }

  lemma {:induction false} RunIsWellKeyed(events: seq<Event>, stateless: bool)
    requires IsRun(events, stateless)
    ensures WellKeyed(LedgerAfter(events, stateless))
  {
    if events != [] {
      RunBefore(events, stateless);
      RunIsWellKeyed(events[..|events| - 1], stateless);
    }
  }

  // ---------------------------------------------------------------- no double spend

  /** Everything sent is remembered as spent, and no stored output was sent twice. */
  ghost predicate IsAccounted(sent: seq<Sent>, ledger: Ledger) {
    && (forall i | 0 <= i < |sent| :: sent[i].consumed.Keys <= SpentKeys(ledger))
    && (forall i, j | 0 <= i < j < |sent| :: sent[i].consumed.Keys !! sent[j].consumed.Keys)
  }

  /** In stateful mode, whatever the node answers and in whatever order things happen, no stored output is handed over
      twice. */
  lemma {:induction false} RunIsAccounted(events: seq<Event>)
    requires IsRun(events, false)
    ensures IsAccounted(SentIn(events), LedgerAfter(events, false))
  {
    if events != [] {
      var front := events[..|events| - 1];
      RunBefore(events, false);
      RunIsAccounted(front);
      match events[|events| - 1] {
        case Answered(answer) =>
          RefreshKeepsSpendsIff(LedgerAfter(front, false), answer, false);
        case Handed(s) =>
          SpentAfterMark(LedgerAfter(front, false), s.consumed);
      }
    }
  }

  lemma SpentAfterMark(ledger: Ledger, consumed: O)
    requires IsUnspentPart(consumed, ledger)
    ensures SpentKeys(MarkedSpent(ledger, consumed.Keys)) == SpentKeys(ledger) + consumed.Keys
    ensures consumed.Keys !! SpentKeys(ledger)
  {
  }

  lemma {:induction false} SentAreProper(events: seq<Event>, stateless: bool)
    requires IsRun(events, stateless)
    ensures forall i | 0 <= i < |SentIn(events)| :: IsProper(SentIn(events)[i])
  {
    if events != [] {
      RunBefore(events, stateless);
      SentAreProper(events[..|events| - 1], stateless);
    }
  }

  /** The store loses no key, so what was sent is still in it. */
  lemma {:induction false} SentAreStored(events: seq<Event>, stateless: bool)
    requires IsRun(events, stateless)
    ensures forall i | 0 <= i < |SentIn(events)| ::
              SentIn(events)[i].consumed.Keys <= LedgerAfter(events, stateless).Keys
  {
    if events != [] {
      RunBefore(events, stateless);
      SentAreStored(events[..|events| - 1], stateless);
    }
  }

  /** If the connector lists no output under two addresses, every transaction ever handed to it conserves the coins
      that it consumes, colour by colour except for what is minted. */
  lemma EverySentConserves(events: seq<Event>, stateless: bool, i: nat)
    requires IsRun(events, stateless) && UniqueIDs(LedgerAfter(events, stateless)) && i < |SentIn(events)|
    ensures IsBalanced(Funds(SentIn(events)[i].consumed), OutputsTotal(SentIn(events)[i].tx.outputs))
  {
    SentAreProper(events, stateless);
    SentAreStored(events, stateless);
    ProperConserves(SentIn(events)[i]);
  }

  /** If the connector lists no output under two addresses, no two transactions ever handed to it spend the same ledger
      output. */
  lemma NoDoubleSpend(events: seq<Event>, i: nat, j: nat)
    requires IsRun(events, false) && UniqueIDs(LedgerAfter(events, false))
    requires i < j < |SentIn(events)|
    ensures Elements(SentIn(events)[i].tx.inputs) !! Elements(SentIn(events)[j].tx.inputs)
  {
    var sent, ledger := SentIn(events), LedgerAfter(events, false);
    RunIsAccounted(events);
    SentAreProper(events, false);
    forall k, l | k in sent[i].consumed && l in sent[j].consumed ensures k.id != l.id {
      assert k in SpentKeys(ledger) && l in SpentKeys(ledger);
    }
  }

  /** In stateless mode a refresh forgets: the node lists an output that was just handed over, and it is sent again. */
  lemma StatelessSendsTwice(s: Sent, k: Key, output: Output) returns (events: seq<Event>)
    requires s.consumed == map[k := output] && IsProper(s)
    requires output.address == k.address && output.ledgerOutput.id == k.id
    ensures IsRun(events, true) && !IsAccounted(SentIn(events), LedgerAfter(events, true))
  {
    var once := HandAgain([], s, k, output);
    events := HandAgain(once, s, k, output);
    var sent := SentIn(events);
    assert sent == [s, s];
    assert k in sent[0].consumed.Keys && k in sent[1].consumed.Keys;
  }

  /** Whatever happened before: the node lists the output as unspent, and it is handed over. */
  lemma HandAgain(events: seq<Event>, s: Sent, k: Key, output: Output) returns (more: seq<Event>)
    requires IsRun(events, true)
    requires s.consumed == map[k := output] && IsProper(s)
    requires output.address == k.address && output.ledgerOutput.id == k.id
    ensures IsRun(more, true) && SentIn(more) == SentIn(events) + [s]
  {
    var answer := map[k := Entry(output, false)];
    RunAnswered(events, answer, true);
    var answered := events + [Answered(answer)];
    assert IsUnspentPart(s.consumed, LedgerAfter(answered, true));
    RunHanded(answered, s, true);
    more := answered + [Handed(s)];
  }

  /** A transaction that moves one coin. */
  lemma OneCoinTransaction() returns (s: Sent, k: Key, output: Output)
    ensures s.consumed == map[k := output] && IsProper(s)
    ensures output.address == k.address && output.ledgerOutput.id == k.id
  {
    var coin: Balances := map[ColorZIPP := 1];
    k := Key(ADDRESS_EMPTY, 0);
    output := Output(ADDRESS_EMPTY, SigLockedColoredOutput(0, coin, []), true);
    s := Sent(Transaction([0], [ColoredTxOutput(coin, [])], [SignatureUnlockBlock(0)]), map[k := output]);
    assert 0 in s.tx.inputs && k in s.consumed;
    assert BalancesAlong([k], s.consumed) == [coin] == BalancesIn(s.tx.outputs);
    assert IsAuthorized(s, [k]);
  }

  /** The promise that no stored output is handed over twice holds for all runs if and only if the wallet is
      stateful. */
  lemma NeverTwiceIffStateful(stateless: bool)
    ensures !stateless <==>
            forall events :: IsRun(events, stateless) ==> IsAccounted(SentIn(events), LedgerAfter(events, stateless))
  {
    if stateless {
      var s, k, output := OneCoinTransaction();
      var events := StatelessSendsTwice(s, k, output);
    } else {
      forall events | IsRun(events, stateless) ensures IsAccounted(SentIn(events), LedgerAfter(events, stateless)) {
        RunIsAccounted(events);
      }
    }
  }
}

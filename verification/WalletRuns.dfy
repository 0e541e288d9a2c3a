/** Whole runs of the wallet against a node that may answer anything. */
module WalletRuns {
  import opened Collections
  import opened Balances
  import opened BalanceCheck
  import opened Addresses
  import opened AddressChoice
  import opened Outputs
  import opened OutputManagement
  import opened Transactions
  import opened Conservation
  import opened History
  import opened Wallets

  datatype Action =
    | DoRefresh(answer: Option<Ledger>)
    | DoSend(options: SendFundsOptions, answer: Option<Ledger>, now: Time, response: Response)
    | DoConsolidate(answer: Option<Ledger>, secondAnswer: Option<Ledger>, now: Time, later: Time,
                    responses: nat -> Response)
    | DoClaim(answer: Option<Ledger>, now: Time, later: Time, response: Response)

  ghost predicate IsReport(answer: Option<Ledger>) {
    answer.Some? ==> WellKeyed(answer.value)
  }

  ghost predicate HasReports(action: Action) {
    IsReport(action.answer) && (action.DoConsolidate? ==> IsReport(action.secondAnswer))
  }

  method Perform(wallet: Wallet, action: Action)
    requires wallet.Valid() && HasReports(action)
    modifies wallet, wallet.addressManager, wallet.outputManager, wallet.outputManager.records, wallet.connector
    ensures wallet.Valid() && fresh(wallet.outputManager.records - old(wallet.outputManager.records))
    ensures old(wallet.connector.sent) <= wallet.connector.sent
    ensures old(Exact(wallet.addressManager.State())) ==> Exact(wallet.addressManager.State())
  {
    match action {
      case DoRefresh(answer) =>
        var _ := wallet.Refresh(answer);
      case DoSend(options, answer, now, response) =>
        var _, _, _, _, _, _ := wallet.SendFunds(options, answer, now, response);
      case DoConsolidate(answer, secondAnswer, now, later, responses) =>
        var _, _, _, _, _ := wallet.ConsolidateFunds(answer, secondAnswer, now, later, responses);
      case DoClaim(answer, now, later, response) =>
        var _, _, _, _, _ := wallet.ClaimConditionalFunds(answer, now, later, response);
    }
  }

  /** Any interleaving of refreshes, transfers, consolidations and claims: no stored output is handed over twice in
      stateful mode, no ledger output is spent twice if the node lists no output under two addresses, and the address
      cache stays exact. */
  method Run(wallet: Wallet, actions: seq<Action>)
    requires wallet.Valid() && forall action | action in actions :: HasReports(action)
    modifies wallet, wallet.addressManager, wallet.outputManager, wallet.outputManager.records, wallet.connector
    ensures wallet.Valid()
    ensures old(wallet.connector.sent) <= wallet.connector.sent
    ensures old(Exact(wallet.addressManager.State())) ==> Exact(wallet.addressManager.State())
    ensures !wallet.outputManager.optsStateless ==> IsAccounted(wallet.connector.sent, wallet.outputManager.ledger)
    ensures !wallet.outputManager.optsStateless && UniqueIDs(wallet.outputManager.ledger) ==>
              SpendsEachOnce(wallet.connector.sent)
    ensures UniqueIDs(wallet.outputManager.ledger) ==> EachConserves(wallet.connector.sent)
  {
    for i := 0 to |actions|
      invariant wallet.Valid() && fresh(wallet.outputManager.records - old(wallet.outputManager.records))
      invariant old(wallet.connector.sent) <= wallet.connector.sent
      invariant old(Exact(wallet.addressManager.State())) ==> Exact(wallet.addressManager.State())
    {
      Perform(wallet, actions[i]);
    }
    if UniqueIDs(wallet.outputManager.ledger) {
      AllConserve(wallet.run.events, wallet.outputManager.optsStateless);
    }
    if !wallet.outputManager.optsStateless {
      RunIsAccounted(wallet.run.events);
      if UniqueIDs(wallet.outputManager.ledger) {
        EachOnce(wallet.run.events);
      }
    }
  }

  ghost predicate SpendsEachOnce(sent: seq<Sent>) {
    forall i, j | 0 <= i < j < |sent| :: Elements(sent[i].tx.inputs) !! Elements(sent[j].tx.inputs)
  }

  /** Every transaction pays out what it consumes. */
  ghost predicate EachConserves(sent: seq<Sent>) {
    forall i | 0 <= i < |sent| :: IsBalanced(Funds(sent[i].consumed), OutputsTotal(sent[i].tx.outputs))
  }

  lemma AllConserve(events: seq<Event>, stateless: bool)
    requires IsRun(events, stateless) && UniqueIDs(LedgerAfter(events, stateless))
    ensures EachConserves(SentIn(events))
  {
    forall i | 0 <= i < |SentIn(events)|
      ensures IsBalanced(Funds(SentIn(events)[i].consumed), OutputsTotal(SentIn(events)[i].tx.outputs))
    {
      EverySentConserves(events, stateless, i);
    }
  }

  lemma EachOnce(events: seq<Event>)
    requires IsRun(events, false) && UniqueIDs(LedgerAfter(events, false))
    ensures SpendsEachOnce(SentIn(events))
  {
    forall i, j | 0 <= i < j < |SentIn(events)|
      ensures Elements(SentIn(events)[i].tx.inputs) !! Elements(SentIn(events)[j].tx.inputs)
    {
      NoDoubleSpend(events, i, j);
    }
  }

  ghost function PaidOutBy(handed: seq<Sent>): seq<Balances> {
    seq(|handed|, i requires 0 <= i < |handed| => OutputsTotal(handed[i].tx.outputs))
  }

  /** Together the transactions of a consolidation pay out exactly what was collected, as soon as every chunk that
      holds anything has been moved. */
  lemma ConsolidationConserves(collected: O, chunks: seq<O>, handed: seq<Sent>)
    requires IsConsolidation(collected, chunks, handed) && chunks != []
    requires forall i | |handed| <= i < |chunks| :: chunks[i] == map[]
    ensures Sum(PaidOutBy(handed)) == Funds(collected)
  {
    ChunksConserveFunds(chunks, collected);
    MovesPayChunks(chunks, handed);
    TrailingNothing(ChunkTotals(chunks), |handed|);
  }

  lemma MovesPayChunks(chunks: seq<O>, handed: seq<Sent>)
    requires AreMoves(handed, chunks)
    ensures PaidOutBy(handed) == ChunkTotals(chunks)[..|handed|]
  {
    forall i | 0 <= i < |handed| ensures PaidOutBy(handed)[i] == ChunkTotals(chunks)[i] {
      MovePaysChunk(handed[i], chunks[i]);
    }
  }

  /** Without address reuse, no destination of a consolidation is burned by that same consolidation, if and only if the
      moved chunks keep ahead: none passes over the least unspent index if a later one spends from it, and if the first
      one spends from the first unspent index, it also spends from the last one unless no later chunk does. */
  lemma OwnDestinationsSurviveIff(seed: Seed, s: AddressState, t: AddressState, chunks: seq<O>, handed: seq<Sent>)
    requires HasSettled(seed, s, t, chunks, handed)
    ensures (forall i: nat | i < |handed| :: Destination(s, IndexSets(chunks), i) !in t.spent) <==>
            KeepsAhead(s, IndexSets(chunks)[..|handed|])
  {
    var sets := IndexSets(chunks)[..|handed|];
    DestinationsSurviveIff(s, sets);
    assert After(s, sets).spent == t.spent;
    forall i: nat | i < |handed| ensures IsBurned(s, sets, i) <==> Destination(s, IndexSets(chunks), i) in t.spent {
      SameDestination(s, IndexSets(chunks), |handed|, i);
    }
    assert (forall i: nat | i < |handed| :: Destination(s, IndexSets(chunks), i) !in t.spent) <==>
           (forall i: nat | i < |sets| :: !IsBurned(s, sets, i));
  }

  /** Moves that come later do not change a destination. */
  lemma SameDestination(s: AddressState, sets: seq<set<nat>>, n: nat, i: nat)
    requires Exact(s) && AllWithin(sets, s.last) && i < n <= |sets|
    ensures Destination(s, sets[..n], i) == Destination(s, sets, i)
  {
    assert sets[..n][..i] == sets[..i] && sets[..n][i] == sets[i];
  }

  lemma MovePaysChunk(s: Sent, chunk: O)
    requires IsMoveSomewhere(s, chunk)
    ensures OutputsTotal(s.tx.outputs) == Funds(chunk)
  {
    var to :| IsMove(s, chunk, to);
    MovingIsBalanced(chunk, to);
  }

  lemma {:induction false} TrailingNothing(s: seq<Balances>, n: nat)
    requires n <= |s| && forall i | n <= i < |s| :: s[i] == map[]
    ensures Sum(s[..n]) == Sum(s)
  {
    if n == |s| {
      assert s[..n] == s;
    } else {
      var front := s[..|s| - 1];
      TrailingNothing(front, n);
      assert front[..n] == s[..n];
      assert Plus(Sum(front), map[]) == Sum(front);
    }
  }
}

/** Outputs as the wallet sees them, and the collections of outputs it computes with. */
module Outputs {
  import opened Collections
  import opened Balances
  import opened Addresses

  /** The big-endian number that the fixed-length bytes of an identifier spell, so that byte order is number order. */
  type OutputID = nat

  type Time = int

  /** The zero value of a point in time; every real clock reading is later. */
  const ZERO_TIME: Time := 0

  type LedgerAddress = Bytes

  /** Balances as an output stores them. */
  type ColoredBalances = b: Balances | Positive(b) witness map[]

  datatype LedgerOutput =
    | SigLockedSingleOutput(id: OutputID, balances: ColoredBalances, address: LedgerAddress)
    | SigLockedColoredOutput(id: OutputID, balances: ColoredBalances, address: LedgerAddress)
    | ExtendedLockedOutput(id: OutputID, balances: ColoredBalances, address: LedgerAddress,
                           fallbackAddress: Option<LedgerAddress>, fallbackDeadline: Time, timelock: Time)
    | AliasOutput(id: OutputID, balances: ColoredBalances, stateAddress: LedgerAddress, governingAddress: LedgerAddress)
  {
    predicate TimeLockedNow(now: Time)
      requires ExtendedLockedOutput?
    {
      now < timelock
    }

    function UnlockAddressNow(now: Time): LedgerAddress
      requires ExtendedLockedOutput?
    {
      if fallbackAddress.None? then address
      else if fallbackDeadline < now then fallbackAddress.value
      else address
    }
  }

  datatype Output = Output(address: Address, ledgerOutput: LedgerOutput, confirmationStateReached: bool)

  datatype Key = Key(address: Address, id: OutputID)

  /** The two-level Go map from addresses to identifiers to outputs, as one map over pairs. */
  type OutputsByAddressAndOutputID = map<Key, Output>

  /** The keys of the outer map: an entry is only ever created together with its first output. */
  function AddressesIn(outputs: OutputsByAddressAndOutputID): set<Address> {
    set k | k in outputs :: k.address
  }

  ghost function BalancesOf(outputs: map<Key, Output>): (r: map<Key, Balances>)
    ensures r.Keys == outputs.Keys
    ensures forall k | k in r :: r[k] == outputs[k].ledgerOutput.balances
  {
    Tabulate(outputs.Keys, k requires k in outputs => outputs[k].ledgerOutput.balances)
  }

  /** The funds in a set of outputs, independent of any order. */
  ghost function Funds(outputs: map<Key, Output>): Balances {
    Total(BalancesOf(outputs))
  }

  lemma FundsInsert(outputs: map<Key, Output>, k: Key, o: Output)
    requires k !in outputs
    ensures Funds(outputs[k := o]) == Plus(Funds(outputs), o.ledgerOutput.balances)
  {
    assert BalancesOf(outputs[k := o]) == BalancesOf(outputs)[k := o.ledgerOutput.balances];
    TotalInsert(BalancesOf(outputs), k, o.ledgerOutput.balances);
  }

  lemma FundsUnion(a: map<Key, Output>, b: map<Key, Output>)
    requires a.Keys !! b.Keys
    ensures Funds(a + b) == Plus(Funds(a), Funds(b))
  {
    assert BalancesOf(a + b) == BalancesOf(a) + BalancesOf(b);
    TotalUnion(BalancesOf(a), BalancesOf(b));
  }

  lemma FundsPositive(outputs: map<Key, Output>)
    ensures Positive(Funds(outputs))
  {
    TotalPositive(BalancesOf(outputs));
  }

  lemma FundsOfPart(part: map<Key, Output>, whole: map<Key, Output>, c: Color)
    requires forall k | k in part :: k in whole && part[k] == whole[k]
    ensures Get(Funds(part), c) <= Get(Funds(whole), c)
  {
    TotalOfPart(BalancesOf(part), BalancesOf(whole), c);
  }

  // ---------------------------------------------------------------- filters and totals

  type O = OutputsByAddressAndOutputID

  /** The outputs by identifier alone. If an identifier occurs under two addresses, either may win. */
  method OutputsByID(outputs: O) returns (byID: map<OutputID, Output>)
    ensures byID.Keys == set k | k in outputs :: k.id
    ensures forall id | id in byID :: exists k :: k in outputs && k.id == id && outputs[k] == byID[id]
  {
    byID := map[];
    var todo := outputs.Keys;
    while todo != {}
      invariant todo <= outputs.Keys
      invariant byID.Keys == set k | k in outputs && k !in todo :: k.id
      invariant forall id | id in byID :: exists k :: k in outputs && k.id == id && outputs[k] == byID[id]
    {
      var k :| k in todo;
      byID := byID[k.id := outputs[k]];
      todo := todo - {k};
    }
  }

  predicate IsValueOutput(o: LedgerOutput) {
    o.SigLockedSingleOutput? || o.SigLockedColoredOutput? || o.ExtendedLockedOutput?
  }

  predicate IsConditional(k: Key, o: LedgerOutput, now: Time) {
    o.ExtendedLockedOutput? && o.fallbackDeadline != ZERO_TIME && k.address.addressBytes == o.UnlockAddressNow(now)
  }

  /** The value outputs. */
  ghost function ValueOutputs(outputs: O): (r: O)
    ensures forall k :: k in r <==> k in outputs && IsValueOutput(outputs[k].ledgerOutput)
    ensures forall k | k in r :: r[k] == outputs[k]
  {
    Only(outputs, set k | k in outputs && IsValueOutput(outputs[k].ledgerOutput))
  }

  /** The outputs with a fallback option that the address they are stored under can unlock at the given time. */
  ghost function ConditionalOutputs(outputs: O, now: Time): (r: O)
    ensures forall k :: k in r <==> k in outputs && IsConditional(k, outputs[k].ledgerOutput, now)
    ensures forall k | k in r :: r[k] == outputs[k]
  {
    Only(outputs, set k | k in outputs && IsConditional(k, outputs[k].ledgerOutput, now))
  }

  /** Drops the aliases. */
  method ValueOutputsOnly(outputs: O) returns (result: O)
    ensures result == ValueOutputs(outputs)
  {
    result := map[];
    var todo := outputs.Keys;
    while todo != {}
      invariant todo <= outputs.Keys
      invariant forall k :: k in result <==> k in outputs && k !in todo && IsValueOutput(outputs[k].ledgerOutput)
      invariant forall k | k in result :: result[k] == outputs[k]
    {
      var k :| k in todo;
      if IsValueOutput(outputs[k].ledgerOutput) {
        result := result[k := outputs[k]];
      }
      todo := todo - {k};
    }
  }

  /** Keeps the outputs that are conditionally owned. */
  method ConditionalOutputsOnly(outputs: O, now: Time) returns (result: O)
    ensures result == ConditionalOutputs(outputs, now)
  {
    result := map[];
    var todo := outputs.Keys;
    while todo != {}
      invariant todo <= outputs.Keys
      invariant forall k :: k in result <==>
                            k in outputs && k !in todo && IsConditional(k, outputs[k].ledgerOutput, now)
      invariant forall k | k in result :: result[k] == outputs[k]
    {
      var k :| k in todo;
      if IsConditional(k, outputs[k].ledgerOutput, now) {
        result := result[k := outputs[k]];
      }
      todo := todo - {k};
    }
  }

  /** Adds up all balances. */
  method TotalFundsInOutputs(outputs: O) returns (result: Balances)
    ensures result == Funds(outputs)
    ensures Positive(result)
  {
    result := map[];
    var todo := outputs.Keys;
    while todo != {}
      invariant todo <= outputs.Keys
      invariant result == Funds(Only(outputs, outputs.Keys - todo))
    {
      var k :| k in todo;
      OnlyGrows(outputs, outputs.Keys - todo, k);
      FundsInsert(Only(outputs, outputs.Keys - todo), k, outputs[k]);
      assert outputs.Keys - (todo - {k}) == outputs.Keys - todo + {k};
      result := AddAll(result, outputs[k].ledgerOutput.balances);
      todo := todo - {k};
    }
    OnlyAll(outputs, outputs.Keys - todo);
    FundsPositive(outputs);
  }

  method OutputCount(outputs: O) returns (outputCount: nat)
    ensures outputCount == |outputs|
  {
    outputCount := 0;
    var todo := outputs.Keys;
    while todo != {}
      invariant outputCount + |todo| == |outputs|
    {
      var k :| k in todo;
      outputCount := outputCount + 1;
      todo := todo - {k};
    }
  }

  // ---------------------------------------------------------------- chunking

  const MAX_INPUT_COUNT: nat := 127

  /** The chunks hold every output exactly once. */
  ghost predicate IsPartition(chunks: seq<O>, whole: O) {
    && (forall i, k | 0 <= i < |chunks| && k in chunks[i] :: k in whole && chunks[i][k] == whole[k])
    && (forall k | k in whole :: InSomeChunk(chunks, k))
    && (forall i, j | 0 <= i < j < |chunks| :: chunks[i].Keys !! chunks[j].Keys)
  }

  ghost predicate InSomeChunk(chunks: seq<O>, k: Key) {
    exists i :: 0 <= i < |chunks| && k in chunks[i]
  }

  /** How many of the first n outputs chunk i receives. */
  function ChunkSize(n: nat, i: nat): nat {
    if n <= i * MAX_INPUT_COUNT then 0
    else if n <= (i + 1) * MAX_INPUT_COUNT then n - i * MAX_INPUT_COUNT
    else MAX_INPUT_COUNT
  }

  /** Splits the collection into chunks of at most MAX_INPUT_COUNT outputs. One chunk per MAX_INPUT_COUNT outputs is
      allocated and one more, so the last chunk is empty when the count is an exact multiple. */
  method SplitIntoChunksOfMaxInputCount(outputs: O) returns (result: seq<O>)
    ensures IsPartition(result, outputs)
    ensures |outputs| <= MAX_INPUT_COUNT ==> result == [outputs]
    ensures |outputs| > MAX_INPUT_COUNT ==> |result| == |outputs| / MAX_INPUT_COUNT + 1
    ensures forall i | 0 <= i < |result| :: |result[i]| == ChunkSize(|outputs|, i)
  {
    var outputCount := OutputCount(outputs);
    if outputCount <= MAX_INPUT_COUNT {
      // one chunk is enough
      OneChunk(outputs);
      return [outputs];
    }
    ghost var current;
    result, current := FillChunks(outputs, outputCount / MAX_INPUT_COUNT + 1);
    OnlyAll(outputs, outputs.Keys);
  }

  /** The loop of the split: a new chunk is started after every MAX_INPUT_COUNT outputs. Each write is in bounds. */
  method FillChunks(outputs: O, chunks: nat) returns (result: seq<O>, ghost current: int)
    requires chunks == |outputs| / MAX_INPUT_COUNT + 1
    ensures |result| == chunks && IsFilled(result, outputs, outputs.Keys, current)
  {
    result := seq(chunks, _ => map[]);
    var processedCount := 0;
    var chunkCount := -1;
    var todo := outputs.Keys;
    ghost var done: set<Key> := {};
    while todo != {}
      invariant done + todo == outputs.Keys && done !! todo
      invariant processedCount == |done| && |result| == chunks
      invariant IsFilled(result, outputs, done, chunkCount)
    {
      var k :| k in todo;
      result, chunkCount := PlaceOutput(result, outputs, done, chunkCount, processedCount, k);
      processedCount := processedCount + 1;
      done := done + {k};
      todo := todo - {k};
    }
    current := chunkCount;
  }

  method PlaceOutput(chunks: seq<O>, outputs: O, ghost done: set<Key>, chunkCount: int, processedCount: nat, k: Key)
    returns (result: seq<O>, current: int)
    requires IsFilled(chunks, outputs, done, chunkCount)
    requires k in outputs && k !in done && done <= outputs.Keys && processedCount == |done|
    requires |chunks| == |outputs| / MAX_INPUT_COUNT + 1
    ensures |result| == |chunks| && IsFilled(result, outputs, done + {k}, current)
  {
    FillOneMore(chunks, outputs, done, chunkCount, k);
    current := if processedCount % MAX_INPUT_COUNT == 0 then chunkCount + 1 else chunkCount;
    result := chunks[current := chunks[current][k := outputs[k]]];
  }

  /** The chunks after the outputs with the given keys have been put into them. */
  ghost predicate IsFilled(chunks: seq<O>, outputs: O, done: set<Key>, current: int) {
    IsCurrent(current, |done|) && HasSizes(chunks, |done|) && IsPartition(chunks, Only(outputs, done))
  }

  lemma FewerThan(done: set<Key>, outputs: O, k: Key)
    requires k in outputs && k !in done && done <= outputs.Keys
    ensures |done| < |outputs|
  {
    assert outputs.Keys == outputs.Keys - done + done;
  }

  lemma FillOneMore(chunks: seq<O>, outputs: O, done: set<Key>, current: int, k: Key)
    requires IsFilled(chunks, outputs, done, current)
    requires k in outputs && k !in done && done <= outputs.Keys
    requires |chunks| == |outputs| / MAX_INPUT_COUNT + 1
    ensures var next := if |done| % MAX_INPUT_COUNT == 0 then current + 1 else current;
            0 <= next < |chunks| && IsFilled(chunks[next := chunks[next][k := outputs[k]]], outputs, done + {k}, next)
  {
    var next := if |done| % MAX_INPUT_COUNT == 0 then current + 1 else current;
    FewerThan(done, outputs, k);
    ChunkCountStep(|done|, |outputs|, current, |chunks|);
    PartitionFills(chunks, outputs, done, next, k);
    ChunkSizeStep(chunks, |done|, next, k, outputs[k]);
    assert |done + {k}| == |done| + 1;
  }

  lemma PartitionFills(chunks: seq<O>, outputs: O, done: set<Key>, i: nat, k: Key)
    requires IsPartition(chunks, Only(outputs, done)) && i < |chunks| && k in outputs && k !in done
    ensures IsPartition(chunks[i := chunks[i][k := outputs[k]]], Only(outputs, done + {k})) && k !in chunks[i]
  {
    PartitionGrows(chunks, Only(outputs, done), i, k, outputs[k]);
    OnlyGrows(outputs, done, k);
  }

  /** The chunk that received the last of the first n outputs. */
  ghost predicate IsCurrent(i: int, n: nat) {
    i * MAX_INPUT_COUNT < n <= (i + 1) * MAX_INPUT_COUNT || (n == 0 && i == -1)
  }

  ghost predicate HasSizes(chunks: seq<O>, n: nat) {
    forall i | 0 <= i < |chunks| :: |chunks[i]| == ChunkSize(n, i)
  }

  lemma ChunkCountStep(n: nat, count: nat, i: int, chunks: nat)
    requires IsCurrent(i, n)
    requires n < count && chunks == count / MAX_INPUT_COUNT + 1
    ensures var next := if n % MAX_INPUT_COUNT == 0 then i + 1 else i;
            0 <= next < chunks && next * MAX_INPUT_COUNT <= n < (next + 1) * MAX_INPUT_COUNT && IsCurrent(next, n + 1)
  {
  }

  lemma ChunkSizeStep(chunks: seq<O>, n: nat, current: nat, k: Key, o: Output)
    requires HasSizes(chunks, n) && current < |chunks| && k !in chunks[current]
    requires current * MAX_INPUT_COUNT <= n < (current + 1) * MAX_INPUT_COUNT
    ensures HasSizes(chunks[current := chunks[current][k := o]], n + 1)
  {
    assert forall i: nat :: ChunkSize(n + 1, i) == if i == current then ChunkSize(n, i) + 1 else ChunkSize(n, i);
  }

  lemma OneChunk(outputs: O)
    requires |outputs| <= MAX_INPUT_COUNT
    ensures IsPartition([outputs], outputs)
    ensures |outputs| == ChunkSize(|outputs|, 0)
  {
    forall k | k in outputs ensures InSomeChunk([outputs], k) {
      assert k in [outputs][0];
    }
  }

  lemma PartitionGrows(chunks: seq<O>, whole: O, i: nat, k: Key, o: Output)
    requires IsPartition(chunks, whole) && i < |chunks| && k !in whole
    ensures k !in chunks[i]
    ensures IsPartition(chunks[i := chunks[i][k := o]], whole[k := o])
  {
    var grown := chunks[i := chunks[i][k := o]];
    forall j | j in whole[k := o] ensures InSomeChunk(grown, j) {
      if j == k {
        assert j in grown[i];
      } else {
        var n :| 0 <= n < |chunks| && j in chunks[n];
        assert j in grown[n];
      }
    }
    forall m, n | 0 <= m < n < |grown| ensures grown[m].Keys !! grown[n].Keys {
      assert chunks[m].Keys !! chunks[n].Keys;
      assert grown[m].Keys <= chunks[m].Keys + {k} && grown[n].Keys <= chunks[n].Keys + {k};
      assert k !in chunks[m] && k !in chunks[n];
    }
    forall m, j | 0 <= m < |grown| && j in grown[m] ensures j in whole[k := o] && grown[m][j] == whole[k := o][j] {
      assert j == k || j in chunks[m];
    }
  }

  ghost function ChunkTotals(chunks: seq<O>): seq<Balances> {
    seq(|chunks|, i requires 0 <= i < |chunks| => Funds(chunks[i]))
  }

  /** Together the chunks hold exactly the funds of the whole, colour by colour. */
  lemma {:induction false} ChunksConserveFunds(chunks: seq<O>, whole: O)
    requires IsPartition(chunks, whole)
    ensures Sum(ChunkTotals(chunks)) == Funds(whole)
  {
    if chunks == [] {
      assert forall k | k in whole :: InSomeChunk(chunks, k);
      assert whole == map[];
    } else {
      var front, last := chunks[..|chunks| - 1], chunks[|chunks| - 1];
      var rest := whole - last.Keys;
      PartitionShrinks(chunks, whole, front, last, rest);
      ChunksConserveFunds(front, rest);
      FundsUnion(rest, last);
      assert ChunkTotals(chunks) == ChunkTotals(front) + [Funds(last)];
      SumSnoc(ChunkTotals(front), Funds(last));
    }
  }

  lemma PartitionShrinks(chunks: seq<O>, whole: O, front: seq<O>, last: O, rest: O)
    requires IsPartition(chunks, whole) && chunks == front + [last] && rest == whole - last.Keys
    ensures IsPartition(front, rest)
    ensures whole == rest + last && rest.Keys !! last.Keys
  {
    LastIsApart(chunks, whole, front, last);
    forall k | k in rest ensures InSomeChunk(front, k) {
      var i :| 0 <= i < |chunks| && k in chunks[i];
      assert k in front[i];
    }
  }

  lemma LastIsApart(chunks: seq<O>, whole: O, front: seq<O>, last: O)
    requires IsPartition(chunks, whole) && chunks == front + [last]
    ensures forall k | k in last :: k in whole && last[k] == whole[k]
    ensures forall i, k | 0 <= i < |front| && k in front[i] :: k in whole && k !in last && front[i][k] == whole[k]
    ensures forall i, j | 0 <= i < j < |front| :: front[i].Keys !! front[j].Keys
  {
    assert chunks[|front|] == last;
    forall i, k | 0 <= i < |front| && k in front[i] ensures k in whole && k !in last && front[i][k] == whole[k] {
      assert k in chunks[i];
      assert chunks[i].Keys !! chunks[|front|].Keys;
    }
    forall i, j | 0 <= i < j < |front| ensures front[i].Keys !! front[j].Keys {
      assert chunks[i].Keys !! chunks[j].Keys;
    }
  }

  /** A chunk is empty exactly if it is the last one of more than MAX_INPUT_COUNT outputs whose number is an exact
      multiple of MAX_INPUT_COUNT (or if there was nothing to split). */
  lemma EmptyChunkIff(n: nat, i: nat)
    requires n <= MAX_INPUT_COUNT ==> i == 0
    requires n > MAX_INPUT_COUNT ==> i <= n / MAX_INPUT_COUNT
    ensures ChunkSize(n, i) <= MAX_INPUT_COUNT
    ensures ChunkSize(n, i) == 0 <==>
              n == 0 || (n > MAX_INPUT_COUNT && n % MAX_INPUT_COUNT == 0 && i == n / MAX_INPUT_COUNT)
  {
  }
}

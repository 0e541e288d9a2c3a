/** The wallet's store of outputs: node answers are merged in, local spends are remembered. */
module OutputManagement {
  import opened Collections
  import opened Addresses
  import opened AddressManagement
  import opened Outputs

  /** An output together with the wallet's own flag, as a value. */
  datatype Entry = Entry(output: Output, spent: bool)

  type Ledger = map<Key, Entry>

  function SpentKeys(ledger: Ledger): set<Key> {
    set k | k in ledger && ledger[k].spent
  }

  /** Merging the answer of a node: reported entries replace stored ones, except that a local spend survives. */
  ghost function Refreshed(ledger: Ledger, answer: Ledger, stateless: bool): (r: Ledger)
    ensures r.Keys == ledger.Keys + answer.Keys
    ensures forall k | k in r :: r[k] == RefreshedEntry(ledger, answer, stateless, k)
  {
    Tabulate(ledger.Keys + answer.Keys,
             k requires k in ledger || k in answer => RefreshedEntry(ledger, answer, stateless, k))
  }

  function RefreshedEntry(ledger: Ledger, answer: Ledger, stateless: bool, k: Key): Entry
    requires k in ledger || k in answer
  {
    if k in answer then
      Entry(answer[k].output, answer[k].spent || (!stateless && k in ledger && ledger[k].spent))
    else
      ledger[k]
  }

  ghost function MarkedSpent(ledger: Ledger, keys: set<Key>): (r: Ledger)
    ensures r.Keys == ledger.Keys
    ensures forall k | k in r :: r[k] == Entry(ledger[k].output, ledger[k].spent || k in keys)
  {
    Tabulate(ledger.Keys, k requires k in ledger => Entry(ledger[k].output, ledger[k].spent || k in keys))
  }

  /** The unspent outputs on the given addresses, without the unconfirmed ones unless they are asked for. */
  ghost function UnspentOn(ledger: Ledger, includePending: bool, addresses: set<Address>): (r: O)
    ensures forall k :: k in r <==> k in ledger && k.address in addresses && IsListed(ledger[k], includePending)
    ensures forall k | k in r :: r[k] == ledger[k].output
  {
    Tabulate((set k | k in ledger && k.address in addresses && IsListed(ledger[k], includePending)),
             k requires k in ledger => ledger[k].output)
  }

  predicate IsListed(entry: Entry, includePending: bool) {
    !entry.spent && (includePending || entry.output.confirmationStateReached)
  }

  /** Whatever the node answers, a refresh keeps every local spend if and only if the wallet is stateful or the answer
      does not report a locally spent output as unspent. */
  lemma RefreshKeepsSpendsIff(ledger: Ledger, answer: Ledger, stateless: bool)
    ensures SpentKeys(ledger) <= SpentKeys(Refreshed(ledger, answer, stateless)) <==>
            !stateless || forall k | k in SpentKeys(ledger) && k in answer :: answer[k].spent
  {
    var after := Refreshed(ledger, answer, stateless);
    if stateless && exists k :: k in SpentKeys(ledger) && k in answer && !answer[k].spent {
      var k :| k in SpentKeys(ledger) && k in answer && !answer[k].spent;
      assert k !in SpentKeys(after);
    }
  }

  /** The record behind the pointers in the store. Only the wallet's own flag ever changes. */
  class StoredOutput {
    const output: Output
    var spent: bool

    constructor (output: Output, spent: bool)
      ensures this.output == output && this.spent == spent
    {
      this.output := output;
      this.spent := spent;
    }
  }

  class OutputManager {
    const addressManager: AddressManager
    const optsStateless: bool
    var unspentOutputs: map<Key, StoredOutput>

    // the store as a value, and the records it consists of
    ghost var ledger: Ledger
    ghost var records: set<StoredOutput>

    /** The ledger says what the records hold, and every key has a record of its own. */
    ghost predicate Valid()
      reads this, records
    {
      && (forall k | k in unspentOutputs :: unspentOutputs[k] in records)
      && ledger.Keys == unspentOutputs.Keys
      && (forall k | k in unspentOutputs :: ledger[k] == Entry(unspentOutputs[k].output, unspentOutputs[k].spent))
      && (forall j, k | j in unspentOutputs && k in unspentOutputs && j != k :: unspentOutputs[j] != unspentOutputs[k])
    }

    /** A store that holds nothing yet. */
    constructor (addressManager: AddressManager, stateless: bool)
      ensures Valid() && records == {} && ledger == map[]
      ensures this.addressManager == addressManager && optsStateless == stateless
    {
      this.addressManager := addressManager;
      this.optsStateless := stateless;
      this.unspentOutputs := map[];
      this.ledger := map[];
      this.records := {};
    }

    /** Asks the node for the outputs on all addresses and merges the answer; None is a connector error. */
    method Refresh(answer: Option<Ledger>) returns (ok: bool)
      requires Valid()
      modifies this, addressManager
      ensures Valid() && fresh(records - old(records))
      ensures ok <==> answer.Some?
      ensures ledger == if answer.Some? then Refreshed(old(ledger), answer.value, optsStateless) else old(ledger)
      ensures addressManager.State() == TouchAll(old(addressManager.State()))
      ensures old(addressManager.Valid()) ==>
                && addressManager.Valid()
                && addressManager.lastAddressIndex == old(addressManager.lastAddressIndex)
                && addressManager.State().spent == old(addressManager.State()).spent
      ensures old(addressManager.Valid() &&
                  NoneAbove(addressManager.State().spent, addressManager.lastAddressIndex)) ==>
                Exact(addressManager.State())
      ensures old(Exact(addressManager.State())) ==> addressManager.State() == old(addressManager.State())
    {
      // this also brings the cache of the address manager up to date
      var _ := addressManager.Addresses();

      // a connector error leaves the store as it is
      if answer.None? {
        return false;
      }
      Merge(answer.value);
      ok := true;
    }

    /** The merge loop: the reported outputs arrive in an arbitrary order, each with a record of its own. */
    method Merge(reported: Ledger)
      requires Valid()
      modifies this
      ensures Valid() && fresh(records - old(records))
      ensures ledger == Refreshed(old(ledger), reported, optsStateless)
    {
      var todo := reported.Keys;
      ghost var before := ledger;
      while todo != {}
        invariant todo <= reported.Keys
        invariant Valid() && fresh(records - old(records))
        invariant ledger == Refreshed(before, Only(reported, reported.Keys - todo), optsStateless)
      {
        var k :| k in todo;
        StepOfRefresh(before, reported, reported.Keys - todo, k, optsStateless);
        MergeOne(k, reported[k]);
        assert reported.Keys - (todo - {k}) == reported.Keys - todo + {k};
        todo := todo - {k};
      }
      OnlyAll(reported, reported.Keys - todo);
    }

    /** An output that the wallet has already marked stays marked, unless the wallet is stateless. */
    method MergeOne(k: Key, reported: Entry)
      requires Valid()
      modifies this
      ensures Valid() && fresh(records - old(records))
      ensures ledger == old(ledger)[k :=
                Entry(reported.output, reported.spent || (!optsStateless && k in old(ledger) && old(ledger)[k].spent))]
    {
      var spent := reported.spent;
      if !optsStateless {
        if k in unspentOutputs && unspentOutputs[k].spent {
          spent := true;
        }
      }
      Store(k, reported.output, spent);
    }

    method Store(k: Key, output: Output, spent: bool)
      requires Valid()
      modifies this
      ensures Valid() && fresh(records - old(records))
      ensures ledger == old(ledger)[k := Entry(output, spent)]
    {
      var record := new StoredOutput(output, spent);
      unspentOutputs := unspentOutputs[k := record];
      ledger := ledger[k := Entry(output, spent)];
      records := records + {record};
    }

    /** The outputs that have not been spent, yet. Without addresses all addresses of the wallet are meant. */
    method GetOutputs(includePending: bool, addresses: seq<Address>)
      returns (result: OutputsByAddressAndOutputID, ghost asked: seq<Address>)
      requires Valid()
      modifies addressManager
      ensures Valid()
      ensures addresses != [] ==> asked == addresses && addressManager.State() == old(addressManager.State())
      ensures addresses == [] ==> addressManager.State() == TouchAll(old(addressManager.State()))
      ensures addresses == [] ==> |asked| == addressManager.lastAddressIndex + 1
      ensures addresses == [] ==> forall i | 0 <= i < |asked| :: asked[i] == addressManager.seed.AddressOf(i)
      ensures result == UnspentOn(ledger, includePending, Elements(asked))
      ensures old(addressManager.Valid()) ==>
                && addressManager.Valid()
                && addressManager.lastAddressIndex == old(addressManager.lastAddressIndex)
                && addressManager.State().spent == old(addressManager.State()).spent
      ensures old(Exact(addressManager.State())) ==> addressManager.State() == old(addressManager.State())
    {
      // no addresses stand for all addresses
      var list := addresses;
      if |list| == 0 {
        list := addressManager.Addresses();
      }
      asked := list;
      result := SelectUnspent(includePending, list);
    }

    /** The scan over the addresses; outputs under one address come in an arbitrary order. */
    method SelectUnspent(includePending: bool, addresses: seq<Address>) returns (result: OutputsByAddressAndOutputID)
      requires Valid()
      ensures result == UnspentOn(ledger, includePending, Elements(addresses))
    {
      result := map[];
      // one address after the other
      for n := 0 to |addresses|
        invariant result == UnspentOn(ledger, includePending, Elements(addresses[..n]))
      {
        var found := SelectOnAddress(includePending, addresses[n]);
        PrefixStep(addresses, n);
        MoreAddresses(ledger, includePending, addresses[..n], addresses[n]);
        result := result + found;
      }
      assert addresses[..|addresses|] == addresses;
    }

    method SelectOnAddress(includePending: bool, address: Address) returns (result: OutputsByAddressAndOutputID)
      requires Valid()
      ensures result == UnspentOn(ledger, includePending, {address})
    {
      result := map[];
      var todo := set k | k in unspentOutputs && k.address == address;
      while todo != {}
        invariant todo <= unspentOutputs.Keys && forall k | k in todo :: k.address == address
        invariant forall k :: k in result <==> k in UnspentOn(ledger, includePending, {address}) && k !in todo
        invariant forall k | k in result :: result[k] == ledger[k].output
      {
        var k :| k in todo;
        todo := todo - {k};
        var output := unspentOutputs[k];
        // the wallet has used it already
        if output.spent {
          continue;
        }
        // pending outputs count only on request
        if !includePending && !output.output.confirmationStateReached {
          continue;
        }
        result := result[k := output.output];
      }
      SameMap(result, UnspentOn(ledger, includePending, {address}));
    }

    /** Marks one output as spent; an unknown output is ignored. */
    method MarkOutputSpent(k: Key)
      requires Valid()
      modifies this`ledger, records
      ensures Valid()
      ensures ledger == MarkedSpent(old(ledger), {k})
    {
      // nothing to mark
      if k !in unspentOutputs {
        assert MarkedSpent(ledger, {k}) == ledger;
        return;
      }
      unspentOutputs[k].spent := true;
      ledger := MarkedSpent(ledger, {k});
    }
  }

  /** A store with what the node lists at the start; None stands for the panic if the node does not answer. */
  method NewUnspentOutputManager(addressManager: AddressManager, stateless: bool, answer: Option<Ledger>)
    returns (manager: Option<OutputManager>)
    modifies addressManager
    ensures manager.Some? <==> answer.Some?
    ensures manager.Some? ==>
              var m := manager.value;
              && fresh(m) && m.Valid() && fresh(m.records)
              && m.addressManager == addressManager && m.optsStateless == stateless
              && m.ledger == Refreshed(map[], answer.value, stateless)
    ensures addressManager.State() == TouchAll(old(addressManager.State()))
    ensures old(addressManager.Valid()) ==> addressManager.Valid()
  {
    var om := new OutputManager(addressManager, stateless);
    var ok := om.Refresh(answer);
    manager := if ok then Some(om) else None;
  }

  /** A store that is asked to refresh once more before it is used. */
  method NewRefreshed(addressManager: AddressManager, stateless: bool, answer: Option<Ledger>,
                      secondAnswer: Option<Ledger>)
    returns (manager: Option<OutputManager>)
    modifies addressManager
    ensures manager.Some? <==> answer.Some? && secondAnswer.Some?
    ensures manager.Some? ==>
              var m := manager.value;
              && fresh(m) && m.Valid() && fresh(m.records)
              && m.addressManager == addressManager && m.optsStateless == stateless
              && m.ledger == Refreshed(Refreshed(map[], answer.value, stateless), secondAnswer.value, stateless)
    ensures manager.Some? ==> addressManager.State() == TouchAll(TouchAll(old(addressManager.State())))
    ensures old(addressManager.Valid()) ==> addressManager.Valid()
  {
    manager := NewUnspentOutputManager(addressManager, stateless, answer);
    if manager.Some? {
      var ok := manager.value.Refresh(secondAnswer);
      manager := if ok then manager else None;
    }
  }

  lemma MoreAddresses(ledger: Ledger, includePending: bool, addresses: seq<Address>, address: Address)
    ensures UnspentOn(ledger, includePending, Elements(addresses + [address])) ==
            UnspentOn(ledger, includePending, Elements(addresses)) + UnspentOn(ledger, includePending, {address})
  {
    assert Elements(addresses + [address]) == Elements(addresses) + {address};
    SameMap(UnspentOn(ledger, includePending, Elements(addresses + [address])),
            UnspentOn(ledger, includePending, Elements(addresses)) + UnspentOn(ledger, includePending, {address}));
  }

  lemma StepOfRefresh(ledger: Ledger, reported: Ledger, done: set<Key>, k: Key, stateless: bool)
    requires k in reported && k !in done
    ensures Refreshed(ledger, Only(reported, done + {k}), stateless) ==
            Refreshed(ledger, Only(reported, done), stateless)[k :=
              Entry(reported[k].output, reported[k].spent || (!stateless && k in ledger && ledger[k].spent))]
    ensures k in Refreshed(ledger, Only(reported, done), stateless) <==> k in ledger
    ensures k in ledger ==> Refreshed(ledger, Only(reported, done), stateless)[k] == ledger[k]
  {
    var one := Entry(reported[k].output, reported[k].spent || (!stateless && k in ledger && ledger[k].spent));
    SameMap(Refreshed(ledger, Only(reported, done + {k}), stateless),
            Refreshed(ledger, Only(reported, done), stateless)[k := one]);
  }
}

/** The wallet's address manager: a growing bitmask of spent addresses with two cached indexes. */
module AddressManagement {
  import opened Addresses

  /** The addresses of the given indexes, in their order. */
  ghost predicate AreAt(addresses: seq<Address>, seed: Seed, indexes: seq<nat>) {
    && |addresses| == |indexes|
    && (forall i | 0 <= i < |indexes| :: addresses[i] == seed.AddressOf(indexes[i]))
  }

  /** Where a listing stands that has come to index i. */
  ghost predicate IsListing(t: AddressState, addresses: seq<Address>, seed: Seed, s: AddressState, want: bool, i: nat) {
    && i <= s.last + 1 && t == TouchUpTo(s, i) && t.last == s.last && t.spent == s.spent
    && AreAt(addresses, seed, Listed(s.spent, want, 0, i))
  }

  lemma ScanStarts(s: AddressState, seed: Seed)
    requires Usable(s)
    ensures IsListing(s, [], seed, s, false, s.first)
  {
    TouchedBelow(s, s.first);
    ScanFromFirst(s, s.first);
  }

  lemma ListingGoesOn(t: AddressState, addresses: seq<Address>, seed: Seed, s: AddressState, want: bool, i: nat)
    requires Usable(s) && IsListing(t, addresses, seed, s, want, i) && i <= s.last
    ensures IsListing(Touch(t, i), if (i in t.spent) == want then addresses + [seed.AddressOf(i)] else addresses, seed,
                      s, want, i + 1)
  {
  }

  lemma ListingEnds(t: AddressState, addresses: seq<Address>, seed: Seed, s: AddressState, want: bool, i: nat)
    requires Usable(s) && IsListing(t, addresses, seed, s, want, i) && s.last < i
    ensures Usable(t) && t == TouchAll(s) && (Exact(s) ==> t == s)
    ensures AreAt(addresses, seed, Listed(s.spent, want, 0, s.last + 1))
  {
    TouchUpToKeepsUsable(s, s.last + 1);
    if Exact(s) {
      TouchUpToExact(s, s.last + 1);
    }
  }

  class AddressManager {
    // what an export keeps
    const seed: Seed
    var lastAddressIndex: nat
    var spentAddresses: seq<bv8>

    // the two cached indexes
    var firstUnspentAddressIndex: nat
    var lastUnspentAddressIndex: nat

    ghost function State(): AddressState
      reads this
    {
      AddressState(lastAddressIndex, SpentSet(spentAddresses), firstUnspentAddressIndex, lastUnspentAddressIndex)
    }

    /** Holds from construction on. */
    ghost predicate Valid()
      reads this
    {
      Usable(State())
    }

    constructor (seed: Seed, lastAddressIndex: nat, spentAddresses: seq<bv8>)
      ensures Valid()
      ensures State() == Rebuilt(lastAddressIndex, SpentSet(spentAddresses))
      ensures this.seed == seed
    {
      this.seed := seed;
      this.lastAddressIndex := lastAddressIndex;
      this.spentAddresses := spentAddresses;
      this.firstUnspentAddressIndex := 0;
      this.lastUnspentAddressIndex := 0;
      new;
      UpdateFirstUnspentAddressIndex();
      UpdateLastUnspentAddressIndex();
    }

    /** The address of an index. Asking for it makes the index part of the wallet. */
    method AddressAt(addressIndex: nat) returns (address: Address)
      modifies this
      ensures address == seed.AddressOf(addressIndex)
      ensures State() == Touch(old(State()), addressIndex)
      ensures old(Valid()) ==> Valid()
    {
      var _, _ := SpentAddressIndexes(addressIndex);
      address := seed.AddressOf(addressIndex);
    }

    /** Lists index 0 up to the last index. In a state that was merely usable this makes the cached indexes exact. */
    method Addresses() returns (addresses: seq<Address>)
      modifies this
      ensures State() == TouchAll(old(State()))
      ensures |addresses| == lastAddressIndex + 1
      ensures forall i | 0 <= i < |addresses| :: addresses[i] == seed.AddressOf(i)
      ensures old(Valid() && NoneAbove(State().spent, lastAddressIndex)) ==> Exact(State())
      ensures old(Valid()) ==>
                Valid() && lastAddressIndex == old(lastAddressIndex) && State().spent == old(State()).spent
      ensures old(Exact(State())) ==> State() == old(State())
    {
      addresses := [];
      var i := 0;
      while i <= lastAddressIndex
        invariant i <= lastAddressIndex + 1
        invariant State() == TouchUpTo(old(State()), i)
        invariant lastAddressIndex == old(lastAddressIndex)
        invariant |addresses| == i
        invariant forall j | 0 <= j < i :: addresses[j] == seed.AddressOf(j)
      {
        var address := AddressAt(i);
        addresses := addresses + [address];
        i := i + 1;
      }
      if old(Valid()) {
        TouchUpToKeepsUsable(old(State()), i);
      }
      if old(Valid() && NoneAbove(State().spent, lastAddressIndex)) {
        TouchAllIsExact(old(State()));
      }
      if old(Exact(State())) {
        TouchUpToExact(old(State()), i);
      }
    }

    /** The unspent addresses in ascending order, found by scanning from the cached first index. */
    method UnspentAddresses() returns (addresses: seq<Address>)
      requires Valid()
      modifies this
      ensures Valid() && State() == TouchAll(old(State()))
      ensures old(Exact(State())) ==> State() == old(State())
      ensures AreAt(addresses, seed, UnspentIndexes(old(State())))
    {
      addresses := [];
      var i: nat := firstUnspentAddressIndex;
      ghost var s := State();
      ScanStarts(s, seed);
      while i <= lastAddressIndex
        invariant IsListing(State(), addresses, seed, s, false, i)
      {
        ListingGoesOn(State(), addresses, seed, s, false, i);
        addresses := ListOne(addresses, i, false);
        i := i + 1;
      }
      ListingEnds(State(), addresses, seed, s, false, i);
    }

    /** Appends the address of an index if the index is spent, or if it is not. */
    method ListOne(addresses: seq<Address>, i: nat, want: bool) returns (more: seq<Address>)
      modifies this
      ensures State() == Touch(old(State()), i)
      ensures more == if (i in old(State()).spent) == want then addresses + [seed.AddressOf(i)] else addresses
    {
      more := addresses;
      var spent := IsAddressSpent(i);
      if spent == want {
        var address := AddressAt(i);
        more := addresses + [address];
      }
    }

    /** The spent addresses in ascending order. */
    method SpentAddresses() returns (addresses: seq<Address>)
      requires Valid()
      modifies this
      ensures Valid() && State() == TouchAll(old(State()))
      ensures old(Exact(State())) ==> State() == old(State())
      ensures AreAt(addresses, seed, SpentIndexes(old(State())))
    {
      addresses := [];
      var i: nat := 0;
      ghost var s := State();
      while i <= lastAddressIndex
        invariant IsListing(State(), addresses, seed, s, true, i)
      {
        ListingGoesOn(State(), addresses, seed, s, true, i);
        addresses := ListOne(addresses, i, true);
        i := i + 1;
      }
      ListingEnds(State(), addresses, seed, s, true, i);
    }

    /** The address of the cached first index, which is unspent. */
    method FirstUnspentAddress() returns (address: Address)
      requires Valid()
      modifies this
      ensures State() == old(State())
      ensures address == seed.AddressOf(firstUnspentAddressIndex)
    {
      address := AddressAt(firstUnspentAddressIndex);
    }

    /** The address of the cached last index, which is unspent. */
    method LastUnspentAddress() returns (address: Address)
      requires Valid()
      modifies this
      ensures State() == old(State())
      ensures address == seed.AddressOf(lastUnspentAddressIndex)
    {
      address := AddressAt(lastUnspentAddressIndex);
    }

    /** An address with an index that the wallet has not used before. */
    method NewAddress() returns (address: Address)
      modifies this
      ensures address == seed.AddressOf(old(lastAddressIndex) + 1)
      ensures State() == Touch(old(State()), old(lastAddressIndex) + 1)
      ensures old(Valid()) ==> Valid()
      ensures old(Exact(State())) ==> Exact(State()) && old(lastAddressIndex) + 1 !in State().spent
    {
      address := AddressAt(lastAddressIndex + 1);
    }

    method MarkAddressSpent(addressIndex: nat)
      requires Valid()
      modifies this
      ensures State() == MarkSpent(old(State()), addressIndex)
      ensures Valid() && lastAddressIndex >= old(lastAddressIndex)
      ensures old(Exact(State())) ==> Exact(State()) && State().spent == old(State()).spent + {addressIndex}
    {
      MarkKeepsUsable(State(), addressIndex);
      if Exact(State()) {
        MarkKeepsExact(State(), addressIndex);
      }
      // asking for the place also makes room for it
      var sliceIndex, bitIndex := SpentAddressIndexes(addressIndex);

      SetBitAddsIndex(spentAddresses, addressIndex);
      spentAddresses := spentAddresses[sliceIndex := SetBit(spentAddresses[sliceIndex], bitIndex)];

      // the cache may have pointed at this index
      if addressIndex == firstUnspentAddressIndex {
        UpdateFirstUnspentAddressIndex();
      }
      if addressIndex == lastUnspentAddressIndex {
        UpdateLastUnspentAddressIndex();
      }
    }

    /** Whether the index is spent. Even this query makes the index part of the wallet. */
    method IsAddressSpent(addressIndex: nat) returns (spent: bool)
      modifies this
      ensures spent <==> addressIndex in old(State()).spent
      ensures spent ==> addressIndex < 8 * old(|spentAddresses|)
      ensures State() == Touch(old(State()), addressIndex)
    {
      SpentSetMember(spentAddresses, addressIndex);
      var sliceIndex, bitIndex := SpentAddressIndexes(addressIndex);
      SpentSetMember(spentAddresses, addressIndex);
      spent := HasBit(spentAddresses[sliceIndex], bitIndex);
    }

    /** Where the bit of an index lives. Extends the slice and updates the cached indexes if the index is new. */
    method SpentAddressIndexes(addressIndex: nat) returns (sliceIndex: nat, bitIndex: nat)
      modifies this
      ensures sliceIndex == addressIndex / 8 && bitIndex == addressIndex % 8
      ensures sliceIndex < |spentAddresses|
      ensures State() == Touch(old(State()), addressIndex)
    {
      var spentAddressesCapacity := |spentAddresses|;
      sliceIndex := addressIndex / 8;
      bitIndex := addressIndex % 8;

      // append empty bytes until the bit exists
      if sliceIndex + 1 > spentAddressesCapacity {
        GrowKeepsSet(spentAddresses, sliceIndex - spentAddressesCapacity + 1);
        spentAddresses := spentAddresses + seq(sliceIndex - spentAddressesCapacity + 1, _ => 0);
      }

      // the index is part of the wallet from now on
      if addressIndex > lastAddressIndex {
        lastAddressIndex := addressIndex;
      }

      // a new highest index may be the last unspent one
      SpentSetMember(spentAddresses, addressIndex);
      if addressIndex > lastUnspentAddressIndex && !HasBit(spentAddresses[sliceIndex], bitIndex) {
        lastUnspentAddressIndex := addressIndex;
      }
    }

    /** Searches upwards. The queries in the loop may extend the slice, but only the bits present at entry are set. */
    method UpdateFirstUnspentAddressIndex()
      modifies this
      ensures State() == SeekFirst(old(State()))
    {
      var i: nat := firstUnspentAddressIndex;
      ghost var s := State();
      ghost var bound := 8 * |spentAddresses|;
      while true
        invariant s.first <= i
        invariant forall j: nat | s.first <= j < i :: j in s.spent
        invariant State() == s.(last := if i == s.first then s.last else Max(s.last, i - 1))
        decreases bound - i
      {
        SpentSetMember(spentAddresses, i);
        var spent := IsAddressSpent(i);
        if !spent {
          firstUnspentAddressIndex := i;
          LeastIsUnique(s.spent, s.first, i);
          return;
        }
        assert i in SpentSet(old(spentAddresses));
        i := i + 1;
      }
    }

    /** Searches downwards. Since the first unspent index is never above the last one, the search always succeeds. */
    method UpdateLastUnspentAddressIndex()
      requires State().first !in State().spent
      requires firstUnspentAddressIndex <= lastUnspentAddressIndex <= lastAddressIndex
      modifies this
      ensures State() == SeekLast(old(State()))
    {
      // walk down from the cached index
      var i := lastUnspentAddressIndex;
      ghost var s := State();
      while true
        invariant s.first <= i <= s.lastUnspent
        invariant forall j: nat | i < j <= s.lastUnspent :: j in s.spent
        invariant State() == s
        decreases i
      {
        var spent := IsAddressSpent(i);
        if !spent {
          lastUnspentAddressIndex := i;
          return;
        }
        if i == 0 {
          // generating a new unspent address is never necessary
          assert false;
        }
        i := i - 1;
      }
    }
  }

  /** Any list of operations takes the manager through the states of the run, so that what holds of runs
      holds of it. */
  method Perform(manager: AddressManager, ops: seq<AddressOp>)
    requires manager.Valid()
    modifies manager
    ensures manager.Valid() && manager.State() == Run(old(manager.State()), ops)
    ensures old(Exact(manager.State())) ==>
              Exact(manager.State()) && manager.State().spent == old(manager.State()).spent + Marked(ops)
  {
    for i := 0 to |ops|
      invariant manager.Valid() && manager.State() == Run(old(manager.State()), ops[..i])
    {
      assert ops[..i + 1][..i] == ops[..i];
      match ops[i] {
        case AskAddress(index) => var _ := manager.AddressAt(index);
        case AskNewAddress => var _ := manager.NewAddress();
        case AskSpent(index) => var _ := manager.IsAddressSpent(index);
        case Mark(index) => manager.MarkAddressSpent(index);
      }
    }
    assert ops[..|ops|] == ops;
    if old(Exact(manager.State())) {
      RunStaysExact(old(manager.State()), ops);
    }
  }
}

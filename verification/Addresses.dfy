/** The abstract address book: which indexes exist, which are spent, and the two cached unspent indexes. */
module Addresses {
  type Bytes = seq<bv8>

  /** A wallet address carries the index of the key pair behind it, so distinct indexes give distinct addresses. */
  datatype Address = Address(addressBytes: Bytes, index: nat)

  /** The length of a ledger address: one type byte and a 32 byte digest. */
  const ADDRESS_LENGTH: nat := 33

  const ADDRESS_EMPTY: Address := Address(seq(ADDRESS_LENGTH, _ => 0), 0)

  /** Key derivation is not part of this model: a seed is its bytes and the address bytes of every index. */
  datatype Seed = Seed(bytes: Bytes, publicAddress: nat -> Bytes) {
    function AddressOf(index: nat): Address {
      Address(publicAddress(index), index)
    }
  }

  // ---------------------------------------------------------------- bitmask

  function Bit(i: nat): bv8
    requires i < 8
  {
    1 << i
  }

  predicate HasBit(m: bv8, i: nat)
    requires i < 8
  {
    m & Bit(i) != 0
  }

  function SetBit(m: bv8, i: nat): bv8
    requires i < 8
  {
    m | Bit(i)
  }

  lemma SetBitSets(m: bv8, i: nat, j: nat)
    requires i < 8 && j < 8
    ensures HasBit(SetBit(m, i), j) <==> i == j || HasBit(m, j)
  {
    assert Bit(0) == 1 && Bit(1) == 2 && Bit(2) == 4 && Bit(3) == 8;
    assert Bit(4) == 16 && Bit(5) == 32 && Bit(6) == 64 && Bit(7) == 128;
  }

  predicate SpentAt(mask: seq<bv8>, i: nat) {
    i / 8 < |mask| && HasBit(mask[i / 8], i % 8)
  }

  /** The plain set of indexes that a byte slice stands for. */
  function SpentSet(mask: seq<bv8>): set<nat> {
    set i: nat | i < 8 * |mask| && SpentAt(mask, i)
  }

  lemma SpentSetMember(mask: seq<bv8>, i: nat)
    ensures i in SpentSet(mask) <==> SpentAt(mask, i)
  {
  }

  /** Appending empty bytes changes nothing. */
  lemma GrowKeepsSet(mask: seq<bv8>, n: nat)
    ensures SpentSet(mask + seq(n, _ => 0)) == SpentSet(mask)
  {
    var grown := mask + seq(n, _ => 0 as bv8);
    forall i: nat ensures SpentAt(grown, i) <==> SpentAt(mask, i) {
      if |mask| <= i / 8 < |grown| {
        assert grown[i / 8] == 0;
      }
    }
  }

  /** Setting a bit adds one index to the set and no other. */
  lemma SetBitAddsIndex(mask: seq<bv8>, i: nat)
    requires i / 8 < |mask|
    ensures SpentSet(mask[i / 8 := SetBit(mask[i / 8], i % 8)]) == SpentSet(mask) + {i}
  {
    var marked := mask[i / 8 := SetBit(mask[i / 8], i % 8)];
    forall j: nat ensures SpentAt(marked, j) <==> SpentAt(mask, j) || j == i {
      if j / 8 == i / 8 {
        SetBitSets(mask[i / 8], i % 8, j % 8);
      }
    }
  }

  // ---------------------------------------------------------------- abstract state

  datatype AddressState = AddressState(last: nat, spent: set<nat>, first: nat, lastUnspent: nat)

  /** What holds from construction on: the first unspent index is exact, the last one is an unspent index. */
  ghost predicate Usable(s: AddressState) {
    && s.first !in s.spent
    && (forall i: nat | i < s.first :: i in s.spent)
    && s.lastUnspent !in s.spent
    && s.first <= s.lastUnspent <= s.last
  }

  ghost predicate NoneAbove(spent: set<nat>, last: nat) {
    forall i | i in spent :: i <= last
  }

  /** What holds once every address has been listed: both cached indexes equal their definition. */
  ghost predicate Exact(s: AddressState) {
    && Usable(s)
    && NoneAbove(s.spent, s.last)
    && (forall i: nat | s.lastUnspent < i <= s.last :: i in s.spent)
  }

  /** The cache of an exact state carries no information of its own. */
  lemma ExactIsCanonical(s: AddressState, t: AddressState)
    requires Exact(s) && Exact(t) && s.last == t.last && s.spent == t.spent
    ensures s == t
  {
  }

  /** The least index from i on that is not in the set. */
  ghost function LeastFrom(spent: set<nat>, i: nat): (r: nat)
    ensures i <= r && r !in spent && forall j | i <= j < r :: j in spent
    decreases spent
  {
    if i in spent then
      var r := LeastFrom(spent - {i}, i + 1);
      assert forall j | i + 1 <= j < r :: j in spent - {i};
      r
    else i
  }

  lemma LeastIsUnique(spent: set<nat>, i: nat, r: nat)
    requires i <= r && r !in spent && forall j | i <= j < r :: j in spent
    ensures LeastFrom(spent, i) == r
  {
  }

  /** The greatest index up to i that is not in the set. */
  ghost function GreatestUpTo(spent: set<nat>, i: nat): (r: nat)
    requires exists j: nat :: j <= i && j !in spent
    ensures r <= i && r !in spent && forall j | r < j <= i :: j in spent
  {
    if i in spent then GreatestUpTo(spent, i - 1) else i
  }

  function Max(a: nat, b: nat): nat {
    if a < b then b else a
  }

  /** Asking for an index creates it, and it becomes the last unspent one if it lies above the cached one. */
  ghost function Touch(s: AddressState, i: nat): AddressState {
    s.(last := Max(s.last, i),
       lastUnspent := if s.lastUnspent < i && i !in s.spent then i else s.lastUnspent)
  }

  /** Asking for the indexes 0 to n - 1 in turn. */
  ghost function TouchUpTo(s: AddressState, n: nat): AddressState {
    if n == 0 then s else Touch(TouchUpTo(s, n - 1), n - 1)
  }

  /** Listing all addresses of the wallet. */
  ghost function TouchAll(s: AddressState): AddressState {
    TouchUpTo(s, s.last + 1)
  }

  ghost function SeekFirst(s: AddressState): AddressState {
    Touch(s, LeastFrom(s.spent, s.first)).(first := LeastFrom(s.spent, s.first))
  }

  ghost function SeekLast(s: AddressState): AddressState
    requires s.first !in s.spent && s.first <= s.lastUnspent
  {
    s.(lastUnspent := GreatestUpTo(s.spent, s.lastUnspent))
  }

  /** Marking an index spent, with the searches that keep the cache up to date. */
  ghost function MarkSpent(s: AddressState, i: nat): AddressState
    requires Usable(s)
  {
    var touched := Touch(s, i);
    var marked := touched.(spent := touched.spent + {i});
    var forward := if i == marked.first then SeekFirst(marked) else marked;
    if i == forward.lastUnspent then SeekLast(forward) else forward
  }

  /** What the constructor makes of an imported slice and last index. */
  ghost function Rebuilt(last: nat, spent: set<nat>): AddressState {
    var first := LeastFrom(spent, 0);
    AddressState(Max(last, first), spent, first, first)
  }

  lemma {:induction false} TouchUpToKeepsUsable(s: AddressState, n: nat)
    requires Usable(s) && n <= s.last + 1
    ensures Usable(TouchUpTo(s, n))
    ensures TouchUpTo(s, n).last == s.last && TouchUpTo(s, n).spent == s.spent && TouchUpTo(s, n).first == s.first
    ensures forall i: nat | TouchUpTo(s, n).lastUnspent < i < n :: i in s.spent
  {
    if n != 0 {
      TouchUpToKeepsUsable(s, n - 1);
    }
  }

  /** Up to the first unspent index there is nothing to touch. */
  lemma {:induction false} TouchedBelow(s: AddressState, n: nat)
    requires Usable(s) && n <= s.first
    ensures TouchUpTo(s, n) == s
  {
    if n != 0 {
      TouchedBelow(s, n - 1);
    }
  }

  /** Listing every address turns a usable state into an exact one, if and only if no spent index lies beyond the last
      address. */
  lemma TouchAllIsExact(s: AddressState)
    requires Usable(s)
    ensures Usable(TouchAll(s)) && (Exact(TouchAll(s)) <==> NoneAbove(s.spent, s.last))
    ensures TouchAll(s).last == s.last && TouchAll(s).spent == s.spent
  {
    TouchUpToKeepsUsable(s, s.last + 1);
  }

  lemma {:induction false} TouchUpToExact(s: AddressState, n: nat)
    requires Exact(s) && n <= s.last + 1
    ensures TouchUpTo(s, n) == s
  {
    if n != 0 {
      TouchUpToExact(s, n - 1);
    }
  }

  /** Marking keeps the weak invariant, whatever the imported slice looked like. */
  lemma MarkKeepsUsable(s: AddressState, i: nat)
    requires Usable(s)
    ensures Usable(MarkSpent(s, i))
  {
  }

  /** Marking in an exact state: the set gains the index, the wallet gains an address only if none was left, and the
      cache stays exact. */
  lemma MarkKeepsExact(s: AddressState, i: nat)
    requires Exact(s)
    ensures Exact(MarkSpent(s, i))
    ensures MarkSpent(s, i).spent == s.spent + {i}
    ensures MarkSpent(s, i).last == Max(Max(s.last, i), LeastFrom(s.spent + {i}, 0))
  {
    var t := MarkSpent(s, i);
    LeastIsUnique(t.spent, 0, t.first);
  }

  // ---------------------------------------------------------------- runs

  datatype AddressOp =
    | AskAddress(index: nat)
    | AskNewAddress
    | AskSpent(index: nat)
    | Mark(index: nat)

  ghost function Step(s: AddressState, op: AddressOp): AddressState
    requires Usable(s)
  {
    match op
    case AskAddress(i) => Touch(s, i)
    case AskNewAddress => Touch(s, s.last + 1)
    case AskSpent(i) => Touch(s, i)
    case Mark(i) => MarkSpent(s, i)
  }

  ghost function Marked(ops: seq<AddressOp>): set<nat> {
    set op | op in ops && op.Mark? :: op.index
  }

  /** Reachability by a list of operations. */
  ghost function Run(s: AddressState, ops: seq<AddressOp>): (t: AddressState)
    requires Usable(s)
    ensures Usable(t)
    decreases |ops|
  {
    if ops == [] then s
    else
      var before := Run(s, ops[..|ops| - 1]);
      StepKeepsUsable(before, ops[|ops| - 1]);
      Step(before, ops[|ops| - 1])
  }

  lemma StepKeepsUsable(s: AddressState, op: AddressOp)
    requires Usable(s)
    ensures Usable(Step(s, op))
  {
    if op.Mark? {
      MarkKeepsUsable(s, op.index);
    }
  }

  /** Every run from an exact state stays exact, and spends exactly the indexes that were marked. */
  lemma {:induction false} RunStaysExact(s: AddressState, ops: seq<AddressOp>)
    requires Exact(s)
    ensures Exact(Run(s, ops))
    ensures Run(s, ops).spent == s.spent + Marked(ops)
    ensures s.last <= Run(s, ops).last
  {
    if ops != [] {
      var front, op := ops[..|ops| - 1], ops[|ops| - 1];
      RunStaysExact(s, front);
      var before := Run(s, front);
      MarkedMore(ops);
      if op.Mark? {
        MarkKeepsExact(before, op.index);
      }
    }
  }

  lemma MarkedMore(ops: seq<AddressOp>)
    requires ops != []
    ensures var op := ops[|ops| - 1];
            Marked(ops) == Marked(ops[..|ops| - 1]) + if op.Mark? then {op.index} else {}
  {
    var front, op := ops[..|ops| - 1], ops[|ops| - 1];
    assert forall o :: o in ops <==> o in front || o == op;
  }

  // ---------------------------------------------------------------- listing

  /** The indexes from lo to hi - 1 that are spent, or that are unspent, in order. */
  ghost function Listed(spent: set<nat>, want: bool, lo: nat, hi: nat): seq<nat>
    requires lo <= hi
  {
    if lo == hi then []
    else
      var front := Listed(spent, want, lo, hi - 1);
      if (hi - 1 in spent) == want then front + [hi - 1] else front
  }

  lemma {:induction false} ListedMembers(spent: set<nat>, want: bool, lo: nat, hi: nat, i: nat)
    requires lo <= hi
    ensures i in Listed(spent, want, lo, hi) <==> lo <= i < hi && (i in spent) == want
  {
    if lo < hi {
      ListedMembers(spent, want, lo, hi - 1, i);
    }
  }

  lemma {:induction false} ListedAscends(spent: set<nat>, want: bool, lo: nat, hi: nat)
    requires lo <= hi
    ensures forall a, b | 0 <= a < b < |Listed(spent, want, lo, hi)| ::
              Listed(spent, want, lo, hi)[a] < Listed(spent, want, lo, hi)[b]
  {
    if lo < hi {
      ListedAscends(spent, want, lo, hi - 1);
      var front := Listed(spent, want, lo, hi - 1);
      forall a | 0 <= a < |front| ensures front[a] < hi - 1 {
        assert front[a] in front;
        ListedMembers(spent, want, lo, hi - 1, front[a]);
      }
    }
  }

  /** Starting the scan at the cached first unspent index loses nothing. */
  lemma {:induction false} ScanFromFirst(s: AddressState, hi: nat)
    requires Usable(s) && s.first <= hi
    ensures Listed(s.spent, false, s.first, hi) == Listed(s.spent, false, 0, hi)
  {
    if s.first < hi {
      ScanFromFirst(s, hi - 1);
    } else {
      NothingBelowFirst(s, hi);
    }
  }

  lemma {:induction false} NothingBelowFirst(s: AddressState, hi: nat)
    requires Usable(s) && hi <= s.first
    ensures Listed(s.spent, false, 0, hi) == []
  {
    if 0 < hi {
      NothingBelowFirst(s, hi - 1);
    }
  }

  ghost function UnspentIndexes(s: AddressState): seq<nat> {
    Listed(s.spent, false, 0, s.last + 1)
  }

  ghost function SpentIndexes(s: AddressState): seq<nat> {
    Listed(s.spent, true, 0, s.last + 1)
  }

  /** Spent and unspent addresses partition the wallet, each list in ascending order. */
  lemma SpentAndUnspentPartition(s: AddressState)
    ensures forall i: nat :: i in UnspentIndexes(s) <==> i <= s.last && i !in s.spent
    ensures forall i: nat :: i in SpentIndexes(s) <==> i <= s.last && i in s.spent
    ensures forall a, b | 0 <= a < b < |UnspentIndexes(s)| :: UnspentIndexes(s)[a] < UnspentIndexes(s)[b]
    ensures forall a, b | 0 <= a < b < |SpentIndexes(s)| :: SpentIndexes(s)[a] < SpentIndexes(s)[b]
  {
    forall i: nat
      ensures i in UnspentIndexes(s) <==> i <= s.last && i !in s.spent
      ensures i in SpentIndexes(s) <==> i <= s.last && i in s.spent
    {
      ListedMembers(s.spent, false, 0, s.last + 1, i);
      ListedMembers(s.spent, true, 0, s.last + 1, i);
    }
    ListedAscends(s.spent, false, 0, s.last + 1);
    ListedAscends(s.spent, true, 0, s.last + 1);
  }

  // ---------------------------------------------------------------- import

  /** Rebuilding from the exported last index and slice, then listing the addresses, restores an exact state. */
  lemma RebuildRestores(s: AddressState)
    requires Exact(s)
    ensures Usable(Rebuilt(s.last, s.spent))
    ensures TouchAll(Rebuilt(s.last, s.spent)) == s
  {
    TouchAllIsExact(Rebuilt(s.last, s.spent));
  }

  /** For an arbitrary slice, rebuilding ends exact if and only if no bit lies above the larger of the last index and
      the first free one. */
  lemma RebuildExactIff(last: nat, spent: set<nat>)
    ensures Usable(Rebuilt(last, spent))
    ensures Exact(TouchAll(Rebuilt(last, spent))) <==> NoneAbove(spent, Max(last, LeastFrom(spent, 0)))
  {
    var s := Rebuilt(last, spent);
    TouchUpToKeepsUsable(s, s.last + 1);
  }

  /** A bit above everything: the slice 0x20 with last index 0 marks index 5, and no listing repairs the cache. */
  lemma StrayBit()
    ensures SpentSet([0x20]) == {5}
    ensures !Exact(TouchAll(Rebuilt(0, SpentSet([0x20]))))
  {
    forall i: nat ensures i in SpentSet([0x20]) <==> i == 5 {
      SpentSetMember([0x20], i);
      BitsOf0x20(i);
    }
    assert SpentSet([0x20]) == {5};
    LeastIsUnique({5}, 0, 0);
    RebuildExactIff(0, {5});
  }

  lemma BitsOf0x20(i: nat)
    ensures SpentAt([0x20], i) <==> i == 5
  {
  }
}

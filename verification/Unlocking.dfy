/** The inputs of a transaction and the blocks that unlock them. */
module Unlocking {
  import opened Collections
  import opened Addresses
  import opened Outputs

  // ---------------------------------------------------------------- inputs

  ghost predicate Ascending(s: seq<OutputID>) {
    forall i, j | 0 <= i < j < |s| :: s[i] < s[j]
  }

  /** Puts an identifier into its place in a sorted list; a known one is dropped. */
  function Insert(s: seq<OutputID>, id: OutputID): seq<OutputID> {
    if s == [] then [id]
    else if id < s[0] then [id] + s
    else if id == s[0] then s
    else [s[0]] + Insert(s[1..], id)
  }

  lemma {:induction false} InsertMembers(s: seq<OutputID>, id: OutputID)
    ensures forall x :: x in Insert(s, id) <==> x in s || x == id
  {
    if s != [] && !(id <= s[0]) {
      InsertMembers(s[1..], id);
      assert s == [s[0]] + s[1..];
    }
  }

  lemma InsertElements(s: seq<OutputID>, id: OutputID)
    ensures Elements(Insert(s, id)) == Elements(s) + {id}
  {
    InsertMembers(s, id);
  }

  lemma {:induction false} InsertKeepsOrder(s: seq<OutputID>, id: OutputID)
    requires Ascending(s)
    ensures Ascending(Insert(s, id))
  {
    if s != [] && s[0] < id {
      InsertKeepsOrder(s[1..], id);
      InsertMembers(s[1..], id);
      AscendingCons(s[0], Insert(s[1..], id));
    }
  }

  lemma AscendingCons(x: OutputID, tail: seq<OutputID>)
    requires Ascending(tail) && forall y | y in tail :: x < y
    ensures Ascending([x] + tail)
  {
    forall i | 0 <= i < |tail| ensures x < tail[i] {
      assert tail[i] in tail;
    }
  }

  /** Collects the references to the outputs, without duplicates and sorted by their bytes. */
  method BuildInputs(outputs: O) returns (inputs: seq<OutputID>)
    ensures Ascending(inputs)
    ensures Elements(inputs) == set k | k in outputs :: outputs[k].ledgerOutput.id
  {
    inputs := [];
    var todo := outputs.Keys;
    while todo != {}
      invariant todo <= outputs.Keys
      invariant Ascending(inputs)
      invariant Elements(inputs) == set k | k in outputs && k !in todo :: outputs[k].ledgerOutput.id
    {
      var k :| k in todo;
      InsertKeepsOrder(inputs, outputs[k].ledgerOutput.id);
      InsertElements(inputs, outputs[k].ledgerOutput.id);
      inputs := Insert(inputs, outputs[k].ledgerOutput.id);
      todo := todo - {k};
    }
  }

  // ---------------------------------------------------------------- unlock blocks

  /** A signature block stands for a signature with the key pair of the given index; signing is not modelled. */
  datatype UnlockBlock =
    | SignatureUnlockBlock(keyIndex: nat)
    | ReferenceUnlockBlock(referencedIndex: nat)

  /** The position at which an address occurs first. */
  ghost function FirstAt(addresses: seq<Address>, a: Address): (i: nat)
    requires a in addresses
    ensures i < |addresses| && addresses[i] == a && forall j | 0 <= j < i :: addresses[j] != a
  {
    if addresses[0] == a then 0 else 1 + FirstAt(addresses[1..], a)
  }

  ghost function OwnersOf(inputs: seq<OutputID>, byID: map<OutputID, Output>): seq<Address>
    requires forall id | id in inputs :: id in byID
  {
    seq(|inputs|, i requires 0 <= i < |inputs| => byID[inputs[i]].address)
  }

  /** Every address signs at its first occurrence, every later occurrence refers to that position. */
  ghost predicate UnlocksEach(unlocks: seq<UnlockBlock>, owners: seq<Address>) {
    && |unlocks| == |owners|
    && forall i | 0 <= i < |owners| :: unlocks[i] == BlockAt(owners, i)
  }

  ghost function BlockAt(owners: seq<Address>, i: nat): UnlockBlock
    requires i < |owners|
  {
    var first := FirstAt(owners, owners[i]);
    if first == i then SignatureUnlockBlock(owners[i].index) else ReferenceUnlockBlock(first)
  }

  const UINT16_RANGE: nat := 0x1_0000

  function ObjectsOf(inputs: seq<OutputID>, byID: map<OutputID, Output>): seq<LedgerOutput>
    requires forall id | id in inputs :: id in byID
  {
    seq(|inputs|, i requires 0 <= i < |inputs| => byID[inputs[i]].ledgerOutput)
  }

  ghost function BlocksFor(owners: seq<Address>): seq<UnlockBlock> {
    seq(|owners|, i requires 0 <= i < |owners| => BlockAt(owners, i))
  }

  /** Constructs the unlock blocks and lists the unlocked outputs in the order of the inputs. Positions are stored as
      uint16. */
  method BuildUnlockBlocks(inputs: seq<OutputID>, consumedOutputsByID: map<OutputID, Output>)
    returns (unlocks: seq<UnlockBlock>, inputsInOrder: seq<LedgerOutput>)
    requires forall id | id in inputs :: id in consumedOutputsByID
    ensures |inputs| <= UINT16_RANGE ==> UnlocksEach(unlocks, OwnersOf(inputs, consumedOutputsByID))
    ensures inputsInOrder == ObjectsOf(inputs, consumedOutputsByID)
  {
    unlocks, inputsInOrder := [], [];
    var existingUnlockBlocks: map<Address, nat> := map[];
    ghost var owners := OwnersOf(inputs, consumedOutputsByID);
    ghost var objects := ObjectsOf(inputs, consumedOutputsByID);
    for i := 0 to |inputs|
      invariant inputsInOrder == objects[..i]
      invariant |inputs| <= UINT16_RANGE ==> unlocks == BlocksFor(owners)[..i]
      invariant Remembers(existingUnlockBlocks, owners, i)
    {
      var output := consumedOutputsByID[inputs[i]];
      assert owners[i] == output.address && objects[i] == output.ledgerOutput;
      RemembersMore(existingUnlockBlocks, owners, i);
      PrefixStep(objects, i);
      PrefixStep(BlocksFor(owners), i);
      inputsInOrder := inputsInOrder + [output.ledgerOutput];
      var block;
      if output.address in existingUnlockBlocks {
        block := ReferenceUnlockBlock(existingUnlockBlocks[output.address]);
      } else {
        block := SignatureUnlockBlock(output.address.index);
        existingUnlockBlocks := existingUnlockBlocks[output.address := i % UINT16_RANGE];
      }
      if |inputs| <= UINT16_RANGE {
        assert block == BlockAt(owners, i);
      }
      unlocks := unlocks + [block];
    }
  }

  /** The addresses seen so far, with the position of their first occurrence. */
  ghost predicate Remembers(existing: map<Address, nat>, owners: seq<Address>, n: nat)
    requires n <= |owners|
  {
    && (forall a :: a in existing <==> a in owners[..n])
    && (forall a | a in existing && a in owners :: existing[a] == FirstAt(owners, a) % UINT16_RANGE)
  }

  lemma RemembersMore(existing: map<Address, nat>, owners: seq<Address>, i: nat)
    requires i < |owners| && Remembers(existing, owners, i)
    ensures Remembers(if owners[i] in existing then existing else existing[owners[i] := i % UINT16_RANGE], owners,
                      i + 1)
    ensures |owners| <= UINT16_RANGE ==>
              BlockAt(owners, i) == if owners[i] in existing then ReferenceUnlockBlock(existing[owners[i]])
                                    else SignatureUnlockBlock(owners[i].index)
  {
    FirstAtOrBefore(owners, i);
    if |owners| <= UINT16_RANGE {
      FitsUint16(FirstAt(owners, owners[i]));
    }
  }

  lemma FitsUint16(n: nat)
    requires n < UINT16_RANGE
    ensures n % UINT16_RANGE == n
  {
  }

  lemma FirstAtOrBefore(owners: seq<Address>, i: nat)
    requires i < |owners|
    ensures owners[i] in owners[..i] <==> FirstAt(owners, owners[i]) < i
    ensures owners[i] !in owners[..i] <==> FirstAt(owners, owners[i]) == i
    ensures forall a :: a in owners[..i + 1] <==> a in owners[..i] || a == owners[i]
  {
    var first := FirstAt(owners, owners[i]);
    if first < i {
      assert owners[..i][first] == owners[i];
    }
  }

  /** The node's semantic check: no reference to a reference, and no cycle because references only go backwards. */
  lemma UnlocksPassGraphCheck(unlocks: seq<UnlockBlock>, owners: seq<Address>)
    requires UnlocksEach(unlocks, owners)
    ensures forall i | 0 <= i < |unlocks| && unlocks[i].ReferenceUnlockBlock? ::
              var r := unlocks[i].referencedIndex;
              r < i && unlocks[r] == SignatureUnlockBlock(owners[i].index) && owners[r] == owners[i]
  {
    forall i | 0 <= i < |unlocks| && unlocks[i].ReferenceUnlockBlock?
      ensures unlocks[i].referencedIndex < i &&
              unlocks[unlocks[i].referencedIndex] == SignatureUnlockBlock(owners[i].index) &&
              owners[unlocks[i].referencedIndex] == owners[i]
    {
      assert unlocks[i] == BlockAt(owners, i);
      var r := FirstAt(owners, owners[i]);
      assert unlocks[r] == BlockAt(owners, r);
    }
  }

  ghost function Signatures(unlocks: seq<UnlockBlock>): set<nat> {
    set i: nat | i < |unlocks| && unlocks[i].SignatureUnlockBlock?
  }

  /** There are exactly as many signatures as distinct addresses. */
  lemma {:induction false} OneSignaturePerAddress(unlocks: seq<UnlockBlock>, owners: seq<Address>)
    requires UnlocksEach(unlocks, owners)
    ensures forall a | a in owners :: exists i :: i in Signatures(unlocks) && owners[i] == a
    ensures forall i, j | i in Signatures(unlocks) && j in Signatures(unlocks) && owners[i] == owners[j] :: i == j
  {
    forall a | a in owners ensures exists i :: i in Signatures(unlocks) && owners[i] == a {
      var i := FirstAt(owners, a);
      assert unlocks[i] == BlockAt(owners, i);
      assert i in Signatures(unlocks) && owners[i] == a;
    }
    forall i, j | i in Signatures(unlocks) && j in Signatures(unlocks) && owners[i] == owners[j] ensures i == j {
      assert unlocks[i] == BlockAt(owners, i) && unlocks[j] == BlockAt(owners, j);
    }
  }
}

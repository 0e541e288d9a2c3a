/** The ledger's check that the unlock blocks of a transaction are allowed to spend its inputs. */
module UnlockChecker {
  import opened Addresses
  import opened Outputs
  import opened Unlocking

  /** Whether a signature of the given address may spend a value output at a point in time. */
  predicate Unlocks(o: LedgerOutput, signer: LedgerAddress, timestamp: Time)
    requires IsValueOutput(o)
  {
    if o.ExtendedLockedOutput? then !o.TimeLockedNow(timestamp) && o.UnlockAddressNow(timestamp) == signer
    else o.address == signer
  }

  /** Goes through the inputs in order. A reference stands for the signature that it refers to, and the key pair of a
      signature decides whose signature it is; whether signatures verify at all is the world's part. */
  method UnlockBlocksValid(inputs: seq<LedgerOutput>, unlocks: seq<UnlockBlock>, ghost owners: seq<Address>, seed: Seed,
                           timestamp: Time, signatures: bool)
    returns (valid: bool)
    requires |inputs| == |owners| && UnlocksEach(unlocks, owners)
    requires forall i | 0 <= i < |inputs| :: IsValueOutput(inputs[i])
    ensures valid <==> forall i | 0 <= i < |inputs| ::
                         signatures && Unlocks(inputs[i], seed.AddressOf(owners[i].index).addressBytes, timestamp)
  {
    UnlocksPassGraphCheck(unlocks, owners);
    for i := 0 to |inputs|
      invariant forall j | 0 <= j < i ::
                  signatures && Unlocks(inputs[j], seed.AddressOf(owners[j].index).addressBytes, timestamp)
    {
      var block := unlocks[i];
      assert block == BlockAt(owners, i);
      if block.ReferenceUnlockBlock? {
        block := unlocks[block.referencedIndex];
      }
      if !signatures || !Unlocks(inputs[i], seed.AddressOf(block.keyIndex).addressBytes, timestamp) {
        return false;
      }
    }
    valid := true;
  }
}

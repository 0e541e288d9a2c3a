/** Exporting the state of a wallet, and importing it again. */
module WalletState {
  import opened Collections
  import opened Balances
  import opened Addresses
  import opened AddressManagement
  import opened Numerals

  const SEED_SIZE: nat := 32

  // ---------------------------------------------------------------- the buffer

  /** A buffer that is written at its end and read at a moving offset. */
  class MarshalUtil {
    var bytes: Bytes
    var readOffset: nat

    ghost predicate Valid()
      reads this
    {
      readOffset <= |bytes|
    }

    /** What has not been read yet. */
    ghost function Remaining(): Bytes
      requires Valid()
      reads this
    {
      bytes[readOffset..]
    }

    constructor (bytes: Bytes)
      ensures Valid() && this.bytes == bytes && Remaining() == bytes
    {
      this.bytes := bytes;
      this.readOffset := 0;
    }

    method WriteBytes(b: Bytes)
      modifies this
      ensures bytes == old(bytes) + b && readOffset == old(readOffset)
    {
      bytes := bytes + b;
    }

    method WriteUint64(value: nat)
      modifies this
      ensures bytes == old(bytes) + LittleEndian(value, UINT64_SIZE) && readOffset == old(readOffset)
    {
      bytes := bytes + LittleEndian(value, UINT64_SIZE);
    }

    method ReadBytes(length: nat) returns (result: Option<Bytes>)
      requires Valid()
      modifies this`readOffset
      ensures Valid()
      ensures result.Some? <==> length <= |old(Remaining())|
      ensures result.Some? ==> result.value + Remaining() == old(Remaining()) && |result.value| == length
      ensures result.None? ==> Remaining() == old(Remaining())
    {
      if |bytes| - readOffset < length {
        return None;
      }
      result := Some(bytes[readOffset..readOffset + length]);
      readOffset := readOffset + length;
    }

    method ReadUint64() returns (result: Option<nat>)
      requires Valid()
      modifies this`readOffset
      ensures Valid()
      ensures result.Some? <==> UINT64_SIZE <= |old(Remaining())|
      ensures result.Some? ==> old(Remaining())[UINT64_SIZE..] == Remaining() &&
                               result.value == FromLittleEndian(old(Remaining())[..UINT64_SIZE])
      ensures result.None? ==> Remaining() == old(Remaining())
    {
      var read := ReadBytes(UINT64_SIZE);
      if read.None? {
        return None;
      }
      result := Some(FromLittleEndian(read.value));
      assert old(Remaining())[..UINT64_SIZE] == read.value;
    }

    method ReadRemainingBytes() returns (result: Bytes)
      requires Valid()
      modifies this`readOffset
      ensures Valid() && result == old(Remaining()) && Remaining() == []
    {
      result := bytes[readOffset..];
      readOffset := |bytes|;
    }
  }

  // ---------------------------------------------------------------- the asset registry

  /** The serializer of the asset registry: its bytes, and what decoding the start of some bytes gives and consumes. */
  datatype RegistryCodec<!R> = RegistryCodec(encode: R -> Bytes, decode: Bytes -> Option<(R, nat)>)

  /** Decoding finds the end of an encoded registry, whatever follows. Its content need not be restored in full. */
  ghost predicate IsSelfDelimiting<R(!new)>(codec: RegistryCodec<R>) {
    forall r: R, rest: Bytes ::
      codec.decode(codec.encode(r) + rest).Some? && codec.decode(codec.encode(r) + rest).value.1 == |codec.encode(r)|
  }

  datatype ImportError = ShortSeed | ShortIndex | BadRegistry

  datatype Imported = Imported(seedBytes: Bytes, lastAddressIndex: nat, spentAddresses: seq<bv8>)

  /** The bytes of a wallet state. */
  function Exported<R>(seedBytes: Bytes, lastAddressIndex: nat, registryBytes: Bytes, spentAddresses: seq<bv8>): Bytes {
    seedBytes + LittleEndian(lastAddressIndex, UINT64_SIZE) + registryBytes + spentAddresses
  }

  /** Writes the state of a wallet one part after the other. */
  method ExportState<R>(addressManager: AddressManager, registry: R, codec: RegistryCodec<R>) returns (bytes: Bytes)
    ensures bytes == Exported<R>(addressManager.seed.bytes, addressManager.lastAddressIndex, codec.encode(registry),
                                 addressManager.spentAddresses)
  {
    var marshalUtil := new MarshalUtil([]);
    marshalUtil.WriteBytes(addressManager.seed.bytes);
    marshalUtil.WriteUint64(addressManager.lastAddressIndex);
    marshalUtil.WriteBytes(codec.encode(registry));
    marshalUtil.WriteBytes(addressManager.spentAddresses);
    bytes := marshalUtil.bytes;
  }

  /** The parsing part of the import. A registry that cannot be parsed is reported, but only after the rest is read. */
  method ImportState<R>(walletStateBytes: Bytes, codec: RegistryCodec<R>)
    returns (state: Imported, registry: Option<R>, err: Option<ImportError>)
    ensures err == Some(ShortSeed) <==> |walletStateBytes| < SEED_SIZE
    ensures err == Some(ShortIndex) <==> SEED_SIZE <= |walletStateBytes| < SEED_SIZE + UINT64_SIZE
    ensures SEED_SIZE + UINT64_SIZE <= |walletStateBytes| ==>
              var rest := walletStateBytes[SEED_SIZE + UINT64_SIZE..];
              && state.seedBytes == walletStateBytes[..SEED_SIZE]
              && state.lastAddressIndex == FromLittleEndian(walletStateBytes[SEED_SIZE..SEED_SIZE + UINT64_SIZE])
              && (err.None? <==> registry.Some?)
              && (registry.Some? ==> codec.decode(rest).Some? && codec.decode(rest).value.1 <= |rest| &&
                                     registry.value == codec.decode(rest).value.0 &&
                                     state.spentAddresses == rest[codec.decode(rest).value.1..])
              && (codec.decode(rest).Some? && codec.decode(rest).value.1 <= |rest| ==> registry.Some?)
              && (registry.None? ==> state.spentAddresses == rest)
  {
    state, registry := Imported([], 0, []), None;
    var marshalUtil := new MarshalUtil(walletStateBytes);

    var seedBytes := marshalUtil.ReadBytes(SEED_SIZE);
    if seedBytes.None? {
      err := Some(ShortSeed);
      return;
    }
    assert seedBytes.value == walletStateBytes[..SEED_SIZE] && marshalUtil.Remaining() == walletStateBytes[SEED_SIZE..];
    var lastAddressIndex := marshalUtil.ReadUint64();
    if lastAddressIndex.None? {
      err := Some(ShortIndex);
      return;
    }
    ghost var rest := walletStateBytes[SEED_SIZE + UINT64_SIZE..];
    assert marshalUtil.Remaining() == rest;
    assert walletStateBytes[SEED_SIZE..][..UINT64_SIZE] == walletStateBytes[SEED_SIZE..SEED_SIZE + UINT64_SIZE];
    registry := ParseAssetRegistry(marshalUtil, codec);
    err := if registry.Some? then None else Some(BadRegistry);
    var spentAddresses := marshalUtil.ReadRemainingBytes();
    state := Imported(seedBytes.value, lastAddressIndex.value, spentAddresses);
  }

  method ParseAssetRegistry<R>(marshalUtil: MarshalUtil, codec: RegistryCodec<R>) returns (registry: Option<R>)
    requires marshalUtil.Valid()
    modifies marshalUtil`readOffset
    ensures marshalUtil.Valid()
    ensures registry.Some? <==> var rest := old(marshalUtil.Remaining());
                                codec.decode(rest).Some? && codec.decode(rest).value.1 <= |rest|
    ensures registry.Some? ==> var rest := old(marshalUtil.Remaining());
                               registry.value == codec.decode(rest).value.0 &&
                               marshalUtil.Remaining() == rest[codec.decode(rest).value.1..]
    ensures registry.None? ==> marshalUtil.Remaining() == old(marshalUtil.Remaining())
  {
    var decoded := codec.decode(marshalUtil.bytes[marshalUtil.readOffset..]);
    if decoded.None? || decoded.value.1 > |marshalUtil.bytes| - marshalUtil.readOffset {
      return None;
    }
    marshalUtil.readOffset := marshalUtil.readOffset + decoded.value.1;
    registry := Some(decoded.value.0);
  }

  /** Taking an exported state apart again. */
  lemma ExportedParts<R>(seedBytes: Bytes, lastAddressIndex: nat, registryBytes: Bytes, spentAddresses: seq<bv8>)
    requires |seedBytes| == SEED_SIZE && lastAddressIndex < TWO_TO_THE_64
    ensures var bytes := Exported<R>(seedBytes, lastAddressIndex, registryBytes, spentAddresses);
            && SEED_SIZE + UINT64_SIZE <= |bytes|
            && bytes[..SEED_SIZE] == seedBytes
            && FromLittleEndian(bytes[SEED_SIZE..SEED_SIZE + UINT64_SIZE]) == lastAddressIndex
            && bytes[SEED_SIZE + UINT64_SIZE..] == registryBytes + spentAddresses
            && (registryBytes + spentAddresses)[|registryBytes|..] == spentAddresses
  {
    Uint64RoundTrip(lastAddressIndex);
    var bytes := Exported<R>(seedBytes, lastAddressIndex, registryBytes, spentAddresses);
    assert bytes[SEED_SIZE..SEED_SIZE + UINT64_SIZE] == LittleEndian(lastAddressIndex, UINT64_SIZE);
  }

  /** Exporting, importing, rebuilding the address manager from a seed that is a function of its bytes,
      and listing its addresses restores the whole state of the address manager: the last index, the spent set and both
      cached indexes. */
  method ExportAndRestore<R(!new)>(original: AddressManager, newSeed: Bytes -> Seed, registry: R,
                                   codec: RegistryCodec<R>)
    returns (restored: AddressManager, err: Option<ImportError>)
    requires Exact(original.State()) && original.lastAddressIndex < TWO_TO_THE_64
    requires |original.seed.bytes| == SEED_SIZE && original.seed == newSeed(original.seed.bytes)
    requires IsSelfDelimiting(codec)
    ensures err.None? && fresh(restored)
    ensures restored.State() == original.State()
    ensures restored.seed == original.seed
  {
    var bytes := ExportState(original, registry, codec);
    ExportedParts<R>(original.seed.bytes, original.lastAddressIndex, codec.encode(registry), original.spentAddresses);
    assert codec.decode(codec.encode(registry) + original.spentAddresses).Some?;
    var state, parsed;
    state, parsed, err := ImportState(bytes, codec);
    RebuildRestores(original.State());
    restored := new AddressManager(newSeed(state.seedBytes), state.lastAddressIndex, state.spentAddresses);
    var _ := restored.Addresses();
  }
}

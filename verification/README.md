# A verified model of the UTXO wallet

This project models the stateful wallet in `client/wallet` and proves what it keeps: over whole runs against a node that
may answer anything, no output is spent twice and no coin is lost or created, the address book's cached indexes equal
their definition, and remainders do not go to addresses that the same transaction burns. Beside it stand four smaller
stateful parts of the repository: the dashboard's bounded conflict map, the epoch voters, the evil wallet's balance
splitting and the visualizer's history.

How the parts fit together:

- `Addresses` is the abstract address book (last index, spent set, two cached indexes) and its runs; `AddressManager` is
  the class with the growing byte slice that refines it; `AddressChoice` is where a series of moves sends its funds.
- `Outputs` and `OutputManager` are the output collections and the store that merges the node's answers while it remembers
  local spends.
- `Funding` is the greedy scan, `FundingTheorems` and `Availability` are what its results mean.
- `Transactions`, `Conservation`, `BalanceCheck`, `BalanceChecker`, `Unlocking` and `UnlockChecker` build a transaction,
  account for every coin in it, unlock it, and check both as the ledger does.
- `History` is the record of answers and transactions and the argument that nothing is spent twice; `Wallet` ties all
  parts together, `Outcomes` says when its operations succeed, and `WalletRuns` states the results over whole runs.
- `NFT` is the balance logic of withdrawals, deposits and destructions, and `Deposits` a deposit from the wallet's own
  funds; `WalletState` and `Numerals` are export and import.
- `ConflictFeed`, `EpochVoters`, `EvilWallet` and `Visualizer` are the four smaller parts; `Collections` and `Balances`
  are shared vocabulary.

Conventions. The two-level Go maps from addresses to identifiers are one map over pairs. The iteration order of a Go map
is arbitrary: loops pick any remaining key. The connector's answers, the two clock readings of an operation and the
world's reactions to a transaction (`Response`) are arguments of the methods. Amounts are unbounded, except where the code
subtracts or guards against overflow: there uint64 is explicit. Maps whose values are computed are built key by key
(`Tabulate`), so that equal maps are never identified through values outside their keys.

## Findings

Properties that the code does not meet in general, each with the exact condition under which it does and a member that
gives an input where it fails.

| property | where it fails | it holds exactly when | members |
|---|---|---|---|
| a funded transfer balances | NewOutputs drops one of two identical outputs, for instance a remainder that equals a destination (client/wallet/wallet.go:2117, packages/core/ledger/vm/devnetvm/output.go:153-167) | no two destinations share address bytes and amounts and the plain remainder equals no destination | Conservation.BalancedIffNoTwins, Conservation.HalfToOwnRemainder |
| a funded transfer can be built | NewOutputs panics on more than 127 outputs (packages/core/ledger/vm/devnetvm/output.go:180-185): 128 destinations, or 127 and a remainder | the number of different outputs, which without identical ones is that of the destinations plus one for a remainder, is between 1 and 127 | Conservation.PanicsIff, Conservation.OneCoinEach |
| a successful collection holds what was required | an address that is listed twice as a source counts twice (client/wallet/wallet.go:1998) | no address is listed twice | FundingTheorems.SoundIffDistinct, FundingTheorems.CountedTwice |
| a withdrawal conserves all colours | a colour that the alias does not hold is not looked at (client/wallet/wallet.go:760-776) | only held colours are withdrawn | NFT.WithdrawalConservesIff, NFT.WithdrawsUnheld |
| a consolidation ends without an error | one chunk too many is allocated for an exact multiple of 127 (client/wallet/output.go:168): the empty last chunk panics while the transaction is encoded (packages/core/ledger/vm/devnetvm/transaction.go:157-163, 175-188), after everything else has been sent; and the error about too many outputs outlives the loop (client/wallet/wallet.go:200-203, 266) | at most 127 outputs are collected, provided that the world refuses nothing and the outputs are as the ledger holds them and still open when they are moved | Outcomes.ConsolidationSucceedsIff, Outcomes.OneCoinTooMany |
| a claim of conditionally owned outputs succeeds | outputs are picked without a look at their time lock (client/wallet/output.go:89-107), and one locked output makes the unlock check refuse the whole transaction (packages/core/ledger/vm/devnetvm/output.go:1807-1810) | no picked output is time-locked, or belongs to somebody else again, when the transaction is sealed, provided that the world refuses nothing and 1 to 127 outputs as the ledger holds them are picked | Outcomes.ClaimSucceedsIff, Outcomes.LockedButConditional |
| a deposit that was collected can be built | the alias becomes one more input beside up to 127 collected ones (client/wallet/wallet.go:890-895), and more than 127 cannot be encoded (packages/core/ledger/vm/devnetvm/transaction.go:45-50) | fewer than 127 outputs were collected | Deposits.FullCollectionPanicsIff, Deposits.AllCoinsPanic |
| a deposit does not burn its remainder | the remainder address is chosen before the alias joins the consumed outputs (client/wallet/wallet.go:919-931) | the alias is not on the chosen address | Deposits.RemainderSurvivesIff, Deposits.RemainderBurned |
| a consolidation does not burn its own destinations | the choice of an address looks only at the current chunk (client/wallet/wallet.go:2182-2201) | no chunk passes over the least unspent index while a later one spends from it, and the first chunk, if it spends from the first unspent index, also spends from the last one unless no later chunk does | WalletRuns.OwnDestinationsSurviveIff, AddressChoice.OwnDestinationBurned |
| no stored output is sent twice | in stateless mode a refresh forgets local spends (client/wallet/output_manager.go:52) | the wallet is stateful | History.NeverTwiceIffStateful, History.StatelessSendsTwice |
| an imported wallet has an exact cache | bits above the last index survive the import (client/wallet/address_manager.go:25-37) | no bit lies above the larger of the last index and the first free one | Wallets.NewWalletIsExactIff, Addresses.StrayBit |
| a voter is counted once per epoch | a vote for another epoch in between hides the earlier one (plugins/epochstorage/plugin.go:405-411) | for every block whose issuer last named another commitment for that epoch, that was the issuer's last block of all and was issued before | EpochVoters.RunStaysUniqueIff, EpochVoters.ComingBackCountsTwice |
| the available balance is all that can be spent | outputs of the single-balance kind are collected but not counted (client/wallet/wallet.go:1514-1515) | the outputs of that kind hold nothing | Availability.AvailableIsAllIff, Availability.OneCoinNotCounted |

## Model

| member | source | states |
|---|---|---|
| AddressManagement.AddressManager.constructor | client/wallet/address_manager.go:25-37 | the manager starts in the state that the abstract rebuild gives: the last index raised to the first free one, both cached indexes at the first free one, no bit lost |
| AddressManagement.AddressManager.AddressAt | client/wallet/address_manager.go:40-45 | returns the address of the index; asking makes the index exist and may make it the last unspent one, and changes nothing else |
| AddressManagement.AddressManager.Addresses | client/wallet/address_manager.go:48-55 | lists index 0 to the last index in order; afterwards both cached indexes equal their definition if no bit lies above the last index; an exact state does not change |
| AddressManagement.AddressManager.UnspentAddresses | client/wallet/address_manager.go:58-67 | the scan that starts at the cached first index returns exactly the unspent addresses from 0 to the last index, ascending, in any state of the manager; in an exact state it changes nothing |
| AddressManagement.AddressManager.SpentAddresses | client/wallet/address_manager.go:70-79 | returns exactly the spent addresses from 0 to the last index, ascending, in any state of the manager; in an exact state it changes nothing |
| AddressManagement.AddressManager.FirstUnspentAddress | client/wallet/address_manager.go:82-84 | returns the address of the cached first index without changing the state |
| AddressManagement.AddressManager.LastUnspentAddress | client/wallet/address_manager.go:87-89 | returns the address of the cached last unspent index without changing the state |
| AddressManagement.AddressManager.NewAddress | client/wallet/address_manager.go:92-94 | returns an index that did not exist before, and in an exact state it is unspent |
| AddressManagement.AddressManager.MarkAddressSpent | client/wallet/address_manager.go:97-111 | follows the abstract marking step; from an exact state it adds exactly this index to the spent set and leaves both cached indexes equal to their definition |
| AddressManagement.AddressManager.IsAddressSpent | client/wallet/address_manager.go:114-118 | answers membership in the spent set; even this query makes the index exist |
| AddressManagement.AddressManager.SpentAddressIndexes | client/wallet/address_manager.go:123-145 | returns byte and bit of the index, both in bounds; growing the slice leaves the spent set as it is |
| AddressManagement.AddressManager.UpdateFirstUnspentAddressIndex | client/wallet/address_manager.go:148-156 | the upward search terminates although its queries grow the slice, and ends at the least unspent index from the cached one on |
| AddressManagement.AddressManager.UpdateLastUnspentAddressIndex | client/wallet/address_manager.go:159-175 | the downward search ends at the greatest unspent index up to the cached one; the fallback that would create an address is never reached |
| AddressManagement.Perform | client/wallet/address_manager.go:25-175 | any list of the four operations takes the manager through the states of the abstract run |
| Addresses.GrowKeepsSet | client/wallet/address_manager.go:129-132 | bytes appended to the slice stand for no spent index |
| Addresses.SetBitAddsIndex | client/wallet/address_manager.go:97-102 | setting one bit adds one index to the spent set and no other |
| Addresses.TouchAllIsExact | client/wallet/address_manager.go:48-55 | listing all addresses turns the weak invariant of the constructor into an exact cache if and only if no spent index lies beyond the last address |
| Addresses.MarkKeepsUsable | client/wallet/address_manager.go:97-111 | marking keeps the weak invariant whatever slice was imported |
| Addresses.MarkKeepsExact | client/wallet/address_manager.go:97-111 | marking keeps the cache exact; an address is added only if no other unspent one is left |
| Addresses.RunStaysExact | client/wallet/address_manager.go:40-175 | every sequence of queries, new addresses and markings keeps both cached indexes exact, and the spent set is what was spent before plus what was marked |
| Addresses.ExactIsCanonical | client/wallet/address_manager.go:15-22 | in an exact state the cached indexes are determined by the last index and the spent set |
| Addresses.ScanFromFirst | client/wallet/address_manager.go:58-67 | no unspent index lies below the cached first one |
| Addresses.SpentAndUnspentPartition | client/wallet/address_manager.go:48-79 | the two listings partition the indexes up to the last one, each in ascending order |
| Addresses.RebuildRestores | client/wallet/address_manager.go:25-37 | rebuilding from the last index and the slice of an exact state and listing the addresses gives the same state back |
| Addresses.RebuildExactIff | client/wallet/address_manager.go:25-37 | for an arbitrary slice the rebuilt and listed state is exact if and only if no bit lies above the larger of the last index and the first free one |
| Addresses.StrayBit | client/wallet/address_manager.go:25-37 | the slice 0x20 with last index 0 marks index 5, and listing all addresses does not make the cache exact |
| WalletState.ExportState | client/wallet/wallet.go:1805-1813 | the exported bytes are the seed, the last index as eight bytes, the registry and the slice, in this order |
| WalletState.ImportState | tools/cli-wallet/lib.go:98-116 | says for every byte string which error is reported and what is read; a bad registry is reported only after the rest has been read |
| WalletState.ParseAssetRegistry | client/wallet/assetregistry.go:50-62 | advances the offset by what the codec consumed, or leaves it alone on an error |
| WalletState.ExportAndRestore | client/wallet/wallet.go:1805-1813 | exporting, importing, rebuilding and listing restores the whole state of the address manager for every self-delimiting registry codec |
| Numerals.Uint64RoundTrip | client/wallet/wallet.go:1808 | a 64 bit number is read back from its eight bytes |
| Outputs.OutputsByID | client/wallet/output.go:60-69 | the keys are exactly the identifiers, and every entry is one of the outputs with that identifier |
| Outputs.ValueOutputsOnly | client/wallet/output.go:72-86 | keeps exactly the outputs that are not aliases |
| Outputs.ConditionalOutputsOnly | client/wallet/output.go:89-107 | keeps exactly the outputs with a fallback deadline that their address can unlock now |
| Outputs.TotalFundsInOutputs | client/wallet/output.go:126-137 | the colour-wise total of the set, whatever the iteration order |
| Outputs.OutputCount | client/wallet/output.go:151-159 | the number of outputs over all addresses |
| Outputs.SplitIntoChunksOfMaxInputCount | client/wallet/output.go:162-188 | the chunks are a partition of the input, each of the exact size that its position gives it, and every write is in bounds |
| Outputs.EmptyChunkIff | client/wallet/output.go:168 | a chunk is empty exactly if it is the last one of more than 127 outputs whose number is a multiple of 127, or if there was nothing to split |
| Outputs.ChunksConserveFunds | client/wallet/output.go:162-188 | the chunks of any partition together hold exactly the funds of the whole, colour by colour |
| OutputManagement.OutputManager.constructor | client/wallet/output_manager.go:18-24 | the store starts empty |
| OutputManagement.NewUnspentOutputManager | client/wallet/output_manager.go:18-31 | the store starts with what the node lists and the addresses have been listed, or the program panics, exactly if the node does not answer |
| OutputManagement.OutputManager.Refresh | client/wallet/output_manager.go:34-62 | a successful refresh merges the answer into the store so that no locally spent output becomes unspent in stateful mode; a connector error leaves the store unchanged |
| OutputManagement.OutputManager.MergeOne | client/wallet/output_manager.go:45-59 | the reported output replaces the stored one, and a local spend survives unless the wallet is stateless |
| OutputManagement.OutputManager.GetOutputs | client/wallet/output_manager.go:85-122 | returns exactly the unspent outputs on the given addresses (on all addresses if none are given), without the unconfirmed ones unless asked for |
| OutputManagement.OutputManager.MarkOutputSpent | client/wallet/output_manager.go:125-137 | marks this output and no other; an unknown one is ignored |
| OutputManagement.RefreshKeepsSpendsIff | client/wallet/output_manager.go:34-62 | a refresh keeps every local spend if and only if the wallet is stateful or the answer reports no locally spent output as unspent |
| Funding.VisitOrder | client/wallet/wallet.go:1998-1999 | one address after the other, the outputs under an address in an arbitrary order |
| Funding.VisitedOnce | client/wallet/wallet.go:1998-1999 | no output is visited twice if no address is listed twice |
| Funding.EnoughCollected | client/wallet/wallet.go:2041-2048 | true exactly if every required colour is covered |
| Funding.CollectAlong | client/wallet/wallet.go:1994-2037 | in any order: success is the first sufficient list of contributing outputs and at most 127 of them, too many means that together they suffice but no list of up to 127 of them in this order does, and failure means that there are none or that together they do not suffice |
| FundingTheorems.OutcomeIsUnique | client/wallet/wallet.go:1994-2037 | the contributing outputs in their order determine the result |
| FundingTheorems.CollectedCovers | client/wallet/wallet.go:2019-2032 | with distinct addresses a returned collection really holds what is required, is made of contributing outputs, and exceeds 127 exactly if the error about too many outputs is reported, and then it is all of them |
| FundingTheorems.InsufficientIff | client/wallet/wallet.go:2030-2037 | with distinct addresses a failure is reported if and only if no output contributes or all of them together do not hold what is required, in any iteration order |
| FundingTheorems.SoundIffDistinct | client/wallet/wallet.go:1983-2038 | no successful collection returns less than required, for all stores and requirements, if and only if no address is listed twice |
| FundingTheorems.CountedTwice | client/wallet/wallet.go:1998-2013 | for every address list with a repetition, one coin pays for a requirement of two |
| Availability.AvailableBalance | client/wallet/wallet.go:1499-1537 | the confirmed and the pending balance are the totals of the outputs that count; outputs of the single-balance kind do not, because their case has an empty body |
| Availability.AvailableIsSpendable | client/wallet/wallet.go:1487-2038 | at a fixed time and store, a requirement with a positive entry that the confirmed available balance covers is never refused for lack of funds |
| Availability.AvailableIsAllIff | client/wallet/wallet.go:1514-1532 | the available balance holds everything that can be collected at that time if and only if the single-balance outputs hold nothing |
| Availability.OneCoinNotCounted | client/wallet/wallet.go:1514-1515 | one coin in a single-balance output can be collected, and the available balance is empty |
| Transactions.RequiredFunds | client/wallet/packages/sendoptions/options.go:171-185 | the colour-wise total over all destinations with Mint counted as ZIPP |
| Transactions.SpendOn | client/wallet/wallet.go:2070-2090 | on funded input the wrapping subtractions never wrap: what is left is the difference, without empty entries |
| Transactions.NewOutputs | packages/core/ledger/vm/devnetvm/output.go:146-189 | identical outputs are dropped, and the result is a panic exactly if fewer than 1 or more than 127 are left |
| Transactions.BuildOutputs | client/wallet/wallet.go:2063-2120 | the remainder, if any, and one output per destination, in an arbitrary order and filtered; what is left on funded input is the exact difference |
| Conservation.BuiltTotal | client/wallet/wallet.go:2091-2117 | the list before filtering holds the remainder and all destinations, colour by colour |
| Conservation.ConservesColours | client/wallet/wallet.go:118-139 | for every funded transfer the built list keeps the amount of every own colour, ZIPP and Mint together keep theirs, and no coin appears or disappears |
| Conservation.RemainderIffLeftOver | client/wallet/wallet.go:2095-2097 | a remainder is built if and only if some colour is left over |
| Conservation.FilterLoses | packages/core/ledger/vm/devnetvm/output.go:153-167 | dropping identical outputs keeps the amount of coins exactly if there were none |
| Conservation.DistinctIffNoTwins | client/wallet/wallet.go:2093-2117 | two outputs of a transfer are identical exactly if two destinations share address bytes and amounts, or the plain remainder equals a destination |
| Conservation.BalancedIffNoTwins | client/wallet/wallet.go:2063-2120 | the filtered outputs of a funded transfer pass the balance check if and only if no two of them were identical |
| Conservation.HalfToOwnRemainder | client/wallet/wallet.go:2093-2117 | sending half of the collected coins to the address that takes the remainder is funded but does not balance |
| Conservation.PackedAndBalancedIff | client/wallet/wallet.go:2063-2120 | a funded transfer can be built and balances if and only if no two outputs are identical and their number is within 1 and 127 |
| Conservation.PanicsIff | packages/core/ledger/vm/devnetvm/output.go:180-185 | the program panics if and only if the number of different outputs is not within 1 and 127; they are as many as destinations and remainder if and only if no two of these are identical, and fewer otherwise |
| Conservation.OneCoinEach | packages/core/ledger/vm/devnetvm/output.go:183-185 | one coin for each of 128 addresses and nothing left over is funded and has no identical outputs, but panics |
| BalanceChecker.AddCoins | packages/core/ledger/vm/devnetvm/utils.go:13-22 | the running totals are exact; the verdict turns negative exactly if a total leaves uint64, and an input without coins leaves it alone |
| BalanceChecker.SpendCoins | packages/core/ledger/vm/devnetvm/utils.go:25-40 | the verdict on an output with coins is positive exactly if it overdraws no own colour and the recoloured coins fit uint64; then the rest is the exact difference |
| BalanceChecker.SumOfCoins | packages/core/ledger/vm/devnetvm/utils.go:42-47 | the sum of what is left, or the report that it does not fit |
| BalanceChecker.TransactionBalancesValid | packages/core/ledger/vm/devnetvm/utils.go:11-50 | true if and only if the first input (or first output, without inputs) holds something, the totals fit uint64, no own colour appears from nowhere, and exactly as many coins are created as consumed |
| Unlocking.BuildInputs | client/wallet/wallet.go:2051-2059 | the inputs are exactly the identifiers of the consumed outputs, strictly ascending |
| Unlocking.BuildUnlockBlocks | client/wallet/wallet.go:2123-2140 | for up to 65536 inputs every address signs at its first occurrence and every later one refers to that position; the listed outputs are those of the inputs in order, whatever their number |
| Unlocking.UnlocksPassGraphCheck | packages/core/ledger/vm/devnetvm/utils.go:170-218 | every reference goes to a strictly earlier signature of the same address, so there are no chains and no cycles |
| Unlocking.OneSignaturePerAddress | client/wallet/wallet.go:2123-2140 | there is exactly one signature per distinct address |
| UnlockChecker.UnlockBlocksValid | packages/core/ledger/vm/devnetvm/utils.go:144-167 | true if and only if the signatures are good and every input can be unlocked with the signing key: a plain output is locked to its address, an extended one is not time-locked at the time of the transaction and belongs to its address then |
| History.RunIsAccounted | client/wallet/output_manager.go:45-59 | in stateful mode, whatever the node answers and in whatever order things happen, everything sent is remembered as spent and no stored output is sent twice |
| History.NoDoubleSpend | client/wallet/wallet.go:2143-2149 | if no identifier is listed under two addresses, no two transactions of a run share an input |
| History.NeverTwiceIffStateful | client/wallet/output_manager.go:51-56 | no run sends a stored output twice if and only if the wallet is stateful |
| History.StatelessSendsTwice | client/wallet/output_manager.go:51-56 | in stateless mode any proper transaction with one input can be sent twice |
| History.ProperConserves | packages/core/ledger/vm/devnetvm/utils.go:11-50 | a transaction that is handed over pays out exactly what it consumes |
| History.EverySentConserves | client/wallet/wallet.go:157-169 | in every run and in both modes, every transaction ever handed over pays out exactly what it consumes |
| Wallets.Wallet.constructor | client/wallet/wallet.go:64-104 | a wallet from an address manager and a store that fit the recorded run |
| Wallets.NewWallet | client/wallet/wallet.go:64-104 | a wallet from an imported slice, or a panic, exactly if one of the two refreshes fails; the store holds both answers merged, and the address book is the rebuilt one listed twice |
| Wallets.NewWalletIsExactIff | client/wallet/address_manager.go:25-37 | the address book of a new wallet spends what the slice says and is exact if and only if no bit lies above the larger of the last index and the first free one |
| Wallets.Wallet.ReceiveAddress | client/wallet/wallet.go:1303-1305 | the last unspent address, without a change of state |
| Wallets.Wallet.RemainderAddress | client/wallet/wallet.go:1321-1323 | the first unspent address, without a change of state |
| Wallets.Wallet.ChooseRemainderAddress | client/wallet/wallet.go:2160-2179 | a given address is taken; with address reuse it is the first unspent one; otherwise it is an unspent address of the wallet that no consumed output comes from |
| Wallets.Wallet.ChooseToAddress | client/wallet/wallet.go:2182-2201 | the same for consolidated funds, where address reuse means the last unspent one |
| Wallets.Wallet.ChooseUnburned | client/wallet/wallet.go:2165-2176 | the case distinction that both share: the first unspent address, the last one if the first is spent from, a new one if both are |
| Wallets.Wallet.MarkOutputsAndAddressesSpent | client/wallet/wallet.go:2143-2157 | exactly the consumed outputs are marked, and without address reuse exactly their addresses; the cache stays exact |
| Wallets.Wallet.Refresh | client/wallet/wallet.go:1386-1389 | an answer is recorded and merged; spent addresses stay spent |
| Wallets.Wallet.CollectOutputsForFunding | client/wallet/wallet.go:1983-2038 | the result is that of a collection over the unspent value outputs that the store lists after the refresh, on the given addresses or on all of them; a failing refresh is ignored |
| Wallets.CheckBalances | client/wallet/wallet.go:2204-2211 | a positive verdict makes the transaction proper; for outputs as the ledger holds them the verdict is positive if and only if the built outputs hold what is consumed |
| Wallets.CheckUnlocks | client/wallet/wallet.go:2206-2209 | for identifiers that occur under one address only, positive if and only if the signatures are good and every consumed output can be unlocked at the time of the transaction |
| Wallets.Check | client/wallet/wallet.go:147-165 | what is left without objection is proper and can be unlocked at its time; an objection is a refusal of the world, or the number of inputs is out of bounds, or the outputs do not hold what is consumed, or an input cannot be unlocked at that time |
| Wallets.Wallet.Seal | client/wallet/wallet.go:135-146 | inputs, unlock blocks and the listed outputs fit what is consumed, for every set of unspent stored outputs |
| Wallets.Wallet.SealAndSend | client/wallet/wallet.go:135-175 | either nothing happens and there is a reason, or one proper transaction whose inputs can be unlocked at its time is handed over and its outputs stay marked whatever the node does with it |
| Wallets.Wallet.Transfer | client/wallet/wallet.go:134-175 | a failure of a paid transfer is the world's, or two outputs are identical, or their number is out of bounds, or an input cannot be unlocked at that time; what is handed over has none of these flaws; the remainder is not burned |
| Wallets.Wallet.SendFunds | client/wallet/wallet.go:111-178 | every failure has a reason: a refusal of the world, too few funds, too many outputs, outputs that cannot be built, or inputs that cannot be unlocked by then; what is collected can be unlocked at the time of the collection; what is handed over pays the destinations and the remainder, and the remainder goes to an address that this transaction does not burn |
| Wallets.Wallet.MoveAll | client/wallet/wallet.go:211-263 | all funds of the given outputs go to the chosen address in one transaction, and the address book afterwards is the one after this move |
| Wallets.Wallet.MoveChunks | client/wallet/wallet.go:210-264 | one transaction per chunk in order, up to the first failure; without address reuse every destination is the one chosen after the moves before it |
| Wallets.Wallet.ConsolidateFunds | client/wallet/wallet.go:185-267 | at least two open outputs are moved, in the chunks that their number gives, one after the other up to the first failure; an error remains if and only if one chunk fails or more than 127 outputs were collected; asking for the whole available balance never fails for lack of funds unless store or clock moved in between |
| Wallets.Wallet.ClaimConditionalFunds | client/wallet/wallet.go:274-344 | exactly the confirmed outputs that the wallet owns conditionally are moved, by one transaction, to an address that it does not burn; nothing is moved only if there are none, or the world refuses, or they cannot be moved together or unlocked at that time |
| Outcomes.TransferSucceedsIff | client/wallet/wallet.go:134-175 | if the world refuses nothing, a paid transfer of ordinary outputs is handed over if and only if its outputs can be built and its inputs can be unlocked at its time |
| Outcomes.ConsolidationSucceedsIff | client/wallet/wallet.go:185-267 | if the world refuses nothing, a consolidation of ordinary outputs that are still open ends without an error if and only if at most 127 were collected |
| Outcomes.OneCoinTooMany | client/wallet/output.go:168 | for 128 coins on one address every consolidation ends with an error, whatever the world does |
| Outcomes.ClaimSucceedsIff | packages/core/ledger/vm/devnetvm/output.go:1807-1838 | if the world refuses nothing, a claim of 1 to 127 ordinary outputs is handed over if and only if none of them is time-locked or belongs to somebody else when the transaction is sealed |
| Outcomes.ClaimSucceedsIffNoTimeLock | client/wallet/output.go:89-107 | if in addition the clock has not moved since the outputs were picked, it is handed over if and only if none of them is time-locked |
| Outcomes.LockedButConditional | client/wallet/output.go:89-107 | an output with a time lock and a fallback option is picked for a claim and cannot be unlocked |
| WalletRuns.Run | client/wallet/wallet.go:111-344 | any interleaving of refreshes, transfers, consolidations and claims against a node that answers anything: no stored output is sent twice in stateful mode, no ledger output if identifiers are unique, every transaction conserves coins, and the cache stays exact |
| WalletRuns.ConsolidationConserves | client/wallet/wallet.go:200-264 | once every chunk that holds anything has been moved, the transactions together pay out exactly what was collected |
| WalletRuns.OwnDestinationsSurviveIff | client/wallet/wallet.go:2182-2201 | without address reuse no destination of a consolidation is burned by that same consolidation, if and only if no moved chunk passes over the least unspent index while a later one spends from it, and the first chunk, if it spends from the first unspent index, also spends from the last one unless no later chunk does |
| AddressChoice.ToIndexIsSafe | client/wallet/wallet.go:2182-2201 | the chosen index is unspent and not spent from |
| AddressChoice.DestinationsSurviveIff | client/wallet/wallet.go:210-252 | the same equivalence for any series of moves from an exact address book |
| AddressChoice.OwnDestinationBurned | client/wallet/wallet.go:210-252 | two chunks on two addresses: the first pays to the last unspent address, the second burns it |
| NFT.WithdrawBalances | client/wallet/wallet.go:757-786 | accepted exactly if no held colour is overdrawn and enough ZIPP stays; then the difference stays |
| NFT.WithdrawalConservesIff | client/wallet/wallet.go:760-776 | an accepted withdrawal conserves every held colour, and it conserves all colours and balances if and only if only held colours are withdrawn |
| NFT.WithdrawsUnheld | client/wallet/wallet.go:760-776 | an alias with 200 ZIPP lets go of five coins of a colour that it does not hold, and the transaction does not balance |
| NFT.DestroyLeavesDustIff | client/wallet/wallet.go:665-671 | the withdrawal before a destruction is accepted if and only if the alias holds the dust minimum; then it balances and leaves exactly the dust minimum |
| NFT.DepositBalances | client/wallet/wallet.go:875-913 | accepted exactly if the topped-up alias is above the dust threshold and the consumed funds cover the deposit, with the error that belongs to the condition that fails; then alias and remainder are the sum and the difference |
| NFT.DepositConserves | client/wallet/wallet.go:876-922 | new alias and remainder together hold what old alias and consumed outputs held, colour by colour |
| Deposits.PrepareDeposit | client/wallet/wallet.go:874-926 | missing funds are reported if and only if everything that could pay does not; otherwise only too many outputs, an alias below the dust threshold or more than 127 inputs make it fail, and the refusal at lines 909-911 is never reached; what is built conserves every colour and consumes the collection and the alias |
| Deposits.FullCollectionPanicsIff | client/wallet/wallet.go:890-895 | with different identifiers and enough ZIPP in the alias, a collected deposit has too many inputs if and only if 127 outputs were collected, because the alias comes on top |
| Deposits.AllCoinsPanic | client/wallet/wallet.go:890-895 | a deposit of 127 coins that are held one by one never comes about, although the funds are there |
| Deposits.RemainderSurvivesIff | client/wallet/wallet.go:919-931 | the remainder stays on an unspent address if and only if the alias is not on the address that was chosen for it |
| Deposits.RemainderBurned | client/wallet/wallet.go:919-931 | the alias is on the first unspent address and the deposit is paid from another one: the remainder goes to the address of the alias, which is marked spent |
| ConflictFeed.HeapPush | plugins/dashboard/conflicts_livefeed.go:266-268 | heap order is kept and exactly one element is added |
| ConflictFeed.HeapPop | plugins/dashboard/conflicts_livefeed.go:270-276 | an element that arrived no later than any other is removed, and heap order is kept |
| ConflictFeed.BoundedConflictMap.AddConflictSet | plugins/dashboard/conflicts_livefeed.go:291-310 | at most the maximum stays; a full map gives up a set with minimal arrival time among those present before, and no conflict names it any more |
| ConflictFeed.BoundedConflictMap.CleanUp | plugins/dashboard/conflicts_livefeed.go:297-303 | deleting from the map in the middle of its iteration leaves exactly the conflicts that name another set |
| ConflictFeed.BoundedConflictMap.ResolveConflict | plugins/dashboard/conflicts_livefeed.go:312-320 | an unresolved set is resolved with the time since its arrival, which stays; nothing else changes |
| ConflictFeed.BoundedConflictMap.AddConflict | plugins/dashboard/conflicts_livefeed.go:331-334 | the conflict is stored under its identifier |
| ConflictFeed.BoundedConflictMap.AddConflictMember | plugins/dashboard/conflicts_livefeed.go:336-342 | a stored conflict names the set from now on; an unknown one is ignored |
| ConflictFeed.BoundedConflictMap.OnConflictCreated | plugins/dashboard/conflicts_livefeed.go:134-178 | afterwards the map holds as many sets as the old and the new ones together, but at most the maximum; whatever is stored was there or belongs to the new conflict; if everything fits, nothing is given up, all its sets are there, and every stored conflict knows the sets that it is a member of; nothing that is given up arrived after anything that stays, as long as the clock does not go back |
| ConflictFeed.BoundedConflictMap.OnConflictAccepted | plugins/dashboard/conflicts_livefeed.go:180-204 | exactly the unresolved sets of the conflict are resolved; an unknown conflict changes nothing |
| ConflictFeed.Follow | plugins/dashboard/conflicts_livefeed.go:134-204 | in every run the number of sets is bounded and the heap mirrors the map; if the clock never goes back, the stored sets are the ones added last |
| ConflictFeed.StoredAreNewest | plugins/dashboard/conflicts_livefeed.go:291-310 | if arrival times never went back, the stored sets are exactly the last additions, unless the oldest of these arrived together with the newest of the others |
| ConflictFeed.MirrorIsBijection | plugins/dashboard/conflicts_livefeed.go:291-310 | heap elements and stored sets correspond one to one, with the same arrival times |
| ConflictFeed.EvictionLeavesNoTrace | plugins/dashboard/conflicts_livefeed.go:297-303 | after an eviction no conflict names the set, none is emptied by it, and every other membership is kept |
| EpochVoters.EpochVotersWeight.SaveEpochVotersWeight | plugins/epochstorage/plugin.go:389-415 | entry by entry: the block's vote is stored, an older vote of the issuer for another commitment of the same epoch is taken back, and nothing else changes |
| EpochVoters.StepKeepsUniqueIff | plugins/epochstorage/plugin.go:401-411 | the issuer is under one commitment of the epoch afterwards if and only if every other one it was under is that of its latest vote, which was issued before |
| EpochVoters.StepKeepsOthers | plugins/epochstorage/plugin.go:389-415 | other voters and other epochs are not touched |
| EpochVoters.RunStaysUniqueIff | plugins/epochstorage/plugin.go:389-415 | in a run from the empty store every voter is always under at most one commitment per epoch if and only if, for every block whose issuer last named another commitment for the epoch, that was the issuer's last block of all and was issued before; then the store says what the last blocks say |
| EpochVoters.OrderedRunFollows | plugins/epochstorage/plugin.go:389-415 | for voters whose blocks come with increasing issuing times and never go back to an earlier epoch, every reachable state has each voter under exactly the commitment of its last block for the epoch |
| EpochVoters.ComingBackCountsTwice | plugins/epochstorage/plugin.go:405-411 | a voter that comes back to an earlier epoch with another commitment is counted under both |
| EpochVoters.Follow | plugins/epochstorage/plugin.go:389-415 | if every block supersedes what its issuer said before, the stored maps say what the last blocks say |
| EvilWallet.SplitBalanceEqually | client/evilwallet/utils.go:10-23 | at least one share; the shares add up exactly, all but the last are equal, and the last exceeds them by less than their number; no subtraction or sum wraps |
| EvilWallet.UpdateOutputBalances | client/evilwallet/evilwallet.go:611-657 | where balances are left to the wallet and all aliases are known, every alias gets one of the equal shares and together they hold what the inputs hold; an unknown alias is an error; otherwise nothing changes |
| EvilWallet.PrepareRemainderOutput | client/evilwallet/evilwallet.go:557-609 | a remainder is added exactly if the outputs hold less than the inputs, and it is the difference |
| EvilWallet.BuildOutputs | client/evilwallet/evilwallet.go:531-657 | where balances are left to the wallet, the outputs hold exactly what the inputs hold and no remainder is added |
| EvilWallet.HandleInputOutputDuringSplitOutputs | client/evilwallet/evilwallet.go:279-294 | the amounts of the new outputs add up to the balance of the split one |
| EvilWallet.IsBalanceProvided | client/evilwallet/options.go:72-82 | true exactly if some alias output holds something |
| Visualizer.History.AddToHistory | plugins/dashboard/visualizer.go:146-164 | a known block only changes its flag; a full history gives up exactly its 100 oldest blocks and their flags before the new one is appended |
| Visualizer.History.ShiftDown | plugins/dashboard/visualizer.go:154-159 | the overlapping move inside the array keeps the blocks from 100 on, in order |
| Visualizer.HistoryIsSuffix | plugins/dashboard/visualizer.go:146-164 | in every run identifiers are distinct and are the keys of the map, there are at most 1000, and the history is what was taken in last, in that order, less a multiple of 100 |
| Visualizer.FlagIsLatest | plugins/dashboard/visualizer.go:147-151 | the flag of a stored block is the one it was last reported with |
| Visualizer.Follow | plugins/dashboard/visualizer.go:146-164 | feeding blocks to the array follows the abstract run |

## Left out

- Wallets.Check: the encoder's bounds on the number of inputs are taken to be checked while encoding, where the program panics; the encoder itself is not part of the repository.
- Wallets.Wallet.ConsolidateFunds: the claim about own destinations is made for wallets with an exact cache, which every wallet has from construction unless it was imported with stray bits.
- Transactions.BuildOutputs: the byte order in which outputs are sorted is not modelled; no result depends on it.
- Outputs.OutputsByID: an inner map without outputs cannot be represented; the code never creates one except through an answer of the node, where it changes nothing.
- OutputManagement.OutputManager.MergeOne: every reported output gets a record of its own; a connector that hands out the same object twice is not modelled.
- Unlocking.BuildUnlockBlocks: a node that reports an output under the wrong address or identifier would make the code dereference a missing entry; answers are taken to be keyed by what they contain.
- EvilWallet.BuildOutputs: an input that the managers do not track makes the code dereference a missing entry; inputs are taken to be tracked.
- AddressManagement.AddressManager.NewAddress: indexes stay below the largest 64 bit number.
- Outputs.TotalFundsInOutputs: sums are unbounded; overflow of totals beyond the token supply is modelled only in the ledger's own check.
- Transactions.RequiredFunds: sums are unbounded for the same reason.
- Deposits.PrepareDeposit: it ends with the essence; unlocking by the owner of the alias, sealing and sending repeat those of a transfer.
- UnlockChecker.UnlockBlocksValid: whether a signature is good is an argument; only value outputs are unlocked, none of them through an alias.
- WalletState.ImportState: the content of the asset registry is not restored by the code, so only its length matters.
- ConflictFeed.BoundedConflictMap.OnConflictCreated: once sets have to be given up, a conflict may name a set that is gone, as in the code; which memberships are then known is not stated.
- Signatures, hashing, key derivation, text encodings and the ledger's virtual machine: addresses are a function of their index and signatures are tokens.
- Creating, transferring, delegating and sweeping NFTs, assets and aliases: the same building blocks; swept outputs are never marked in the store.
- Waiting for confirmation, polling, timeouts, goroutines and locks: a transaction is confirmed in time or it is not.
- onConflictRejected, the JSON messages and the worker pool of the dashboard: they would only add easy members.
- checkEpochContentLimit: it copies into a nil slice and therefore removes nothing.
- Weights of voters are opaque numbers; mana is left out.
- HTTP clients, command line, metrics and plugin wiring.

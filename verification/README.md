# A verified model of the althea-L1 coin/ERC20 bridge

althea-L1 is a Cosmos chain with an EVM. Its `x/erc20` module keeps two ledgers in agreement:
the coins of the bank module and the balances of ERC20 contracts. A *pair* ties a coin to a
contract. A contract is either owned by the module, which mints and burns its tokens against
escrowed coins, or external, in which case the module mints and burns the coins against escrowed
tokens. This project models that bridge, the registry of pairs, the Protocol Buffers codec the
registry's values go through, and four pieces of transaction admission logic, and proves what
they promise.

## How the model is laid out

- **Codec.** `GoInts`, `Varints`, `Wire`, `TokenPairCodec`, `GenesisCodec` hold the writers that
  fill a buffer from the back and the parsers that move an index forward, as methods over arrays
  and byte strings with Go's 64-bit and 32-bit wrap-around written out. Each method is proved
  equal to a function on byte strings. `UnknownFields` has the grammar of fields on the wire;
  `TokenPairCodecLaws`, `GenesisCodecLaws`, `TokenPairGrammar`, `GenesisGrammar`, `WireErrors` and
  `Canonical` prove the laws of those functions: what is accepted, what it means, why the rest is
  refused, and which bytes are written.
- **Registry.** `PairRegistry` has the three stores as values with their invariants; `PairStores`
  has them as a class whose pair values are stored encoded; `Genesis` has import, export and
  validation. An identifier is kept as the text `address|denom` that the source hashes.
- **Bridge.** `Ledger` has balances as multisets of accounts, so a balance is a multiplicity and
  a supply a cardinality. `Bridge`, `Hook` and `Proposals` give every handler one atomic meaning;
  `Keepers` has the handlers as the keeper runs them, write by write with balances read before
  and after, each proved against its atomic meaning. `BridgeLaws`, `GasfreeLaws` and `BasisPoints`
  are about what single handlers do, `Conditions` about when they succeed.
- **Runs.** `Chain` is the bridge as a state machine: messages, EVM transactions with the hook
  after them, onboarding, governance, and what the rest of the chain does to the same ledgers.
  `Sums`, `Solvency`, `SolvencySteps`, `SolvencyHook`, `SolvencyMargins`, `SolvencyRuns`,
  `Insolvency`, `RegistryRuns` and `Redemption` prove properties of every run. `HookRefinement` proves that the
  hook does what the message does.
- **Admission.** `Lockup`, `GroupLimiter`, `SigGas`, `PubKeyRecovery`.

A handler that fails is a no-op, because the SDK reverts its writes. The two places where a
failure is *not* reverted are modelled with the writes it leaves behind: the EVM hook, which
continues with the next log, and the onboarding of coins received over IBC, which swallows the
error of `ConvertCoin`.

## What a run assumes of its surroundings

`Chain.Allowed` says what the rest of the chain may do: nobody signs for the module account; coins
named `erc20/…` are minted by this module only, and none of them is proposed for registration as a
coin; a module contract's tokens are minted by the module only; a contract is deployed at an address
that is new and not registered. What is proved of the registry alone (`RegistryRuns`) assumes none
of this. External contracts conform to EIP-20, except in `Keepers.Keeper.ConvertERC20NativeToken`,
where the contract may do anything.

## Properties that hold only under a condition

- The three stores of the registry need not stay in bijection: `RegisterCoin` tests whether the
  metadata's *name* is registered, not its base denomination. `RegistryRuns.SameCoinTwice` gives
  the inputs for which a coin is registered twice, `RegistryRuns.RegisterCoinBijective` the exact
  condition on one registration, `RegistryRuns.BijectiveInEveryRun` the property over runs.
- A validated genesis file need not import into a bijection: validation compares address *texts*,
  the store 20-byte addresses. `Genesis.ValidatedYetNotBijective` gives a list,
  `Genesis.ImportBijective` the exact condition.
- A coin whose denomination reads as a hex address is looked up as a contract address, so
  `ConvertCoin` may find another coin's pair. It then issues module tokens without escrowing the
  pair's coin, or releases external tokens without burning it. Three promises fail on such a coin:
  - *Solvency.* `Insolvency.InsolventRun` and `Insolvency.InsolventStep` give the inputs,
    `SolvencyMargins.ConvertCoinSolventIff` the exact condition on one conversion.
    `SolvencyRuns.SolventInEveryRun` bounds the shortfall over every run by what such conversions
    took, `SolvencyRuns.SolventWithoutMistakes` is the case without them.
  - *Conservation* of the pair's own coin and tokens. `BridgeLaws.ConvertCoinConserves` gives the
    exact condition and what is gained otherwise.
  - *The way back.* `BridgeLaws.ConvertThereAndBack` gives the exact condition.
    `Insolvency.NeitherConservedNorUndone` gives the inputs for both.

  The condition is the same for all three and a caller can check it: the pair found under the
  coin's name has that coin (`SolvencyMargins.Mistaken` is its negation).
- Converting tokens and then the coins back restores the state exactly if the pair is found under
  its coin (`BridgeLaws.ConvertBackAndThere`).

## Model

| member | source | states |
|---|---|---|
| Varints.VarintRoundTrip | x/erc20/types/erc20.pb.go:625-635 | every uint64 encoded as a varint is read back by the decoding loop with its exact length, whatever bytes follow |
| Varints.SovIsLength | x/erc20/types/erc20.pb.go:720-722 | the bit-length formula is the number of bytes the encoder writes, for every number |
| Varints.TakeVarintLocal | x/erc20/types/erc20.pb.go:731-745 | a varint read depends on its own bytes only |
| Varints.EncodeVarint | x/erc20/types/erc20.pb.go:625-635 | writes exactly the varint's bytes, ending just before the offset, leaves every other byte of the buffer alone and returns where it starts |
| Varints.ReadVarint | x/erc20/types/erc20.pb.go:731-745 | the 64-bit shift-and-or loop computes the value of the base-128 digits modulo 2^64, with the source's two errors |
| Varints.OrDigit64 | x/erc20/types/erc20.pb.go:731-745 | or-ing the next seven bits in, shifted in a 64-bit word, is adding the digit modulo 2^64: bits are lost in the tenth digit only |
| Varints.ReadEnum | x/erc20/types/erc20.pb.go:843-857 | the same loop over a 32-bit word computes the value wrapped to int32 |
| Varints.OrDigit32 | x/erc20/types/erc20.pb.go:843-857 | the same in a 32-bit signed word, where digits from the sixth on are shifted out |
| Wire.SkipFrom | x/erc20/types/erc20.pb.go:1318-1395 | on success the skipper has advanced by at least one byte and its index has not overflowed, for any nesting and any length |
| Wire.Skip | x/erc20/types/erc20.pb.go:1318-1395 | the index-and-depth loop terminates on every byte string, stays in range and computes the recursive skip, at least one byte on success |
| Wire.ReadChunk | x/erc20/types/erc20.pb.go:759-786 | a length-delimited field with the source's three checks for negative, overflowing and overlong sizes |
| Wire.ReadUnknown | x/erc20/types/erc20.pb.go:858-870 | an unknown field is passed over within the slice or refused |
| WireErrors.VarintErrors | x/erc20/types/erc20.pb.go:732-745 | a varint is refused as too long exactly if its first ten bytes are all flagged, as cut off exactly if the input ends before that with all bytes flagged, and for no other reason |
| WireErrors.ChunkErrors | x/erc20/types/erc20.pb.go:774-784 | a length is invalid exactly if negative as a 64-bit number or leading beyond the largest index, and too long exactly if valid and leading beyond the input |
| WireErrors.FieldErrors | x/erc20/types/erc20.pb.go:746-758 | which of the three refusals a tag meets: end group, number not positive, known number with the wrong wire type; each exactly then |
| WireErrors.SkipStepErrors | x/erc20/types/erc20.pb.go:1318-1395 | the skipper refuses an end-group tag exactly with no group open, and exactly the wire types 6 and 7 |
| UnknownFields.SkipsField | x/erc20/types/erc20.pb.go:1318-1395 | the skipper passes exactly over any field of the grammar: groups nested to any depth, varints in any spelling |
| UnknownFields.SkipsFields | x/erc20/types/erc20.pb.go:1318-1395 | inside an open group the skipper passes over the fields one after the other |
| UnknownFields.ReadsField | x/erc20/types/erc20.pb.go:1318-1395 | conversely, whatever the skipper passes over is a field of the grammar |
| UnknownFields.ReadsClosing | x/erc20/types/erc20.pb.go:1318-1395 | with groups open, whatever the skipper passes over is fields and end tags that close exactly those groups |
| UnknownFields.SkipLocal | x/erc20/types/erc20.pb.go:1318-1395 | what follows a skipped field does not matter |
| TokenPairCodec.Size | x/erc20/types/erc20.pb.go:636-657 | Size is the length of the encoding, for every pair |
| TokenPairCodec.MarshalToSizedBuffer | x/erc20/types/erc20.pb.go:453-488 | the backward writer fills exactly the last Size bytes with the encoding, every index in range, and touches no other byte |
| TokenPairCodec.Marshal | x/erc20/types/erc20.pb.go:438-446 | a buffer of exactly Size bytes that holds the encoding |
| TokenPairCodec.Unmarshal | x/erc20/types/erc20.pb.go:726-878 | the parser terminates on every byte string, never reads outside it and computes the field-by-field merge with the source's errors |
| TokenPairCodecLaws.RoundTrip | x/erc20/types/erc20.pb.go:453-488 | Unmarshal gives back every marshalled pair: any strings, flag and 32-bit owner |
| TokenPairCodecLaws.EncodeInjective | x/erc20/types/erc20.pb.go:453-488 | no two pairs share an encoding |
| TokenPairCodecLaws.DecodeMerges | x/erc20/types/erc20.pb.go:726-878 | unmarshalling into a message that is not empty overlays exactly the fields set |
| TokenPairCodecLaws.ConcatenationMerges | x/erc20/types/erc20.pb.go:726-878 | two encodings one after the other decode to the second laid over the first |
| TokenPairCodecLaws.DecodeAppend | x/erc20/types/erc20.pb.go:729-872 | parsing a concatenation is parsing its parts one after the other |
| TokenPairCodecLaws.UnknownFieldInsensitive | x/erc20/types/erc20.pb.go:858-870 | a message with an unknown field put in at a field boundary decodes exactly if the message without it does, and to the same pair |
| TokenPairCodecLaws.WellFormedIsUnknown | x/erc20/types/erc20.pb.go:1318-1395 | every field of the grammar numbered above 4 is such an unknown field |
| TokenPairCodecLaws.UnknownIsWellFormed | x/erc20/types/erc20.pb.go:1318-1395 | and there are no others |
| TokenPairGrammar.DecodesFields | x/erc20/types/erc20.pb.go:729-872 | any sequence of legal fields, known or unknown, in any order and spelling, is accepted and applied from left to right |
| TokenPairGrammar.StepWasField | x/erc20/types/erc20.pb.go:730-871 | whatever one round of the parser accepts is a legal field of the grammar, applied |
| TokenPairGrammar.DecodesExactly | x/erc20/types/erc20.pb.go:726-878 | Unmarshal into p succeeds with q exactly if the input is a sequence of legal fields, no byte left over or shared, that applied to p give q; the grammar and its meaning are stated without the parser |
| Canonical.PairIsCanonical | x/erc20/types/erc20.pb.go:453-488 | the encoding of a pair is the only byte string that Unmarshal reads as it and that has ascending field numbers, shortest varints, no field at its default, the flag written as 1 and a negative owner extended to 64 bits |
| GenesisCodec.Size | x/erc20/types/genesis.pb.go:270-285 | the accumulating loop is the length of the encoding |
| GenesisCodec.MarshalPairs | x/erc20/types/genesis.pb.go:189-202 | the loop that walks the pairs backwards lays them down in order |
| GenesisCodec.MarshalToSizedBuffer | x/erc20/types/genesis.pb.go:184-214 | fills exactly the end of the buffer with the encoding, nothing else changes |
| GenesisCodec.Marshal | x/erc20/types/genesis.pb.go:169-177 | a fresh buffer that holds exactly the encoding |
| GenesisCodec.MarshalParams | x/erc20/types/genesis.pb.go:231-257 | the same for Params |
| GenesisCodec.ParamsSize | x/erc20/types/genesis.pb.go:287-300 | Size is the length of the encoding |
| GenesisCodec.Unmarshal | x/erc20/types/genesis.pb.go:308-424 | terminates on every byte string, stays in range, computes the merge of nested messages |
| GenesisCodec.UnmarshalParams | x/erc20/types/genesis.pb.go:425-514 | the same for Params |
| GenesisCodecLaws.ParamsRoundTrip | x/erc20/types/genesis.pb.go:425-514 | Unmarshal gives back all Params |
| GenesisCodecLaws.DecodesPairs | x/erc20/types/genesis.pb.go:370-403 | the reader appends the pairs of a buffer in order behind those it has |
| GenesisCodecLaws.RoundTrip | x/erc20/types/genesis.pb.go:308-424 | Unmarshal gives back every genesis state, any number of pairs, in order |
| Canonical.ParamsAreCanonical | x/erc20/types/genesis.pb.go:231-257 | the same for Params |
| Canonical.StateIsCanonical | x/erc20/types/genesis.pb.go:184-214 | the same for a genesis state: the parameters always, then each pair as a canonical nested message |
| GenesisGrammar.DecodesParamsExactly | x/erc20/types/genesis.pb.go:425-514 | Params decode to q exactly from the sequences of legal fields that applied in turn give q; grammar and meaning are stated without the parser |
| GenesisGrammar.DecodesExactly | x/erc20/types/genesis.pb.go:308-424 | a genesis state decodes to another exactly from the fields that turn the one into the other: nested parameters laid over, pairs appended in order, other fields passed over |
| BasisPoints.FeeIsFloor | x/common/deduct_fee.go:65-70 | the 18-decimal multiply, divide and truncate is floor(a*bp/10000) for every amount and rate |
| BasisPoints.FeeMonotone | x/common/deduct_fee.go:65-70 | the fee grows with the amount and with the rate |
| BasisPoints.FeeBounded | x/gasfree/types/genesis.go:80-89 | at the rates validation admits the fee never exceeds the amount |
| BasisPoints.FeeSplit | x/common/deduct_fee.go:65-70 | splitting a payment never costs more and saves at most one unit |
| BasisPoints.FeePositive | x/common/deduct_fee.go:65-70 | a fee of at least one is charged exactly from a*bp = 10000 on |
| Hex.AddressTextParses | x/erc20/types/token_pair.go:27-29 | an address's text, in any letter case, parses and denotes that address |
| Hex.HexAddressIff | x/erc20/keeper/token_pairs.go:31-37 | a token passes for an address exactly if it is forty digits of some address, in any letter case, with prefix 0x, 0X or none |
| Hex.LastTwenty | x/erc20/keeper/evm_hooks.go:104-144 | a topic is cut to its last twenty bytes, padded with zeros on the left |
| PairRegistry.IdInjective | x/erc20/types/token_pair.go:21-24 | the hashed text, joined by a vertical bar, determines both the address text and the denomination |
| PairRegistry.RegisterConsistent | x/erc20/keeper/proposals.go:64-67 | registering leaves no index entry dangling |
| PairRegistry.DeleteConsistent | x/erc20/keeper/token_pairs.go:67-72 | deleting a stored pair leaves no index entry dangling |
| PairRegistry.ToggleKeeps | x/erc20/keeper/proposals.go:182-204 | toggling keeps each invariant of the three stores |
| PairRegistry.ToggleEffect | x/erc20/keeper/proposals.go:182-204 | toggling replaces the pair under the same identifier by itself with the flag flipped, and it is found again |
| PairRegistry.ToggleTwice | x/erc20/keeper/proposals.go:182-204 | a second toggle undoes the first |
| PairRegistry.RegisterBijective | x/erc20/keeper/proposals.go:64-67 | registering a new contract keeps the bijection exactly if the denomination was unregistered |
| PairRegistry.DeleteBijective | x/erc20/keeper/token_pairs.go:67-72 | deleting keeps the bijection |
| PairRegistry.LookupsAgree | x/erc20/keeper/token_pairs.go:31-37 | under the bijection, lookup by contract and by a denomination that does not read as an address give the same pair |
| PairStores.EmptyEncoding | x/erc20/keeper/token_pairs.go:40-56 | only the pair with no field set is stored as an empty value, which readers take for absent |
| PairStores.PairStore.constructor | x/erc20/keeper/token_pairs.go:12-28 | fresh stores are empty |
| PairStores.PairStore.SetTokenPair | x/erc20/keeper/token_pairs.go:59-64 | what is written through the codec is what readers see |
| PairStores.PairStore.GetTokenPair | x/erc20/keeper/token_pairs.go:40-56 | reads back the pair, absent and empty values alike being not found |
| PairStores.PairStore.GetTokenPairID | x/erc20/keeper/token_pairs.go:31-37 | looks in the address index exactly for texts that read as addresses |
| PairStores.PairStore.SetERC20Map | x/erc20/keeper/token_pairs.go:93-96 | changes that index entry and nothing else |
| PairStores.PairStore.SetDenomMap | x/erc20/keeper/token_pairs.go:105-108 | changes that index entry and nothing else |
| PairStores.PairStore.DeleteTokenPair | x/erc20/keeper/token_pairs.go:67-72 | removes the pair and both index entries and nothing else |
| PairStores.PairStore.Register | x/erc20/genesis.go:26-31 | three separate writes have the effect of one registration on all that is written, and on what readers see unless the pair has no field set |
| PairStores.PairStore.GetTokenPairs | x/erc20/keeper/token_pairs.go:12-28 | the iteration returns every stored pair once |
| Genesis.Validate | x/erc20/types/genesis.go:25-46 | the loop over the two seen-maps accepts exactly the lists of pairs with admissible coin names and address texts, all texts and all denominations distinct |
| Genesis.ValidDenomIff | x/erc20/types/token_pair.go:32-42 | the denomination check accepts exactly 3 to 128 letters, digits and / : . _ - beginning with a letter |
| Genesis.InitGenesis | x/erc20/genesis.go:12-32 | the import loop over encoded stores adds exactly the registrations of the list, whatever the list and the stores hold |
| Genesis.ImportHolds | x/erc20/genesis.go:26-31 | a validated list is stored completely, each pair found under its denomination, nothing dangling, nothing besides |
| Genesis.ImportBijective | x/erc20/genesis.go:26-31 | for a validated list the import is a bijection exactly if the addresses differ as 20-byte values |
| Genesis.CasesCollide | x/erc20/types/genesis.go:25-46 | one address in two letter cases with two denominations is validated and loses the bijection |
| Genesis.ValidatedYetNotBijective | x/erc20/types/genesis.go:25-46 | such a list exists |
| Genesis.ImportThenExport | x/erc20/genesis.go:26-40 | exporting after importing gives the same set of pairs, each once |
| Keepers.Keeper.ConvertCoinNativeCoin | x/erc20/keeper/msg_server.go:118-197 | escrow, mint and balance check succeed exactly when, and have the effect that, the atomic conversion says; a failure leaves the coins in escrow if they could be taken |
| Keepers.Keeper.ConvertERC20NativeCoin | x/erc20/keeper/msg_server.go:205-297 | burn, release and the two balance checks, likewise |
| Keepers.Keeper.ConvertERC20NativeToken | x/erc20/keeper/msg_server.go:307-425 | succeeds exactly if the contract's call returned true, logged no approval and raised the module's balance by a > 0 to a receiver that may receive, whatever else the contract did; success leaves the module's tokens minus the coin's supply unchanged, credits exactly a, and touches no other coin |
| Keepers.Keeper.ConvertCoinNativeERC20 | x/erc20/keeper/msg_server.go:434-535 | escrow, transfer, check and burn, likewise; a failure leaves the coins in escrow if they could be taken |
| Keepers.Keeper.MintingEnabled | x/erc20/keeper/mint.go:18-69 | the chain of guards in order, and no blocked receiver passes |
| Keepers.Keeper.ConvertCoin | x/erc20/keeper/msg_server.go:31-69 | the dispatch, with deletion of a pair whose contract is gone, and the exact state a failing run leaves behind |
| Keepers.Keeper.ConvertERC20 | x/erc20/keeper/msg_server.go:73-111 | the dispatch of the other direction |
| Keepers.Keeper.ValidateGasfreeInteropToken | x/erc20/keeper/msg_server.go:778-804 | the loop with its flag accepts exactly registered tokens some list entry matches by either name, letter case apart |
| Keepers.Keeper.DeductGasfreeErc20Fee | x/erc20/keeper/msg_server.go:758-774 | the balance check and payment, and failure when a rate is set but the fee rounds to zero |
| Keepers.Keeper.SendCoinToEVM | x/erc20/keeper/msg_server.go:539-579 | validation, conversion and fee in the source's order have the composed effect |
| Keepers.Keeper.SendERC20ToCosmos | x/erc20/keeper/msg_server.go:583-640 | likewise, with the pair looked up again after the conversion |
| Keepers.Keeper.SendERC20ToCosmosAndIBCTransfer | x/erc20/keeper/msg_server.go:644-754 | likewise, with the IBC transfer between conversion and fee |
| Keepers.Keeper.OnRecvPacket | x/onboarding/keeper/ibc_callbacks.go:21-101 | the guards and the whitelist loop of onboarding: a received coin is converted exactly for a whitelisted channel and an account that is no module, and a failure is not reverted |
| Keepers.Keeper.ProcessLog | x/erc20/keeper/evm_hooks.go:56-155 | one round of the hook's loop, a failed burn, mint or release continuing without revert |
| Keepers.Keeper.PostTxProcessing | x/erc20/keeper/evm_hooks.go:42-158 | the loop over the receipt's logs is the fold of its rounds in order |
| Keepers.Keeper.RegisterCoin | x/erc20/keeper/proposals.go:18-70 | the guarded writes succeed exactly when, and have the effect that, the atomic registration says |
| Keepers.Keeper.RegisterERC20 | x/erc20/keeper/proposals.go:74-179 | likewise, with the metadata created on the way |
| Keepers.Keeper.ToggleConversion | x/erc20/keeper/proposals.go:182-204 | likewise |
| Keepers.Keeper.Deliver | x/erc20/keeper/msg_server.go:31-111 | every handler run step by step, its writes reverted on failure, is one step of the state machine |
| BridgeLaws.ConvertCoinConserves | x/erc20/keeper/msg_server.go:118-197 | on a live pair exactly a of the coin converted plus the token moves from sender to receiver, no third account changes, the total over all accounts but the module's stays, no other coin or contract changes; of the pair's own coin plus token the same holds exactly if it is the coin converted, and otherwise the total outside the module grows by a; both owner kinds |
| BridgeLaws.ConvertERC20Conserves | x/erc20/keeper/msg_server.go:205-425 | the same for the other direction |
| BridgeLaws.GuardsRefuse | x/erc20/keeper/mint.go:18-69 | neither direction succeeds with the module or pair off, an unknown pair, a blocked receiver, or a frozen coin sent to someone else |
| Conditions.ConvertCoinSucceeds | x/erc20/keeper/msg_server.go:31-69 | ConvertCoin succeeds exactly if the module and the pair found are on, the receiver may receive, is the sender or sends of the pair's coin are enabled, and, the contract being alive, the sender has the coins, the receiver is not the zero address and an external contract's escrow has the tokens |
| Conditions.ConvertERC20Succeeds | x/erc20/keeper/msg_server.go:73-111 | ConvertERC20 succeeds exactly under the same guards and, the contract being alive, if the sender has the tokens, is not the zero address, and the escrow has the coins of a module contract or the sender of external tokens is not the module |
| Conditions.DeadPairDeleted | x/erc20/keeper/msg_server.go:46-57 | both directions succeed on a pair whose contract is gone by removing it from all three stores and changing nothing else |
| Conditions.FailedConversionLeaves | x/onboarding/keeper/ibc_callbacks.go:92-101 | a failed conversion that is not reverted has taken the coins exactly if the guards passed and the sender had them |
| BridgeLaws.ToggledOffRefuses | x/erc20/keeper/proposals.go:182-204 | a pair toggled off refuses every conversion under both of its names |
| BridgeLaws.ConvertThereAndBack | x/erc20/keeper/msg_server.go:31-111 | after ConvertCoin from s to r, ConvertERC20 back succeeds and restores the whole state exactly if the coin converted is the pair's own; both owner kinds |
| BridgeLaws.ConvertBackAndThere | x/erc20/keeper/msg_server.go:31-111 | after ConvertERC20, ConvertCoin back succeeds and restores every holding exactly if the pair is found under its coin |
| BridgeLaws.ModuleCannotConvert | x/erc20/keeper/msg_server.go:319-382 | with a conforming contract a conversion with the module as token sender never succeeds |
| GasfreeLaws.FeeStep | x/common/deduct_fee.go:28-61 | the fee step fails exactly for lack of funds or an amount too small to charge, and otherwise moves the fee to the collector |
| GasfreeLaws.FeeIsCovered | x/erc20/keeper/msg_server.go:583-640 | after the conversion of amount plus fee the fee step never fails for lack of funds |
| GasfreeLaws.SendERC20ToCosmosAccounting | x/erc20/keeper/msg_server.go:583-640 | success costs exactly a+f tokens, nets a coins, brings f to the collector, f at least 1 if a rate is set, and never comes from a conversion that only deleted the pair |
| GasfreeLaws.IbcTransferAccounting | x/erc20/keeper/msg_server.go:644-754 | success costs exactly a+f tokens, nets no coins, sends a out, brings f to the collector, likewise; an escrow account that is the sender or the collector gets its a back |
| GasfreeLaws.SendCoinToEVMAccounting | x/erc20/keeper/msg_server.go:539-579 | with a live contract success costs a+f coins for a tokens; with a dead one it costs the fee and deletes the pair |
| Conditions.InteropIff | x/erc20/keeper/msg_server.go:778-804 | a token is on the gas-free list exactly if some entry is its pair's coin or contract text, byte by byte up to ASCII letter case |
| Conditions.SendCoinToEVMSucceeds | x/erc20/keeper/msg_server.go:539-579 | succeeds exactly for a listed, admitted pair, a fee of at least one if a rate is set, and a sender with amount and fee; the case of a dead contract included |
| Conditions.SendERC20ToCosmosSucceeds | x/erc20/keeper/msg_server.go:583-640 | succeeds exactly for a listed, admitted, live pair, a positive amount, a fee of at least one if a rate is set, a sender with the tokens for both and an escrow that covers them |
| Conditions.IbcTransferSucceeds | x/erc20/keeper/msg_server.go:644-754 | succeeds exactly then, provided IBC takes the coins |
| Conditions.RegisterERC20Succeeds | x/erc20/keeper/proposals.go:74-179 | succeeds exactly with the module on, for a live contract not in the address index whose denomination has neither metadata nor an index entry and whose details can be read |
| Conditions.RegisteredERC20Works | x/erc20/keeper/proposals.go:74-105 | afterwards the contract's text and the denomination erc20/text both find the enabled external pair, no balance has changed, and every holder that may receive can convert at once, to itself or another |
| Conditions.RegisterCoinSucceeds | x/erc20/keeper/proposals.go:18-70 | succeeds exactly with the module on, for a base that does not contain CANTO and has holders, a name not in the index, and metadata new or as known |
| Conditions.RegisteredCoinWorks | x/erc20/keeper/proposals.go:18-70 | afterwards the contract's text and the base find the enabled module pair, the contract is empty, no balance has changed, and every holder can convert at once |
| Conditions.ToggleSucceeds | x/erc20/keeper/proposals.go:182-204 | a proposal to toggle succeeds exactly if the pair is found, which is then found with its flag flipped, and nothing else changes |
| Hook.TopicRoundTrip | x/erc20/keeper/evm_hooks.go:104-144 | an address padded into a log topic is read back |
| Hook.OtherLogsIgnored | x/erc20/keeper/evm_hooks.go:57-119 | any log but a Transfer with three topics and a positive amount to the module, of a registered and enabled pair, changes nothing, whatever its event |
| Hook.AskedFor | x/erc20/keeper/evm_hooks.go:121-154 | the exact effect of a log that asks for a conversion: burn and release, mint and release, with each way the release may fail |
| Hook.SwitchedOff | x/erc20/keeper/evm_hooks.go:42-54 | with either switch off a transaction moves tokens and the hook does nothing |
| Hook.ServedInOrder | x/erc20/keeper/evm_hooks.go:56-155 | with both on, the logs are served one after the other, none left out |
| SolvencyHook.EvmTxKeeps | x/erc20/keeper/evm_hooks.go:42-158 | a transaction of any length and the hook after it keep both escrows sufficient, hook rounds that fail between burn or mint and release included |
| SolvencyHook.HookStepKeeps | x/erc20/keeper/evm_hooks.go:56-155 | each round uses up at most the escrow its own log announced |
| SolvencyRuns.ConvertCoinKeeps | x/erc20/keeper/msg_server.go:31-69 | a conversion of any coin makes the bridge short of no more than the amount, and of nothing if the coin is the pair's own |
| SolvencyRuns.ConvertERC20Keeps | x/erc20/keeper/msg_server.go:73-111 | a conversion of tokens keeps the solvency invariant, whatever the bridge is short of |
| SolvencyRuns.GasfreeKeeps | x/erc20/keeper/msg_server.go:539-774 | the three gas-free messages, likewise |
| SolvencyRuns.UnrevertedKeeps | x/onboarding/keeper/ibc_callbacks.go:79-101 | a conversion to any receiver that fails half way and is not reverted, likewise: coins can only have gone into escrow |
| SolvencyRuns.RegisterCoinKeeps | x/erc20/keeper/proposals.go:18-70 | registering a coin keeps it |
| SolvencyRuns.RegisterERC20Keeps | x/erc20/keeper/proposals.go:74-105 | registering a contract, whatever its holdings, keeps it |
| SolvencyRuns.StepKeeps | x/erc20/keeper/msg_server.go:118-535 | no step of the state machine makes the bridge short of more than conversions took of other coins in it |
| SolvencyRuns.SolventInEveryRun | x/erc20/keeper/msg_server.go:118-535 | after every run, for each denomination the module's coins plus what conversions on its pairs took of other coins cover all tokens of all live module contracts paired with it, and for each live external contract the module's tokens plus the same cover the coin's supply |
| SolvencyRuns.SolventWithoutMistakes | x/erc20/keeper/msg_server.go:118-535 | after every run in which no coin is converted that is mistaken for another, the bridge is solvent outright |
| SolvencyMargins.ConvertCoinMargins | x/erc20/keeper/msg_server.go:118-197 | the whole effect of a conversion on solvency, coins of any name: on a module pair the margin of the coin converted rises and that of the pair's coin falls by a; on an external pair the contract's gap falls and that of the contract whose coin was burnt rises by a |
| SolvencyMargins.ConvertCoinSolventIff | x/erc20/keeper/msg_server.go:31-69 | a conversion on a live pair leaves the bridge solvent exactly if the coin converted is the pair's own or the pair had a to spare; both owner kinds |
| SolvencyMargins.MistakenIsHex | x/erc20/keeper/token_pairs.go:31-37 | only a coin whose name reads as an address is found under another coin's pair |
| Insolvency.InsolventRun | x/erc20/keeper/msg_server.go:118-197 | registering a coin and converting another coin named like the new contract leaves tokens no coin covers |
| Insolvency.NeitherConservedNorUndone | x/erc20/keeper/msg_server.go:31-111 | on the same inputs the pair's coin and tokens outside the module grow, and converting back does not restore the state |
| Insolvency.InsolventStep | x/erc20/keeper/msg_server.go:434-535 | an external contract with nothing to spare: its tokens are released while its coin stays in circulation |
| Redemption.RedeemableInEveryRun | x/erc20/keeper/msg_server.go:31-111 | after every run, with module and pair on and the contract alive, every account that may receive can convert all its module tokens into coins and all its external pair's coins into tokens, unless conversions on that pair took other coins |
| Redemption.StepNamed | x/erc20/keeper/token_pairs.go:67-72 | every step keeps all external pairs found under their denomination, whatever happens to the ledgers and whatever base denominations are registered |
| RegistryRuns.StepRegistry | x/erc20/keeper/proposals.go:18-204 | from any registry without dangling entries, a step leaves it, deletes one stored pair, toggles one, or registers one |
| RegistryRuns.StepKeepsRegistry | x/erc20/keeper/token_pairs.go:59-132 | a step never leaves an entry dangling; it keeps all contracts indexed if a contract deployed is not registered, and the bijection if moreover a base denomination registered is new |
| RegistryRuns.ConsistentInEveryRun | x/erc20/keeper/token_pairs.go:31-132 | after every run at all, solvent or not, no index entry dangles |
| RegistryRuns.BijectiveInEveryRun | x/erc20/keeper/proposals.go:64-67 | the three stores stay in bijection over every run, solvent or not, that registers only new contracts and new base denominations |
| RegistryRuns.SameCoinTwice | x/erc20/keeper/proposals.go:38-44 | if name and base differ the same coin can be registered twice, and the bijection is lost |
| RegistryRuns.RegisterCoinBijective | x/erc20/keeper/proposals.go:18-70 | a successful registration keeps the bijection exactly if the base denomination was unregistered |
| RegistryRuns.NeverRegisteredTwice | x/erc20/keeper/proposals.go:74-128 | once registered, an external contract's text is refused for ever, whatever happens in between, deletion included |
| HookRefinement.HookRefinesMessage | x/erc20/keeper/evm_hooks.go:42-158 | all transfers of a transaction and then the hook yield the same state as the list with each transfer to the module replaced by ConvertERC20 from and to its sender; no release in the loop fails |
| HookRefinement.RequestedIffConverts | x/erc20/keeper/evm_hooks.go:57-119 | the loop's guards let exactly the converting transfers through |
| HookRefinement.BurnCommutes | x/erc20/keeper/evm_hooks.go:123-141 | burning the module's tokens now or after any list of others' actions gives the same tokens |
| HookRefinement.ConversionCommutes | x/erc20/keeper/msg_server.go:205-425 | serving one transfer's log after the rest of the transaction is converting at once and then running the rest |
| Lockup.AllowMultiSend | x/lockup/ante.go:178-198 | the nested loops accept exactly if no input that is not exempt sends a locked coin |
| Lockup.AllowMessage | x/lockup/ante.go:160-247 | the case analysis accepts exactly the message kinds it knows that take no locked coin from an account that is not exempt |
| Lockup.IsAcceptable | x/lockup/ante.go:123-153 | accepts exactly the leaves that obey the declared rule |
| Lockup.AnteHandle | x/lockup/ante.go:84-118 | for message trees of any shape, accepts on a locked chain exactly if wrappers nest at most once, all messages unpack and every leaf obeys the rule |
| Lockup.WrapperAdmissible | x/lockup/ante.go:84-118 | the declarative rule on trees agrees with the one-level check |
| Lockup.AdmissibleMonotone | x/lockup/ante.go:84-247 | acceptance is monotone in exemptions and antitone in locked coins and locked types |
| GroupLimiter.CheckDisabledMsgs | app/ante/group_message_limiter.go:48-78 | the recursive loop with its counter accepts exactly the declared lists |
| GroupLimiter.AnteHandle | app/ante/group_message_limiter.go:37-42 | accepts exactly lists of at most five proposals, none of which contains a proposal, an Exec, a disabled type or a message that does not unpack |
| SigGas.SigVerificationGasConsumer | app/sigverify.go:36-50 | for key trees of any shape, succeeds exactly if every leaf below a set bit is a secp256k1 key, all indices are in range and the gas suffices, and has then charged 21000 per such leaf; never out of range on well-formed trees |
| SigGas.CantoSigVerificationGasConsumer | app/sigverify.go:64-91 | the same for all but a plain secp256k1 key on top, which it refuses |
| SigGas.ConsumeMultisignatureVerificationGas | app/sigverify.go:94-118 | the loop with its own signature index, likewise |
| SigGas.WellFormedInRange | app/sigverify.go:101-115 | in a well-formed tree every set bit has a key and a signature |
| PubKeyRecovery.RecoverPubKeyBase | app/ante/eth_set_pubkey.go:239-255 | filling the 65-byte buffer in place never slices out of range and gives R and S in 32 bytes each and the recovery byte |
| PubKeyRecovery.SignatureCarries | app/ante/eth_set_pubkey.go:239-255 | the two big-endian halves decode to R and S |
| PubKeyRecovery.Normalises | app/ante/eth_set_pubkey.go:124-255 | for every fork, chain id, parity and valid R and S, a transaction whose V encodes the parity ends in a buffer with exactly R, S and that parity |
| PubKeyRecovery.AcceptsOnlyEncodings | app/ante/eth_set_pubkey.go:124-255 | conversely, whatever a fork path accepts is of a kind the fork knows and encodes some parity that way |
| PubKeyRecovery.Refusals | app/ante/eth_set_pubkey.go:124-213 | an unknown kind of transaction is refused exactly as unsupported, and a wrong chain identifier exactly as such |

## Left out

- SolvencyRuns.SolventInEveryRun: starts from a chain with nothing registered; SolvencyRuns.RunKeeps is the statement from any state that satisfies the invariant.
- Keepers.Keeper.RegisterERC20: the metadata it creates is the denomination, its name and one value for all other fields, because nothing else of it is read again.
- PubKeyRecovery.RecoverPubKeyBase: ends where secp256k1 recovery begins; the curve and the signing hash are not modelled.
- Keepers.Keeper: holds the registry as a value; that stores with encoded values behave like it is proved in PairStores.
- The kinds of error of the bridge handlers: the model tells success from failure only. The codec's errors are all told apart.
- SHA-256 of identifiers, Keccak and the letter case of EIP-55 addresses, bech32: a hash is its argument, an address text is any text that parses to the address.
- Limits of big numbers: sdk.Int, sdk.Dec and uint256 overflow panics.
- Bank internals (vesting, locked balances), auth, IBC packets and channels, EVM execution, gas, nonces, ABI packing, events and telemetry.
- Accounts longer than 20 bytes on the EVM side of MsgSendCoinToEVM, and accounts missing from the account store in the fee step.
- Details of denomination metadata and its validation: equal or not is all that matters here.
- Sanitising of ERC20 names by regular expression, which only feeds the metadata.
- The order of exported pairs: the store's key order is not modelled.
- The microtx module, and how the onboarding module reads a packet and names the coin received.
- The remaining generated messages (tx.pb.go, query.pb.go, the other messages of erc20.pb.go): the same codec again.
- The loop of EthSetPubkeyDecorator.AnteHandle that stores recovered keys in accounts.
- Wiring, command lines, upgrades, nativedex proposals, the Rust and TypeScript tools.

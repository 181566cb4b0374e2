# PeridotID in Dafny

PeridotID gives one identity a passkey-controlled smart account on Solana and on EVM chains. A client
encodes what it wants done, the passkey signs a hash of it, a relayer that is trusted with nothing
submits it, and the API keeps one row per identity and chain saying which address the account has and
which passkey claims it. This project models the parts of that system whose correctness is not visible
from any one function, and proves it.

| modules | subject |
|---|---|
| `Bytes`, `Abi`, `AbiDecode`, `AbiLayout`, `Calldata`, `CalldataReader` | the hand-written ABI coder, a reader for it, the five calldata builders that repeat its layout by hand, and what a contract reads out of them |
| `Wire`, `FieldReader`, `SolanaPayloads`, `SolanaReader`, `EvmPayloads`, `EvmReader`, `BatchBinding` | every signed payload (28 Solana shapes, 20 EVM shapes), independent readers of their bytes, and the operations a batch payload binds |
| `MetaList`, `ExecuteInstruction`, `ExecuteAuthorization`, `SessionInstruction`, `PrecompileInstruction` | Solana instruction data against the parsers of the on-chain program, up to "the relayer cannot substitute the call" |
| `Sha256`, `Sha256Vector`, `Positional`, `Base58`, `Signatures` | byte-level algorithms with loops: in-place SHA-256, base58 over 32-bit limbs, the DER cursor parser, low-S |
| `Relaying`, `WalletRows`, `WalletDb`, `EvmFirstAction` | the wallet-row state machine, its in-place services, and the EVM first action with its broadcast ledger |
| `Popup` | the popup handshake: two windows, a channel anybody can post on, timers |

Code that computes with expressions is a function, code that loops or updates is a method or a class
whose `ensures` ties it to a specification function; the theorems are about those functions. A JavaScript
or Rust exception is `None`. Hashes are uninterpreted (a parameter, or the preimage itself); where a
theorem needs a hash to separate two inputs it says so for exactly those two. Address derivation is a
free constructor, hence injective; an address may exist on several chains, and what is read about it is
read per chain. What a network, a database or a clock answers is an input.

Results that are not what the code or its comments suggest:

- `serializeExecuteCall` and the program agree byte for byte, but the account lists do not: the builders
  forward every meta including the smart account's own (`packages/solana/src/instructions.ts:513-517`),
  while the program wants one outer account per meta that is *not* the smart account and at least one meta
  that is (`contracts/svm/smart-account/src/instructions/execute_v4.rs:107-135`). Taking one account view
  per instruction key, no built list passes both checks (`BuiltAccountsNeverConfined`); with the smart
  account's metas left out it passes exactly when some meta delegates (`PrunedAccountsConfined`).
- The Solana `activate` returns its rejections as un-awaited promises inside `try`
  (`apps/api/src/account/activation.service.ts:398`, `:449`, `:452`, `:462`, `:472`, `:487`), so the `catch`
  that resets the row does not run. A started activation leaves the row `activating` exactly when the
  credential is unknown or, with a funded relayer, the expiry is untimely or the policy not accepted, or, with
  the fees read and nothing awaited on the branch throwing, the fee drifted or the slot already carries this
  intent with a signature and a fee within the cap (`StrandedExactly`). From there no activation starts, and
  over every continuation only a poll that finds the vault owned or the balance short ends it
  (`StrandedForGood`, `ActivatingStaysOverRuns`).
- `buildSessionExecuteInstruction` does not check the program's game-data cap; the program takes a built
  instruction exactly when it is respected (`SessionAccepted`).
- `normalizeLowS` yields a low s, and is idempotent, exactly for s up to the curve order; above it, it
  swaps s with a different value and back (`LowSExactly`, `NormalizeTwice`).
- `sha256Sync` computes its padded length in 32-bit arithmetic; it is SHA-256 up to 2^31 - 73 bytes and
  throws beyond (`Sha256Sync`).
- ABI lists read back exactly when every integer is below 2^256, every `bytesN` has N at most 32 and every
  `bytes` is below 2^32 bytes; the coder does not enforce this (`AbiRoundTrip`, `WideUintCollides`).
- EVM V2 and V3 authority updates and activations concatenate coordinates and salts without a length
  check. With no condition on widths, two of them share a payload exactly when every checked field agrees
  and the unchecked bytes concatenate to the same string (`UnmeasuredExactly`), so a correctly sized update
  can collide with a mis-sized one (`UncheckedCoordinatesSlide`) and with no other of the same widths
  (`EqualWidthsEqualUpdates`). Single and batch payloads, which share domain and tag, meet on exactly one
  chain id, 2^248, and there through a data hash of the wrong width (`CollidingChain`).

## Model

| member | source | states |
|---|---|---|
| `Bytes.BigEndian` | packages/evm/src/adapter.ts:45-54 | fills from the last byte down and rejects exactly the values that do not fit the width |
| `Bytes.LittleEndian` | packages/core/src/bytes.ts:121-139 | the low bytes, least significant first: the value modulo the width, for negative numbers too |
| `Bytes.LEInjectiveModulo` | packages/core/src/bytes.ts:121-143 | two integers share a little-endian field exactly when they are congruent modulo its width |
| `Abi.AbiStatic` | packages/evm/src/adapter.ts:1055-1071 | one word per scalar, and throws on exactly the malformed scalars and on anything else |
| `Abi.AbiBytesArray` | packages/evm/src/adapter.ts:1002-1019 | the loop over `bytes[]` elements lays out length, offsets and element tails |
| `Abi.AbiArray` | packages/evm/src/adapter.ts:1002-1019 | all three array kinds, throwing exactly when an element is malformed |
| `Abi.AbiEncodeSequence` | packages/evm/src/adapter.ts:1074-1111 | the accumulating head/tail loop equals the recursive encoding, and throws exactly on unencodable lists, at any nesting |
| `AbiDecode.AbiRoundTrip` | packages/evm/src/adapter.ts:1002-1111 | a strict type-directed reader returns the original list if and only if the list is lossless, whatever follows the encoding |
| `AbiDecode.AbiInjective` | packages/evm/src/adapter.ts:1002-1111 | no two lossless lists of the same types share an encoding |
| `AbiDecode.WideUintCollides` | packages/evm/src/adapter.ts:1055-1058 | the excluded integers do collide with their residue |
| `AbiLayout.Placed` | packages/evm/src/adapter.ts:1074-1111 | heads and tails from any position on sit where the layout says |
| `AbiLayout.OffsetsNameTails` | packages/evm/src/adapter.ts:1074-1111 | every offset word is the position of its own tail; tails follow the head in order with no gap and no overlap |
| `AbiLayout.Aligned` | packages/evm/src/adapter.ts:982-1111 | the length is head plus tails and a multiple of 32, at every level |
| `AbiLayout.ArrayIsLengthPrefixedTuple` | packages/evm/src/adapter.ts:1002-1019 | an array is its length followed by the encoding of its elements as a list, so the layout results hold inside `bytes[]` |
| `Calldata.DeployV2IsGeneric` | packages/evm/src/adapter.ts:155-201 | the hand-laid calldata is the generic encoding of the selector's arguments, and throws exactly when that does or an argument is too long or empty |
| `Calldata.DeployV3IsGeneric` | packages/evm/src/adapter.ts:281-318 | the same for V3 |
| `Calldata.DeployV4IsGeneric` | packages/evm/src/adapter.ts:598-637 | the same for V4 |
| `Calldata.ExecuteV3IsGeneric` | packages/evm/src/adapter.ts:347-386 | the same for `execute` V3 |
| `Calldata.ExecuteV4IsGeneric` | packages/evm/src/adapter.ts:665-703 | the same for `execute` V4 |
| `Calldata.DraftHasFinalLength` | apps/api/src/account/evm-activation.service.ts:868-881 | the zero-fee draft has the final calldata's length, a function of the `bytes` lengths only |
| `Calldata.DeployLengths` | packages/evm/src/adapter.ts:155-201 | deploy calldata of each version has a length fixed by the assertion |
| `CalldataReader.DeployV2Reads` | packages/evm/src/adapter.ts:155-201 | with the parameter types of the selector's signature, each parameter reads the argument of its name |
| `CalldataReader.DeployV3Reads` | packages/evm/src/adapter.ts:281-318 | the same for V3 |
| `CalldataReader.DeployV4Reads` | packages/evm/src/adapter.ts:598-637 | the same for V4 |
| `CalldataReader.ExecuteV3Reads` | packages/evm/src/adapter.ts:347-386 | the same for `execute` V3 |
| `CalldataReader.ExecuteV4Reads` | packages/evm/src/adapter.ts:665-703 | the same for `execute` V4 |
| `Wire.ConcatInjective` | packages/core/src/bytes.ts:6-15 | concatenations of fields of the same types agree exactly when every field does |
| `SolanaPayloads.DomainPrefixFree` | packages/core/src/hash.ts:18-28 | the domain, hence the version, is readable off any payload |
| `SolanaPayloads.V1Lengths` | packages/core/src/hash.ts:214-260 | the four untagged V1 shapes have four different lengths |
| `SolanaPayloads.PreimagesIdentifyMessages` | packages/core/src/hash.ts:214-862 | two payloads share a preimage if and only if version, operation and every field agree up to integer truncation |
| `SolanaPayloads.PreimageInjective` | packages/core/src/hash.ts:214-862 | for in-range integers, equal preimages are equal messages |
| `SolanaReader.PreimageReads` | packages/core/src/hash.ts:18-862 | a reader that knows the domain texts, op-tags and the order of the program's parts recovers every sized, in-range message of all 28 shapes |
| `EvmPayloads.PreimagesIdentifyMessages` | packages/core/src/evm.ts:251-590 | the same over all EVM builders: single never equals batch under the same tag, an untagged permission id never equals a tagged payload |
| `EvmPayloads.PreimageInjective` | packages/core/src/evm.ts:251-590 | with one-byte kinds and tags, equal preimages are equal messages |
| `EvmReader.PreimageReads` | packages/core/src/evm.ts:251-590 | a reader that knows the domain texts, lengths, op-tags and field order recovers every sized message of all 20 shapes |
| `EvmPayloads.GrantBindsSalt` | packages/core/src/evm.ts:312-378 | a grant binds its scope's salt through the permission id |
| `EvmPayloads.SingleNeverBatch` | packages/evm/src/adapter.ts:720-765 | with no condition on widths, a single call never shares a payload with a batch unless its chain id spells the batch mode |
| `EvmPayloads.CollidingChain` | packages/evm/src/adapter.ts:720-765 | some single and some batch payload collide on a chain id exactly when it is 2^248 |
| `SolanaPayloads.UnmeasuredExactly` | packages/core/src/hash.ts:279-862 | for all tagged messages and all widths: one preimage exactly when version, operation and measured fields agree and the bytes from the first to the last unmeasured field do |
| `SolanaPayloads.AccountWidthFree` | packages/core/src/hash.ts:284-665 | messages whose account id is the only unmeasured field are identified by their preimages with no condition on widths |
| `Wire.UnmeasuredFields` | packages/core/src/bytes.ts:6-15 | where a run of fields may have any length, concatenations agree exactly when the other fields and the run's bytes do |
| `EvmPayloads.UnmeasuredWithinShape` | packages/core/src/evm.ts:251-590 | the same for any two EVM payloads of one shape |
| `EvmPayloads.UnmeasuredExactly` | packages/evm/src/adapter.ts:231-273 | updates and activations, for all widths of the unchecked fields: one payload exactly when operation, checked fields and the concatenated unchecked bytes agree |
| `EvmPayloads.EqualWidthsEqualUpdates` | packages/evm/src/adapter.ts:389-405 | updates with one payload are equal exactly when their first coordinates are equally long |
| `EvmPayloads.UncheckedCoordinatesSlide` | packages/evm/src/adapter.ts:389-405 | a correctly sized update and a different, mis-sized one share a payload |
| `BatchBinding.OpsDecode` | packages/evm/src/adapter.ts:724-736 | decoding as address[], uint256[], bytes[] gives targets, values and call data in that order |
| `BatchBinding.OpsInjective` | packages/evm/src/adapter.ts:726-736 | distinct operation arrays have distinct encodings |
| `BatchBinding.BatchBindsOps` | packages/evm/src/adapter.ts:745-832 | batch payloads with one preimage are one request over the same targets, values and data |
| `MetaList.ReadMetasBack` | contracts/svm/smart-account/src/instructions/mod.rs:167-196 | the program's meta loop reads back the serialized metas |
| `ExecuteInstruction.SerializeExecuteCall` | packages/core/src/hash.ts:483-495 | the canonical call bytes, refused exactly beyond the caps |
| `ExecuteInstruction.CallParsesBack` | contracts/svm/smart-account/src/instructions/execute_v4.rs:86-142 | wherever a serialized call stands, the program parses it back and hashes exactly the serialized bytes |
| `ExecuteInstruction.CallPrefixFree` | packages/core/src/hash.ts:483-495 | no serialized call is a prefix of another |
| `ExecuteInstruction.BuildExecuteInstruction` | packages/solana/src/instructions.ts:479-522 | fails exactly on self-targeting, foreign signers, exceeded caps or a foreign treasury; otherwise keys and data as specified |
| `ExecuteInstruction.BuildableExactly` | packages/solana/src/instructions.ts:493-503 | the builder accepts exactly what the program parses back, with another target, the canonical treasury and only signers that can sign |
| `ExecuteInstruction.KeysAsDocumented` | contracts/svm/smart-account/src/instructions/execute_v4.rs:48-57 | the account list has the documented roles and privileges, and grants what the inner call asks exactly when only the smart account and the relayer sign |
| `ExecuteInstruction.ExecuteParsesBack` | packages/solana/src/instructions.ts:754-846 | for all integers, the program decodes every built V3, V4 or V5 body to the fields modulo their widths and the JSON modulo its length field |
| `ExecuteInstruction.InstructionParsesBack` | contracts/svm/smart-account/src/lib.rs:90-121 | the program dispatches built data to its own version and decodes it there |
| `ExecuteInstruction.ExecuteDecodesExactly` | packages/solana/src/instructions.ts:502-520 | it decodes the request itself if and only if every field is representable and the JSON is under 65536 bytes |
| `ExecuteInstruction.ExecuteInjective` | packages/solana/src/instructions.ts:776-844 | instruction data determines version, call and every field |
| `ExecuteInstruction.BuiltAccountsNeverConfined` | packages/solana/src/instructions.ts:504-518 | a built account list has the program's count exactly when no meta names the smart account, and so never also delegates |
| `ExecuteInstruction.PrunedAccountsConfined` | contracts/svm/smart-account/src/instructions/execute_v4.rs:97-135 | without the smart account's metas the checks pass exactly when some meta delegates it |
| `ExecuteAuthorization.PreimageIsProgrammed` | contracts/svm/smart-account/src/instructions/execute_v4.rs:165-176 | the client's execute payload is byte for byte what the program hashes, in each version |
| `ExecuteAuthorization.ExecutePreimages` | packages/core/src/hash.ts:507-518 | execute payloads of any versions on any accounts agree exactly when version, account (in V5 program and cluster too), bound integers and call hash do |
| `ExecuteAuthorization.ProgramRecomputesPayload` | contracts/svm/smart-account/src/instructions/execute_v4.rs:139-176 | from every built instruction the program recomputes the payload the client signed |
| `ExecuteAuthorization.RegionIsCall` | contracts/svm/smart-account/src/instructions/execute_v4.rs:86-142 | the program reads nothing of the call outside the region it hashes |
| `ExecuteAuthorization.RelayerCannotSubstitute` | packages/solana/src/instructions.ts:745-753 | whatever instruction data of whatever version on whatever account yields the signed payload decodes to the signed call, nonce, expiry, policy and cap, and the account (in V5 program and cluster too) is the signed one |
| `SessionInstruction.SerializeSessionMetas` | packages/core/src/hash.ts:873-882 | count and metas, refused exactly outside 1 to 32 |
| `SessionInstruction.CollectForwarded` | packages/solana/src/instructions.ts:970-987 | rejects the vault, stray signers and a missing session signer, and collects the others in order |
| `SessionInstruction.BuildSessionExecuteInstruction` | packages/solana/src/instructions.ts:957-1014 | succeeds exactly on the listed conditions, with keys and data as specified |
| `SessionInstruction.BuildableExactly` | packages/solana/src/instructions.ts:970-999 | within the data cap, the builder accepts exactly what the program parses back and finds confined |
| `SessionInstruction.SessionParsesBack` | contracts/svm/smart-account/src/instructions/session_execute.rs:104-135 | under a cap below 2^16 the program recovers every input exactly when the game data respects the cap |
| `SessionInstruction.SessionInjective` | packages/solana/src/instructions.ts:1000-1012 | data with game data under 65536 bytes determines its inputs |
| `SessionInstruction.SessionConfined` | packages/solana/src/instructions.ts:957-1014 | every built instruction passes the program's structural checks and has the documented roles; the vault is nowhere but at index 0, game accounts are the non-session metas in order, one outer signer |
| `SessionInstruction.SessionAccepted` | contracts/svm/smart-account/src/instructions/session_execute.rs:104-135 | the program parses a built instruction whole and finds it confined exactly when the game data is at most 1024 bytes |
| `PrecompileInstruction.BuildSecp256r1Instruction` | packages/solana/src/instructions.ts:200-220 | refuses wrong widths, otherwise header and parts as specified |
| `PrecompileInstruction.PrecompileResolves` | packages/solana/src/instructions.ts:200-220 | one signature, each part looked for in this instruction, every offset naming its own part; the message is whole exactly below 65536 bytes |
| `Sha256.RoundConstantsAreCubeRoots` | packages/core/src/bytes.ts:32-41 | the round constants are the fractional bits of the cube roots of the first 64 primes |
| `Sha256.InitialStateIsSquareRoots` | packages/core/src/bytes.ts:42-43 | the initial state is those of the square roots of the first eight |
| `Sha256.PadReads` | packages/core/src/bytes.ts:44-51 | the padded message is itself, a one bit, zeros, and its length in bits |
| `Sha256.PadLeast` | packages/core/src/bytes.ts:44-51 | the padded length is the least multiple of 64 with room for nine more bytes |
| `Sha256.PadInjective` | packages/core/src/bytes.ts:44-51 | distinct messages have distinct padded block sequences |
| `Sha256.PaddedLengthExact` | packages/core/src/bytes.ts:45 | the 32-bit computation is right up to 2^31 - 73 and too small for the data beyond |
| `Sha256.PadBuffer` | packages/core/src/bytes.ts:44-51 | the in-place buffer is the padding of section 5.1.1 of FIPS 180-4 |
| `Sha256.FillSchedule` | packages/core/src/bytes.ts:55-60 | the in-place schedule is the recursive one |
| `Sha256.Compress` | packages/core/src/bytes.ts:61-70 | the eight chained registers are 64 rounds of section 6.2.2 |
| `Sha256.WriteDigest` | packages/core/src/bytes.ts:74-83 | the output words are written big-endian in order |
| `Sha256.Sha256Sync` | packages/core/src/bytes.ts:31-84 | equals SHA-256 up to the length bound and throws exactly beyond it |
| `Sha256Vector.AbcDigest` | packages/core/src/bytes.ts:31-84 | the specification gives the published digest of "abc" |
| `Base58.AlphabetIs` | contracts/svm/smart-account/build.rs:33 | the alphabet is every digit and letter but 0, O, I and l |
| `Base58.MultiplyAdd` | contracts/svm/smart-account/build.rs:43-51 | limbs times 58 plus digit, the carry at most 57 after every limb, at most one push |
| `Base58.ReadDigits` | contracts/svm/smart-account/build.rs:35-52 | the limbs hold the positional value of the text read; fails exactly outside the alphabet |
| `Base58.DecodeBase58` | contracts/svm/smart-account/build.rs:35-62 | the limb decoder is base58 decoding |
| `Base58.DecodeEncode` | contracts/svm/smart-account/build.rs:35-62 | decoding undoes encoding on every byte string |
| `Base58.EncodeDecode` | contracts/svm/smart-account/build.rs:35-62 | encoding undoes decoding on every base58 string, and nothing else decodes |
| `Base58.LeadingOnesAreZeros` | contracts/svm/smart-account/build.rs:58-61 | leading `1`s are exactly the leading zero bytes |
| `Base58.KnownText` | contracts/svm/smart-account/build.rs:35-62 | "12g" is a zero byte and the byte 0x61 |
| `Positional.ConvertRoundTrip` | contracts/svm/smart-account/build.rs:35-62 | keeping leading zeros and converting the rest between any two bases is invertible |
| `Signatures.DerToRawEcdsa` | packages/core/src/bytes.ts:152-175 | the cursor parser, out-of-range reads and 32-bit lengths included, equals its recursive reading and terminates |
| `Signatures.DerParses` | packages/core/src/bytes.ts:152-175 | the minimal DER form of any r and s, short or long lengths, parses to both modulo 2^256 |
| `Signatures.DerRoundTrip` | packages/core/src/bytes.ts:152-185 | both come back as 32-byte values exactly when they fit |
| `Signatures.DerRoundTrip256` | packages/core/src/bytes.ts:152-185 | for all r and s below 2^256, both come back |
| `Signatures.CurveOrder` | packages/core/src/bytes.ts:188 | the order is the one published for secp256r1, and within Hasse's bound |
| `Signatures.NormalizeLowS` | packages/core/src/bytes.ts:191-203 | the loops compute r and the reduced s, and refuse other lengths than 64 |
| `Signatures.LowSExactly` | packages/core/src/bytes.ts:191-197 | r is kept; s is low exactly when it was at most N, and is then s or N - s |
| `Signatures.NormalizeTwice` | packages/core/src/bytes.ts:191-197 | idempotent exactly for s up to N, an involution above |
| `WalletRows.EnsureRestores` | apps/api/src/account/account.service.ts:82-222 | setup binds the rows it is about to their recorded keys, changes no key, demotes no active row, and leaves bound rows alone |
| `WalletRows.EnsureProvisions` | apps/api/src/account/account.service.ts:82-222 | on any rows: every selected and deployable chain gets its row, new ones inactive and claimed by the oldest active passkey, old ones untouched or re-pointed with only what that resets |
| `WalletRows.ActivateRowBinds` | apps/api/src/account/activation.service.ts:400-425 | activation, healing included, keeps the address the derivation of the claiming key |
| `WalletRows.ActivatedExactly` | apps/api/src/account/activation.service.ts:345-667 | a row turns active exactly when the activation starts, its credential is an active passkey's, every gate passes, nothing awaited throws, and the transaction landed |
| `WalletRows.HealedExactly` | apps/api/src/account/activation.service.ts:400-425 | address and claiming key change only to those of the active passkey the assertion names; an activation that does not start writes nothing |
| `WalletRows.StartsExactly` | apps/api/src/account/activation.service.ts:359-388 | the readings under which an activation starts |
| `WalletRows.EvmHealedExactly` | apps/api/src/account/evm-activation.service.ts:604-631 | the EVM counterpart |
| `WalletRows.StrandedExactly` | apps/api/src/account/activation.service.ts:363-524 | an activation leaves `activating` behind exactly under the guards listed above |
| `WalletRows.StrandedForGood` | apps/api/src/account/activation.service.ts:363-524 | after such an attempt the row is `activating` over every continuation without a conclusive poll |
| `WalletRows.ActivatingStaysOverRuns` | apps/api/src/account/activation.service.ts:287-383 | over every continuation, retries included, an `activating` row stays so until a poll finds its vault owned, empty or short |
| `WalletRows.PollStatus` | apps/api/src/account/activation.service.ts:286-318 | the status, balance and requirement a poll leaves, reading by reading |
| `WalletRows.PollTellsTruth` | apps/api/src/account/activation.service.ts:243-323 | after a poll that reads everything, a mapped row is active exactly when its account is program-owned on its own cluster; unmapped rows are unchanged |
| `WalletRows.EvmPollTellsTruth` | apps/api/src/account/evm-activation.service.ts:325-368 | with code, active exactly on an authority match; without, an active row stays and others follow their funding |
| `WalletRows.CredentialsKept` | apps/api/src/credentials/credential.service.ts:402-417 | registering and revoking lose no key and no identity's last active credential |
| `WalletRows.RevokesExactly` | apps/api/src/credentials/credential.service.ts:402-417 | a credential is deactivated exactly when another active one of its identity remains |
| `WalletRows.StepKeepsWhole` | apps/api/src/account/account.service.ts:82-227 | every step, redeployments included, keeps every row keyed and its address committed to that key |
| `WalletRows.StepKeepsBinding` | apps/api/src/account/activation.service.ts:243-425 | every step of a fixed deployment keeps every address the derivation of its row's key |
| `WalletRows.RunBinds` | apps/api/src/account/account.service.ts:153-227 | the same over every run from no rows |
| `WalletRows.RedeployHeals` | apps/api/src/account/account.service.ts:205-222 | after any run and any redeployment, one setup call restores the identity's rows without touching a key |
| `WalletRows.OwnedIsFrozen` | apps/api/src/account/activation.service.ts:363-425 | while its vault is program-owned and what is read about it is true, no step moves a row's address or key or demotes it |
| `WalletRows.OwnedStaysFrozen` | apps/api/src/account/activation.service.ts:287-425 | the same over every continuation, whatever other identities and clusters do |
| `WalletDb.GroupByChain` | apps/api/src/account/activation.service.ts:255-262 | the grouping partitions the Solana rows by chain, in order |
| `WalletDb.Tables.EnsureEvmRows` | apps/api/src/account/account.service.ts:82-144 | the loop over deployable chains is the setup step |
| `WalletDb.Tables.EnsureAccount` | apps/api/src/account/account.service.ts:153-227 | the service call is the setup step |
| `WalletDb.Tables.ActivateSolana` | apps/api/src/account/activation.service.ts:345-667 | the sequence of row writes is the activation step |
| `WalletDb.Tables.Submit` | apps/api/src/account/activation.service.ts:426-667 | the gates, slot and broadcast after the heal leave the row in the step's end status |
| `WalletDb.Tables.PollSolana` | apps/api/src/account/activation.service.ts:243-323 | the nested loops over groups are the pointwise poll; a failed quote stops them with every row old or polled |
| `WalletDb.Tables.PollEvm` | apps/api/src/account/evm-activation.service.ts:325-368 | the EVM loop is its pointwise poll |
| `Relaying.RelayedExactly` | apps/api/src/relayer/relayer-idempotency.service.ts:193-285 | what is reported as submitted or as landed is what the submissions and the first answering chain read of five amount to |
| `EvmFirstAction.Relayer.ClaimSlot` | apps/api/src/relayer/relayer-idempotency.service.ts:83-121 | a slot takes one payload; identical bytes are a duplicate, different bytes are refused |
| `EvmFirstAction.Relayer.Broadcast` | apps/api/src/relayer/relayer-idempotency.service.ts:193-265 | one submission, or two identical ones after an ambiguous first that provably did not land; the result as the network answered |
| `EvmFirstAction.Relayer.BroadcastDeploy` | apps/api/src/account/evm-activation.service.ts:1117-1166 | a slot claimed before never sends again, so a deployment slot is sent at most twice ever |
| `EvmFirstAction.Relayer.NoThirdDeployment` | apps/api/src/relayer/relayer-idempotency.service.ts:104-120 | whatever calls were made, one slot has one payload, and a deployment slot no third send |
| `EvmFirstAction.Relayer.Deploy` | apps/api/src/account/evm-activation.service.ts:611-740 | sends only the deployment the request asked for, heals the row to the asserting key, and ends `active` exactly when an accepted submission deployed the right authority or the account was found active, and nothing after it failed |
| `EvmFirstAction.Relayer.Activate` | apps/api/src/account/evm-activation.service.ts:471-740 | sends exactly behind every gate, with the signed fields and the key of an active passkey of the asserting credential; returns only an active view read first or the view read after the row turned active; the row ends as the activation step says, never in an `activating` of this call's making |
| `EvmFirstAction.Relayer.RelayExecute` | apps/api/src/account/evm-activation.service.ts:811-968 | sends exactly behind every gate, with the signed fields, for an active passkey of the asserting credential, relying on the view it was given; a claimed slot is sent again only without a signature and at nonce 0; the hash returned is the slot's or the network's |
| `EvmFirstAction.Relayer.ActivateAndExecute` | apps/api/src/account/evm-activation.service.ts:751-802 | every deploy follows a view that was not active; every execute relies on an active view that was read and passed its gates at its own clock; no new `activating` is left |
| `Popup.OpenerPromise.OnMessage` | packages/sdk-js/src/popup.ts:139-150 | the listener is the session's reaction to a message |
| `Popup.OpenerPromise.OnTimeout` | packages/sdk-js/src/popup.ts:109-113 | likewise for the timer |
| `Popup.OpenerPromise.OnPoll` | packages/sdk-js/src/popup.ts:114-118 | likewise for the close poll |
| `Popup.RequestPromise.OnMessage` | packages/sdk-js/src/popup.ts:351-363 | the hosted listener takes only a request with a string action from its opener at the expected origin |
| `Popup.HandshakeSafe` | packages/sdk-js/src/popup.ts:134-208 | in every interleaving the promise settles at most once, exactly when listener and timers are gone; an approval resolves only with an ok result the popup host's page posted, a login also with one a page of the opener's origin posted in the popup; the hosted page only obtains the opener's request |
| `Popup.SettledForever` | packages/sdk-js/src/popup.ts:88-120 | nothing after settlement touches the session |
| `Popup.TimersSettleRuns` | packages/sdk-js/src/popup.ts:105-118 | once the timer fired, or the poll saw the popup closed, the promise is settled and unlistened for the rest of the run |
| `Popup.ResolvedByOwnPopup` | packages/sdk-js/src/popup.ts:177-208 | in both flows a resolved promise was resolved by an ok result from its own popup on an accepted origin |
| `Popup.ApprovalCompletes` | packages/sdk-js/src/popup.ts:134-167 | READY, REQUEST and RESULT, each delivered, hand the request over and settle with the answer |
| `Popup.LoginCompletes` | packages/sdk-js/src/popup.ts:177-208 | a login settles with a result from the host or the opener's own origin |
| `Popup.TimeoutCloses` | packages/sdk-js/src/popup.ts:105-118 | timeout and a seen close settle as closed |

## Left out

- `Abi.AbiEncodeSequence`: takes encodings below 2^256 bytes, the size an offset word can name; hex text is modelled as the bytes it spells.
- `Calldata.DeployV2IsGeneric`: the four-byte selector is an argument, since keccak256 is not modelled; the same holds for the other calldata builders.
- `ExecuteInstruction.BuildExecuteInstruction`: the canonical treasury and the instructions sysvar are arguments, since PDA search is not modelled.
- `ExecuteInstruction.BuiltAccountsNeverConfined`: covers the parsing and confinement checks of the program, not its vault state, fees or the inner call.
- `ExecuteInstruction.ExecuteParsesBack`: the V3 parser is modelled as written, but the program closes V3 before reading anything (`contracts/svm/smart-account/src/instructions/execute.rs`), so on chain only the V4 and V5 halves are reached; the same holds for V3 in `ExecuteAuthorization`.
- `EvmPayloads.PreimagesIdentifyMessages`: takes fields the builders do not measure at their nominal widths, since shapes under one tag are told apart by length; at all widths `UnmeasuredWithinShape` is exact within a shape and `CollidingChain` between single and batch.
- `SolanaPayloads.PreimagesIdentifyMessages`: takes account ids and authorities at their nominal widths, since the untagged V1 shapes are told apart by length; for tagged messages `UnmeasuredExactly` is exact for all widths.
- `Sha256.Sha256Sync`: words are 32-bit vectors, that is, JavaScript numbers up to the sign of their representation.
- `WalletDb.Tables.ActivateSolana`: the answers of the lookups, the fee service, the slot table, the network and the confirmation loop are inputs.
- `WalletDb.Tables.EnsureAccount`: takes an explicit cluster; without one the row lookup has no chain filter.
- `WalletRows.StepKeepsBinding`: each check-then-write of a row is one step and row writes succeed; finer interleavings of two activations are not covered.
- `WalletRows.CredentialsKept`: a rotation's check that both credentials are active and its revocation of the old one are one step; `apps/api/src/wallet/rotate.service.ts:308` revokes without counting again, so a revocation of the new credential in between is not covered.
- `EvmFirstAction.Relayer.RelayExecute`: an execute slot claimed but without a recorded signature may be sent again while the account nonce is 0, so the at-most-twice bound is per call there.
- `Popup.HandshakeSafe`: assumes the opener's page posts to its popup only through this handshake, and pages of the popup host post results only through `postPopupResult`.
- Non-batch ERC-7579 builders against their selectors' declared types: they place a tuple where the selector declares `bytes`.
- Base64url, hex and checksum text forms; keccak256, HMAC, curve arithmetic and PDA search.
- The Solana adapter's transaction assembly, RPC failover, payment gateways, controllers and user interfaces.
- Breaker accounting, subsidy ledger, fee splits and quotes: bookkeeping beside the protocol.
- The other Solana instruction builders (withdraw, activate, update, close, session registration): the same fixed-field shape as the execute trailer, without the variable part.

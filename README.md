# TactDEX client-side protocol helpers, in Dafny

TactDEX is a decentralised exchange on TON. Its actors are a vault per token, an AMM pool per vault pair, and a liquidity-deposit contract that pairs up the two halves of a deposit. The test suite (`sources/tests/contract.spec.ts`) holds three small pieces of client-side logic that address these actors, and this project models and proves them:

- **Canonical pair ordering** (`sortAddresses`). Two vault addresses are ordered by the unsigned big-endian value of their 32-byte account hash. The workchain plays no part. The strictly smaller hash becomes `lower`; otherwise the second address does. Each amount travels with its own address. The pool's init arguments (`ammPool`) and the deposit contract's init arguments (`liquidityDepositContract`) are derived from the ordered pair.
- **Vault forward-payload envelope** (`createJettonVaultMessage`, `createJettonVaultSwapRequest`). The fields are, in order:
  - one 0 bit;
  - a TL-B `Maybe ^Cell` proof code;
  - a `Maybe ^Cell` proof data;
  - a 32-bit opcode;
  - one reference to the payload.

  A swap request carries no proofs, uses the swap opcode, and its payload holds only the destination vault.
- **Per-depositor sequence ids.** A table maps each depositor to the id of its next deposit contract. Each request returns the stored value (0 when absent) and stores one more.

Modules:

| file | module | contents |
|---|---|---|
| `wrappers.dfy` | `Wrappers` | `Option`, `Result` |
| `addresses.dfy` | `Addresses` | addresses, the hash key, byte-order lemmas |
| `ordering.dfy` | `Ordering` | `SortAddresses`, pool and deposit-contract init arguments |
| `cells.dfy` | `Cells` | cells and the cell-builder calls the envelope uses |
| `vault_messages.dfy` | `VaultMessages` | the envelope, the swap request, a reference decoder |
| `deposit_ids.dfy` | `DepositIds` | the id table as a class, lemmas over runs of requests |

One might expect the pair to be ordered by the whole address, and `sortAddresses(a,b)` to equal `sortAddresses(b,a)` for every pair. The code compares the hash alone and takes the else branch on equal hashes (`sources/tests/contract.spec.ts`, lines 29 and 32). So the symmetry holds exactly when the hashes differ, or when nothing is swapped (`Ordering.SortSymmetric`, `Ordering.PoolIdentitySymmetric`).

## Model

| member | source | states |
|---|---|---|
| `Addresses.HashKey` | sources/tests/contract.spec.ts:27-28 | the key is the unsigned big-endian value of the hash bytes alone; for a 32-byte hash it is below 256^32 |
| `Addresses.BigEndianBound` | sources/tests/contract.spec.ts:27-28 | the parsed value of an n-byte hash is below 256^n |
| `Addresses.LexLessGivesSmallerValue` | sources/tests/contract.spec.ts:27-29 | a hash whose first differing byte is smaller parses to a smaller integer |
| `Addresses.LexTotal` | sources/tests/contract.spec.ts:27-29 | two different hashes of one length are ordered one way or the other byte-wise |
| `Addresses.KeyOrderIsByteOrder` | sources/tests/contract.spec.ts:27-29 | for hashes of one length, `<` on the parsed integers is lexicographic byte order, and equal integers mean equal bytes |
| `Addresses.HashKeyInjective` | sources/tests/contract.spec.ts:27-29 | two well-formed addresses have equal keys exactly when their hashes are equal, and a smaller key exactly when their hash is byte-wise smaller |
| `Ordering.FirstIsLower` | sources/tests/contract.spec.ts:29 | the comparison `address1Hash < address2Hash`: never true for equal hashes, and for 32-byte hashes true exactly when the first hash is byte-wise smaller |
| `Ordering.SortAddresses` | sources/tests/contract.spec.ts:26-34 | the result is the two addresses, each with its own amount, with `key(lower) <= key(higher)`; on equal keys the second address is lower and the amounts swap; the first address is lower with a strictly smaller key exactly when its key is strictly smaller |
| `Ordering.CanonicalPairUnique` | sources/tests/contract.spec.ts:26-34 | exactly one pair meets that description: the one `SortAddresses` returns |
| `Ordering.SortSymmetric` | sources/tests/contract.spec.ts:26-34 | naming the pair in the other order, amounts swapped with it, gives the same result exactly when the keys differ or the two inputs are identical |
| `Ordering.SortTieTakesSecond` | sources/tests/contract.spec.ts:29-33 | on equal keys the second address becomes lower and the amounts are exchanged |
| `Ordering.ResortIsIdentity` | sources/tests/contract.spec.ts:29-33 | sorting the output again returns it unchanged exactly when the keys differ or the inputs are identical |
| `Ordering.SortIgnoresWorkchain` | sources/tests/contract.spec.ts:27-28 | changing the inputs' workchains changes neither the amounts' order nor which hash ends up lower |
| `Ordering.SortByHashBytes` | sources/tests/contract.spec.ts:27-33 | for 32-byte hashes the first address is lower exactly when its hash bytes come first lexicographically; the higher hash is never byte-wise below the lower one |
| `Ordering.AmmPoolInit` | sources/tests/contract.spec.ts:107-110 | the pool's vaults are the canonical pair of the two given vaults: key order, and on equal keys the second vault on the left; the three other init values are zero |
| `Ordering.PoolIdentitySymmetric` | sources/tests/contract.spec.ts:107-110 | for well-formed vaults the pool's init arguments do not depend on the order the vaults are named in, unless two distinct vaults share one hash |
| `Ordering.LiquidityDepositInit` | sources/tests/contract.spec.ts:127-137 | the deposit contract's vaults and amounts are the canonical pair, with the depositor, its id and a zero status |
| `Ordering.DepositIdentitySymmetric` | sources/tests/contract.spec.ts:127-137 | the deposit contract's init arguments do not depend on the order the vaults (with their amounts) are named in, unless two distinct vaults share one hash, or one vault is named twice with two amounts |
| `Ordering.DepositMatchesPool` | sources/tests/contract.spec.ts:127-137 | a deposit contract and the pool for the same two vaults agree on which vault is left and which is right |
| `Cells.BeginCell` | sources/tests/contract.spec.ts:13 | a new builder holds no bits and no references |
| `Cells.StoreUint` | sources/tests/contract.spec.ts:17 | storing an n-bit unsigned value throws exactly when it is out of range or the cell is full; otherwise it appends the value's n-bit big-endian encoding |
| `Cells.StoreMaybeRef` | sources/tests/contract.spec.ts:15-16 | an absent cell adds one 0 bit and no reference; a present one adds a 1 bit and one reference |
| `Cells.StoreRef` | sources/tests/contract.spec.ts:18 | appending a reference throws exactly when the builder already holds four; otherwise it adds the child last and keeps the bits |
| `Cells.EndCell` | sources/tests/contract.spec.ts:19 | the finished cell holds exactly the builder's bits and references |
| `Cells.ReadUintOfUintBits` | sources/tests/contract.spec.ts:17 | reading back an n-bit encoding gives the encoded value |
| `Cells.UintBitsOfReadUint` | sources/tests/contract.spec.ts:17 | encoding the value a bit string reads as, at its own width, gives that bit string |
| `VaultMessages.CreateJettonVaultMessage` | sources/tests/contract.spec.ts:12-20 | the envelope is built exactly when the opcode fits 32 bits (otherwise a range error); it has 35 bits: a 0 tag, a presence bit for each proof, then the opcode; its references are the present proofs in order, then the payload |
| `VaultMessages.ParseVaultMessage` | sources/tests/contract.spec.ts:12-20 | reference decoder for the envelope; any opcode it reads fits 32 bits |
| `VaultMessages.ParseCreated` | sources/tests/contract.spec.ts:12-20 | every built envelope decodes to the fields it was built from |
| `VaultMessages.CreateParsed` | sources/tests/contract.spec.ts:12-20 | every cell that decodes as an envelope is the one built from its decoded fields |
| `VaultMessages.CreateInjective` | sources/tests/contract.spec.ts:12-20 | envelopes built from different fields are different cells |
| `VaultMessages.CreateJettonVaultSwapRequest` | sources/tests/contract.spec.ts:22-24 | a swap request is always built; it decodes to the swap opcode with no proofs; its only reference is the destination-vault cell |
| `VaultMessages.SwapRequestIgnoresAmount` | sources/tests/contract.spec.ts:22-24 | the amount argument has no effect on the swap request |
| `DepositIds.IdOf` | sources/tests/contract.spec.ts:124 | the stored entry, 0 for a depositor never seen |
| `DepositIds.Bump` | sources/tests/contract.spec.ts:123-125 | one request raises the requesting depositor's entry by exactly 1 and leaves every other depositor's entry unchanged |
| `DepositIds.TableCounts` | sources/tests/contract.spec.ts:123-125 | after a run of requests each depositor's entry has grown by the number of requests it made |
| `DepositIds.IdsIssuedCount` | sources/tests/contract.spec.ts:123-125 | the id of the i-th request is the depositor's starting entry plus the number of its earlier requests |
| `DepositIds.IdsStrictlyIncrease` | sources/tests/contract.spec.ts:123-125 | a depositor's later requests get strictly larger ids |
| `DepositIds.DepositContractsDistinct` | sources/tests/contract.spec.ts:123-137 | two requests by one depositor give deposit-contract init arguments that differ in their contract id, whatever vaults and amounts they name |
| `DepositIds.DepositorIds.constructor` | sources/tests/contract.spec.ts:52 | the table starts empty |
| `DepositIds.DepositorIds.NextContractId` | sources/tests/contract.spec.ts:123-125 | returns the stored entry (0 when absent), which equals the depositor's number of earlier requests and is the id `IdsIssued` gives this request in the history; stores that plus 1 for this depositor only |
| `DepositIds.DepositorIds.LiquidityDepositContract` | sources/tests/contract.spec.ts:116-139 | allocates the depositor's next id (the one `IdsIssued` gives this request in the history) and returns the deposit contract's init arguments for the canonical pair and that id |

## Left out

- The on-chain contracts (vault, AMM pool, liquidity-deposit contract) are written in Tact, and that source is not part of this model. Their behaviour is left out: the swap formula, the deposit state machine, share minting, withdrawals, and the reserves and statuses the tests observe.
- `sources/scripts/deploy.ts` is left out. It holds the testnet client, endpoint lookup, key derivation and wallet transfers, which are network and key I/O. It also orders the vault pair with a `sortAddresses` from a module that is not part of this model. It deploys a deposit contract with a fixed id `0n` rather than an id table. It builds its payload with `createJettonVaultLiquidityDepositPayload`, which is not part of this model.
- `sources/tests/dex.spec.ts` is left out. It imports these from modules that are not part of this model:
  - `sortAddresses`, called with the same four arguments (lines 101 and 122);
  - `createJettonVaultLiquidityDepositPayload`;
  - a `createJettonVaultSwapRequest` with a different signature, `(destinationVault, minAmountOut)`.

  It repeats the same id table (lines 118-120).
- The sandbox, `async`/`await`, snapshots and transaction-matcher assertions of the test suite are not modelled.
- Cell bit layout of `storeAddress` (`MsgAddress`) is not modelled. A cell holding one stored address is kept abstract as `AddressCell(address)`. Cell equality in the model therefore tells the abstract address cell apart from every ordinary cell, including the ordinary cell with the same bits on TON. `VaultMessages.CreateInjective` and `VaultMessages.CreateParsed` hold for model cells.
- Hex round trip of the hash key is not modelled. `address.hash.toString('hex')` followed by `BigInt('0x' + …)` is taken to be the big-endian value of the hash bytes (`BigEndian`).
- The value of `SwapRequestOpcode` is not modelled. It comes from the generated pool bindings, which are not part of this model, so it is an unspecified 32-bit constant.
- Hash length is not checked. `Address` admits a hash of any length, and `HashKey` of an empty hash is 0, whereas `BigInt('0x')` throws. The lemmas that depend on the length ask for 32-byte hashes (`WellFormed`), as every TON account address has.
- The proof cells (the token contract's code and data) are arbitrary cells. Their content is never inspected.
- Amounts and ids are unbounded integers, as JavaScript `bigint` is.
- Init-argument serialization by the generated bindings (`AmmPool.fromInit`, `LiquidityDepositContract.fromInit`) is not modelled. Any range check it applies is lost, and the id is consumed (line 125) before it runs.
- `DepositIds.DepositorIds` keys the table by the address value. The source keys it by `toRawString()`, which renders the workchain and hash and is injective on them.
- `DepositIds.IdOf`: the source reads the entry as `get(key) || 0n`, which would also give 0 for a stored 0. No stored entry is ever 0, since every stored value is a previous value plus 1, so the result is the same.
- `Cells.StoreUint`, `StoreBit`, `StoreRef`: the cell-builder library is only modelled as far as the envelope uses it. That covers the 1023-bit and 4-reference cell limits and the unsigned range check. Signed stores and every other builder call are not modelled.

# edulaz ledger and peer protocol, modelled in Dafny

This project models the core of edulaz, a small proof-of-work ledger written in Go:

- **Ledger** (`blockchain.dfy`, module `Blockchain`, from `pkg/blockchain/blockchain.go`).
  It covers transactions, blocks and the chain, and the miner reward (doubled for every leading
  `'A'` of the base64 block hash). Block and chain balances are per-address sums. The
  creator's one-time reward of 1024 is included. Appends are bounded: 2 transactions per block
  and 1024 blocks per chain, and overflowing either panics. The chain's index helpers, `NewBlock`
  and the proof-of-work loop `Mine` are modelled too.
- **Peer protocol** (`network.dfy`, module `Network`, from `pkg/network/network.go`).
  Its handlers are the opcode table of `Serve`: LENGTH, CHAIN, TX, PROVE, BALANCE, HASH, LAST
  and ADDR. Each one reads or changes one node's state: its chain, its pending block and its
  mining flag. The module also has `Choose`, which picks the peer to pull a chain from.
- Helpers: `ints.dfy` (Go's fixed-width integers and two's-complement wrap-around),
  `utility.dfy` (the `HASH_ZERO` / `HASH_NULL` sentinels of `pkg/utility/utility.go`),
  `wrappers.dfy` (`Option`).

How the Go code is rendered:

- `Block` and `Chain` are datatypes, because Go copies them by value into slices and over the
  wire. A Go method that changes a block or a chain through a pointer receiver is a method of
  `BlockRef` (a `*Block`) or `ChainRef` (a `*Chain`). The shared `*bool` mining flag is the
  class `Flag`.
- The read-only loops `Reward`, `Block.Balance` and `Chain.Balance` are methods proved against
  exact-integer specifications (`Pow2(LeadingAs(hash))`, `Block.Income`, `Chain.Income`). Go
  does this arithmetic in `int64`, so each method returns `Wrap64` of the exact value: overflow
  wraps around as it does in Go.
- The content hash (`HashSum`: SHA-256 of a JSON encoding, in base64) and the ECDSA signature
  check (`Verify`) are not modelled. They appear as parameters `hashSum: BlockData -> string`
  and `verify: Creature -> bool`.
- A panic on append overflow is modelled as a precondition: `BlockRef.Append` and
  `ChainRef.Append` require room, and `Step` and `Node.Serve` require `!Panics`; `Handle`, on
  the raw request, requires `!RequestPanics`. A peer can still reach the TX panic and the
  empty-request panic (see Findings).
- `Node` holds the state that the handler closures of `Serve` capture. `Node.Serve(op, data)`
  is proved equal to the pure function `Step`, and the protocol properties are lemmas about
  `Step`.

Behaviour of the code worth knowing, which the model keeps as written:

- `Choose` keeps a running maximum `lmax` and tests `length > lmax`, so it was evidently meant
  to pick the peer with the longest chain. It never updates `lmax`, so it returns the last peer
  reporting a positive length (see Findings).
- `Mine` returns `*mining`, which is still true when the nonce reaches `MaxUint32` without
  meeting the difficulty, so an exhausted search reports success (`BlockRef.Mine` ensures `ok`
  on every sequential run).
- `Choose` starts from the first configured address, `addresses[0]`, and keeps it when no peer
  reports a positive length.

## Model

| member | source | states |
|---|---|---|
| `Ints.Wrap32` | pkg/network/network.go:142 | Go's `int32(x)`: the result is congruent to x modulo 2^32, and equals x when x fits in 32 bits |
| `Ints.Wrap64` | pkg/blockchain/blockchain.go:86-101 | the int64 Go arithmetic produces: equals x whenever x fits in 64 bits |
| `Ints.Wrap64Congruent` | pkg/blockchain/blockchain.go:86-101 | the int64 result is congruent to the exact value modulo 2^64 |
| `Ints.WrapAdd64` | pkg/blockchain/blockchain.go:103-113 | wrapping an intermediate int64 sum does not change the final wrapped sum, so step-by-step int64 accumulation equals one wrap of the exact total |
| `Ints.WrapDouble64` | pkg/blockchain/blockchain.go:81 | doubling a wrapped int64 equals wrapping the exact double |
| `Utility.HashZeroShape` | pkg/utility/utility.go:22-23 | `HASH_ZERO` is 44 characters, 43 `'A'`s then `'='`; `HASH_NULL` is 44 characters and does not start with `'A'` |
| `Blockchain.LeadingAs` | pkg/blockchain/blockchain.go:77-80 | the count k of leading `'A'`s: the first k characters are all `'A'` and the next one, if any, is not |
| `Blockchain.Block.Reward` | pkg/blockchain/blockchain.go:75-84 | the reward is 2^k in int64 arithmetic, where k is the number of leading `'A'`s of the block hash |
| `Blockchain.RewardIsPow2` | pkg/blockchain/blockchain.go:75-84 | with fewer than 63 leading `'A'`s nothing wraps, and the reward is exactly 2^k ≥ 1 |
| `Blockchain.RewardOne` | pkg/blockchain/blockchain.go:75-84 | a hash that is empty or does not start with `'A'` earns a reward of 1 |
| `Blockchain.RewardNoWrap` | pkg/blockchain/blockchain.go:75-84 | a hash of at most 62 characters (a SHA-256 base64 hash has 44) has an un-wrapped reward of at least 1 |
| `Blockchain.MinedReward` | pkg/blockchain/blockchain.go:186 | a hash meeting difficulty dfc (< 44) starts with at least dfc `'A'`s, so its reward is at least 2^dfc |
| `Blockchain.Block.Balance` | pkg/blockchain/blockchain.go:86-101 | the int64 block balance is the wrapped sum of −amount where addr is the sender and +amount where it is only the receiver, plus the reward when addr is the miner |
| `Blockchain.AccumulateTx` | pkg/blockchain/blockchain.go:88-95 | each branch of the per-transaction switch adds exactly that transaction's share to the running int64 balance |
| `Blockchain.SelfTransfer` | pkg/blockchain/blockchain.go:89-94 | a transfer from addr to itself lowers addr's balance by the amount; it does not cancel out, because the first matching case wins |
| `Blockchain.TransferMovesAmount` | pkg/blockchain/blockchain.go:86-101 | adding a transaction lowers the sender's balance by the amount and raises a distinct receiver's by it; every other address is unchanged |
| `Blockchain.UninvolvedBlock` | pkg/blockchain/blockchain.go:86-101 | an address that is not a sender, receiver or miner in a block has block balance 0 |
| `Blockchain.Chain.Balance` | pkg/blockchain/blockchain.go:103-113 | the int64 chain balance is the wrapped sum of 1024 (for the creator only) and every block's balance |
| `Blockchain.AccumulateBlock` | pkg/blockchain/blockchain.go:109-111 | folding one more block's int64 balance into the running chain balance adds exactly that block's share |
| `Blockchain.AppendIncome` | pkg/blockchain/blockchain.go:138-143 | after appending a block, every address's chain balance is the old one plus that block's balance |
| `Blockchain.CreatorRewardOnce` | pkg/blockchain/blockchain.go:103-113 | however many blocks are appended, the creator's balance contains the 1024 reward exactly once |
| `Blockchain.SingleTransferScenario` | pkg/blockchain/blockchain.go:86-113 | one block with one transfer A→B of 100, mined by neither: B's balance is 100 and A's is −100 |
| `Blockchain.Creature.Invalid` | pkg/blockchain/blockchain.go:195-197 | definition only: an object is invalid exactly when `verify` rejects its envelope |
| `Blockchain.Block.Len` | pkg/blockchain/blockchain.go:123-125 | definition only: the number of transactions; `NewBlockFills` states its values |
| `Blockchain.Block.Full` | pkg/blockchain/blockchain.go:174-176 | definition only: at least 2 transactions; `NewBlockFills` states when it holds |
| `Blockchain.NewBlock` | pkg/blockchain/blockchain.go:248-254 | definition only: an empty block linked to `previous`, nonce 0; `NewBlockFills` and `ProveValid` state its use |
| `Blockchain.Chain.Len` | pkg/blockchain/blockchain.go:127-129 | definition only: the number of blocks |
| `Blockchain.Chain.Block` | pkg/blockchain/blockchain.go:207-212 | definition only: the block at an in-range index, `None` (Go's nil) otherwise; `HashAt` states its use |
| `Blockchain.Chain.Hash` | pkg/blockchain/blockchain.go:115-121 | definition only; `HashAt` states its value for every index |
| `Blockchain.Chain.Empty` | pkg/blockchain/blockchain.go:199-201 | definition only; `PreviousIsTip` relates it to `Last` |
| `Blockchain.Chain.Last` | pkg/blockchain/blockchain.go:203-205 | definition only; `PreviousIsTip` and `PreviousAfterAppend` state its value |
| `Blockchain.Chain.Previous` | pkg/blockchain/blockchain.go:214-216 | definition only; `PreviousIsTip` and `PreviousAfterAppend` state its value |
| `Blockchain.Meets` | pkg/blockchain/blockchain.go:186 | definition only: the difficulty test, the first dfc characters of the hash equal those of `HASH_ZERO` (the loop runs while they differ) |
| `Blockchain.Flag.constructor` | pkg/network/network.go:137 | the `mining` bool that the handlers and `Mine` share through `*bool` (blockchain.go:184), created with the given value |
| `Blockchain.HashAt` | pkg/blockchain/blockchain.go:115-121 | `Hash(i)` is the i-th block's hash for 0 ≤ i < Len and `HASH_NULL` otherwise, negative i included |
| `Blockchain.PreviousIsTip` | pkg/blockchain/blockchain.go:199-216 | `Empty` holds exactly when `Last` is −1. An empty chain links new blocks to `HASH_NULL`, a non-empty one to its last block's hash |
| `Blockchain.PreviousAfterAppend` | pkg/blockchain/blockchain.go:214-216 | after an append, `Previous` is the appended block's hash and `Last` is the old length |
| `Blockchain.NewBlockFills` | pkg/blockchain/blockchain.go:248-254 | a new block is empty and not full, stays non-full after one transaction, and is full after exactly two, holding them in order |
| `Blockchain.BlockRef.Append` | pkg/blockchain/blockchain.go:131-136 | callable only below 2 transactions (it panics otherwise); adds tx at the end and changes nothing else |
| `Blockchain.ChainRef.Append` | pkg/blockchain/blockchain.go:138-143 | callable only below 1024 blocks (it panics otherwise); adds the block at the end and keeps the creator |
| `Blockchain.BlockRef.Mine` | pkg/blockchain/blockchain.go:178-193 | sets the miner and keeps `Hash == hashSum(BlockData)`. It changes only miner, nonce and hash, and the nonce only rises. It stops at the first nonce from the start whose hash meets the difficulty, or at MaxUint32. Every nonce skipped fails the target, and the raised flag is returned |
| `Network.AddrOf` | pkg/network/network.go:194-195 | definition only: the BALANCE body decoded into a string; `""` when the body is not a JSON string |
| `Network.IndexOf` | pkg/network/network.go:200-201 | definition only: the HASH body decoded into an `int32`; 0 when the body is not a JSON number |
| `Network.TxOf` | pkg/network/network.go:150-151 | definition only: the transaction a body decodes to; a block body keeps its envelope and `Previous` |
| `Network.BlockOf` | pkg/network/network.go:176-177 | definition only: the block a body decodes to; a transaction body keeps its envelope and `Previous` |
| `Network.Panics` | pkg/blockchain/blockchain.go:131-143 | definition only: a valid TX while the pending block holds 2 transactions, or a valid PROVE while the chain holds 1024 blocks |
| `Network.Step` | pkg/network/network.go:140-220 | definition only: the dispatch table on the node state; the lemmas below and `Node.Serve` state its behaviour |
| `Network.UnknownOpcode` | pkg/network/network.go:214-220 | a handler runs and `Write` is called exactly for opcodes 1 (LENGTH) to 8 (ADDR); any other byte gets no handler and changes nothing. A refused TX or PROVE also writes no bytes, since its reply is the nil slice |
| `Network.QueriesReadOnly` | pkg/network/network.go:141-211 | LENGTH, CHAIN, BALANCE, HASH, LAST and ADDR leave chain, pending block and flag unchanged |
| `Network.QueryAnswers` | pkg/network/network.go:193-207 | LENGTH answers the block count, LAST the count − 1, HASH the block hash at an in-range index, BALANCE the chain balance plus the pending block's balance |
| `Network.TxInvalid` | pkg/network/network.go:149-156 | a TX with a bad signature gets the nil reply and changes nothing |
| `Network.TxValid` | pkg/network/network.go:158-172 | a valid TX is acknowledged and appended at the end of the pending block; nothing else in the block, the chain or the flag changes; the pending balances of sender and receiver move by the amount |
| `Network.ProveInvalid` | pkg/network/network.go:175-182 | a PROVE with a bad signature gets the nil reply; chain length and contents, pending block and flag are unchanged |
| `Network.ProveValid` | pkg/network/network.go:184-190 | a valid PROVE clears the flag and grows the chain by exactly that block. The pending block's transactions are dropped, and it becomes `NewBlock` linked to the proven block's hash. The reply is the ack |
| `Network.ProveBalance` | pkg/network/network.go:186 | after a valid PROVE, every chain balance grows by exactly the proven block's balance |
| `Network.TxSentAsProve` | pkg/network/network.go:175-188 | a validly signed transaction sent with PROVE decodes into a block with its envelope and `Previous` and no transactions, which is acknowledged and appended |
| `Network.ThirdTxPanics` | pkg/network/network.go:158-170 | from a fresh pending block, two valid TXs are served and fill it, and a third valid TX panics |
| `Network.GuardedStep` | pkg/network/network.go:140-220 | definition only: the dispatch table that refuses, instead of panicking, a request the ledger has no room for |
| `Network.GuardedStepSafe` | pkg/network/network.go:140-220 | the guarded table keeps the block and chain within their capacities, answers exactly opcodes 1..8, agrees with `Step` wherever that does not panic, and refuses the rest unchanged |
| `Network.GuardedThirdTx` | pkg/network/network.go:158-170 | with the guard, three valid TXs on a fresh block: two acks, then a refusal that leaves the two transactions in place |
| `Network.RequestPanics` | pkg/network/network.go:214-218 | definition only: the connection handler panics on an empty read (`request[0]` out of range) or on a request `Panics` names |
| `Network.Handle` | pkg/network/network.go:214-218 | definition only: the connection handler as written, `Step` on the first byte of the request |
| `Network.EmptyRequestPanics` | pkg/network/network.go:214-218 | an empty request panics in every state, and a one-byte request panics exactly when `Step` would |
| `Network.GuardedHandle` | pkg/network/network.go:214-218 | definition only: the connection handler that ignores an empty request and dispatches through `GuardedStep` |
| `Network.GuardedHandleSafe` | pkg/network/network.go:214-218 | the guarded handler keeps the ledger within its capacities, ignores an empty request with the state unchanged, and agrees with `Handle` wherever that does not panic |
| `Network.MinedBlockReward` | pkg/network/network.go:18 | a hash meeting the node's difficulty of 2 earns its miner a reward of at least 4 |
| `Network.Node.constructor` | pkg/network/network.go:134-138 | binds the chain and pending-block pointers and the node's address; the mining flag starts lowered |
| `Network.Node.HandleLength` | pkg/network/network.go:141-143 | the block count as an int32 |
| `Network.Node.HandleChain` | pkg/network/network.go:145-147 | the whole chain |
| `Network.Node.HandleTx` | pkg/network/network.go:149-173 | a bad signature is refused and nothing changes; otherwise tx is appended to the pending block and acknowledged |
| `Network.Node.HandleProve` | pkg/network/network.go:175-191 | a bad signature is refused and nothing changes. Otherwise the flag is cleared, the block appended, and the pending block reset to link to the new tip |
| `Network.Node.HandleBalance` | pkg/network/network.go:193-197 | the int64 sum of the two balance loops equals the wrapped exact chain balance plus pending-block balance |
| `Network.Node.HandleHash` | pkg/network/network.go:199-203 | the hash of the block at the index, or `HASH_NULL` when the index is out of range |
| `Network.Node.HandleLast` | pkg/network/network.go:205-207 | the block count minus one, as an int32 (−1 for an empty chain) |
| `Network.Node.HandleAddr` | pkg/network/network.go:209-211 | the node's own address |
| `Network.Node.Serve` | pkg/network/network.go:214-220 | each request changes the node's state and replies exactly as the dispatch table `Step` prescribes |
| `Network.Choose` | pkg/network/network.go:119-132 | the loop's result is `Chosen`: the scan from the first address, replaced by each address reporting a positive length |
| `Network.ChosenMember` | pkg/network/network.go:119-123 | `Choose([])` is `""`; otherwise the chosen peer is one of the addresses |
| `Network.ChosenIsLastPositive` | pkg/network/network.go:124-130 | the chosen peer is the last address whose reported length is positive |
| `Network.ChosenWhenNonePositive` | pkg/network/network.go:120-130 | with no positive length reported, the first address is chosen |
| `Network.ChooseNotLongest` | pkg/network/network.go:124-129 | peers reporting 5 then 3 blocks: `Choose` picks the 3-block peer, the corrected scan the 5-block one |
| `Network.ChooseLongest` | pkg/network/network.go:119-132 | the corrected loop (raising `lmax`) returns the best address of the corrected scan `LongestFrom` |
| `Network.LongestIsMaximal` | pkg/network/network.go:119-132 | the corrected scan returns the first address with the greatest length, which no other reported length exceeds; with none positive it keeps the initial address |

## Left out

- ECDSA: key generation, signing, verification, key compression and `Address` derivation are
  foreign cryptography. Verification is the parameter `verify`; `Creature.Sign` is not modelled.
- `HashSum`, base64 and JSON (de)serialization are library wrappers. The hash is the parameter
  `hashSum`. Requests arrive already decoded (`Payload`). A transaction body decoded as a block
  (or a block as a transaction) keeps the shared fields, the signature envelope and `Previous`,
  and zeroes the rest, as `TxOf` and `BlockOf` state. Any other mismatched body decodes to the
  Go zero value. Malformed JSON and JSON of other shapes are not modelled.
- `NewTransaction` draws a random id and hashes the whole transaction. It is not modelled.
  Transactions are taken as given values.
- `NewChain` needs `Address` of a public key, so it is not modelled. `ChainRef.constructor`
  wraps any chain value.
- `Load`, `Save` and `LogError` are file I/O and logging.
- Socket I/O is not modelled: `Read`, `Write`, `WriteAndRead`, `Request` and `Listen`, the
  remote-call wrappers `Length`, `Chain`, `Tx`, `Prove`, `Balance`, `Hash`, `Last` and `Addr`,
  and `Sync`. Each peer's reported length is the parameter `length` of `Choose`. The 1 MiB
  single-read buffer is not modelled.
- Network.Node.Serve: treats each request as atomic and serves one at a time. `Listen` runs
  every connection's handler in its own goroutine (network.go:69, 214) with no lock, so
  interleaved requests, and their races on the chain, the pending block and the flag, are not
  modelled.
- Network.Node.HandleTx: stops after the ack. The goroutine it starts once the pending block
  is full mines, signs, broadcasts and resets the block; that is concurrency.
- Blockchain.BlockRef.Mine: states only a sequential run, in which nothing clears the flag during the
  loop. The abort path, where a concurrent PROVE lowers the flag mid-search, is concurrency and
  is not modelled.
- `internal/cli/cli.go` and `internal/d/d.go` are the interactive shell and the daemon
  bootstrap (I/O orchestration).

## Findings

| source | as written | input that shows it | evidently intended | confidence | as-written member | corrected member |
|---|---|---|---|---|---|---|
| pkg/network/network.go:124-129 | `lmax` is never assigned in the loop, so every peer reporting a positive length replaces the current choice | two peers reporting 5 and then 3 blocks: the 3-block peer is chosen | choose the peer with the strictly greatest length, raising `lmax` with each improvement | high (not executed; proved about the model) | `Network.ChooseNotLongest` | `Network.ChooseLongest` |
| pkg/network/network.go:158-170 | the TX handler calls `myblock.Append(tx)` without checking `Full()`. Nothing on the TX path resets the block until the mining goroutine finishes (network.go:168); only that reset, or an incoming valid PROVE (network.go:188), ends the window | from a fresh pending block, three valid TXs with no PROVE in between: the third reaches the `block overflow` panic inside a connection goroutine, which takes the whole daemon down | refuse a TX for a full pending block with the nil reply, as for an invalid one (likewise a PROVE for a chain of 1024 blocks) | medium (not executed; the third TX must arrive before the goroutine resets the block) | `Network.ThirdTxPanics` | `Network.GuardedStep` |
| pkg/network/network.go:214-216 | the connection handler indexes `request[0]` without checking the read's length, and `Read` returns `buf[:n]` (network.go:32-37) | a peer that connects and sends nothing: `n` is 0, `request[0]` panics inside a connection goroutine, and the daemon ends | ignore an empty request: no reply, no state change | high (not executed; proved about the model) | `Network.EmptyRequestPanics` | `Network.GuardedHandle` |

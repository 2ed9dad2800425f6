# A verified model of the chain gateway

This project models the parts of the gateway, the console and the transaction library that have to be
right whatever happens around them, and proves it for all inputs, all runs and all interleavings.

* **Following the chain.** A node mines and reorgs; an indexer keeps a bounded, parent-linked window of
  its blocks, unwinds when its tip is gone, refetches, and publishes what it did; a partitioned log
  stores and fans out those events; the console rebuilds its block list from them. `Chain`, `ChainSim`,
  `IndexerSpec`, `Indexer`, `EventLog`, `ClientView`, `ViewLength`, `ConsoleLimit`,
  `StreamConsumer`, and `Pipeline`, which puts them together: there the node may take any steps between any
  two source calls of one pass.
* **The engine's wire format.** Varints, tags, length-delimited and nested messages (sections "Base 128
  Varints", "Message Structure" and "Length-Delimited Records" of the Protocol Buffers "Encoding"
  document), the client's request encoder and its response decoder. `Bytes`, `PbWire`, `PbMessage`,
  `EngineResponse`, `EngineRequest`, `EngineClient`, `ResponseMeaning`; and, for this and the next,
  `WireLiterals`, which says in plain numbers what the bytes are.
* **Transactions.** RLP with a decoder after Appendix B of the Ethereum Yellow Paper as its inverse, and
  what an EIP-155 preimage and a raw transaction determine. `Rlp`, `LegacyTx`, `TxExample`.
* **Keccak-256.** The permutation and sponge of sections 3.2, 4 and 5.1 of FIPS 202, on bits, with the original
  padding, and the in-place program on 64-bit lanes as their refinement. `Fips202`, `LaneBits`, `LaneSteps`,
  `RoundConstants`, `Keccak`.
* **Upstreams.** One circuit breaker and what a history of possibly stale outcomes does to it; the pool's
  failover; any number of calls in flight. `Breaker`, `Upstream`, `PoolRuns`, `LateOutcomes`,
  `CallAttempts`.
* **Cache and limiter.** What whole histories of reads, writes and requests guarantee. `Cache`,
  `CacheHistory`, `RateLimit`.

The shape is the same throughout. What the program updates in place is a class whose methods run the
program's loops and are proved equal to functions on values; the functions carry the theorems. A pass of
the indexer, for example, is `IndexerSpec.SyncPass`: `Indexer.Index.Sync` is proved to store, publish and
return exactly that, and safety, event sourcing, convergence and truthfulness are proved about it.

Assumptions that the theorems make are in their preconditions. The ones to know:

* A source answers for the height it was asked for, and its head stays below 2^64 - 1
  (`IndexerSpec.Honest`). What it answers may differ from call to call.
* Block hashes are symbolic: the simulated node's hash is the triple it hashes. Where another chain is
  compared, equal hash is required to mean equal block.
* Clocks are monotone where a theorem speaks of elapsed time; method contracts hold for any clock.
* A length-delimited part of a message is below 2 GiB, which the reader enforces and the encoding
  document prescribes.

Where the code and its comments differ, the code is followed:

* A subscriber's buffer holds `max(buf, 1)` events, so a subscription with `buf` below 1 survives one
  pending event (`services/gateway/internal/eventlog/eventlog.go:87-94`).
* The reader skips every fixed-width field, also one whose number is known, and rejects group wire types
  (`services/gateway/internal/pbwire/pbwire.go:90-121`).
* "In half-open exactly one probe is admitted" (`services/gateway/internal/breaker/breaker.go:21-22` with
  `services/gateway/internal/breaker/breaker.go:64-79`) holds between outcomes: the late outcome of a call
  admitted earlier closes or reopens the breaker while the probe is still out.
  `LateOutcomes.TwoProbesAtOnce` is such a run, `LateOutcomes.SecondProbeExactly` says exactly when a
  second caller is let in while a probe waits, and `PoolRuns.RunKeeps` what is always true.

Two guarantees hold only within bounds that the program stays in, though its packages do not enforce them:

* A limiter with a burst below 1 would promise waits that it does not keep
  (`services/gateway/internal/ratelimit/ratelimit.go:43-49`); the gateway's configuration refuses such a
  burst (`services/gateway/internal/app/app.go:94-96`). `RateLimit.RetryAfter` has the exact condition,
  `RateLimit.PromiseKept` what follows for the gateway, `RateLimit.PromiseBroken` the smallest case outside.
* The console's list is the newest part of the chain in every run exactly while its limit is at most the
  indexer's window (`ConsoleLimit.LimitExact`). The console asks for 10 and 25 blocks
  (`apps/web/src/routes/overview.tsx:10-11`, `apps/web/src/routes/blocks.tsx:6-7`), the window is 256
  (`services/gateway/internal/app/app.go:162`), and `applyEvent` itself promises nothing about longer lists.

## Model

| member | source | states |
|---|---|---|
| `Pipeline.ReachableInv` | services/gateway/internal/indexer/indexer.go:66-111 | In every run in which the node mines and reorgs, also between any two source calls of one pass, and calls fail in any pattern: the stored chain is parent-linked, contiguous in number and at most `window` long, holds only blocks the node mined, is what replaying all published events gives, and a console whose limit is at most the window shows its newest part, short of its limit by no more than the indexer is behind the head |
| `Pipeline.QuietPassConverges` | services/gateway/internal/indexer/indexer.go:66-111 | From any state reachable that way, also after failed passes, one undisturbed pass returns no error. It keeps the k blocks of its chain that are on the node's chain, reports the others reorged, newest first, and then reports new, oldest first, exactly the node's blocks above the last kept one, or the newest `window` when none is kept; it stores the newest of both that the window holds, so its chain ends at the node's head; the console then shows the newest part of the node's chain, exactly as long as its limit or the stored chain allows |
| `ConsoleLimit.LimitExact` | apps/web/src/hooks.ts:20 | The console shows the newest part of the chain in every run exactly when its limit is at most the window |
| `ConsoleLimit.OverrunRun` | apps/web/src/hooks.ts:20 | With a larger limit: mine a full window, sync, mine one more, sync; the list is then one block longer than the chain |
| `StreamConsumer.ConsumerShows` | apps/web/src/hooks.ts:17-21 | In every run a consumer that took a list of the newest blocks when m events had been published and has folded the events up to the n-th shows the newest part of the chain the indexer had then, however far behind it is |
| `StreamConsumer.StreamFaithful` | apps/web/src/hooks.ts:18-20 | Along the whole published stream each reorged event names the top and no new block repeats a hash of the chain |
| `ViewLength.SyncInStep` | apps/web/src/hooks.ts:17-21 | A pass, whatever is answered and however it ends, leaves the list short of its limit by no more than the indexer is behind the head |
| `Pipeline.EventsTellTheTruth` | services/gateway/internal/indexer/indexer.go:78-109 | Also while the node changes under a pass: a block is reported reorged only if the node, when asked, did not have it at that height, and new only if it did; all reorged events come before the new ones, and the new ones are in height order |
| `ChainSim.Node.constructor` | services/gateway/internal/chainsim/chainsim.go:43-47 | A new node has the genesis block only |
| `ChainSim.Node.MineBlock` | services/gateway/internal/chainsim/chainsim.go:49-68 | One block is appended whose number is the chain's length, whose parent is the old tip and whose hash is the digest of parent, number and salt; nothing else changes |
| `ChainSim.Node.ForceReorg` | services/gateway/internal/chainsim/chainsim.go:72-83 | The whole new state of the reorg, for any depth: depth is clamped below genesis, the salt is raised once, depth + 1 blocks are mined on the fork point; the invariant is kept |
| `ChainSim.Node.Resolve` | services/gateway/internal/chainsim/chainsim.go:101-113 | A numeric lookup finds a block exactly up to the head, and the one with that number |
| `ChainSim.MineOneKeeps` | services/gateway/internal/chainsim/chainsim.go:49-61 | Mining keeps the chain number-indexed and parent-linked and mines a block never mined before |
| `ChainSim.ReorgReplaces` | services/gateway/internal/chainsim/chainsim.go:72-83 | A reorg of any depth keeps exactly the blocks below the top `depth`, genesis in any case; none of the others is still there, the chain is one longer, the salt is one higher and is that of every new block, and no hash on the new part was ever mined before |
| `ChainSim.RunKeeps` | services/gateway/internal/chainsim/chainsim.go:49-83 | After any run of mining and reorgs the chain is number-indexed and parent-linked, genesis survives, and each step raised the height by exactly one |
| `ChainSim.NeverMinedTwice` | services/gateway/internal/chainsim/chainsim.go:49-83 | In a whole run from genesis no (number, salt) pair and so no block hash is mined twice |
| `ChainSim.ReachableBlock` | services/gateway/internal/chainsim/chainsim.go:49-61 | In every reachable chain block i has number i, time 1,700,000,000 + 12 i, the hash of block i - 1 as its parent (zero for genesis), and the hash of parent, number and a salt no higher than the number of reorgs; its transaction count is the hash's leading byte modulo 8 |
| `ChainSim.SaltCounts` | services/gateway/internal/chainsim/chainsim.go:72-83 | The salt is the number of reorgs so far |
| `Indexer.Index.constructor` | services/gateway/internal/indexer/indexer.go:50-52 | A new index is empty and its window is at least 1; on a log without chain events its chain is what replaying them gives |
| `Indexer.Index.Sync` | services/gateway/internal/indexer/indexer.go:66-111 | Against any source whose answers may differ between calls: the stored chain, the error and the events appended are those of the pass as a whole, the window invariant holds on every exit, the chain stays what replaying the log's chain events gives, the slice readers held before the call still has the items it had, and every chain event's type stays one of "block.new" and "block.reorged" |
| `Indexer.Index.UnwindTip` | services/gateway/internal/indexer/indexer.go:78-89 | The unwind loop pops the local slice and publishes one reorged event per pop, exactly as far as the source's answers say |
| `Indexer.Index.FetchOne` | services/gateway/internal/indexer/indexer.go:97-108 | One round of the fetch loop: stop on an error, refuse a block that does not name the tip as its parent, otherwise push, trim and publish |
| `Indexer.Index.Fetch` | services/gateway/internal/indexer/indexer.go:96-110 | The fetch loop, to the head or to its first error |
| `Indexer.Index.Extend` | services/gateway/internal/indexer/indexer.go:104-108 | Go's append and reslice on the local slice do push-and-trim, and the block is published as new |
| `Indexer.Index.Pop` | services/gateway/internal/indexer/indexer.go:87-88 | The tip leaves the local slice and is published as reorged |
| `Indexer.Index.Emit` | services/gateway/internal/indexer/indexer.go:54-57 | The event is appended to the log under the chain key, with one of the two types, and every subscription stays sound |
| `Indexer.Index.NextFetch` | services/gateway/internal/indexer/indexer.go:90-95 | Fetching starts above the kept tip, or with an empty chain `window` blocks below the head, or at 0 |
| `Indexer.Index.Blocks` | services/gateway/internal/indexer/indexer.go:130-139 | The newest blocks, newest first, as many as asked for and stored |
| `Indexer.Index.Head` | services/gateway/internal/indexer/indexer.go:142-149 | The newest stored block, if any |
| `Indexer.Index.PartitionRebuilds` | services/gateway/internal/eventlog/eventlog.go:46-48 | At every Sync boundary of the object: taking the chain key's events from their partition of the log, in offset order, and replaying them gives the stored chain |
| `Indexer.OtherKeysInvisible` | services/gateway/internal/eventlog/eventlog.go:42-48 | Events appended under other keys change nothing of that |
| `Indexer.PartitionCarriesChain` | services/gateway/internal/eventlog/eventlog.go:46-48 | Reading the chain key's events from its one partition gives the published chain events in order, whatever other keys share the partition |
| `IndexerSpec.SyncKeepsWindow` | services/gateway/internal/indexer/indexer.go:73-110 | Whatever the source answers and whichever exit is taken, the stored chain is parent-linked, contiguous and within the window |
| `IndexerSpec.SyncReplays` | services/gateway/internal/indexer/indexer.go:78-109 | Replaying a pass's events over the chain it started from gives the chain it stores, on success and on every error, and each reorged event names the block then on top |
| `IndexerSpec.SyncWitnessed` | services/gateway/internal/indexer/indexer.go:78-109 | Every event is backed by the source's answer to its own call |
| `IndexerSpec.CanonicalTipMeansCanonicalChain` | services/gateway/internal/indexer/indexer.go:78-83 | A tip that is on the source's chain, parent links and no hash collision put the whole window on it |
| `IndexerSpec.CanonicalPrefixExact` | services/gateway/internal/indexer/indexer.go:78-89 | The stored blocks on the source's chain are exactly the first ones of the window |
| `IndexerSpec.UnwindOnLedger` | services/gateway/internal/indexer/indexer.go:78-89 | Against a fixed chain unwinding removes exactly the blocks that are not on it, newest first: no canonical block is unwound |
| `IndexerSpec.RefetchOnLedger` | services/gateway/internal/indexer/indexer.go:96-110 | Against a fixed chain fetching always succeeds and leaves the newest blocks up to the head |
| `IndexerSpec.SyncConverges` | services/gateway/internal/indexer/indexer.go:66-111 | The same for any linked window and any fixed valid chain: of an empty or wholly unwound window the newest `window` blocks are fetched, from a kept tip the blocks above it, and the stored length is the lesser of the window and the number of kept and new blocks |
| `IndexerSpec.SyncEnds` | services/gateway/internal/indexer/indexer.go:66-111 | Against any source: no error only with a stored tip at or above the head that was answered, the head's error exactly when the head call failed, and every other error explained by the answer to the last call: it failed, found nothing, or gave a block that does not name the tip as its parent |
| `EventLog.Log.constructor` | services/gateway/internal/eventlog/eventlog.go:31-34 | At least one partition, all empty |
| `EventLog.Log.Append` | services/gateway/internal/eventlog/eventlog.go:37-58 | The event joins its key's partition and the global order; a subscriber is dropped exactly when its buffer is full, and otherwise gets the event last; nothing that was buffered or received by anyone, live, evicted or closed, is lost; an unserialisable payload changes nothing; every invariant of the log is kept |
| `EventLog.Log.FanOut` | services/gateway/internal/eventlog/eventlog.go:49-56 | Every live subscriber, in any order, gets the event or is closed and dropped, exactly by whether its buffer had room; eviction takes nothing from what it was delivered, and that stays an unbroken run of the log |
| `EventLog.Log.Offer` | services/gateway/internal/eventlog/eventlog.go:50-55 | The non-blocking send: delivered, or closed once and dropped with its buffer as it was |
| `EventLog.Log.Read` | services/gateway/internal/eventlog/eventlog.go:61-69 | The events of a partition from an offset on, as many as asked for and present; nothing outside the range |
| `EventLog.Log.Subscribe` | services/gateway/internal/eventlog/eventlog.go:89-95 | A new id and an open channel whose run starts at the log's present end |
| `EventLog.Log.Cancel` | services/gateway/internal/eventlog/eventlog.go:96-103 | Cancelling ends the run and is harmless after eviction: the channel is closed once, and what is buffered and what was received stay |
| `EventLog.Log.Take` | services/gateway/internal/eventlog/eventlog.go:87-96 | Consuming moves an event from the buffer to the consumer and keeps the delivered run unbroken |
| `EventLog.Channel.TrySend` | services/gateway/internal/eventlog/eventlog.go:50-52 | A send that succeeds exactly when there is room, never on a closed channel |
| `EventLog.Channel.Close` | services/gateway/internal/eventlog/eventlog.go:53 | A channel is closed only while it is open |
| `EventLog.DenseOffsets` | services/gateway/internal/eventlog/eventlog.go:46-48 | The k-th event of a partition has offset k |
| `EventLog.KeyOrder` | services/gateway/internal/eventlog/eventlog.go:42-48 | All events of a key lie in one partition, in the order they were appended |
| `EventLog.FnvExamples` | services/gateway/internal/eventlog/eventlog.go:42-43 | Published FNV-1a values: of nothing, "a" and "foobar"; and that of "chain" |
| `EventLog.ChainPartition` | services/gateway/internal/eventlog/eventlog.go:46 | With four partitions the chain key's is number 2 |
| `ClientView.ViewFollowsSync` | apps/web/src/hooks.ts:17-21 | When equal hash means equal block and limit <= window, a list that is the newest part of the chain is again after folding all events of any pass, successful or not |
| `ClientView.ViewFollows` | apps/web/src/hooks.ts:17-21 | The same for any sequence of events along which each reorged event names the top and no new block repeats a hash of the chain |
| `ClientView.NewShows` | apps/web/src/hooks.ts:19-20 | A new block goes on top: the hash check never takes it for a duplicate |
| `ClientView.ReorgedShows` | apps/web/src/hooks.ts:18 | A reorged block is removed from the top and nothing else is |
| `ClientView.NeverTwice` | apps/web/src/hooks.ts:17-21 | A list without repeated hashes stays so under any events whatever |
| `ClientView.NewExactly` | apps/web/src/hooks.ts:19-20 | A new block whose hash is listed changes nothing; any other goes on top, and the list is cut to its limit |
| `ClientView.RemovedByParts` | apps/web/src/hooks.ts:18 | Removing a hash removes every block that has it and no other, wherever it stands |
| `ClientView.RemovedExactly` | apps/web/src/hooks.ts:18 | The same for single blocks, which with the former says it of every list |
| `PbWire.VarintRoundTrip` | services/gateway/internal/pbwire/pbwire.go:28-80 | Every uint64 is read back as written, whatever follows it |
| `PbWire.VarintTenBytes` | services/gateway/internal/pbwire/pbwire.go:28-34 | A uint64 takes one to ten bytes |
| `PbWire.WordRounds` | services/gateway/internal/pbwire/pbwire.go:68-74 | In each of the ten rounds the 64-bit mask, left shift and or-ing of the code are the remainder, the product modulo 2^64 and the sum of the model |
| `PbWire.WordLow` | services/gateway/internal/pbwire/pbwire.go:28-33 | The byte the writing loop appends and the word it goes on with, in 64-bit words, are the remainder with the high bit set and the quotient |
| `PbWire.NextConsumes` | services/gateway/internal/pbwire/pbwire.go:92-126 | On arbitrary bytes every field that is read takes at least two bytes |
| `PbWire.NextAdvances` | services/gateway/internal/pbwire/pbwire.go:92-126 | The reader only moves forward and stays within its input |
| `PbWire.NextExtends` | services/gateway/internal/pbwire/pbwire.go:92-126 | Which field is read first does not depend on what follows it |
| `WireLiterals.TagBytes` | services/gateway/internal/pbwire/pbwire.go:12-17 | Below field number 16 a tag is one byte, 8 num for a number and 8 num + 2 before a length |
| `WireLiterals.NumberFollows` | services/gateway/internal/pbwire/pbwire.go:96-103 | After a tag 8 num the reader gives the number that follows |
| `WireLiterals.LengthFollows` | services/gateway/internal/pbwire/pbwire.go:104-109 | After a tag 8 num + 2 it gives as many bytes as announced, and refuses more than 2^31 - 1 or more than there are |
| `WireLiterals.FixedSkipped` | services/gateway/internal/pbwire/pbwire.go:110-119 | A tag 8 num + 1 is skipped with 8 bytes, 8 num + 5 with 4 |
| `WireLiterals.OthersRefused` | services/gateway/internal/pbwire/pbwire.go:110-121 | Tags ending in 3, 4, 6 and 7 and fixed-width fields that are cut off are malformed |
| `WireLiterals.Examples` | services/gateway/internal/pbwire/pbwire.go:28-58 | The examples of the encoding document, written and read: 08 96 01, and 12 07 "testing" |
| `PbMessage.FieldCount` | services/gateway/internal/pbwire/pbwire.go:92-126 | Reading arbitrary bytes ends after at most half as many fields as bytes |
| `PbMessage.WriteReadInverse` | services/gateway/internal/pbwire/pbwire.go:37-126 | Reading any sequence of writes gives exactly the fields that were not omitted, in order |
| `PbMessage.FoldConcat` | services/gateway/internal/pbwire/pbwire.go:92-126 | Folding a buffer that ends at a field boundary and then another is folding their concatenation |
| `PbMessage.InsertionInvisible` | services/gateway/internal/pbwire/pbwire.go:90-126 | Any number of fields the reader has no case for, fixed-width ones included and in any encoding it accepts, inserted at any field boundary, change nothing |
| `PbMessage.Buf.AppendVarint` | services/gateway/internal/pbwire/pbwire.go:28-34 | The loop appends the base-128 form |
| `PbMessage.Buf.AppendUint` | services/gateway/internal/pbwire/pbwire.go:37-43 | A number field is appended, or nothing for zero |
| `PbMessage.Buf.AppendRaw` | services/gateway/internal/pbwire/pbwire.go:46-51 | A length-delimited field is appended, or nothing when empty |
| `PbMessage.Buf.AppendRawAlways` | services/gateway/internal/pbwire/pbwire.go:54-58 | A length-delimited field is appended even when empty |
| `PbMessage.Reader.TakeVarint` | services/gateway/internal/pbwire/pbwire.go:66-80 | The loop consumes one varint, or fails when it is cut off or longer than ten bytes |
| `PbMessage.Reader.NextField` | services/gateway/internal/pbwire/pbwire.go:92-126 | The loop skips fixed-width fields and consumes one field, or reports a clean end, or an error |
| `EngineClient.EncodeWord` | services/gateway/internal/engineclient/engineclient.go:94-102 | A number is refused exactly when it is negative or at least 2^256; nil is the empty string |
| `EngineClient.EncodeSlot` | services/gateway/internal/engineclient/engineclient.go:114-122 | A storage slot is written by the schema, or refused exactly when its value is out of range |
| `EngineClient.EncodeAccount` | services/gateway/internal/engineclient/engineclient.go:104-125 | An account with its nested slots is written by the schema, or refused exactly when it holds a number out of range |
| `EngineClient.Encode` | services/gateway/internal/engineclient/engineclient.go:128-157 | A request is refused exactly when it holds a number out of range anywhere; otherwise it is written by the schema |
| `WireLiterals.RequestStart` | services/gateway/internal/engineclient/engineclient.go:137-142 | A request for a small chain id begins 08, the chain id, 12, 14 and the sender's bytes |
| `WireLiterals.WordLimit` | services/gateway/internal/engineclient/engineclient.go:94-102 | A number is accepted exactly from 0 up to 2^256 - 1, in figures |
| `EngineRequest.RequestRead` | contracts/proto/chainforge/engine/v1/engine.proto:14-38 | Reading the encoded request field by field gives back its message, slots inside accounts inside the request |
| `EngineRequest.RequestRoundTrip` | services/engine/src/sim.rs:32-86 | Every accepted request passes the engine's length checks and means to the engine what the client meant: nil numbers are 0, a missing recipient is a creation |
| `EngineClient.DecodeLogLoop` | services/gateway/internal/engineclient/engineclient.go:168-186 | The log decoder's loop is the fold over the message's fields |
| `EngineClient.DecodeChangeLoop` | services/gateway/internal/engineclient/engineclient.go:188-207 | The balance-change decoder's loop is the fold over the message's fields |
| `EngineClient.ApplyField` | services/gateway/internal/engineclient/engineclient.go:221-259 | What one field does to the result, errors included |
| `EngineClient.DecodeLoop` | services/gateway/internal/engineclient/engineclient.go:210-265 | The decoder's loop is the fold over the response's fields, and a response without an outcome is an error |
| `ResponseMeaning.DecodeExactly` | services/gateway/internal/engineclient/engineclient.go:210-265 | On arbitrary bytes: a result is returned exactly when all bytes are read as fields, every field is acceptable (nested logs and changes read as whole fields, every address of 20 bytes, every outcome one of the three) and an outcome occurs; and then every part of it is what the last field of its number says, or all of them in order |
| `ResponseMeaning.LogExactly` | services/gateway/internal/engineclient/engineclient.go:168-186 | The same for a log: its address and data are the last given, its topics all of them in order |
| `ResponseMeaning.ChangeExactly` | services/gateway/internal/engineclient/engineclient.go:188-207 | The same for a balance change |
| `EngineResponse.ResponseRoundTrip` | services/gateway/internal/engineclient/engineclient.go:210-265 | Decoding what the engine writes in schema order gives back the result, with all nested logs and balance changes |
| `EngineResponse.LogRead` | services/gateway/internal/engineclient/engineclient.go:168-186 | A log is read back as written, with all its topics |
| `EngineResponse.ChangeRead` | services/gateway/internal/engineclient/engineclient.go:188-207 | A balance change is read back as written, as 32-byte words |
| `EngineResponse.ExtraUnknown` | services/gateway/internal/engineclient/engineclient.go:221-259 | Unknown are: a field of an unused number, a known number with another wire type, and every fixed-width field |
| `EngineResponse.FattenedSame` | services/gateway/internal/engineclient/engineclient.go:221-259 | Unknown fields at any field boundary, of the response or of a nested log or change, leave the result or the error as it was |
| `EngineResponse.ForwardCompatible` | services/gateway/internal/pbwire/pbwire.go:90-126 | Any number of such insertions, at all levels, one after another |
| `Rlp.DecodeEncode` | crates/chaincore/src/rlp.rs:5-41 | A decoder after Appendix B of the Yellow Paper, given an encoded item of any nesting and any suffix, recovers both |
| `Rlp.EncodeDecode` | crates/chaincore/src/rlp.rs:5-41 | Whatever that decoder accepts is the encoding of what it returns: encodings are canonical |
| `Rlp.PrefixFree` | crates/chaincore/src/rlp.rs:5-41 | No encoding is a prefix of another item's |
| `Rlp.HeaderLength` | crates/chaincore/src/rlp.rs:31-40 | The length bytes of a long header are the shortest form, one to eight bytes |
| `WireLiterals.StringExamples` | crates/chaincore/src/rlp.rs:5-12 | Well-known encodings: "dog", the empty string, single bytes, 04 00 |
| `WireLiterals.ListExamples` | crates/chaincore/src/rlp.rs:22-29 | Of the empty list, and of "cat" with "dog" |
| `WireLiterals.LongHeaders` | crates/chaincore/src/rlp.rs:31-41 | Headers at 55, 56 and 1024 bytes, of strings and of lists |
| `Rlp.StripPadded` | crates/chaincore/src/rlp.rs:16-20 | Stripping the fixed-width form of an integer leaves its shortest form |
| `LegacyTx.PreimageEncoded` | crates/chaincore/src/tx.rs:27-44 | The signing preimage is the encoding of nine strings: six base fields, the chain id and two empty ones |
| `LegacyTx.RawEncoded` | crates/chaincore/src/tx.rs:47-57 | The raw transaction is the encoding of nine strings: six base fields, v and the stripped scalars |
| `LegacyTx.PreimageInjective` | crates/chaincore/src/tx.rs:27-44 | Equal signing preimages: equal transactions in every field, including a missing recipient |
| `LegacyTx.RawAsPreimage` | crates/chaincore/src/tx.rs:40-57 | A raw transaction equals a signing preimage exactly when both scalars are zero and the preimage has the same base fields under chain id v; so never when a scalar is non-zero |
| `LegacyTx.SignedRoundTrip` | crates/chaincore/src/tx.rs:47-57 | Decoding the raw transaction recovers every field, both scalars at full width, and chain id and recovery id from v |
| `TxExample.PreimageExample` | crates/chaincore/src/tx.rs:39-44 | The worked example of EIP-155: the 45 bytes that are hashed |
| `TxExample.RawExample` | crates/chaincore/src/tx.rs:46-58 | The same with its published signature: the 110 bytes of the raw transaction |
| `LegacyTx.VOf` | crates/chaincore/src/tx.rs:49 | v stays below 2^128 for every chain id, and chain id and recovery id can be read off it |
| `Keccak.Sum256` | services/gateway/internal/keccak/keccak.go:59-79 | For every byte string the bits of the result are those of the Keccak-256 digest as FIPS 202 computes it bit by bit: the sponge with rate 1088 over pad10*1 of the message's bits |
| `Fips202.DigestUnique` | services/gateway/internal/keccak/keccak.go:59-79 | That digest is determined by the message |
| `Fips202.BitsDetermine` | services/gateway/internal/keccak/keccak.go:61-67 | Byte strings with equal bits are equal, so the padded buffer is unique |
| `Keccak.Pad` | services/gateway/internal/keccak/keccak.go:61-67 | The buffer is the message with pad10*1 appended, bit for bit, and a whole number of blocks |
| `Keccak.PadIsPad101` | services/gateway/internal/keccak/keccak.go:63-67 | 0x01, zero bytes and a final 0x80 (one byte 0x81 when both fall together) are the bits of pad10*1 |
| `Keccak.AbsorbBlock` | services/gateway/internal/keccak/keccak.go:69-72 | The bits of one block are combined with the first 1088 of the state, which is then permuted |
| `Keccak.Output` | services/gateway/internal/keccak/keccak.go:74-77 | The bits of the digest are the first 256 of the state |
| `Keccak.F1600` | services/gateway/internal/keccak/keccak.go:28-56 | Rewriting one array in place for 24 rounds does to the state's bits what Keccak-p[1600, 24] of section 3.3 of FIPS 202 does |
| `Keccak.ThetaInPlace` | services/gateway/internal/keccak/keccak.go:30-39 | The in-place sweep over five columns is theta on bits |
| `Keccak.RhoPiInPlace` | services/gateway/internal/keccak/keccak.go:40-46 | The in-place chain is rho followed by pi on bits |
| `Keccak.ChiInPlace` | services/gateway/internal/keccak/keccak.go:47-53 | The in-place row step, from a copy of each row, is chi on bits |
| `Keccak.IotaInPlace` | services/gateway/internal/keccak/keccak.go:54 | The table's constant changes the bits that iota changes |
| `LaneBits.RotlBit` | services/gateway/internal/keccak/keccak.go:35-44 | Bit z of a word is bit z + n of the word turned left by n; all positions are modulo 64 |
| `LaneBits.RotlTurns` | services/gateway/internal/keccak/keccak.go:35-44 | So bit z of the turned word is bit (z - n) mod 64 of the word |
| `LaneBits.WordOfBytes` | services/gateway/internal/keccak/keccak.go:70 | The bits of a loaded lane are those of its eight bytes, in order |
| `LaneBits.BytesOfWord` | services/gateway/internal/keccak/keccak.go:76 | The bits of the bytes a lane is written as are its bits |
| `LaneSteps.ThetaBits` | services/gateway/internal/keccak/keccak.go:31-37 | Each bit after the sweep is A[x, y, z] plus the parities of columns (x - 1, z) and (x + 1, z - 1) |
| `LaneSteps.ChiBits` | services/gateway/internal/keccak/keccak.go:51 | Each bit after the row step is A[x] plus (A[x + 1] + 1) A[x + 2] |
| `Keccak.WalkAt` | services/gateway/internal/keccak/keccak.go:25-46 | The table of the chain follows the walk of the rho algorithm |
| `Keccak.WalkTarget` | services/gateway/internal/keccak/keccak.go:26-42 | Each step's target is where pi takes its lane |
| `Keccak.WalkOffset` | services/gateway/internal/keccak/keccak.go:25 | The table of offsets is the triangular numbers modulo 64 |
| `Keccak.StepSource` | services/gateway/internal/keccak/keccak.go:26 | Each of the 24 moving lanes is the source of some step |
| `Keccak.WalkStep` | services/gateway/internal/keccak/keccak.go:26 | A step can be read off its source, so no lane is moved twice |
| `Keccak.RhoLane` | services/gateway/internal/keccak/keccak.go:40-46 | After n steps of rho exactly the lanes of those steps are turned, each once, from its original value |
| `Keccak.MovedStep` | services/gateway/internal/keccak/keccak.go:41-45 | Each step of the chain fills one lane with the right old lane, which no earlier step has overwritten |
| `Keccak.MovedIsPiRho` | services/gateway/internal/keccak/keccak.go:40-46 | After 24 steps every lane has the bits that rho and pi make of the original state |
| `RoundConstants.TableBit` | services/gateway/internal/keccak/keccak.go:16-23 | Each bit of the table of round constants is what the feedback shift register generates, or zero |
| `Breaker.Breaker.Allow` | services/gateway/internal/breaker/breaker.go:43-61 | The answer and the whole new state, for every state and time |
| `Breaker.Breaker.Success` | services/gateway/internal/breaker/breaker.go:64-68 | The whole new state: closed, counter reset, no probe |
| `Breaker.Breaker.Failure` | services/gateway/internal/breaker/breaker.go:71-79 | The whole new state: one more failure, no probe, opened now if it was half-open or the threshold is reached |
| `Breaker.FieldsTellHistory` | services/gateway/internal/breaker/breaker.go:43-79 | After any sequence of calls and (possibly stale) outcomes: closed exactly while the failures since the last success are below the threshold (at least one), half-open and probing exactly while a probe is out, opened when the last failure came in |
| `Breaker.AdmittedExactly` | services/gateway/internal/breaker/breaker.go:43-61 | Who is let through, in terms of the history alone |
| `Breaker.Spacing` | services/gateway/internal/breaker/breaker.go:43-79 | On a monotone clock two admissions between which the breaker is never closed are at least the cooldown apart |
| `Upstream.Pool.constructor` | services/gateway/internal/upstream/upstream.go:45-51 | One new breaker per endpoint |
| `Upstream.Pool.Call` | services/gateway/internal/upstream/upstream.go:54-70 | Endpoints are asked in turn from the round-robin start, each at most once; the answer is the first one given by an endpoint that lets the call in; the call fails exactly when there is none; the breakers up to there have seen exactly this call and the others nothing |
| `Upstream.Pool.Try` | services/gateway/internal/upstream/upstream.go:57-67 | One stop: ask, try, and report success or failure to that breaker only |
| `Upstream.PerEndpoint` | services/gateway/internal/upstream/upstream.go:56-69 | Every endpoint is one of the stops, and its breaker was visited exactly if the call came that far |
| `Upstream.StopIsRemainder` | services/gateway/internal/upstream/upstream.go:57 | The stops are consecutive endpoints modulo the pool's size |
| `Upstream.StopsDistinct` | services/gateway/internal/upstream/upstream.go:56-57 | No endpoint is visited twice in one call |
| `PoolRuns.RunKeeps` | services/gateway/internal/upstream/upstream.go:54-70 | In every interleaving of calls a breaker is half-open exactly while it is probing, and the caller let in as that probe is still waiting for that endpoint |
| `PoolRuns.NoneStuck` | services/gateway/internal/upstream/upstream.go:54-70 | Once all calls have returned no breaker is half-open |
| `PoolRuns.EndpointHistory` | services/gateway/internal/upstream/upstream.go:54-70 | In every interleaving each breaker is where its own calls and outcomes put it |
| `PoolRuns.LetInExactly` | services/gateway/internal/breaker/breaker.go:43-61 | Whether a caller is let in, from what its endpoint has seen in the run so far |
| `PoolRuns.CallsSpaced` | services/gateway/internal/breaker/breaker.go:43-79 | In every interleaving with a monotone clock, two callers one endpoint lets in are at least the cooldown apart if its breaker was not closed in between |
| `LateOutcomes.SecondProbeExactly` | services/gateway/internal/breaker/breaker.go:53-79 | A caller let in as a probe that has not reported is still waiting; another caller is let in meanwhile exactly when some other call has reported to that endpoint since, and the breaker is closed again or, tripped, has no newer probe out and its cooldown since the last failure is over |
| `LateOutcomes.TwoProbesAtOnce` | services/gateway/internal/breaker/breaker.go:71-79 | A run of ten steps on one endpoint after which two probes wait at once and the breaker is half-open |
| `CallAttempts.CallsInTurn` | services/gateway/internal/upstream/upstream.go:54-70 | In every interleaving, for every call: while it asks its i-th stop it has tried exactly the i stops before, each refused or failed; a call that is gone was answered at the last stop it tried, or has tried all |
| `CallAttempts.UnansweredTriedAll` | services/gateway/internal/upstream/upstream.go:54-70 | A call that returned without an answer, whatever others did meanwhile, asked every endpoint exactly once, and each refused it or failed |
| `PoolRuns.CallsEnd` | services/gateway/internal/upstream/upstream.go:56-69 | A call takes at most two steps per endpoint whatever the others do, so it returns |
| `PoolRuns.StartsCounted` | services/gateway/internal/upstream/upstream.go:55 | The counter that says where a call starts is the number of calls begun before it |
| `PoolRuns.StartsDiffer` | services/gateway/internal/upstream/upstream.go:55 | Of any n consecutive calls on n endpoints each starts at its own |
| `PoolRuns.CallIsRun` | services/gateway/internal/upstream/upstream.go:54-70 | A call that nobody interrupts is a run of these steps that leaves the breakers and the counter as the pool's method promises, and ends by reporting success exactly when the method returns an answer |
| `Cache.Cache.Get` | services/gateway/internal/cache/cache.go:35-50 | A live entry is returned and becomes the most recent; an expired one is removed and missed; list and map stay in step |
| `Cache.Cache.Set` | services/gateway/internal/cache/cache.go:53-68 | The entry is stored as the most recent with its new expiry; with a new key and a full cache exactly the least recent one goes |
| `Cache.Cache.Overwrite` | services/gateway/internal/cache/cache.go:57-61 | The existing element is updated in place and moved to the front |
| `Cache.Cache.Insert` | services/gateway/internal/cache/cache.go:62-67 | A new element goes in front, in list and map |
| `Cache.Cache.Evict` | services/gateway/internal/cache/cache.go:63-67 | The back element leaves list and map exactly when there are too many |
| `Cache.Cache.Len` | services/gateway/internal/cache/cache.go:71-75 | The number of entries, never above the capacity |
| `Cache.Cache.SameKeys` | services/gateway/internal/cache/cache.go:16-24 | The map and the recency list hold the same keys, each once |
| `CacheHistory.HitIsLatest` | services/gateway/internal/cache/cache.go:35-50 | A hit returns the value of the key's latest write, and that is younger than the time to live |
| `CacheHistory.YoungMissMeansCrowded` | services/gateway/internal/cache/cache.go:35-68 | A key whose latest write is younger than the time to live is missed only if at least `cap` distinct other keys were written or hit since it was last touched |
| `CacheHistory.CalmMissExactly` | services/gateway/internal/cache/cache.go:35-68 | While no read has met an expired entry, it is missed exactly then |
| `CacheHistory.NeverTooMany` | services/gateway/internal/cache/cache.go:53-68 | At most `cap` entries and no key twice, after any history, any clock and any capacity |
| `CacheHistory.HistoryKeeps` | services/gateway/internal/cache/cache.go:35-68 | For every key and history: its entry is its last write, and the keys ahead of it are among those touched since (exactly those while nothing has expired) |
| `RateLimit.Limiter.Allow` | services/gateway/internal/ratelimit/ratelimit.go:34-50 | The answer, the wait and the whole new table of buckets |
| `RateLimit.AdmittedExactly` | services/gateway/internal/ratelimit/ratelimit.go:34-50 | With a monotone clock a request is admitted if and only if, for every earlier-or-same request of its key, what was admitted from that one on and itself together do not exceed burst + rate * T, T being the time between the two |
| `RateLimit.DenialIsDue` | services/gateway/internal/ratelimit/ratelimit.go:43-49 | So every denial has a window, beginning with a request of the same key, that has no room for one more |
| `RateLimit.WindowBound` | services/gateway/internal/ratelimit/ratelimit.go:34-50 | With a monotone clock a key is admitted at most burst + rate * T times in any window of length T |
| `RateLimit.HistoryAccounted` | services/gateway/internal/ratelimit/ratelimit.go:43-48 | What was admitted since a moment plus what is left is at most the burst plus what has flowed in |
| `RateLimit.RetryAfter` | services/gateway/internal/ratelimit/ratelimit.go:43-49 | After a denial with a promised wait, whatever was denied in between, the next request is admitted exactly when the wait is over and the burst is at least one |
| `RateLimit.PromiseKept` | services/gateway/internal/ratelimit/ratelimit.go:43-49 | With a burst of at least one the promised wait is always kept, to the moment |
| `RateLimit.PromiseBroken` | services/gateway/internal/ratelimit/ratelimit.go:45-49 | With a burst of zero a promised wait of one second is not kept |

## Left out

- Transport, HTTP handlers, gRPC framing, TLS, configuration and process wiring: input and output only.
- `RPCSource`, the Solana source and JSON parsing: the source is any function from call and height to an answer.
- The engine's EVM execution, and the signature itself: r, s and the recovery id are given. The recovery id is 0 or 1, as EIP-155 has it.
- `applyEvent`'s surroundings in the console: hooks, queries and rendering.
- `Run`'s ticker, `Commit` and `Committed`, checksummed addresses, `State` and `Health`: each is settled by reading it.
- Digests of the simulated node: its hash is symbolic, and the byte of it that gives the transaction count is a parameter.
- Named heights of the simulated node ("latest" and the others) and hexadecimal parsing: only the numeric lookup is modelled. A negative reorg depth is not modelled.
- Counters that would wrap after 2^63 or 2^64 steps (the pool's `next`, the salt, subscription ids, failure counts, block timestamps): unbounded here.
- Differences of times saturate in the program after 292 years: exact integers here. The limiter's floating-point rounding and its truncation to nanoseconds: exact reals here, with a positive rate, as the configuration demands (`services/gateway/internal/app/app.go:91-93`).
- Locks: every method is one atomic step, as the program's mutexes make it; the pool, whose calls interleave, is modelled step by step in `PoolRuns`.
- The order in which the log's fan-out visits subscribers is left open, as Go leaves it; how much larger a Go slice grows on append is left open too.
- The difference between a nil and an empty slice, and the partly filled results that the Go decoders return beside an error.
- The `container/list` of the cache is a sequence of element objects; its links are not modelled.
- Loops of one long method are split into helper methods where the proof needs it; their bodies are the program's.

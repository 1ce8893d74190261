# Anvil node: verified model

A Dafny model of the self-contained state machines and codecs of the Anvil BSV overlay node, with proofs about
them. `dafny verify dfyconfig.toml` checks everything.

Where the program changes state in place the model is a class or a method with a loop, proved equal to a
specification function; what the program promises is then proved about those functions, over all inputs and over
all runs.

| file | what it models |
|---|---|
| `Pow.dfy`, `Headers.dfy` | compact targets, proof of work, chain validation, chain work |
| `HeaderStore.dfy`, `HeaderChain.dfy`, `HeaderRuns.dfy`, `HeaderBatches.dfy` | the header store, its indexes, and runs of open, append, rollback and reopen |
| `HeaderSync.dfy` | the block locator and the sync loop |
| `Gossip.dfy`, `DedupKeys.dfy`, `DoublePublish.dfy` | one mesh node, when two envelopes share a deduplication key, and when a double publish is reported |
| `Flood.dfy`, `FloodCopies.dfy`, `FloodCoverage.dfy`, `FloodLimits.dfy` | the flood over any peer graph: how often a link carries an envelope, whom it reaches, and what stops it |
| `MerklePath.dfy` | TSC proofs converted to BRC-74 paths |
| `NoncePool.dfy` | the nonce pool under any interleaving of threads |
| `RateLimit.dfy`, `RateExactly.dfy`, `RateEvictions.dfy`, `PeerSpam.dfy` | both token buckets, exactly what they allow, the eviction of stale ones, and spam warnings |
| `TxWalk.dfy` | the walk over a serialized transaction to one output script |
| `UhrpScript.dfy`, `UhrpTopic.dfy` | push data, UHRP advertisements (BRC-26), the topic manager and its lookup |
| `OverlayKeys.dfy`, `OverlayEngine.dfy`, `OverlaySubmit.dfy` | BRC-22 submission and the overlay index |
| `Watcher.dfy` | the mempool address watcher and its persisted records |
| `Directory.dfy` | the SHIP peer directory |
| `Numbers.dfy`, `Hex.dfy`, `Texts.dfy`, `Wrappers.dfy` | words, byte order, hexadecimal, decimal and colon-joined text, result types |

## What is assumed

- LevelDB is a finite map and its writes succeed; a batch is applied whole. JSON values are stored as values.
- The header hash is any function. Where distinct hashes are needed, it has no collision and no preimage of
  genesis's parent hash among the headers concerned (`HeaderChain.CollisionFree`). Merkle node hashing is any
  function of two hashes.
- The work of genesis is not counted and its proof of work is not checked, as in the program.
- An envelope's validity, an overlay token's validity, the address decoder and the decoding of a raw mempool
  transaction are parameters.
- An envelope's digest is any function of the text `topic:pubkey:payload:timestamp`. Only `FloodCopies.OneCopyExactly`
  asks that no two texts share a digest, and that the broadcaster is not its own peer; the coverage theorems ask that
  the digests of the envelopes in play tell their fields apart, which a digest without collisions does when their
  topics have equally many colons and their pubkeys none (`FloodLimits.PlainEnvelopesAreTold`).
- What a node ingests from peers is counted. A POST is ingested by its own node as well, so there a mixed-case
  envelope that comes back is ingested a second time.
- Broadcasts are not restricted: any node may broadcast any envelope at any time, again and again. Nodes do not evict
  seen digests during a flood, and connections and declared interests stay as they are.
- A UHRP entry's texts are kept byte for byte. Go's JSON encoder replaces invalid UTF-8, so a URL, content type or
  64-byte hash field that is not valid UTF-8 would be stored altered.
- For restart equivalence, transactions with one id have the same outputs.
- Tokens and times of the rate limiters are real numbers; clock readings never go backwards.
- A mutex-protected section of the nonce pool is one atomic step.

## Where the program and its claims part

- `BigToCompact` (`internal/headers/pow.go:116-139`): a target shorter than four bytes loses its lowest byte, since
  the branch for lengths up to 3 shifts by one byte too many; and from 255 bytes on the recorded length can pass 255,
  of which only the low byte is kept. It rounds down correctly exactly for zero, for the targets from 2^24 on whose
  recorded length fits a byte, and for those longer ones whose length and mantissa wrap to the greatest word's
  (`Pow.CompactRoundsDownExactly`). No 256-bit proof of work target is that long.
- `AddHeaders` (`internal/headers/store.go:102-175`): heights are `uint32` and wrap; an accepted batch leaves a chain
  from genesis exactly when its last height fits (`HeaderBatches.HeightsMustFit`).
- `buildLocator` (`internal/headers/sync.go:160-198`): the 32-round limit leaves gaps once the tip passes 2^23 + 18;
  every fork depth is covered within a factor of two exactly up to there (`HeaderSync.LocatorCoverage`).
- `BroadcastEnvelope` (`internal/gossip/manager.go:290-306`) marks the pubkey as it stands while `onData` lower-cases
  it, so a broadcaster recognises its own echo exactly when the pubkey was lower case (`Gossip.OwnEchoIgnored`).
- Deduplication does not bound copies per link by one. `BroadcastEnvelope` never looks at what was seen, so a link
  carries an envelope once for every broadcast over it, and at most once more (`Flood.RunIsSafe`); two broadcasts of a
  new envelope send two copies (`FloodCopies.TwoBroadcastsTwoCopies`). A link carries it at most once after a
  broadcast, whatever follows short of another, exactly when it had not carried it and the pubkey is in lower case, or
  the node had seen it, or no third node could make it forward an envelope with that key
  (`FloodCopies.OneCopyExactly`). With a single broadcast in lower case every link carries it at most once
  (`FloodCopies.OneBroadcastOneCopy`).
- Deduplication crosses topics. The key joins its fields with colons, which topics and payloads may hold: topic `t`,
  pubkey `a` and payload `b:c` have the key of topic `t:a`, pubkey `b` and payload `c`, and whichever comes first
  suppresses the other (`DedupKeys.SharedKeySuppresses`). `DedupKeys.SharedKeyExactly` says when two keys are equal.
- An envelope is marked as seen before it is validated (`internal/gossip/handlers.go:239-255`), so a badly signed copy
  that comes first keeps the valid one out, and not only a third payload does. A flood covers what it can reach exactly
  when no gossiped copy is badly signed and there is at most one rival payload (`FloodLimits.CoversExactly`).
- `BuildUHRPScript` (`internal/overlay/topics/uhrp.go:222-259`) writes lengths as single bytes; its output parses back
  exactly when the URL has at most 255 bytes, the content type at most 75, and there is no content type without a
  URL (`UhrpScript.UhrpRoundTrip`).
- `Submit` (`internal/overlay/engine.go:158-273`): a topic listed twice is processed twice and the second answer
  replaces the first in the STEAK. Listed any number of times more than once, tm_uhrp's STEAK entry loses the removed
  coins exactly when the transaction also advertises and had coins to remove (`UhrpTopic.RepeatedTopicLosesRemovals`).
- `GetOutputsByTopic` (`internal/overlay/engine.go:311-327`) scans by key prefix. Besides its own outputs a query for
  topic `t` returns those of every topic named `t:...`, and a query for a topic named `u:<txid>` returns the outputs of
  that transaction under `u`; nothing else (`OverlayKeys.ScanMatchesExactly`).
- `removeStaleDomainLocked` (`internal/overlay/directory.go:314-334`) scans the same way: a registration under
  `anvil` deletes another identity's entry of the same domain under `anvil:mainnet`. `ShipDirectory.RegisterFrame`
  says exactly which entries are lost. The directory's own invariants hold whatever the names.
- The watcher (`internal/mempool/watcher.go`) is restart-equivalent on every run over a set of addresses exactly when
  no two of them spell one hash (`MempoolWatcher.RestartEquivalentExactly`); with two spellings a spent output can come
  back after a restart (`MempoolWatcher.SecondSpellingResurrects`). A hash has a mainnet and a testnet spelling: that of
  twenty zero bytes is `1111111111111111111114oLvT2` and `mfWxJ45yp2SFn7UciZyNpvDKrzbhyfKrY8`. Which prefixes are
  accepted is up to the decoder `Add` calls, `script.NewAddressFromString` of go-sdk, which is not part of this model.
- `extractOutputScript` (`internal/content/serve.go:380-432`) slices before it checks in the input loop and adds
  unchecked 64-bit lengths to the position. The model returns `Panics` where the code would slice out of range;
  `TxWalk.PanicsExactly` says when, for all bytes. Where no length leads past the largest int, it is exactly when the
  transaction ends inside the 36-byte outpoint of an input it promises (`TxWalk.PanicsOnCutOutpoint`);
  `TxWalk.ShortTransactionPanics` gives ten such bytes. No well-formed transaction is affected
  (`TxWalk.ExtractsFromWellFormed`).

## Model

| member | source | states |
|---|---|---|
| `Hex.EncodeDecode` | internal/overlay/topics/uhrp.go:134 | decoding the hexadecimal of any bytes gives the bytes back, with no error |
| `Hex.DecodeEncode` | internal/overlay/topics/uhrp.go:223 | a string that decodes is the encoding of its bytes up to letter case |
| `Texts.DecimalReadsBack` | internal/overlay/engine.go:390-392 | the decimal text of a number reads back as that number, in digits alone and without leading zeros |
| `Pow.ReadMantissa` | internal/headers/pow.go:120-130 | the mantissa is the three leading bytes, or what the padded short branch makes of fewer |
| `Pow.CompactMeans` | internal/headers/pow.go:34-52 | 256^3 times the target of a compact word is its low 23 bits times 256 to the power of its top byte, rounded down to a whole target, and the target is negative only with bit 23 set |
| `Pow.BigToCompact` | internal/headers/pow.go:116-139 | the method computes the compact form used by all theorems below |
| `Pow.CompactIsGreatest` | internal/headers/pow.go:116-139 | an encodable target is rounded down to the greatest target any compact word denotes at or below it |
| `Pow.CompactRoundsDownExactly` | internal/headers/pow.go:116-139 | for every target this rounding is right if and only if the target is 0, or has four bytes or more and a recorded length that fits a byte, or has more than 255 bytes, a recorded length of 255 modulo 256 and the mantissa 0x7fffff |
| `Pow.GreatestWord` | internal/headers/pow.go:34-52 | no compact word denotes a larger target than 0xff7fffff, and no other as large a one |
| `Pow.SmallTargetLosesAByte` | internal/headers/pow.go:124-127 | every non-zero target below 2^24 is encoded too low: a word strictly closer to it exists |
| `Pow.LengthByteWraps` | internal/headers/pow.go:133-138 | a 255-byte target with its top bit set is encoded as zero |
| `Pow.CompactMonotone` | internal/headers/pow.go:116-139 | encoding and decoding preserves the order of encodable targets |
| `Pow.CompactPrecision` | internal/headers/pow.go:116-139 | the encoding of an encodable target t loses less than t / 2^15 |
| `Pow.CompactIsCanonical` | internal/headers/pow.go:116-139 | what an encodable target is encoded as is canonical |
| `Pow.CompactRoundTrip` | internal/headers/pow.go:34-52 | decoding and encoding a compact word gives it back if and only if it is canonical |
| `Headers.HashToBig` | internal/headers/pow.go:56-64 | the in-place reversal computes the number the hash bytes denote, least significant first |
| `Headers.ValidatePow` | internal/headers/pow.go:13-26 | a header passes if and only if 0 < target and hash value <= target, where both are the numbers its bits and its hash bytes denote |
| `Headers.PassingBelowCount` | internal/headers/pow.go:13-26 | for a positive target t the passing values among the first n are 0 to t, min(t + 1, n) of them, and for another target there are none |
| `Headers.HashesAreValues` | internal/headers/pow.go:56-64 | every hash denotes one of the 2^256 values and every one of them is denoted by a hash |
| `Headers.WorkIsQuotient` | internal/headers/pow.go:92-103 | for a positive target the work is the one number w with w (target + 1) <= 2^256 < (w + 1) (target + 1) |
| `Headers.WorkIsExpectedHashes` | internal/headers/pow.go:92-103 | the work is 2^256 divided by the number of hash values that pass the target, rounded down, and zero for a target nothing passes or one above every hash |
| `Headers.TotalWorkConcat` | internal/headers/pow.go:106-112 | the work of two runs of headers in a row is the sum of their works |
| `Headers.CumulativeWork` | internal/headers/pow.go:106-112 | the loop computes the sum of the headers' works |
| `Headers.AcceptableMeans` | internal/headers/pow.go:72-88 | a run is acceptable if and only if its first header names the given hash, each later one the hash before it, and each hash value is at most its own positive target |
| `Headers.FaultRejects` | internal/headers/pow.go:72-88 | a run is rejected at its first header that does not link or lacks proof of work |
| `Headers.FirstFaultMeans` | internal/headers/pow.go:75-86 | the fault reported is at the first unacceptable header: a wrong predecessor, or else a target that is not positive or is exceeded |
| `Headers.ValidateHeaderChain` | internal/headers/pow.go:72-88 | it succeeds if and only if each header names the hash before it and has a hash value of at most its own positive target, and otherwise names the first fault |
| `HeaderStore.BuildBatch` | internal/headers/store.go:113-165 | the loop writes the three indexes and adds the work of each header, or refuses the whole batch with the error of the first bad header |
| `HeaderStore.Store.constructor` | internal/headers/store.go:39-72 | opening an empty database stores genesis; opening another restores its tip and work |
| `HeaderStore.Store.AddHeaders` | internal/headers/store.go:102-175 | a batch is accepted if and only if it starts one above the tip, its first header names the stored tip and each later one its predecessor, and each hash value is at most its own positive target; the store then is the specified one, and a refused batch changes nothing |
| `HeaderStore.Store.Rollback` | internal/headers/store.go:186-229 | the rolled-back store is the specified one, or nothing changes when a header to remove is missing |
| `HeaderRuns.ReadersTellChain` | internal/headers/store.go:259-287 | on a store that describes a chain a merkle root is confirmed at a height exactly when the height is at most the tip and the header there has that root, and a hash is found at a height exactly when the header there has that hash |
| `HeaderRuns.ReadersTellRun` | internal/headers/store.go:259-287 | after any run of batches, rollbacks and reopens both readers so answer for one valid chain |
| `HeaderChain.Descent` | internal/headers/store.go:113-165 | in a linked chain from genesis two different heights cannot hold headers of equal hash, by descent to genesis |
| `HeaderChain.ChainHasDistinctHashes` | internal/headers/store.go:113-165 | hence all hashes of a valid chain differ, so the hash index can be an inverse |
| `HeaderChain.BatchWork` | internal/headers/store.go:139-153 | a batch gains exactly the sum of its headers' works |
| `HeaderChain.AcceptableConcat` | internal/headers/pow.go:72-88 | a ++ b is an acceptable run exactly when a is, and b is after a's last hash |
| `HeaderChain.ExtendChain` | internal/headers/store.go:102-175 | a valid chain may be extended exactly by a run acceptable after its last hash |
| `HeaderChain.AddKeepsChain` | internal/headers/store.go:102-175 | on a store that describes a chain, any accepted batch whose heights fit leaves it describing the extended chain, indexes, tip and work |
| `HeaderRuns.RollbackKeepsChain` | internal/headers/store.go:186-229 | after a rollback the store describes exactly the chain up to the given height, with the work of that chain |
| `HeaderRuns.DropWork` | internal/headers/store.go:195-219 | the work a rollback subtracts is the work of the headers it removes |
| `HeaderRuns.FirstOpen` | internal/headers/store.go:322-342 | an empty database opens as the chain of genesis alone |
| `HeaderRuns.ReopenRestores` | internal/headers/store.go:39-72 | closing and reopening restores the in-memory tip and work exactly |
| `HeaderRuns.RunKeepsChain` | internal/headers/store.go:102-229 | after any run of batches, rollbacks and reopens whose heights fit, the store describes one valid chain: nothing above the tip, hash index its exact inverse, merkle index in agreement, both work totals the sum over 1..tip |
| `HeaderRuns.ChainDeterminesStore` | internal/headers/store.go:102-229 | two stores that describe the same chain are the same store |
| `HeaderRuns.RollbackUndoesAdd` | internal/headers/store.go:102-229 | appending an accepted batch and rolling back to the old tip restores the store |
| `HeaderRuns.AddUndoesRollback` | internal/headers/store.go:102-229 | the headers a rollback removed are always accepted again and restore the store |
| `HeaderBatches.BatchesCompose` | internal/headers/store.go:102-175 | a ++ b is accepted exactly when a and then b are, with the same final state |
| `HeaderBatches.AcceptsIsValidation` | internal/headers/pow.go:72-112 | acceptance at tip + 1 is chain validation from the tip's hash, and the gain is the cumulative work |
| `HeaderBatches.WrappedBatch` | internal/headers/store.go:113-165 | a batch whose heights pass 2^32 puts one of its own headers at height 0 |
| `HeaderBatches.HeightsMustFit` | internal/headers/store.go:102-175 | an accepted batch leaves a store that describes some chain if and only if its last height fits in 32 bits |
| `HeaderSync.BuildLocator` | internal/headers/sync.go:160-198 | the locator is the hash of the stored header at each of the locator's heights, in order, or an error exactly when one of them is not stored |
| `HeaderSync.LocatorFrom` | internal/headers/sync.go:160-198 | the 32-round loop visits those heights in that order and appends genesis unless it ended there |
| `HeaderSync.LocatorExactly` | internal/headers/sync.go:160-198 | the k-th entry is k below the tip up to the tenth and then 8 + 2^(k - 9) below it, or genesis; it exists exactly while the entry before it is above genesis, up to the 33rd |
| `HeaderSync.LocatorShape` | internal/headers/sync.go:160-198 | for every tip the locator starts at the tip, strictly descends, ends at genesis and has at most 33 entries |
| `HeaderSync.LocatorIsStored` | internal/headers/sync.go:160-198 | on a store that describes a chain no locator lookup fails |
| `HeaderSync.LocatorCoverage` | internal/headers/sync.go:160-198 | every fork depth d up to the tip has an entry at depth between d and 2d if and only if the tip is at most 2^23 + 18 |
| `HeaderSync.SyncWith` | internal/headers/sync.go:75-120 | against any answers of the peer: success only after a last answer of fewer than 2000 headers, every answer before the last one used had 2000 or more, and a failure is a failed request, an exhausted peer or a refused answer; the store and the rounds are the specified ones |
| `HeaderSync.SyncStops` | internal/headers/sync.go:79-112 | the specified loop stops exactly there, after as many answers |
| `HeaderSync.SyncGains` | internal/headers/sync.go:75-120 | whatever the peer answers, the chain gained is exactly the headers of the answers used, in order, less a refused last one, which would not have continued it; no stored header is missing |
| `HeaderSync.SyncRoundsBounded` | internal/headers/sync.go:79-112 | a sync uses at most one answer more than the full batches that fit above the old tip |
| `HeaderSync.SyncSucceedsExactly` | internal/headers/sync.go:75-120 | a sync succeeds if and only if the first answers are full ones and then a shorter one, whose headers together continue the stored chain |
| `HeaderSync.FullSync` | internal/headers/sync.go:75-120 | with a peer that serves the rest b of a fitting valid chain 2000 headers at a time, a sync ends with the whole chain stored, after floor(b / 2000) + 1 answers |
| `Gossip.Manager.constructor` | internal/gossip/manager.go:139-179 | a new node has seen nothing, has no peers and knows no interests |
| `Gossip.Manager.OnTopics` | internal/gossip/handlers.go:278-288 | from then on the peer is forwarded exactly the topics one of its new prefixes begins, and the other peers' forwarding is unchanged |
| `Gossip.DeclarationDecidesForwarding` | internal/gossip/handlers.go:344-369 | a declaration decides alone whether its peer is a target of a topic, and changes nothing for other peers |
| `Gossip.TargetsExactly` | internal/gossip/handlers.go:344-369 | a peer is a target if and only if it is connected, not the sender and has declared a prefix that begins the topic; where no connected peer has declared anything there is no target |
| `Gossip.Manager.Matches` | internal/gossip/handlers.go:344-369 | a peer matches if and only if it has declared a prefix that begins the topic |
| `Gossip.Manager.ForwardToInterested` | internal/gossip/handlers.go:344-369 | the envelope goes to exactly the connected peers other than the sender that have declared a prefix that begins its topic |
| `Gossip.Manager.Evict` | internal/gossip/handlers.go:240-249 | eviction forgets some digests, half the limit of them or all there are, and nothing else changes |
| `Gossip.Manager.Remember` | internal/gossip/handlers.go:239-250 | both keys are marked, with an eviction of half the limit between the two exactly when the set is full |
| `Gossip.Manager.OnData` | internal/gossip/handlers.go:194-275 | the node's new state and verdict are the specified ones, and only a processed envelope is forwarded, to the interested peers |
| `Gossip.Manager.BroadcastEnvelope` | internal/gossip/manager.go:290-306 | the origin marks the envelope and sends it to all interested peers, or does nothing for one that is not gossiped |
| `DoublePublish.HandleExactly` | internal/gossip/handlers.go:206-262 | what is answered and changed: a duplicate exactly when the key was seen; a report exactly for a new payload of a known identity from another's pubkey, counted before and not yet reported; ingested exactly when processed; every counter, mark and report |
| `DoublePublish.CountersAreRivals` | internal/gossip/handlers.go:220-228 | over any calls the counter of an identity is the number of rival payloads so far, and it is marked as reported from the second on |
| `DoublePublish.ReportedAtSecondRival` | internal/gossip/handlers.go:207-238 | over any calls a double publish is reported if and only if the call brings the second rival payload of its identity |
| `DoublePublish.ReportedOnce` | internal/gossip/handlers.go:216-238 | an identity is reported at most once, and a pubkey of the node itself never |
| `Gossip.OwnEchoIgnored` | internal/gossip/manager.go:290-306 | a broadcaster treats its own envelope as a duplicate if and only if the pubkey is in lower case |
| `Gossip.RawIsData` | internal/gossip/manager.go:296 | the key marked by a broadcast is the key looked up on arrival if and only if the pubkey is in lower case |
| `DedupKeys.SharedKeyExactly` | internal/envelope/envelope.go:257-260 | with pubkeys free of colons two envelopes share a key if and only if their fields agree, or their timestamps do and the topic of one runs on over the other's pubkey into its payload |
| `DedupKeys.EqualColonsSeparate` | internal/envelope/envelope.go:257-260 | topics with equally many colons never make different envelopes share a key |
| `DedupKeys.SameToANode` | internal/gossip/handlers.go:205-214 | among topics with equally many colons and pubkeys with none, two envelopes share an identity exactly when topic, timestamp and lower-cased pubkey agree, and are duplicates exactly when the payload agrees as well |
| `DedupKeys.SharedKeySuppresses` | internal/gossip/handlers.go:206-223 | once one envelope is handled, another with its key is a duplicate, whatever its topic |
| `DedupKeys.TopicsThatShareAKey` | internal/envelope/envelope.go:257-260 | two topics, pubkeys and payloads with one key |
| `Flood.StepIsSafe` | internal/gossip/handlers.go:194-275 | every broadcast, delivery and drop keeps each node from ingesting a digest twice and every message on a link of its topic |
| `Flood.RunIsSafe` | internal/gossip/handlers.go:194-275 | in every run over any peer graph, with any broadcasts, each node ingests each envelope from its peers at most once, and a directed link carries it once for each broadcast over the link and at most once more |
| `FloodCopies.FloodTerminates` | internal/gossip/handlers.go:194-275 | in every run an envelope arrives at most once per directed link beyond what its broadcasts themselves send |
| `FloodCopies.BroadcastAddsCopy` | internal/gossip/manager.go:290-306 | a broadcast puts one more copy on each link, whatever was sent or seen before |
| `FloodCopies.TwoBroadcastsTwoCopies` | internal/gossip/manager.go:290-306 | two broadcasts of a new envelope put two copies on each link |
| `FloodCopies.SettledCarriesNoMore` | internal/gossip/handlers.go:194-275 | once the node has seen the envelope, or nobody but the link's other end could make it forward one with that key, the link carries no further copy in any run without another broadcast; the first case holds under any digest |
| `FloodCopies.UnsettledCarriesAgain` | internal/gossip/handlers.go:194-275 | otherwise some run without another broadcast makes the link carry one more copy |
| `FloodCopies.OneCopyExactly` | internal/gossip/manager.go:290-306 | after a broadcast the link carries the envelope at most once in every run without another one if and only if it had not carried it and the pubkey is in lower case, or the node had seen it, or no other neighbour could make it forward an envelope, of whatever topic, with the same key text |
| `FloodCopies.KnownGoesOnce` | internal/gossip/manager.go:290-306 | under any digest, a first broadcast of an envelope in lower case or already seen puts the only copy on each link |
| `FloodCopies.OneBroadcastOneCopy` | internal/gossip/handlers.go:194-275 | under any digest, when an envelope in lower case is broadcast once in a run, every directed link carries it at most once and no more copies arrive than there are links |
| `FloodCoverage.RunSpreads` | internal/gossip/handlers.go:194-369 | at every moment of every run, with re-broadcasts, mixed-case pubkeys and one rival payload allowed, each interested link out of a node that has the envelope is served or has it in flight |
| `FloodCoverage.QuiescentFloodCovers` | internal/gossip/handlers.go:194-369 | if no copy is dropped or badly signed and there is at most one rival payload, then once none is in flight every node reachable from a broadcaster along interested links holds the envelope |
| `FloodLimits.PlainEnvelopesAreTold` | internal/envelope/envelope.go:257-260 | a digest without collisions tells envelopes apart whose topics have equally many colons and whose pubkeys have none |
| `FloodLimits.BadCopySuppresses` | internal/gossip/handlers.go:239-255 | a badly signed copy handled first leaves the valid one a duplicate, never ingested |
| `FloodLimits.TwoRivalsSuppress` | internal/gossip/handlers.go:207-238 | after two other payloads the envelope is the third, reported and not ingested |
| `FloodLimits.CoversExactly` | internal/gossip/handlers.go:194-275 | every flood of a valid envelope over a set of envelopes, on any mesh, covers what it can reach if and only if no gossiped copy of it in the set is badly signed and it has at most one gossiped rival payload there |
| `MerklePath.ReverseBytes` | internal/spv/fetcher.go:243-247 | the in-place swap loop leaves the reversed bytes |
| `MerklePath.TscNodeToElement` | internal/spv/fetcher.go:232-241 | a star becomes a duplicate marker and any other node the hash whose reversal it spells, or none if it does not spell 32 bytes; neither is marked as the transaction |
| `MerklePath.TscToPath` | internal/spv/fetcher.go:194-229 | the level loop builds the specified path |
| `MerklePath.PathShape` | internal/wallet/scanner.go:428-498 | one level a node, level 0 sorted by offset, level k holding the sibling of index >> k |
| `MerklePath.TransactionIsMarked` | internal/spv/fetcher.go:199-226 | exactly one element is marked as the transaction, at its own offset on level 0, and it holds the txid; besides it level k holds exactly the k-th node of the proof, at the sibling offset |
| `MerklePath.ConversionKeepsRoot` | internal/spv/fetcher.go:194-229 | for every tree of two leaves or more and every leaf, the BRC-74 root of the converted TSC branch is the tree's root |
| `NoncePool.Pool.constructor` | internal/api/nonce_pool.go:24-39 | a new pool is empty with nobody minting |
| `NoncePool.Pool.Take` | internal/api/nonce_pool.go:43-68 | the last pooled nonce is taken and the rest kept, or none when the pool is empty; a replenisher is asked for exactly when one was taken and fewer than a quarter of the pool size are left |
| `NoncePool.Pool.TryEnter` | internal/api/nonce_pool.go:78-93 | a thread enters only when nobody is minting, and the room it sees is what the pool lacks |
| `NoncePool.Pool.Put` | internal/api/nonce_pool.go:97-107 | a minted nonce is appended to the pool |
| `NoncePool.Pool.Leave` | internal/api/nonce_pool.go:109-111 | the flag is cleared and the pool kept |
| `NoncePool.Pool.Replenish` | internal/api/nonce_pool.go:78-116 | alone, a replenishing thread appends the nonces minted until the room is used or minting fails |
| `NoncePool.SuccessesExactly` | internal/api/nonce_pool.go:96-107 | what is minted is the provider's answers in order up to its first failure |
| `NoncePool.ReadyNonceIsIssued` | internal/api/nonce_pool.go:43-58 | a call that finds a ready nonce issues the last one and starts a replenisher exactly when fewer than a quarter of the pool size are left |
| `NoncePool.EmptyPoolMints` | internal/api/nonce_pool.go:59-68 | a call that finds none issues what it mints and starts a replenisher, or does nothing when minting fails |
| `NoncePool.ReplenisherFills` | internal/api/nonce_pool.go:78-116 | a replenisher that runs undisturbed and whose mints succeed mints exactly what the pool lacks and leaves it full, with the flag clear |
| `NoncePool.EveryInterleaving` | internal/api/nonce_pool.go:43-116 | in every interleaving of any number of threads at most one is in the minting section, the pool never exceeds its size, and each nonce is minted as often as it is pooled, held or issued |
| `NoncePool.NoDoubleIssue` | internal/api/nonce_pool.go:43-116 | a nonce minted once is issued at most once, and once issued is neither pooled nor held |
| `RateLimit.RateLimiter.constructor` | internal/api/auth.go:67-84 | the rate is the given one or 100, and the burst is the rate but at least 10 |
| `RateLimit.RateLimiter.Allow` | internal/api/auth.go:87-111 | the decision and the new bucket are the specified ones, and no other bucket changes |
| `RateLimit.RateLimiter.EvictStale` | internal/api/auth.go:127-140 | exactly the buckets not used for more than 300 seconds are removed, and the others are unchanged |
| `RateLimit.PeerLimiter.AllowPeerMessage` | internal/gossip/manager_seed.go:164-202 | the same token decision under rate 30 and burst 100; a warning exactly when a message is refused, 200 or more were since the last warning, and that was more than 600 seconds ago |
| `RateLimit.RunInRange` | internal/api/auth.go:87-111 | at every step of every run each bucket's tokens lie between 0 and the burst |
| `RateLimit.WindowBound` | internal/api/auth.go:87-140 | in any window of a run, with any evictions, a key is allowed at most burst plus rate times the window's length |
| `RateExactly.AllowedExactly` | internal/api/auth.go:87-140 | a request is allowed if and only if, from every earlier event and from itself, the requests of its key allowed since, and this one, are at most burst plus rate times the time since |
| `RateExactly.FullBurst` | internal/gossip/manager_seed.go:164-202 | of requests at one instant on a new key exactly the first burst are allowed: 100 of a mesh peer, and for HTTP the rate or 100, at least 10 |
| `RateEvictions.EvictionIsUnobservable` | internal/api/auth.go:127-140 | a limiter that evicts at arbitrary times answers every request as one that never does |
| `PeerSpam.ReportsAreSpaced` | internal/gossip/manager_seed.go:182-198 | two warnings about one peer are more than 600 seconds apart, with at least 200 of its messages refused in between |
| `TxWalk.SkipInput` | internal/content/serve.go:392-402 | the body of the input loop moves to the position after the input, or ends the walk as specified |
| `TxWalk.ReadScriptBounds` | internal/content/serve.go:414-423 | the body of the output loop finds the bounds of the output's script, or ends the walk as specified |
| `TxWalk.WalkOutputs` | internal/content/serve.go:408-431 | the output loop returns the script of the requested output as specified |
| `TxWalk.ExtractOutputScript` | internal/content/serve.go:380-432 | on all bytes, well formed or not, the method ends as specified, integer wrap-around included |
| `TxWalk.ReadCompactSize` | internal/content/serve.go:435-459 | a compact size of any of the four widths reads back as its number and width |
| `TxWalk.ReadVarIntExactly` | internal/content/serve.go:435-459 | on any bytes what is read is the compact size they begin with; one cut short reads as zero and takes one byte, and no bytes as zero and none |
| `TxWalk.SkipsAllInputs` | internal/content/serve.go:392-402 | the walk over any number of serialized inputs lands just after them |
| `TxWalk.FindsOutput` | internal/content/serve.go:413-431 | the walk over any number of serialized outputs returns the script of the requested one, or an error |
| `TxWalk.ExtractsFromWellFormed` | internal/content/serve.go:380-459 | for every well-formed transaction, with any compact-size widths, exactly the script of output v comes back when there is one and an error otherwise |
| `TxWalk.InputOutcome` | internal/content/serve.go:392-402 | an input slices out of range if and only if its outpoint does not end inside the transaction, and leads backwards only if its script overflows |
| `TxWalk.InputEnd` | internal/content/serve.go:392-402 | exactly where an input whose outpoint is whole leads, or that it is rejected, lengths past the largest int included |
| `TxWalk.OutputOutcome` | internal/content/serve.go:413-429 | an output slices out of range if and only if its value ends before the transaction begins, or its script, when asked for, overflows |
| `TxWalk.OutputEnd` | internal/content/serve.go:413-429 | exactly the bounds of an output's script, or that it is rejected, lengths past the largest int and scripts that end with the bytes included |
| `TxWalk.PanicsExactly` | internal/content/serve.go:380-432 | on any bytes the walk slices out of range if and only if some input reached has its outpoint cut, the inputs or an output's value end before the transaction begins, or the script asked for overflows |
| `TxWalk.PanicsOnCutOutpoint` | internal/content/serve.go:392-402 | where no length leads past the largest int, it does so if and only if the transaction ends inside the outpoint of an input it promises |
| `TxWalk.ShortTransactionPanics` | internal/content/serve.go:392-402 | ten bytes on which it does |
| `UhrpScript.ParsePushDataFields` | internal/overlay/topics/uhrp.go:161-212 | the position loop returns the fields of the recursive specification |
| `UhrpScript.NextPush` | internal/overlay/topics/uhrp.go:165-206 | each opcode's field starts and ends where the specification says, or parsing stops |
| `UhrpScript.ParseInvertsPushes` | internal/overlay/topics/uhrp.go:161-212 | parsing inverts the push encoding of any list of fields, in any form of push, up to where it stops |
| `UhrpScript.ParsedIsPushed` | internal/overlay/topics/uhrp.go:161-212 | conversely every script is the push encoding of exactly the fields parsed from it, followed by where parsing stops |
| `UhrpScript.ParseUHRPOutput` | internal/overlay/topics/uhrp.go:109-157 | the entry is the one the fields advertise, or none |
| `UhrpScript.AdvertisedExactly` | internal/overlay/topics/uhrp.go:109-157 | a script advertises an entry if and only if it is OP_FALSE OP_RETURN and pushes of the protocol name, a hash of 32 bytes (taken as hex) or 64 characters (taken as they are), and perhaps a URL, a content type and more, up to where parsing stops |
| `UhrpScript.BuildUHRPScript` | internal/overlay/topics/uhrp.go:222-259 | a script is built exactly for 32 bytes of hex, and is these bytes: the fixed prefix, the hash, the URL and the content type, each behind its length byte, or PUSHDATA1 and length byte for a URL of more than 75 |
| `UhrpScript.UhrpRoundTrip` | internal/overlay/topics/uhrp.go:109-259 | the built script parses back to the lower-case hash, URL and content type if and only if the URL has at most 255 bytes, the content type at most 75, and an empty URL goes with an empty content type |
| `OverlayKeys.OutputKeyInjective` | internal/overlay/engine.go:390-392 | different topics or outputs never share a key, whatever the topics' names |
| `OverlayKeys.ScanMatchesExactly` | internal/overlay/engine.go:311-327 | a topic's prefix matches a key if and only if the key is of that topic, of a topic whose name continues it after a colon, or of the topic and txid the name spells |
| `OverlayEngine.Engine.FindSpentUTXOs` | internal/overlay/engine.go:409-429 | the map holds, by input index, exactly the admitted outputs the inputs spend |
| `OverlayEngine.Engine.SortByInput` | internal/overlay/engine.go:186-196 | the topic manager is shown those outputs in increasing order of input |
| `OverlayEngine.Engine.RemapToInputIdx` | internal/overlay/engine.go:234-245 | the result is an input whose matched output is the asked one, and there is none only if no input matches |
| `OverlayEngine.Engine.StoreAdmitted` | internal/overlay/engine.go:208-230 | every admitted index is stored with its script, value and metadata, in order |
| `OverlayEngine.Engine.RemoveCoins` | internal/overlay/engine.go:247-258 | every in-range removed coin is deleted under this topic |
| `OverlayEngine.Engine.SubmitTopic` | internal/overlay/engine.go:176-269 | one topic's new index and STEAK entry are the specified ones, whatever order the map is searched in |
| `OverlayEngine.Engine.Submit` | internal/overlay/engine.go:158-273 | the index and STEAK after all topics are the specified ones, and every record stays under its own key |
| `OverlayEngine.Engine.GetOutputsByTopic` | internal/overlay/engine.go:311-327 | the outputs are exactly the unspent records whose key has the topic's prefix, each once |
| `OverlaySubmit.TopicEffect` | internal/overlay/engine.go:198-259 | after an answer the topic holds what it held and what was admitted, less the coins removed; a record is unchanged, or holds the output's own outpoint, script, value and metadata, unspent |
| `OverlaySubmit.RetainedCoinStays` | internal/overlay/engine.go:247-267 | a coin only retained stays in the index |
| `OverlaySubmit.PreviousAreInputs` | internal/overlay/engine.go:182-196 | the k-th previous output is the one spent by the k-th spending input |
| `OverlaySubmit.RemappedNamesInputs` | internal/overlay/engine.go:232-267 | remapping keeps the order of the coins and names exactly the inputs behind them |
| `OverlaySubmit.SteakNamesSpendingInputs` | internal/overlay/engine.go:232-269 | in the STEAK the admitted outputs and their metadata are the answer's own, and each removed or retained coin stands as the input that spends it |
| `OverlaySubmit.OtherTopicsUntouched` | internal/overlay/engine.go:176-269 | a submission to one topic leaves every output of the others as it was |
| `OverlaySubmit.TopicSeesItself` | internal/overlay/engine.go:176-269 | what a topic answers and becomes depends on its own outputs alone |
| `OverlaySubmit.TopicsNotListed` | internal/overlay/engine.go:176-269 | a topic that is not listed keeps its outputs and gets no STEAK entry |
| `OverlaySubmit.SubmitIsPerTopic` | internal/overlay/engine.go:158-273 | with no topic listed twice each is treated as if submitted alone, in whatever order |
| `UhrpTopic.Admit` | internal/overlay/topics/uhrp.go:49-91 | it admits exactly the advertising outputs, in increasing order and with their entries, removes every previous coin, retains none, and answers nothing when there is neither |
| `UhrpTopic.StepEffect` | internal/overlay/engine.go:158-273 | after one submission, with any list of topics, an output is live exactly when it was created by it, or was live and not spent by it |
| `UhrpTopic.TopicsStep` | internal/overlay/engine.go:176-269 | the same by the list of topics, however often the topic is listed |
| `UhrpTopic.IndexIsHistory` | internal/overlay/engine.go:158-273 | over any sequence of submissions an output is indexed if and only if the latest one to create or spend it creates it, and its record then holds that output's script, value and advertised entry, unspent |
| `UhrpTopic.RepeatedTopicLosesRemovals` | internal/overlay/engine.go:176-269 | for every list that names the topic more than once, its STEAK entry is the one for naming it once if and only if the transaction advertises nothing or spends no advertisement |
| `UhrpTopic.ListedReply` | internal/overlay/engine.go:176-269 | the STEAK entry for every list of topics, by how often the topic is named |
| `UhrpTopic.UhrpLookupService.Lookup` | internal/overlay/topics/uhrp_lookup.go:33-87 | a hash query lists exactly the scanned outputs with that hash in any case, `all` lists the scan, `hashes` gives for each hash the number of scanned outputs that carry it, anything else is an error |
| `UhrpTopic.UhrpLookupService.Matching` | internal/overlay/topics/uhrp_lookup.go:44-61 | the matches are exactly the listed outputs with the hash, each once |
| `UhrpTopic.UhrpLookupService.CountHashes` | internal/overlay/topics/uhrp_lookup.go:70-84 | each hash is counted as often as it occurs |
| `UhrpTopic.OccurrencesExactly` | internal/overlay/topics/uhrp_lookup.go:70-84 | which is the number of listed outputs whose entry has exactly that hash |
| `UhrpTopic.ScanIsLive` | internal/overlay/engine.go:311-327 | the scan visits the keys of the topic's live outputs and, besides them, exactly those of topics whose names continue this one's after a colon |
| `UhrpTopic.LookupHasNoStrangers` | internal/overlay/engine.go:311-327 | when the engine serves no topic so named, every record scanned is a live output of the topic |
| `UhrpTopic.LookupIsHistory` | internal/overlay/topics/uhrp_lookup.go:33-60 | a hash query lists an output if and only if the latest submission to create or spend it advertises that hash there |
| `MempoolWatcher.Watcher.constructor` | internal/mempool/watcher.go:72-85 | a new watcher watches nothing, has counted nothing and tracks what the database's unspent records say |
| `MempoolWatcher.Watcher.LoadUTXOs` | internal/mempool/watcher.go:352-369 | every unspent record's outpoint is tracked under the address of such a record, nothing else is, and all are counted |
| `MempoolWatcher.Watcher.Add` | internal/mempool/watcher.go:88-104 | the address is watched under its hash, or refused when it has none |
| `MempoolWatcher.Watcher.Remove` | internal/mempool/watcher.go:107-122 | the address's hash is no longer watched and nothing else changes |
| `MempoolWatcher.Watcher.CheckTx` | internal/mempool/watcher.go:226-317 | an output that pays a watched hash is tracked under its address with an unspent record of its value and script; an input tracked then is tracked no longer and its record names this transaction as spender; both are counted and nothing else changes, and bytes that do not decode change nothing |
| `MempoolWatcher.CheckedExactly` | internal/mempool/watcher.go:226-317 | the specification has exactly this effect for every state and transaction, whatever inputs repeat and whichever outputs it spends itself |
| `MempoolWatcher.PayeeExactly` | internal/mempool/watcher.go:373-383 | a script pays a hash if and only if it is the 25-byte pay-to-public-key-hash script of that hash |
| `MempoolWatcher.Watcher.PersistSpend` | internal/mempool/watcher.go:333-349 | an existing record is marked as spent by the transaction, and a missing one is not created |
| `MempoolWatcher.StepKeeps` | internal/mempool/watcher.go:226-369 | adding, removing, checking and restarting keep memory and records in step and the counters balanced |
| `MempoolWatcher.RebuildIsMemory` | internal/mempool/watcher.go:352-369 | while they are in step any rebuild from the records is the map in memory |
| `MempoolWatcher.RestartEquivalent` | internal/mempool/watcher.go:226-369 | under one spelling for each hash and a fixed meaning of each txid, at every point of every run, restarts included, rebuilding from disk gives exactly the map in memory, and tracked plus spends never exceeds loaded plus hits |
| `MempoolWatcher.SecondSpellingResurrects` | internal/mempool/watcher.go:226-369 | with two spellings of one hash watched in turn, a spent output is tracked again after a restart |
| `MempoolWatcher.RestartEquivalentExactly` | internal/mempool/watcher.go:226-369 | every run over a set of addresses, with txids that determine outputs, is restart-equivalent if and only if no two of the addresses spell one hash |
| `ShipDirectory.Directory.RemoveStaleDomain` | internal/overlay/directory.go:314-334 | exactly the entries under the topic's prefix with this domain and another identity are deleted |
| `ShipDirectory.Directory.AddSHIPPeer` | internal/overlay/directory.go:76-93 | a valid token's entry is stored as seen now under its topic and first 16 identity characters, and of the others exactly those under the topic's prefix with its domain and another identity go; an invalid one changes nothing |
| `ShipDirectory.Directory.AddSHIPPeerFromGossip` | internal/overlay/directory.go:198-219 | a gossiped peer is stored the same way, as discovered and seen now |
| `ShipDirectory.Directory.SweepExpired` | internal/overlay/directory.go:223-251 | an entry stays, unchanged, exactly when it was last seen, or discovered if never seen, within the time to live; the number of the others is returned |
| `ShipDirectory.Directory.CleanupOnBoot` | internal/overlay/directory.go:257-310 | an entry stays, unchanged, exactly when it is that recent and its domain, if it is a local one, is held under the node's own identity; the number of the others is returned |
| `ShipDirectory.Directory.RemoveSHIPPeerByIdentity` | internal/overlay/directory.go:338-359 | exactly the identity's entries go |
| `ShipDirectory.Directory.RemoveSHIPPeer` | internal/overlay/directory.go:154-159 | the entry under this key goes, and none of the topic with this short identity is left |
| `ShipDirectory.RemovePeerExactly` | internal/overlay/directory.go:154-159 | for identities without colons it removes exactly the entry of that topic and short identity |
| `ShipDirectory.KeysSeparateIdentities` | internal/overlay/directory.go:361-367 | when entries stand under their own keys a topic has at most one per 16-character identity prefix |
| `ShipDirectory.RegisterKeepsTidy` | internal/overlay/directory.go:198-219 | registering keeps one entry per domain, and the new identity is then the domain's only holder |
| `ShipDirectory.RunIsTidy` | internal/overlay/directory.go:76-359 | in every reachable directory each topic has at most one entry per domain and one per short identity, whatever names contain colons |
| `ShipDirectory.RegisteredHoldsDomain` | internal/overlay/directory.go:198-219 | just after a registration, in any run, its identity alone holds the domain for the topic |
| `ShipDirectory.ScanReaches` | internal/overlay/directory.go:314-334 | the scan for one topic reaches another's entry if and only if the other name continues the first after a colon |
| `ShipDirectory.RegisterFrame` | internal/overlay/directory.go:314-334 | exactly which other entries a registration deletes, and that the rest are unchanged |
| `ShipDirectory.NestedTopicIsLost` | internal/overlay/directory.go:314-334 | a peer of anvil:mainnet is lost when another identity registers its domain under anvil |

## Left out

- OverlayEngine.Engine.GetOutputsByTopic: the order of the outputs (LevelDB's key order) is not modelled.
- MempoolWatcher.Watcher.LoadUTXOs: key order decides which of two records of one outpoint wins; the contract allows either, and the run theorem shows that under one spelling there is only one.
- FloodCoverage.QuiescentFloodCovers: nodes do not evict during the flood, and envelopes whose keys collide although their fields differ are excluded; `DedupKeys.SharedKeyExactly` says which those are, and what then happens.
- Signatures, SHA-256, BRC-42 derivation, BEEF parsing and verification: foreign libraries; validity and hashing are parameters.
- HTTP handlers, WebSocket and P2P transports, the command line, templates and configuration: input and output only.
- LevelDB and JSON encodings: stored values are modelled as values; keys are modelled as text only where a prefix scan reads them (the overlay index and the directory).
- Eviction of seen digests inside the flood: `Gossip.Manager.Evict` models it for one node; the flood theorems are for nodes that do not evict.
- Rate limits inside the flood: a refused message is a dropped one, which the safety theorems allow and the coverage theorem excludes.
- Catch-up requests and SHIP forwarding between peers: separate message kinds that do not touch the seen set.
- Interests, peers and node membership that change during a flood: the graph of a run is fixed.
- `tryParseOrdinal`, `tryParseBProtocol` and `readPush`: single-pass pattern matches over the script that `TxWalk.ExtractOutputScript` returns.
- The proof loop of `internal/wallet/scanner.go`: the same loop as the fetcher's; one model serves both.
- Hexadecimal node text that is malformed in a TSC proof: `MerklePath.Element` decodes up to the first error as the program does, but the root theorem is for proofs of real trees.
- `Reconcile`: an external UTXO checker decides what is deleted.
- Negative indices from a topic manager, on which `Submit` would panic, and managers that answer differently for equal arguments.
- Errors of a topic manager and a nil answer are one case in `OverlayEngine.Engine.SubmitTopic`: the program skips the topic on either.
- Go's Unicode lower-casing in the lookup: `Hex.ToLower` folds ASCII letters only, which is all a hex hash has.
- Watch notifications, address history and subscriptions of the watcher, and a watcher without a database: fan-out and formatting.
- SLAP provider entries: stored and listed without any rule.
- Data races on the overlay index: `Submit` takes only the read lock, so two submissions may interleave in the program; the model runs one at a time.
- Real-time behaviour and floating-point rounding of the token buckets.
- Error message text.

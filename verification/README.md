# SpeedyColibri, verified

A Dafny model of the parts of the SpeedyColibri inference engine where getting the algorithm right is the
hard part, with proofs of what those parts promise.

* **Tokenizer recovery** (`Bpe`, `MergeRecovery`, `DerivedOrder`, `Training`, `ByteLevel`): rebuilding an ordered merge list
  from a rank table by replaying byte-pair-encoding training, checking it, what every table yields token by token, and the
  byte-level alphabet it is written in. The centre is a lockstep argument between runs under a growing merge list and
  runs under the whole one, and a locality argument that lets the replay be shown to invert training.
* **Expert sharding** (`LoadBalance`, `GrahamTight`, `Permute`, `Sharding`, `Capacity`, `SharingNumbers`, `MapsMade`,
  `Fingerprint`, `FingerprintBytes`): the contiguous map, the heaviest-first load balancer with Graham's bound in its exact
  form and the jobs that attain it, largest-remainder quotas, both maps told from the finished table, which maps the
  capacity-weighted rule makes, the map fingerprint.
* **Expert transport** (`Octets`, `Codec`, `Frames`, `WireLayout`, `Transport`, `TransportSafety`, `TransportCalls`,
  `TransportServer`, `TransportRetry`): the message formats, framing, and client, servers, other parties and a faulty network
  as one transition system.
* **Streaming compressor, Hadamard rotation, sliding window** (`Compressor`, `WindowNumbers`, `Hadamard`, `HadamardEntries`,
  `Windows`): the state carried from prefill to decode and the numbers pooled, the in-place butterfly and its matrix, the ring
  buffer.
* **Sparse attention selection** (`TopK`, `Indexer`): top-k by sorted threshold and two scans; the batched, chunked
  indexer against its per-query definition.
* **Caches and buffers** (`Lru`, `LruAsks`, `Tier`, `Pool`, `PoolSafety`, `PoolLoss`, `ArenaGrant`, `PoolCounters`, `PoolOps`):
  the simulated LRU expert cache and its miss counts, hot-store swaps with hysteresis, the recycling buffer pool under
  concurrency, when it can lose a buffer and when it can grow.
* **Bulk I/O** (`IoRing`, `ShardSelect`, `ShardStream`, `ShardPaths`, `ShardWire`, `ShardShip`, `HeaderReader`,
  `ShardOpened`): the bounded-depth reader, and the shard stream from the selection of tensors to the files received and the
  tensors read back from them.

`Sorting`, `Arithmetic`, `Collections` and `Wrappers` hold what the others share. Loops and updated objects of the
source are methods and classes here, each proved against a specification function; the theorems are about those
functions, or about every run of a transition system. Some modules state again, in elementary terms and without the
specification functions, what a main operation computes: number by number, byte by byte, or from the finished table.
`dafny verify dfyconfig.toml` checks the whole project.

Where the code and its own documentation disagree, the code is followed:

* `crates/colibri-cluster/src/sharding.rs:247-250` says that nodes with matching fingerprints hold the identical map.
  At every size with more maps than 64-bit values two different maps share a fingerprint
  (`Fingerprint.DifferentMapsShareAFingerprint`), and at the usual sizes `capacity_weighted` makes both
  (`Fingerprint.CapacityWeightedMapsCollide`): on two nodes, from 65 experts on (`Fingerprint.TwoNodeMapsCollide`). What
  does hold is `Fingerprint.MovingOneExpertChangesFingerprint`.
* `crates/colibri-cluster/src/net.rs:66-71` multiplies a count by four unchecked, so a message may speak of more values
  than it carries. It carries exactly as many if and only if they are fewer than 2^62 (`Codec.AcceptedBlockIsExactIff`);
  a twelve-byte message that does not is accepted (`Codec.WrappedBlockIsAccepted`).
* `scripts/tiktoken_to_tokenizer_json.py:107-109` describes a token that is already one piece when its turn comes;
  that never happens (`MergeRecovery.NeverAlreadyOnePiece`).
* `crates/colibri-engine/src/dsa.rs:131-133` describes batches from any `pos_base`. A selecting query of a batch that
  does not start at position 0 reaches for a key row the batch does not have (`Indexer.PanicsExactlyWhen`).
* `crates/colibri-core/src/tier.rs:48` asks for a 25% + 4 margin. For heats so large that the 32-bit sum wraps, a
  release build accepts swaps below it: for coldest heat c and hottest outsider h, exactly when c + c/4 + 4 reaches 2^32
  and h exceeds c + c/4 + 4 - 2^32 (`Tier.PickMeetsMarginIff`; `Tier.WrappedBarPingPongs` is an instance).
* `crates/colibri-core/src/quant.rs:340` says `arena_init` returns the bytes claimed; it returns all bytes then
  pooled. The two agree if and only if nothing was pooled before the call (`ArenaGrant.ClaimIsExactIff`,
  `PoolOps.BufferPool.FillArena`); `ArenaGrant.ClaimCountsPooledBuffers` is a reachable state in which they do not. The
  promise at 320-325 that arena memory is never returned does not start with the fill: in any reachable state a kept
  buffer can be lost in some continuation if and only if the mode is off (`PoolLoss.CanBeLostIffModeOff`), a return
  being rejected exactly when the mode is off and a cap is reached (`PoolLoss.ReturnRejectedIff`);
  `PoolSafety.SlotLostBeforeActivation` is such a run.
* `crates/colibri-core/src/quant.rs:320-325` says that an arena cannot allocate past its grant, so that the footprint is
  a constant. It is one over a run if and only if no step allocates a buffer of poolable size
  (`ArenaGrant.ArenaFootprintConstantIff`): so while requests fit a slot and none gives up waiting
  (`ArenaGrant.GrantIsConstantWithinSlots`), but a larger request grows it for good from any state
  (`ArenaGrant.GrowsPastTheGrant`).
* `crates/coli/src/main.rs:1621-1623` looks the selected tensors up by name, which gives the last tensor of a name that
  was declared twice. A peer gets what it wants if and only if any two tensors of one wanted name are equal
  (`ShardShip.ItemsAreWantedIff`, and `ShardShip.SecondCopyReplacesFirst` where it does not).

## Model

| member | source | states |
|---|---|---|
| `Bpe.EncodeLoop` | scripts/tiktoken_to_tokenizer_json.py:114-126 | the scan-and-splice loop ends and returns the pieces the greedy lowest-rank, leftmost-first rule leaves, for any bytes and any merge table |
| `Bpe.ScanPairs` | scripts/tiktoken_to_tokenizer_json.py:118-122 | the inner scan finds the leftmost adjacent pair of lowest rank, if any has one |
| `Bpe.RunKeeps` | scripts/tiktoken_to_tokenizer_json.py:114-126 | encoding loses no byte, makes no empty piece, and stops only where no adjacent pair has a rank |
| `Bpe.RunUnderExtension` | scripts/tiktoken_to_tokenizer_json.py:114-126 | lockstep: under a longer table whose new ranks are all higher, the run first makes exactly the run of the shorter table and then goes on |
| `Bpe.LastMerge` | scripts/tiktoken_to_tokenizer_json.py:117-125 | a run that ends in one piece ended by joining a ranked pair whose halves concatenate to it |
| `Bpe.BestInWindow` | scripts/tiktoken_to_tokenizer_json.py:118-125 | if the globally best pair lies inside a window, it is the best pair of that window alone and merging commutes with cutting the window out |
| `Bpe.Locality` | scripts/tiktoken_to_tokenizer_json.py:114-126 | any run of consecutive final pieces is what encoding some window of the input on its own produces |
| `MergeRecovery.DeriveMerges` | scripts/tiktoken_to_tokenizer_json.py:80-111 | the loop over the rank-sorted table computes, for every table, the fold that records a token's two pieces as a merge or reports it unmergeable; `DerivedOrder.RecoveredExactly` says what that fold is, token by token |
| `MergeRecovery.Verify` | scripts/tiktoken_to_tokenizer_json.py:129-139 | the loop returns exactly the multi-byte tokens that do not collapse to themselves, with their pieces, in table order |
| `MergeRecovery.OrderOfTable` | scripts/tiktoken_to_tokenizer_json.py:99-99 | sorting by rank keeps the keys, keeps them distinct and orders the ranks |
| `MergeRecovery.EncodeKeeps` | scripts/tiktoken_to_tokenizer_json.py:114-126 | a token's pieces concatenate to it, none is empty and none can still merge |
| `MergeRecovery.ReplayedExtends` | scripts/tiktoken_to_tokenizer_json.py:103-105 | in a replayed list no pair occurs twice, so every prefix of the list keeps its ranks in the whole |
| `MergeRecovery.MergedTokenRoundTrips` | scripts/tiktoken_to_tokenizer_json.py:129-139 | every token that got a merge collapses to itself under the complete list, although it was derived under a prefix of it |
| `MergeRecovery.RoundTripNeedsItsMerge` | scripts/tiktoken_to_tokenizer_json.py:136-138 | conversely a multi-byte string collapses to one piece only if some merge makes exactly it |
| `MergeRecovery.DeriveAccounts` | scripts/tiktoken_to_tokenizer_json.py:99-111 | every multi-byte token is either made by exactly one recorded merge or reported unmergeable, never both, and the recorded list is a replayed one |
| `MergeRecovery.NeverAlreadyOnePiece` | scripts/tiktoken_to_tokenizer_json.py:102-110 | a multi-byte token is never already a single piece when its turn comes: the first case of the comment in that branch cannot occur |
| `MergeRecovery.VerifyRejectsExactlyUnmerged` | scripts/tiktoken_to_tokenizer_json.py:80-139 | for every rank table, the tokens `verify` rejects are exactly those `derive_merges` reported as unmergeable |
| `DerivedOrder.DeriveIsDerivation` | scripts/tiktoken_to_tokenizer_json.py:99-111 | for every table of distinct keys: a token that splits in two under the merges of the tokens before it has exactly that pair as its merge, one that splits further is reported, and merges and reports stand in rank order, each token once |
| `DerivedOrder.DerivationIsUnique` | scripts/tiktoken_to_tokenizer_json.py:99-111 | only one list of merges and one of reports explain the tokens in that way |
| `DerivedOrder.RecoveredExactly` | scripts/tiktoken_to_tokenizer_json.py:99-111 | so two lists are what `derive_merges` returns if and only if they explain every token of the rank-sorted table |
| `Training.SegmentIsEncode` | scripts/tiktoken_to_tokenizer_json.py:83-87 | the segmentation a BPE trainer maintains step by step equals encoding the word from scratch with the merges so far |
| `Training.AdjacentPiecesEncodeAlone` | scripts/tiktoken_to_tokenizer_json.py:84-86 | the bytes of two adjacent pieces of any encoded word encode, alone, to exactly those two pieces |
| `Training.TrainedIsReplayed` | scripts/tiktoken_to_tokenizer_json.py:84-87 | each merge of any trained list is what its own token splits into under the merges before it |
| `Training.ReplayDerives` | scripts/tiktoken_to_tokenizer_json.py:99-111 | deriving over the multi-byte tokens in rank order returns a replayed list unchanged and reports nothing |
| `Training.TrainingIsRecovered` | scripts/tiktoken_to_tokenizer_json.py:80-111 | `derive_merges` inverts BPE training: from the rank table alone it returns the trained merges in training order with nothing unmergeable, and `verify` then rejects nothing |
| `ByteLevel.AppendRange` | scripts/tiktoken_to_tokenizer_json.py:60-62 | appending a code range adds exactly its bytes, once each and ascending, after what was there |
| `ByteLevel.ByteToUnicode` | scripts/tiktoken_to_tokenizer_json.py:58-70 | the two-list construction maps each of the 256 bytes to itself when printable, else to 256 plus the number of unprintable bytes below it |
| `ByteLevel.GlyphByRange` | scripts/tiktoken_to_tokenizer_json.py:58-70 | the code point of every byte in numbers: 256 to 288 for bytes up to the space, 289 to 322 for 127 to 160, 323 for 173, the byte itself otherwise |
| `ByteLevel.GlyphInjective` | scripts/tiktoken_to_tokenizer_json.py:58-70 | the byte map is injective and never produces a space |
| `ByteLevel.EncInjective` | scripts/tiktoken_to_tokenizer_json.py:76-77 | no two tokens share an encoded form and no encoded form contains a space |
| `ByteLevel.LineHoldsBoth` | scripts/tiktoken_to_tokenizer_json.py:241-241 | a merge line is the first piece, one space and the second piece |
| `ByteLevel.MergeLineSplitsOneWay` | scripts/tiktoken_to_tokenizer_json.py:241-241 | a merge line `a b` determines the pair: it splits one way only |
| `Sharding.RangeInvertsOwner` | crates/colibri-cluster/src/sharding.rs:197-225 | `range_for` inverts the contiguous `owner`: half-open ranges tile the experts and a range holds exactly its node's experts |
| `Sharding.OwnersInRange` | crates/colibri-cluster/src/sharding.rs:197-204 | every expert has an owner among the nodes, for both kinds of map |
| `Sharding.ExpertSharding.NodeWeights` | crates/colibri-cluster/src/sharding.rs:239-245 | each node's 64-bit total is the load the map puts on it modulo 2^64, and that load itself when the whole weight fits; missing weights count as zero |
| `Sharding.RecordedWeights` | crates/colibri-cluster/src/sharding.rs:239-245 | each expert weighs what the history records for it, and nothing when the history is too short |
| `Sharding.MissingWeighsNothing` | crates/colibri-cluster/src/sharding.rs:239-245 | the experts a short history misses add nothing to any node |
| `Sharding.LightestNode` | crates/colibri-cluster/src/sharding.rs:102-104 | the scan finds the lightest node, the lowest-numbered of those equally light |
| `Sharding.PlaceAll` | crates/colibri-cluster/src/sharding.rs:98-107 | the placement loop sends every expert, in the given order, to the node lightest at that moment, and its 64-bit loads never overflow |
| `Sharding.Balanced` | crates/colibri-cluster/src/sharding.rs:87-109 | the returned map is the heaviest-first greedy one over the recorded weights, contiguous for one node |
| `Sharding.HeaviestFirstIsUnique` | crates/colibri-cluster/src/sharding.rs:84-86 | the greedy map is determined by the weights: every node computes the same table |
| `SharingNumbers.BalancedIffInTurn` | crates/colibri-cluster/src/sharding.rs:87-109 | a table is the balanced one if and only if every expert is on the node that carried least, lowest number first, when all heavier experts and the equally heavy ones of lower id were placed |
| `Permute.HeaviestFirstIsOrder` | crates/colibri-cluster/src/sharding.rs:95-96 | the sort by weight descending, id ascending is an order of all experts with non-increasing weights |
| `Permute.MakespanThroughOrder` | crates/colibri-cluster/src/sharding.rs:95-107 | placing through a permutation leaves every node's load, hence the largest, unchanged |
| `Sharding.BalancedIsNearOptimal` | crates/colibri-cluster/src/sharding.rs:82-84 | the documented 4/3 guarantee in its exact form: 3m times the largest load is at most 4m-1 times the largest load of any assignment of the same weights to m nodes |
| `Sharding.BalancedGap` | crates/colibri-cluster/src/sharding.rs:100-106 | no node ends more than the heaviest single expert above any other |
| `LoadBalance.GrahamBound` | crates/colibri-cluster/src/sharding.rs:82-84 | Graham's bound for heaviest-first greedy against every assignment, for any job list and any number of machines |
| `LoadBalance.LargeJobsFit` | crates/colibri-cluster/src/sharding.rs:100-106 | if the jobs so far all exceed a third of what some assignment achieves, greedy places the next one within that limit |
| `LoadBalance.AverageBound` | crates/colibri-cluster/src/sharding.rs:100-106 | before a job the lightest node is at most average: m times its load plus the job fits in m times any achievable limit |
| `GrahamTight.GrahamBoundIsTight` | crates/colibri-cluster/src/sharding.rs:82-84 | the constant cannot be improved for any number of nodes m: on 2m + 1 jobs the greedy map ends at 4m - 1 where 3m is possible |
| `LoadBalance.LoadsPartitionTotal` | crates/colibri-cluster/src/sharding.rs:239-245 | the node loads of any assignment add up to the total weight |
| `LoadBalance.GreedyIsUnique` | crates/colibri-cluster/src/sharding.rs:101-104 | with ties broken to the lowest node the greedy assignment is unique |
| `Capacity.FloorPass` | crates/colibri-cluster/src/sharding.rs:146-155 | the first quota loop computes the floors and remainders of the exact shares and how many experts the floors use |
| `Capacity.LeftoverReachesPositiveRemainders` | crates/colibri-cluster/src/sharding.rs:157-160 | the experts left over number at most the nodes and go only to nodes with a positive remainder |
| `Capacity.QuotaIsFair` | crates/colibri-cluster/src/sharding.rs:143-160 | topping up the floors by largest remainder gives quotas that sum to exactly the experts, each the floor or ceiling of its exact share, none for a zero share, larger remainders first |
| `Capacity.Quotas` | crates/colibri-cluster/src/sharding.rs:146-160 | the two quota loops compute a quota list with all those properties |
| `Capacity.SomeNodeUnderQuota` | crates/colibri-cluster/src/sharding.rs:170-175 | while experts remain some node is under quota: the `expect` never fails |
| `Capacity.AllQuotasMet` | crates/colibri-cluster/src/sharding.rs:169-179 | once all experts are placed within quota, each node holds exactly its quota |
| `Capacity.PlaceUnderQuota` | crates/colibri-cluster/src/sharding.rs:166-179 | the placement loop sends each expert to the lightest node under quota, never finds none, and fills every quota |
| `Capacity.CapacityWeighted` | crates/colibri-cluster/src/sharding.rs:130-181 | with a capacity signal each node owns exactly its largest-remainder quota, filled heaviest first; without one, or on one node, it is the balanced map |
| `SharingNumbers.CapacityWeightedIffInTurn` | crates/colibri-cluster/src/sharding.rs:166-179 | a table fills given quotas heaviest first if and only if every expert is on the node that carried least at its turn among those still under quota |
| `SharingNumbers.SharesInNumbers` | crates/colibri-cluster/src/sharding.rs:143-160 | with any capacity, each node owns its share of the experts rounded down or up, none without capacity, and a node rounded up had a larger remainder, or the same and a lower number, than any that was not |
| `SharingNumbers.NoCapacityIsBalanced` | crates/colibri-cluster/src/sharding.rs:136-142 | without any capacity, or on one node, it is the balanced map |
| `SharingNumbers.CountIsOwned` | crates/colibri-cluster/src/sharding.rs:228-230 | the count of a node is the number of experts it owns |
| `Fingerprint.ComputeFingerprint` | crates/colibri-cluster/src/sharding.rs:251-265 | the mixing loops compute the FNV-1a hash of the counts and the owner sequence, four little-endian bytes each, modulo 2^64 |
| `FingerprintBytes.FingerprintIsHashOfWords` | crates/colibri-cluster/src/sharding.rs:251-265 | the bytes hashed are any bytes that spell, as little-endian words, the node count, the expert count and the owners in order, from the FNV offset basis |
| `FingerprintBytes.StepInNumbers` | crates/colibri-cluster/src/sharding.rs:253-258 | a step combines only the low byte with the input and multiplies by the FNV prime modulo 2^64 |
| `FingerprintBytes.BitOfXor` | crates/colibri-cluster/src/sharding.rs:255-255 | a bit of the combination is set exactly when one of the two bits is |
| `FingerprintBytes.ReferenceVectors` | crates/colibri-cluster/src/sharding.rs:251-258 | the empty string and "a" hash to the values the FNV-1a reference gives for 64 bits |
| `Fingerprint.MixInjective` | crates/colibri-cluster/src/sharding.rs:253-258 | one step is injective in the 64-bit state for a fixed byte, and in the byte for a fixed state |
| `Fingerprint.OneByteChangesHash` | crates/colibri-cluster/src/sharding.rs:253-258 | two byte strings that differ in exactly one place hash differently from any starting state |
| `Fingerprint.MovingOneExpertChangesFingerprint` | crates/colibri-cluster/src/sharding.rs:251-265 | up to 256 nodes, two same-size maps that differ in exactly one expert's owner have different fingerprints |
| `MapsMade.QuotaIsUnique` | crates/colibri-cluster/src/sharding.rs:143-161 | shares, remainders and the tie-break by node determine every quota |
| `MapsMade.CapacityWeightedIsUnique` | crates/colibri-cluster/src/sharding.rs:125-181 | every node that computes the map from the same capacities and weights gets the same owners |
| `MapsMade.SpreadIsGreedy` | crates/colibri-cluster/src/sharding.rs:163-179 | weights with one big expert per node, spaced further apart than all small ones together, make the under-quota placement fill exactly the assignment they were made for |
| `MapsMade.EveryMapIsMade` | crates/colibri-cluster/src/sharding.rs:130-181 | on two or more nodes, every owner table is what `capacity_weighted` makes of some capacities and some 64-bit weights |
| `Fingerprint.DifferentMapsShareAFingerprint` | crates/colibri-cluster/src/sharding.rs:247-250 | matching fingerprints do not mean identical maps: at every size with more maps than 64-bit values, two different maps share one |
| `Fingerprint.CapacityWeightedMapsCollide` | crates/colibri-cluster/src/sharding.rs:247-250 | and both of them are maps that `capacity_weighted` makes, for inputs that are given |
| `Fingerprint.TwoNodeMapsCollide` | crates/colibri-cluster/src/sharding.rs:247-250 | on two nodes this is so for every number of experts from 65 on |
| `Codec.DecodesToItself` | crates/colibri-cluster/src/net.rs:83-243 | each of the six messages decodes back to itself, whatever bytes follow, when its length fields describe it |
| `Codec.RoundTripIffDescribable` | crates/colibri-cluster/src/net.rs:83-243 | a message survives the wire exactly when its counts fit 32 bits and its block has the byte count the decoder computes in 64 bits |
| `Codec.ExactBlockSurvivesIff` | crates/colibri-cluster/src/net.rs:66-71 | a message with exactly the values its fields speak of survives the wire if and only if there are fewer than 2^62 of them, so that the unchecked byte count does not wrap |
| `Codec.AcceptedBlockIsExactIff` | crates/colibri-cluster/src/net.rs:66-71 | an accepted message of any kind has exactly the values its fields speak of if and only if those are fewer than 2^62 |
| `Codec.WrappedBlockIsAccepted` | crates/colibri-cluster/src/net.rs:166-175 | twelve bytes whose fields speak of 2^62 values are accepted as an empty block |
| `Codec.DecodedWasEncoded` | crates/colibri-cluster/src/net.rs:92-243 | what a decoder returns, encoded again, is byte for byte what it consumed (every kind but the ack) |
| `Codec.NoCrossDecoding` | crates/colibri-cluster/src/net.rs:92-243 | no decoder accepts an encoding of another kind, whatever follows it |
| `Codec.ReadsSelection` | crates/colibri-cluster/src/net.rs:190-218 | the nested per-query selection reads back from its count-prefixed encoding |
| `WireLayout.MessageIsItsWords` | crates/colibri-cluster/src/net.rs:83-243 | every message of any kind is, word by word and little-endian, its kind, its numbers cut to 32 bits, the counts of what follows and that, in the order written here |
| `Frames.FrameReadsBackIffSmall` | crates/colibri-cluster/src/net.rs:247-263 | a written frame reads back exactly when its payload is at most `MAX_FRAME` |
| `Frames.FramesReadBack` | crates/colibri-cluster/src/net.rs:247-263 | a concatenation of frames within the limit reads back as the same list |
| `WireLayout.FrameIsLengthThenPayload` | crates/colibri-cluster/src/net.rs:247-251 | a frame is its payload behind four bytes of length |
| `Frames.Cur.constructor` | crates/colibri-cluster/src/net.rs:49-52 | a new cursor has all its bytes left |
| `Frames.Cur.TakeU32` | crates/colibri-cluster/src/net.rs:54-59 | the cursor returns the next word and moves past it, or returns nothing and stays |
| `Frames.Cur.TakeU32s` | crates/colibri-cluster/src/net.rs:66-77 | the cursor returns the next `n` words, with the byte count computed in wrapping 64-bit arithmetic, or returns nothing and stays |
| `Frames.TakeSelection` | crates/colibri-cluster/src/net.rs:213-218 | the decoder's per-query loop reads what the specification reads |
| `Frames.PutSelection` | crates/colibri-cluster/src/net.rs:190-196 | the encoder's per-query loop appends the count-prefixed positions of each query |
| `Frames.PutAttnRequest` | crates/colibri-cluster/src/net.rs:180-199 | the attention-request encoder writes exactly the specified encoding |
| `TransportSafety.StepKeeps` | crates/colibri-cluster/src/net.rs:333-514 | every step of client, servers, other parties and network keeps the transport invariant |
| `TransportSafety.HandlersRunOnlyAfterMatchingHello` | crates/colibri-cluster/src/net.rs:324-386 | in every run, a handler is called only on a connection whose first frame was a hello carrying the server's fingerprint, whoever opened it |
| `TransportSafety.RequestsOnlyReachTheSameMap` | crates/colibri-cluster/src/net.rs:414-430 | in every run, the client never writes a request frame to a server with another fingerprint |
| `TransportSafety.CallsAreAnsweredByTheirOwnReply` | crates/colibri-cluster/src/net.rs:476-514 | in every run, a returned reply answers the payload of that very call, at most two sends happen per call, a mismatch is real and ends the call, and the loop's final statement is never reached |
| `TransportCalls.CallsAreNumbered` | crates/colibri-cluster/src/net.rs:476-514 | in every run calls end in the order they were made, each with one outcome of its own number |
| `TransportCalls.AnyFaultCanHappen` | crates/colibri-cluster/src/net.rs:414-428 | nothing is assumed of the network or the servers: connections may be refused or reach any server, acks and replies be lost, writes fail with or without delivery, connections be cut anywhere and servers go away |
| `TransportServer.FirstFrameDecides` | crates/colibri-cluster/src/net.rs:345-364 | the first frame decides: a hello with the server's fingerprint is acknowledged and served, another hello is refused with the server's fingerprint, anything else ends the connection unanswered, and no handler is called |
| `TransportServer.LaterFrameDecides` | crates/colibri-cluster/src/net.rs:366-386 | a handler is called, once, exactly for a frame that decodes as one of the two requests, and its reply goes out; any other frame ends the connection |
| `TransportServer.OverStaysOver` | crates/colibri-cluster/src/net.rs:333-386 | in every run, a cut connection carries nothing more either way, and once its server is gone no handler is called on it and no reply goes out |
| `TransportRetry.FirstFailureRetries` | crates/colibri-cluster/src/net.rs:483-511 | a call whose connect, ack, write or read fails at the first attempt is under way again at the second, and a pooled connection that failed is pooled no more |
| `TransportRetry.SecondFailureEnds` | crates/colibri-cluster/src/net.rs:483-513 | the second failure ends the call with an I/O error |
| `TransportRetry.CallEndsAfterTwoFailures` | crates/colibri-cluster/src/net.rs:476-514 | over every run: a call to a known peer ends with an I/O error if and only if exactly two of its own steps failed, and is still under way after one |
| `TransportRetry.AckDecides` | crates/colibri-cluster/src/net.rs:414-492 | an ack that is read puts the connection into the pool and lets the call go on when the fingerprints are equal, and ends the call with the server's fingerprint when not |
| `TransportRetry.ReplyEnds` | crates/colibri-cluster/src/net.rs:501-504 | a reply that is read ends the call with it and leaves the connection pooled |
| `TransportRetry.UnknownPeerEnds` | crates/colibri-cluster/src/net.rs:477-480 | a call to a node that is no peer ends unsent |
| `TransportRetry.FaultFreeCallIsAnswered` | crates/colibri-cluster/src/net.rs:476-514 | when nothing fails, a call to a peer with the same map is sent once and answered with what the handler replied |
| `TransportRetry.VerifiedPeersAgree` | crates/colibri-cluster/src/net.rs:445-458 | verifying goes through every peer in order and succeeds only when every peer has a pooled connection to a server with the client's own map |
| `TransportSafety.RequestFramesCarryTheirPayload` | crates/colibri-cluster/src/net.rs:355-386 | in every run, the frame a server handles for one of the client's calls is that call's payload, and the answer it writes goes out under that call |
| `TransportSafety.EveryCallEnds` | crates/colibri-cluster/src/net.rs:445-514 | each step of the caller's own spends a bounded measure of what the call or verification has left, whatever faults occur, and no other step adds to it |
| `TransportSafety.AlwaysAStep` | crates/colibri-cluster/src/net.rs:414-514 | while a job is under way the caller always has a step of its own |
| `TransportSafety.JobIsBounded` | crates/colibri-cluster/src/net.rs:445-514 | over any run within one job, the caller's own steps number at most what the job had left at its start |
| `TransportSafety.CallTakesAtMostNine` | crates/colibri-cluster/src/net.rs:476-514 | a call takes at most nine steps of the caller, whatever servers, other parties and the network do meanwhile |
| `TransportSafety.JobCanEnd` | crates/colibri-cluster/src/net.rs:445-514 | from anywhere within a job the caller's own steps alone end it, within that bound |
| `TransportSafety.AckIsVerdict` | crates/colibri-cluster/src/net.rs:421-428 | the ack read on a new connection is the server's verdict on the fingerprints, and reading it leaves nothing in flight |
| `TransportSafety.LoopNeverExits` | crates/colibri-cluster/src/net.rs:483-513 | the retry loop never runs out of attempts |
| `Hadamard.ButterflyPair` | scripts/dsv4_ref_vectors.py:77-79 | the innermost loop replaces two neighbouring blocks by their sum and difference, or runs off the end |
| `Hadamard.PassInPlace` | scripts/dsv4_ref_vectors.py:76-79 | one pass in place computes the block sums and differences exactly when the length is a multiple of the pair size |
| `Hadamard.PassDoublesBlocks` | scripts/dsv4_ref_vectors.py:75-80 | a pass turns transformed blocks into transformed blocks of twice the size |
| `Hadamard.RotateActivation` | scripts/dsv4_ref_vectors.py:72-82 | the in-place butterfly computes the scaled Sylvester transform, and ends without an index error exactly for power-of-two lengths |
| `HadamardEntries.RotationEntry` | scripts/dsv4_ref_vectors.py:72-82 | entry by entry: the rotation adds the inputs whose index shares an even number of ones with the entry's, subtracts the others, and scales |
| `Hadamard.TransformTwice` | scripts/dsv4_ref_vectors.py:72-82 | two unscaled applications give the length times the input |
| `Hadamard.TransformScalesDot` | scripts/dsv4_ref_vectors.py:72-82 | one unscaled application multiplies every dot product, so also the sum of squares, by the length |
| `Hadamard.RotationIsOrthogonal` | scripts/dsv4_ref_vectors.py:70-82 | the scaled rotation is its own inverse and preserves every dot product |
| `HadamardEntries.DotByEntries` | scripts/dsv4_ref_vectors.py:105-107 | replacing one entry changes a dot product by the difference times the other side's entry |
| `Indexer.RotationKeepsHeadSum` | scripts/dsv4_ref_vectors.py:105-107 | rotating every query head and the key leaves the index score as it was |
| `Compressor.DecodeCarries` | scripts/dsv4_ref_vectors.py:192-211 | one decode step keeps the carry state and emits exactly the window its token completes |
| `Compressor.PrefillCarries` | scripts/dsv4_ref_vectors.py:170-182 | after a prefill, the state carries exactly what later decode steps read; what it held before does not matter, except that with overlap and less than one block it must still be the fill |
| `Compressor.PooledBlocksAreWindows` | scripts/dsv4_ref_vectors.py:162-190 | the reshapes of `overlap_transform` build the same pooling windows as the per-block definition |
| `Compressor.PrefillEmitsWindows` | scripts/dsv4_ref_vectors.py:170-190 | a prefill emits one window per complete block, in order, with and without overlap |
| `Compressor.DecodeAllEmits` | scripts/dsv4_ref_vectors.py:192-211 | from any state that carries a stream, decoding more tokens one by one emits exactly the windows they complete |
| `Compressor.SplitAnywhere` | scripts/dsv4_ref_vectors.py:153-211 | prefill of any first part and one decode per remaining token emits the same windows, in the same order, as one prefill of the whole |
| `Compressor.RefCompressor.constructor` | scripts/dsv4_ref_vectors.py:154-160 | a new compressor holds zeros and minus infinities |
| `Compressor.RefCompressor.StoreLastBlock` | scripts/dsv4_ref_vectors.py:176-178 | with overlap and a whole block, the last block is stored in the low slots; otherwise nothing changes |
| `Compressor.RefCompressor.StoreRemainder` | scripts/dsv4_ref_vectors.py:179-181 | the rows after the last whole block go to the slots of the current block |
| `Compressor.RefCompressor.StoreTail` | scripts/dsv4_ref_vectors.py:176-182 | the slice assignments leave exactly the specified carry in the state arrays |
| `Compressor.RefCompressor.Prefill` | scripts/dsv4_ref_vectors.py:170-190 | the method leaves the specified state and returns the windows of the whole blocks, or nothing for less than one; `WindowNumbers.PrefillInNumbers` says which numbers those hold |
| `Compressor.RefCompressor.Decode` | scripts/dsv4_ref_vectors.py:192-211 | the method stores the row, returns the completed window if any, and shifts the overlap half, as specified; `WindowNumbers.DecodeInNumbers` says which numbers the window holds |
| `WindowNumbers.WindowsInNumbers` | scripts/dsv4_ref_vectors.py:162-190 | every window, number by number: without overlap the block's rows with their scores plus the positional bias; with overlap the low halves of the block before, or the fill, and the high halves of the block, each with its bias |
| `WindowNumbers.PrefillInNumbers` | scripts/dsv4_ref_vectors.py:170-190 | a prefill returns one window per whole block, and window b holds exactly the numbers of block b |
| `WindowNumbers.DecodeInNumbers` | scripts/dsv4_ref_vectors.py:192-211 | after any prefill and the decodes before it, decoding a token emits a window exactly when it completes a block, and that window holds the numbers of the block |
| `Compressor.PrefillThenDecode` | scripts/dsv4_ref_vectors.py:219-234 | the driver loop that prefills and then decodes collects exactly the windows of the whole stream |
| `Windows.RingRow` | scripts/dsv4_ref_vectors.py:261-268 | decoding a ring buffer slot by slot and sorting gives the last `win` positions up to the query's own |
| `Windows.PrefillRow` | scripts/dsv4_ref_vectors.py:255-257 | the prefill row lists the same sliding window |
| `Windows.RefWindow` | scripts/dsv4_ref_vectors.py:250-269 | prefill and decode rows are the same function of the absolute position |
| `Windows.WindowHolds` | scripts/dsv4_ref_vectors.py:250-269 | a row lists, ascending, exactly the positions up to its own that are fewer than `win` behind it |
| `Windows.SlotOfPosition` | scripts/dsv4_ref_vectors.py:259-267 | each position of the window is the newest of its own ring slot |
| `Lru.LruCache.constructor` | scripts/expert_prefetch_analysis.py:60-60 | a new cache is empty |
| `Lru.LruCache.Resident` | scripts/expert_prefetch_analysis.py:62-63 | an item is resident exactly when it was touched and fewer than `capacity` other items have been touched since |
| `Lru.LruCache.Touch` | scripts/expert_prefetch_analysis.py:65-71 | moving to the end, or appending and evicting the oldest, keeps the dictionary equal to the capacity most recent distinct items, in recency order |
| `Lru.RecentIsByRecency` | scripts/expert_prefetch_analysis.py:65-71 | the recency list holds each touched item once, and what follows an item in it is exactly what was touched since |
| `Lru.TouchKeepsTail` | scripts/expert_prefetch_analysis.py:65-71 | one touch on the truncated list equals truncating the full recency list after the touch, at any capacity |
| `Lru.CachedIffWithinReach` | scripts/expert_prefetch_analysis.py:60-71 | the cache contents are the stack-distance set at every capacity |
| `Lru.LargerCacheHoldsMore` | scripts/expert_prefetch_analysis.py:60-71 | inclusion: whatever a cache holds, a larger one fed the same touches holds too |
| `Lru.AscendingAscends` | scripts/expert_prefetch_analysis.py:76-76 | a token's layers are visited in strictly increasing order |
| `Lru.Access` | scripts/expert_prefetch_analysis.py:77-109 | misses are the items out of reach before any item of the access is touched; then all are touched in order |
| `Lru.Evaluate` | scripts/expert_prefetch_analysis.py:75-116 | the replay counts experts asked for, misses by the stack-distance rule, and accesses, over tokens in order and layers ascending |
| `LruAsks.LayerIsAskedInTurn` | scripts/expert_prefetch_analysis.py:76-80 | each layer of a token is asked for once, as the access after exactly the layers of smaller number, with the layer's own number and its experts as logged |
| `LruAsks.AskedInLogOrder` | scripts/expert_prefetch_analysis.py:75-80 | over the whole log, the access for a layer of a token stands after those of all earlier tokens and of the token's smaller layers |
| `Lru.MissesNeverRise` | scripts/expert_prefetch_analysis.py:75-114 | the miss count never rises as the cache grows |
| `Lru.MissBounds` | scripts/expert_prefetch_analysis.py:75-114 | the miss count lies between the number of distinct items, reached once the capacity covers them, and the number asked for, reached at capacity zero or below |
| `TopK.ScanAbove` | crates/colibri-engine/src/dsa.rs:84-92 | the first scan pushes every position above the threshold; its early exit never cuts it short |
| `TopK.ScanLevel` | crates/colibri-engine/src/dsa.rs:93-100 | the second scan completes the selection with the first positions equal to the threshold |
| `TopK.SortGivesThreshold` | crates/colibri-engine/src/dsa.rs:81-83 | the `keep`-th value of the sorted copy has fewer than `keep` scores above it and at least `keep` scores reaching it |
| `TopK.PushedAreTop` | crates/colibri-engine/src/dsa.rs:84-100 | a position is pushed exactly when fewer than `keep` positions come before it by score descending, position ascending |
| `TopK.SelectTopK` | crates/colibri-engine/src/dsa.rs:68-106 | the result is exactly the positions of rank below `index_topk`, ascending; with `index_topk` zero and a key present it panics |
| `TopK.SelectedIsTopK` | crates/colibri-engine/src/dsa.rs:55-67 | exactly min(nk, index_topk) strictly ascending positions, each ahead of every position left out |
| `TopK.TopKIsUnique` | crates/colibri-engine/src/dsa.rs:55-67 | any ascending list of that length that is ahead of everything it leaves out is the selection |
| `Indexer.IndexerScore` | crates/colibri-engine/src/dsa.rs:35-53 | the nested loops compute the weighted sum of clipped, scaled head products, clipping before weighting; `Indexer.HeadContributes` says what each head adds |
| `Indexer.HeadContributes` | crates/colibri-engine/src/dsa.rs:43-52 | what one head adds to the score: its weighted scaled product when that product is positive, and nothing otherwise |
| `Indexer.ClippedHeadIsIgnored` | crates/colibri-engine/src/dsa.rs:49-50 | a head whose product is not positive may have any weight |
| `Indexer.NoHeads` | crates/colibri-engine/src/dsa.rs:41-52 | without heads the score is nought, so a score is the sum of what its heads add |
| `Indexer.OneHeadPairScore` | crates/colibri-engine/src/dsa.rs:250-254 | a score pairs the query's heads at its position and its own row's weights with the key at the key's position |
| `Indexer.FirstSelectingIsExact` | crates/colibri-engine/src/dsa.rs:169-176 | projecting only rows from `s0` covers exactly the queries with more keys than `index_topk` |
| `Indexer.Project` | crates/colibri-engine/src/dsa.rs:159-191 | the batched projections are, row by row, those of the single queries and keys |
| `Indexer.ScoreRow` | crates/colibri-engine/src/dsa.rs:250-254 | the scoring loop of one query computes its plain per-query scores from the batched rows |
| `Indexer.SelectQuery` | crates/colibri-engine/src/dsa.rs:235-255 | one query's slot gets its per-query outcome: empty when dense, its top keys otherwise, or a panic |
| `Indexer.SelectsByScore` | crates/colibri-engine/src/dsa.rs:235-255 | a selecting query takes a key if and only if fewer than `index_topk` keys score higher, or the same at an earlier position |
| `Indexer.RunThreads` | crates/colibri-engine/src/dsa.rs:223-259 | the chunks, filled in any order, write every query's slot once and miss none |
| `Indexer.IndexerForward` | crates/colibri-engine/src/dsa.rs:140-260 | for any thread count the batched, chunked result is the per-query definition for every query, and it panics exactly if some query does |
| `Indexer.PanicsExactlyWhen` | crates/colibri-engine/src/dsa.rs:235-255 | the run panics exactly when some query selects and the batch does not start at position 0 or nothing may be kept |
| `Indexer.SelectionIsCausal` | crates/colibri-engine/src/dsa.rs:235-255 | from position 0 every selected key is at or before its query, and exactly `index_topk` are selected once there are more keys |
| `Indexer.PrefixSelectsTheSame` | crates/colibri-engine/src/dsa.rs:235-255 | later tokens of the batch never change an earlier query's selection |
| `Indexer.ScalesDoNotMatter` | crates/colibri-engine/src/dsa.rs:39-52 | the two positive scale factors never change which keys are selected |
| `Indexer.SameOrderSelectsTheSame` | crates/colibri-engine/src/dsa.rs:68-106 | scores in the same order select the same positions |
| `Tier.ColdestSlot` | crates/colibri-core/src/tier.rs:27-33 | the scan finds the first pinned slot of least score |
| `Tier.HottestWithHeat` | crates/colibri-core/src/tier.rs:34-46 | the scan finds the first hottest expert that is not pinned, if one has any heat |
| `Tier.HottestOutsider` | crates/colibri-core/src/tier.rs:122-134 | the scan finds the first unpinned expert of largest score, if there is one |
| `Tier.PickSwap` | crates/colibri-core/src/tier.rs:22-57 | the pick replaces the coldest slot by the hottest outsider exactly when it clears the margin as computed in 32 bits, and departs from the documented margin exactly when that sum has wrapped below the hottest outsider |
| `Tier.BarInNumbers` | crates/colibri-core/src/tier.rs:47-51 | the bar is five quarters of the slot's score rounded down plus the constant, and in 32 bits what is left of it |
| `Tier.PickMeetsMarginIff` | crates/colibri-core/src/tier.rs:47-51 | for coldest heat c and hottest outsider h, the 32-bit pick meets the 25% + 4 margin unless c + c/4 + 4 reaches 2^32 and h exceeds what is left of it, and then it does not |
| `Tier.PickLfru` | crates/colibri-core/src/tier.rs:109-145 | the same decision over frequency-then-recency scores with the margin in score units, none when the recency table is short |
| `Tier.LfruInNumbers` | crates/colibri-core/src/tier.rs:67-71 | one use counts 256; a last use less than 255 ticks ago, on a clock that may have wrapped, counts what is left to 255 |
| `Tier.LfruOrder` | crates/colibri-core/src/tier.rs:59-71 | scores order by frequency first; recency only breaks ties, and only among ages below 255, counted by a clock that may have wrapped |
| `Tier.EvictOrder` | crates/colibri-core/src/tier.rs:73-106 | eviction scores order by age first, capped frequency second, across clock wrap-around |
| `Tier.RepeatedPicks` | crates/colibri-core/src/tier.rs:22-57 | repeated at fixed heat: slots stay distinct, no expert is brought in twice or after having been pinned, and there are at most as many swaps as experts outside the store |
| `Tier.SettledWithinMargin` | crates/colibri-core/src/tier.rs:47-51 | once nothing is picked, every unpinned expert is within 25% plus the constant of every pinned one |
| `Tier.SumInAdds` | crates/colibri-core/src/tier.rs:22-57 | the sums compared here add each member of a set once |
| `Tier.SettledIsNearBest` | crates/colibri-core/src/tier.rs:22-57 | a settled store holds at least four fifths of the heat of any other choice of as many experts, less the constant margin per slot |
| `Tier.LiftsIffNoWrap` | crates/colibri-core/src/tier.rs:49-51 | the condition under which the theorem on repeated picks applies to the 32-bit bar: it is at least the heat it starts from, for every heat, exactly when no sum wraps (picks may settle without it) |
| `Tier.LfruLifts` | crates/colibri-core/src/tier.rs:135-139 | the 64-bit margin of the score-based pick never wraps |
| `Tier.WrappedBarPingPongs` | crates/colibri-core/src/tier.rs:49-51 | when the margin wraps, two equally hot experts are swapped back and forth for ever |
| `PoolSafety.StepKeeps` | crates/colibri-core/src/quant.rs:188-627 | every lock-held section, in any interleaving of threads, keeps the pool's invariant |
| `PoolSafety.EveryRunIsSafe` | crates/colibri-core/src/quant.rs:188-627 | in every run the recorded bytes are the pooled capacities, takes and returns balance, every live buffer has exactly one owner, page-locks are on live buffers with matching bytes, and both caps hold until an arena is filled |
| `PoolCounters.CountersTellTheRun` | crates/colibri-core/src/quant.rs:481-624 | in every run the counters are the number of hits, misses, freed rejects and arena slots of the run |
| `PoolCounters.RequestsAreConserved` | crates/colibri-core/src/quant.rs:481-550 | in every run, the requests that met no pooled buffer are, size by size, those served later and those still waiting or allocating |
| `PoolCounters.HitTakesFirstFit` | crates/colibri-core/src/quant.rs:481-500 | a hit lends out the first pooled buffer with room; the last pooled one takes its place and no other moves |
| `PoolCounters.ReturnGoesWhere` | crates/colibri-core/src/quant.rs:593-624 | a returned buffer below one mebibyte is freed, a larger one joins the end of the pool in arena mode or within both caps, and is condemned otherwise |
| `PoolCounters.LockedIff` | crates/colibri-core/src/quant.rs:188-218 | a new buffer is page-locked if and only if hooks are installed, it has a mebibyte or more, the ceiling has room and the driver agrees |
| `PoolSafety.ArenaNeverLosesABuffer` | crates/colibri-core/src/quant.rs:605-613 | once arena mode is on, a poolable buffer stays allocated whatever happens |
| `ArenaGrant.EnlargesIff` | crates/colibri-core/src/quant.rs:320-363 | a step enlarges the memory in buffers of poolable size exactly when it allocates such a buffer for a caller or fills an arena with one |
| `ArenaGrant.PoolableBytesAreConserved` | crates/colibri-core/src/quant.rs:188-627 | in every run, the poolable bytes ever allocated are those still live plus those the drop counter counts |
| `ArenaGrant.ArenaFootprintConstantIff` | crates/colibri-core/src/quant.rs:313-325 | with arena mode on and nothing condemned, the poolable memory grows by exactly what is allocated and is a constant if and only if no step allocates a poolable buffer |
| `ArenaGrant.ArenaRequestAllocatesIff` | crates/colibri-core/src/quant.rs:494-512 | with arena mode on, a request that finds no room goes on to allocate exactly when it is larger than a slot; otherwise it waits |
| `ArenaGrant.GrantIsConstantWithinSlots` | crates/colibri-core/src/quant.rs:313-325 | as long as every request fits a slot and none gives up waiting, the poolable memory is a constant |
| `ArenaGrant.GrowsPastTheGrant` | crates/colibri-core/src/quant.rs:320-325 | from every state with the mode on, a request larger than a slot and than what is pooled enlarges the poolable memory by a buffer that is then never given back |
| `PoolLoss.ReturnRejectedIff` | crates/colibri-core/src/quant.rs:593-624 | a return of poolable size is rejected exactly when arena mode is off and one of the caps is reached |
| `PoolLoss.LostInSomeRun` | crates/colibri-core/src/quant.rs:593-624 | while arena mode is off, any kept buffer is lost in some continuation: borrow everything, fill the pool to its cap, return the buffer |
| `PoolLoss.CanBeLostIffModeOff` | crates/colibri-core/src/quant.rs:320-363 | in any reachable state, a kept buffer can be lost in some continuation if and only if arena mode is off: the promise that arena memory is never returned starts with the mode switch |
| `PoolSafety.SlotLostBeforeActivation` | crates/colibri-core/src/quant.rs:341-363 | a run in which this happens to an arena slot between the fill and the switch: the mode starts with no slot left |
| `PoolSafety.SwapRemoveTakesOne` | crates/colibri-core/src/quant.rs:483-485 | removing by swap takes out exactly one buffer and its capacity |
| `PoolOps.BufferPool.constructor` | crates/colibri-core/src/quant.rs:95-105 | a new pool is empty and satisfies the invariant |
| `PoolOps.BufferPool.Position` | crates/colibri-core/src/quant.rs:483-483 | the scan finds the first pooled buffer with room, or there is none |
| `PoolOps.BufferPool.Acquire` | crates/colibri-core/src/quant.rs:481-513 | the lock-held part of a request is the hit or the miss transition, and a hit lends out a buffer with room |
| `PoolOps.BufferPool.Retry` | crates/colibri-core/src/quant.rs:512-544 | one turn of the arena wait takes a returned slot, changes nothing, or gives up |
| `PoolOps.BufferPool.Allocate` | crates/colibri-core/src/quant.rs:546-550 | a fresh allocation is page-locked when it may be and lent out |
| `PoolOps.BufferPool.PinAlloc` | crates/colibri-core/src/quant.rs:188-218 | a page-lock is taken only with hooks, on a large enough buffer, below the ceiling, when the driver agrees |
| `PoolOps.BufferPool.UnpinAlloc` | crates/colibri-core/src/quant.rs:222-232 | only what was locked is unlocked |
| `PoolOps.BufferPool.Drop` | crates/colibri-core/src/quant.rs:593-619 | a return is pooled in arena mode or within both caps, freed when small, and otherwise rejected |
| `PoolOps.BufferPool.FreeRejected` | crates/colibri-core/src/quant.rs:620-623 | a rejected buffer loses its page-lock before its memory |
| `PoolOps.BufferPool.FillArena` | crates/colibri-core/src/quant.rs:341-361 | the fill adds every slot to the pool and the locks; the size it returns is what this call claimed if and only if nothing was pooled before it, or it was asked for nothing |
| `ArenaGrant.ClaimIsExactIff` | crates/colibri-core/src/quant.rs:340-361 | the pool's bytes after a fill exceed the bytes of its new slots by what was pooled before, and equal them exactly when that was nothing |
| `ArenaGrant.ClaimCountsPooledBuffers` | crates/colibri-core/src/quant.rs:340-361 | a reachable state in which a fill of one slot reports two: one buffer was allocated, returned and pooled before |
| `PoolOps.BufferPool.ActivateArena` | crates/colibri-core/src/quant.rs:362-363 | the mode is switched on as a separate step |
| `ShardSelect.ExpertNameRoundTrips` | crates/coli/src/main.rs:1490-1499 | a checkpoint tensor name gives back the expert id it was made with |
| `ShardSelect.DecimalParses` | crates/coli/src/main.rs:1498-1498 | every 32-bit id parses back from its decimal form |
| `ShardSelect.ParsesIff` | crates/coli/src/main.rs:1498-1498 | what parses as an id is at least one digit, with or without a plus in front, of a value that fits 32 bits |
| `ShardSelect.SelectShardNames` | crates/coli/src/main.rs:1503-1518 | the filter keeps, in order, exactly the names the rank wants |
| `ShardSelect.RanksPartitionExperts` | crates/coli/src/main.rs:1503-1518 | over all ranks every resident tensor goes to each, every expert tensor with an id in range to exactly its owner, and an id out of range nowhere |
| `ShardStream.GroupTensors` | crates/coli/src/main.rs:1624-1638 | the groups tile the tensors in order, each is within the limit or a single tensor, and none could take the next tensor |
| `ShardStream.TakeGroup` | crates/coli/src/main.rs:1630-1636 | the inner loop takes at least one tensor and stops at the first that would pass the limit |
| `ShardStream.PackForPeer` | crates/coli/src/main.rs:1624-1638 | the packing uses the 5 GB limit over the tensors' sizes |
| `ShardStream.PackingIsUnique` | crates/coli/src/main.rs:1624-1638 | sizes and limit determine the packing |
| `ShardStream.BuildHeader` | crates/coli/src/main.rs:1669-1688 | the loop writes the header of the group, entry by entry with a running offset; `HeaderReader.HeaderReads` and `HeaderReader.OffsetsTilePayload` say what a reader finds in it |
| `ShardStream.TensorAtItsOffsets` | crates/coli/src/main.rs:1671-1689 | a tensor's bytes stand in the file behind the header and the bytes of all earlier tensors, which is where `HeaderReader.OffsetsTilePayload` finds its parsed offsets to point |
| `HeaderReader.HeaderReads` | crates/colibri-safetensors/src/lib.rs:687-700 | parsed as the loader parses it, the header is one object with, for each tensor, its name, type, shape and two offsets; a name that comes again keeps its place and takes the last entry |
| `HeaderReader.OffsetsTilePayload` | crates/colibri-safetensors/src/lib.rs:719-728 | the two numbers parsed for each tensor start where those of the one before end, from nought to the payload's length, and the bytes between them are the tensor's |
| `HeaderReader.FileReadsBackIff` | crates/colibri-safetensors/src/lib.rs:676-742 | a packed file opens as exactly the tensors packed into it, with names, types, shapes and bytes, if and only if no name comes twice and none is the reserved one |
| `HeaderReader.OpensAsNoMore` | crates/colibri-safetensors/src/lib.rs:701-742 | and never as more tensors than were packed |
| `ShardPaths.TextsSpelled` | crates/coli/src/main.rs:1493-1499 | the mark in expert names and the keys of the header, as text |
| `ShardPaths.DigitsSpelled` | crates/coli/src/main.rs:1498-1498 | the bytes taken as digits, plus and dot are those characters |
| `ShardPaths.PathSpellsNumber` | crates/coli/src/main.rs:1690-1690 | a packed file's path is its number in at least five digits between prefix and suffix, in exactly five below 100000 |
| `ShardPaths.PathsSortByNumber` | crates/colibri-safetensors/src/lib.rs:671-671 | up to 100000 files, sorting by path opens them in the order they were packed |
| `ShardPaths.SixDigitsSortFirst` | crates/colibri-safetensors/src/lib.rs:659-671 | from 100000 on it does not: file 100000 sorts before file 99999 |
| `ShardWire.Collect` | crates/coli/src/main.rs:1694-1720 | whatever order the reader threads deliver in, each buffer ends at its own tensor |
| `ShardWire.SendGroup` | crates/coli/src/main.rs:1688-1731 | the announced size is the number of bytes sent; a failed read leaves a prefix of the announced file |
| `ShardWire.ServePeer` | crates/coli/src/main.rs:1664-1740 | the stream is the file count and every file if all tensor reads and all metadata copies succeed; otherwise, stopped where a read, an open or a copy failed, it is a prefix of that |
| `ShardWire.CopyChunks` | crates/coli/src/main.rs:1800-1807 | copying in chunks of at most 8 MiB writes exactly the announced bytes, or fails when the stream ends first |
| `ShardWire.PullAll` | crates/coli/src/main.rs:1790-1811 | the receive loop computes the specified reading of the stream |
| `ShardWire.PullReadsBack` | crates/coli/src/main.rs:1664-1811 | a pull of a complete stream writes exactly the files that were streamed, whatever follows |
| `ShardWire.CutStreamFails` | crates/coli/src/main.rs:1791-1811 | a stream cut at any point makes the pull fail |
| `ShardShip.BuildIndex` | crates/colibri-safetensors/src/lib.rs:732-742 | the index maps each name to the last tensor declared under it |
| `ShardShip.FindAll` | crates/coli/src/main.rs:1622-1623 | looking up the selected names gives the tensors found, in order, skipping names without one |
| `ShardShip.ItemsAreWantedIff` | crates/coli/src/main.rs:1621-1623 | what is packed is exactly the wanted tensors, in order, if and only if any two tensors of one wanted name are equal |
| `ShardShip.ShadowedIsNeverShipped` | crates/coli/src/main.rs:1621-1623 | an earlier tensor whose name comes again with another content is sent to no peer |
| `ShardShip.SecondCopyReplacesFirst` | crates/coli/src/main.rs:1621-1623 | two tensors of one resident name and different bytes: every peer wants both and is sent the second twice |
| `ShardShip.ShipShard` | crates/coli/src/main.rs:1620-1811 | end to end, from the snapshot's tensors to the pulled files: whatever reads or copies fail and wherever the connection is cut, the pull fails or writes exactly the files the packing of the selected tensors makes, and it succeeds when nothing failed |
| `ShardShip.ShippedFilesHoldEverything` | crates/coli/src/main.rs:1624-1638 | those files hold every byte of every packed tensor, once and in order |
| `ShardOpened.PulledFilesOpenAsItems` | crates/colibri-safetensors/src/lib.rs:659-742 | the packed files a peer has pulled open, one after another, as exactly the tensors packed for it and in order, if and only if within no file a name comes twice or is the reserved one |
| `WireLayout.FileIsPathThenContent` | crates/coli/src/main.rs:1690-1730 | a file on the stream is its path behind four bytes of length and its content behind eight |
| `WireLayout.StoppedCopyIsCutFrame` | crates/coli/src/main.rs:1733-1738 | a copy that stops leaves the path, the announced size and the content copied so far |
| `WireLayout.StreamIsItsFiles` | crates/coli/src/main.rs:1666-1667 | the stream is the number of files in eight bytes and then the files one after another |
| `ShardWire.PullIsAllOrNothing` | crates/coli/src/main.rs:1664-1811 | whatever reads fail on the server, a pull has either failed or written exactly the intended files |
| `ShardWire.PackingKeepsEveryByte` | crates/coli/src/main.rs:1624-1638 | the packed payloads, one after another, are the selected tensors' bytes, all of them, once, in order |
| `IoRing.Fill` | crates/coli/src/main.rs:2355-2364 | the initial fill submits one read per slot, from slot 0 up, until the depth or the offsets are used up |
| `IoRing.Refill` | crates/coli/src/main.rs:2369-2381 | each completed slot takes the next offset while there is one |
| `IoRing.ReadAll` | crates/coli/src/main.rs:2346-2384 | for any completion order and batch size, the loop ends with every offset submitted in order and completed exactly once |
| `IoRing.NeverMoreThanDepth` | crates/coli/src/main.rs:2354-2381 | at every moment at most `qd` reads are in flight and a read only goes to a free buffer slot |
| `IoRing.ReadsConserved` | crates/coli/src/main.rs:2346-2384 | at every moment the reads submitted are those completed plus those in flight |
| `IoRing.EachOnce` | crates/coli/src/main.rs:2346-2384 | each offset is submitted and completed exactly once |

## Left out

- Sharding.Balanced: assumes that the total recorded weight is below 2^64, as the 64-bit loads do; a larger total would wrap in a release build, and the 4/3 bound says nothing about it.
- MapsMade.EveryMapIsMade: covers the sizes at which its constructed weights fit 64 bits, for m nodes and n experts m * ((m * n + 1) * m + m * n + 1) < 2^64; on two nodes that is every number of experts that fits its 32-bit field.
- Capacity.CapacityWeighted: makes the same assumption about the total weight.
- Capacity.PlaceUnderQuota: makes the same assumption about the total weight.
- Codec.DecodedWasEncoded: does not cover the hello ack, whose decoder reads every non-zero word as acceptance.
- Frames.Cur.constructor: assumes a buffer shorter than half the address space, as any allocated one is.
- Hadamard.RotateActivation: is over exact reals, with the inverse square root of the length as an input; rounding is not modelled.
- Indexer.IndexerScore: is over exact reals with the two scale factors as inputs; heads are rows, not slices of one flat array.
- Indexer.IndexerForward: leaves the row projections (matrix product, layer norm, rotary embedding) as functions of the row and its position; the GPU scoring path is not part of this model.
- TopK.SelectTopK: takes totally ordered scores (no NaN) and positions of any size, where the source narrows them to 32 bits.
- Lru.Evaluate: counts experts, misses and accesses; the predictors' statistics, which do not influence them, are not modelled.
- Tier.PickLfru: pinned slots must name experts of the table, where the source would panic on an index out of range; so must those of `Tier.PickSwap`.
- TransportSafety.RequestFramesCarryTheirPayload: takes frames as sent whole, which holds up to 2^30 bytes (`Frames.FrameReadsBackIffSmall`); a longer one is refused by its reader, and from 2^32 bytes on the length prefix is truncated and the reader sees another frame. Replies likewise.
- ShardWire.ServePeer: assumes that source files do not change while they are streamed and that paths and sizes fit their length fields.
- ShardShip.ShipShard: names are looked up once, for the header and the bytes alike, where the source looks them up again to read; what the metadata directory holds is an input, and a tensor's dimensions are natural numbers.
- HeaderReader.FileReadsBackIff: names and type names are bytes without quotes or backslashes, which the source writes unescaped; the reader knows objects, arrays, plain strings and natural numbers. The loader reads numbers through 64-bit floats, so offsets of 2^53 or more are not covered, nor is its table of known types.
- ShardOpened.PulledFilesOpenAsItems: opens the packed files in their order; `ShardPaths.PathsSortByNumber` says that this is the loader's up to 100000 files.
- FingerprintBytes.ReferenceVectors: two of the published vectors; the step itself is stated for every state and byte.
- ShardWire.PullReadsBack: paths are their UTF-8 bytes; a path that is not valid UTF-8 is never sent.
- IoRing.ReadAll: covers the path on which the ring itself reports no error. The code never looks at a completion's result, so a failed or short read counts as completed here as it does there.
- PoolOps.BufferPool.PinAlloc: takes the ceiling check and the addition as one step; in the source they are two atomics, so the ceiling itself is not claimed under concurrency.
- Compressor.SplitAnywhere: keeps the softmax pooling over a window uninterpreted; it states which rows each output pools, not the floating-point result.
- MergeRecovery.DeriveMerges: the rank table is a list of entries with distinct keys in insertion order, as a Python dict is; reading the table from its file is not modelled.
- TransportSafety.CallsAreAnsweredByTheirOwnReply: frames travel whole; a frame cut off in the middle appears as a failed read, and TCP's byte boundaries are not modelled.
- Sockets, threads, files and clocks appear as byte sequences, nondeterministic steps and inputs; each mutex-held region is one step.
- The arena wait's spin count and sleeps: a waiting request may succeed, wait on or give up at any turn.
- CUDA kernels and their build, HTTP serving, chat templates, model configuration, quantised formats and RAM budgeting.
- Sinkhorn normalisation, routers, perplexity and the other floating-point numerics.
- `local_experts`, `count_for` on tables, `is_dense`, `decay`, `ref_compress` and other one-line accessors, which would only add easy members.

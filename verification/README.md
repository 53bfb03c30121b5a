# Verified models of the DataStax Python driver for Apache Cassandra

A Dafny model of the parts of the driver where the hard promises live, with proofs of those
promises. `dafny verify dfyconfig.toml` checks the whole project.

| area | modules |
|---|---|
| Token ring, replica placement, replica-map cache | `Topology`, `RackSpread`, `NetworkTopology`, `SimpleStrategy`, `TokenMaps`, `TokenMapRaces` |
| Partition-key hash | `Bits`, `Murmur3`, `Murmur3Words`, `Murmur3Values` |
| Number formats | `Bytes`, `Varint`, `Vints` |
| CQL values | `Utf8`, `CqlLeaves`, `CqlWire`, `CqlCodec`, `CqlLayout`, `CqlDecoded`, `CqlMaps`, `CqlSerializers`, `OrderedMaps` |
| Type names | `TypeNames`, `CqlTypeNames` |
| Connection: frames and stream ids | `Frames`, `StreamIds`, `StreamIdRaces` |
| Concurrent execution | `ConcurrentExecution`, `ConcurrentExecutors` |
| Query plans and retries | `Policies`, `Retries`, `ResponseFutures` |
| Ordered containers, user type export | `SortedSets`, `UserTypes`, `Seqs` |

How the models are built:

- Code that updates objects in place is a class or a method with loops, and each such method is
  proved to compute a specification function or to take one step of a state machine; the
  promises are then lemmas about that function or machine. Expressions and recursion are
  functions.
- A region that holds a lock is one atomic step, unless code without the lock touches the same
  state: then every read and write is a step. Theorems about protocols are about every
  finite sequence of steps (`StreamIds`, `StreamIdRaces`, `TokenMaps`, `TokenMapRaces`,
  `ConcurrentExecution`, `Retries`, `Policies`), in any order the steps allow.
- What a specification function computes is said a second time in other terms: positions and bytes
  of a layout, the order in which something was met, a closed form, the last response of a run, or
  the values that the driver's own tests expect.
- Exceptions are `None`, or a constructor of a result datatype.
- Time, randomness, the network and the order in which a `dict` lists its keys are parameters,
  so that the theorems hold for all of them.

Promises that the code keeps only under a condition. The exact condition is proved, and a
failing case is given where the condition does not itself show one:

- `NetworkTopologyStrategy` can list a host twice when it owns several tokens
  (`NetworkTopology.HostListedTwice`), and a token-aware plan then has it twice
  (`Policies.PlanWithAHostTwice`). The replicas of a datacenter are distinct exactly when
  the tokens that were passed over while racks were missing, and that fill the places left, are
  of distinct hosts (`RackSpread.ShareDistinct`, `RackSpread.ShareCount`).
- `get_replicas` hands out the cached list itself, and a token-aware policy that shuffles replicas
  reorders it for everybody. So the cache is transparent up to the order of each list
  (`TokenMaps.CacheIsTransparent`), and exactly so if and only if the policy does not shuffle
  (`TokenMaps.ExactExactlyWithoutShuffling`, `TokenMaps.ShuffleShows`).
- Removing a keyspace does not take the token map's lock, and schema refreshes do not exclude one
  another. The cache is coherent whenever no schema operation is in progress, for all
  interleavings with lookups in which schema operations do not overlap and no cached map is removed
  between a rebuild's read and its write (`TokenMapRaces.TidyRunsStayCoherent`). A removal keeps the
  invariant if and only if it is not such a one (`TokenMapRaces.PopKeepsExactly`); a drop inside a
  rebuild leaves the map of an unknown keyspace behind (`TokenMapRaces.DropInsideRebuildFails`), and
  an update inside an update the map of the wrong strategy
  (`TokenMapRaces.UpdateInsideUpdateFails`).
- `get_request_id` says its caller holds the lock, but `set_keyspace_async` does not. Taken apart
  into its pop, its read, its write and its second read of `highest_request_id`, interleaved with
  everything else, the allocator is sound if and only if the protocol version is below 3 or
  `max_in_flight` is at most 301, so that at most one id is ever grown
  (`StreamIdRaces.SoundExactlyWhen`). Otherwise 300 borrows and one more during the call hand out
  an id twice, on two different schedules, and one of them also loses an id
  (`StreamIdRaces.BothSchedulesBreak`).
- A CQL value does not always survive a round trip. `CqlCodec.RoundTrip` says what comes back
  for every value that can be serialised, and `CqlCodec.ExactRoundTrip` that it is the same
  value exactly when there is no null where blob or text is expected, no short tuple, and no
  unsorted set; `CqlCodec.NullBlobComesBackEmpty` is a failing case.
- A decoded map gives its values only through lookups by the bytes of its keys, so that serialising
  it again looks every key up. The decoded object encodes to the bytes it came from if and only if
  the value was stable (`CqlMaps.EncodesTheSame`): no short tuple, no empty tuple inside a tuple,
  sets in order, and for every map that is not empty: keys comparable, none of them coming back as
  null, and no two entries with the same key bytes and different values. Otherwise it may raise
  (`CqlMaps.CannotSerializeAgain`, `CqlMaps.NullKeyInKeyIsLost`) or write a value twice
  (`CqlMaps.NullAndEmptyKeys`).
- A decoded map does not find a key that was a short tuple under the padded key it shows
  (`CqlMaps.ShortTupleKeyIsLost`). Under protocol versions 1 and 2 it finds nothing at all when its
  keys are lists, sets or maps (`CqlMaps.OldCollectionKeysMiss`, `CqlMaps.KeysFoundExactlyWhen`).
  The shown key leads back to its entry exactly when the keys are comparable and the encoded key is
  stable and does not come back as null (`CqlMaps.DecodedKeyFlattens`).
- The printed name of a type does not carry parameter names, so that reading it back is exact
  for types without them only (`TypeNames.ParsePrintedShape`).
- The token-aware plan loses a live host when a local replica's up flag is stale
  (`Policies.StaleFlagDropsAHost`); it lists exactly the usable hosts if and only if the flags
  of the local replicas agree with the child policy (`Policies.TokenAwareCovers`). It has no
  duplicates if and only if no local replica that is flagged up is given twice
  (`Policies.TokenAwareDistinct`).
- The scanner that picks type names out of a field's CQL type skips `frozen` wherever the rest of the
  text starts with it, and stops at a quote. It finds the types a field uses if and only if none of
  them is quoted and none starts with `frozen` (`CqlTypeNames.ReadsExactlyTheReadable`). For such
  types the export puts each after the types it uses exactly when the uses have no cycle
  (`UserTypes.ExportDeclared`); a type called `frozen_b` is exported too late
  (`UserTypes.FrozenNameOutOfOrder`).
- `NoHostAvailable` need not name every host of the plan in its errors
  (`Retries.OverloadedIsNotRecorded`): a host is missing exactly when every request to it was sent
  and every response of it was overloaded, bootstrapping or a broken connection
  (`Retries.ErrorsName`, `Retries.ErrorsNameEveryHost`). The error of a host is written after the
  retry has been queued, so that it may also be missing for a while (`Retries.ErrorWrittenLate`).

Where the documentation and the code differ the model follows the code: `on_unavailable` of
`RetryPolicy` is documented not to retry, and retries once on the next host;
`DowngradingConsistencyRetryPolicy` is documented to lower the level of a read when more than one
replica responded, and does so from one replica on, and to ignore every other write that some replica
holds, and ignores simple, batch and counter writes only (`Retries.DowngradingDecides`).

## Model

| member | source | states |
|---|---|---|
| `Murmur3.PyMurmur3` | cassandra/murmur3.py:47-110 | For every byte string, the hash in unbounded integers is the one the 64-bit register machine computes; `Murmur3Words` and `Murmur3Values` say what that machine computes. |
| `Murmur3.PyTail` | cassandra/murmur3.py:79-96 | The signed-byte tail keeps both accumulators congruent mod 2^64 to the registers of the fall-through switch. |
| `Murmur3.PyFinish` | cassandra/murmur3.py:98-110 | Finalisation of congruent accumulators and truncation give exactly the signed 64-bit result of the registers. |
| `Murmur3.BodyAndTail` | cassandra/murmur3.py:5-14 | The words are the aligned little-endian words of the whole 16-byte blocks; the tail is the remaining bytes. |
| `Murmur3.TruncateInt64` | cassandra/murmur3.py:41-44 | The result is in the signed 64-bit range and congruent mod 2^64 to the argument. |
| `Murmur3.MurmurHash3X64` | cassandra/cmurmur3.c:107-181 | The block loop, switch and finalisation of the C version with seed 0 compute the register machine's hash. |
| `Murmur3.SwitchTail` | cassandra/cmurmur3.c:144-164 | The fall-through switch folds in the tail bytes as the register specification does, for every tail length. |
| `Murmur3.RotlAgrees` | cassandra/murmur3.py:17-22 | Rotation by mask and unbounded shift stays congruent to the 64-bit rotation with a logical shift. |
| `Murmur3.FmixAgrees` | cassandra/murmur3.py:25-32 | The finalisation mix on unbounded integers stays congruent to the one on 64-bit registers. |
| `Murmur3.HighBitsAgree` | cassandra/cmurmur3.c:68-72 | Masking an arithmetic right shift of an unbounded integer gives the logical right shift of its low 64 bits. |
| `Murmur3.ScrambleAgrees` | cassandra/murmur3.py:61-63 | Multiply, rotate, multiply keeps congruence mod 2^64. |
| `Murmur3.FeedAgrees` | cassandra/murmur3.py:64-68 | Mixing a block into an accumulator keeps congruence mod 2^64. |
| `Murmur3.TailByteAgrees` | cassandra/murmur3.py:83-92 | Folding in a sign-extended tail byte keeps congruence mod 2^64. |
| `Murmur3.SameConstants` | cassandra/cmurmur3.c:116-117 | The constants of the C version, converted to signed words, are those of the Python version. |
| `Murmur3Words.UnsignedRotl` | cassandra/cmurmur3.c:68-72 | On the unsigned word, rotation by r exchanges the low 64-r bits and the high r bits, for every r and word. |
| `Murmur3Words.UnsignedShift` | cassandra/cmurmur3.c:98-100 | The right shift is the unsigned word divided by a power of two, for every signed word. |
| `Murmur3Words.UnsignedFmix` | cassandra/cmurmur3.c:95-105 | The finalisation mix of a signed register is, on the unsigned word, three halvings by 33 bits and two products mod 2^64. |
| `Murmur3Words.UnsignedFinish` | cassandra/cmurmur3.c:169-180 | Finalisation of any two registers is sums and mixes of unsigned words mod 2^64. |
| `Murmur3Words.TailByte` | cassandra/murmur3.py:90-92 | Byte j of the word gathered from a tail is byte j of the tail, complemented exactly when an odd number of the bytes before it are 128 or more. |
| `Murmur3Words.PlainTail` | cassandra/murmur3.py:90-92 | A tail of bytes below 128 is gathered as its little-endian word. |
| `Murmur3Words.TailWordIs` | cassandra/cmurmur3.c:146-163 | What the fall-through switch gathers from a group of tail bytes is that word, as a signed one. |
| `Murmur3Values.LongTailMix` | cassandra/murmur3.py:79-96 | A tail of 9 to 15 bytes goes with its first eight bytes into the first register and with the rest, constants exchanged and rotated by 33, into the second. |
| `Murmur3Values.UnsignedBlock` | cassandra/murmur3.py:57-77 | A block mixed into any registers is the mix of unsigned words mod 2^64. |
| `Murmur3Values.ShortKey` | cassandra/murmur3.py:90-110 | The hash of every key of at most eight bytes, in unsigned words. |
| `Murmur3Values.HashOfDigits` | tests/unit/test_metadata.py:373 | The hash of "123" is the number the tests expect. |
| `Murmur3Values.HashOfHighBytes` | tests/unit/test_metadata.py:375 | So is that of eight bytes 0xfe. |
| `Murmur3Values.HashOfLongKey` | tests/unit/test_metadata.py:374 | So is that of fifty bytes: three blocks, and a tail with a byte from 128 on. |
| `RackSpread.ShareIsOrder` | cassandra/metadata.py:515-544 | The loop with its skipped-host list hands out the first RF entries of a closed form: one host per rack, then the hosts passed over, then the others as met. |
| `RackSpread.FirstsAt` | cassandra/metadata.py:529-536 | The one host per rack of the closed form: exactly the tokens whose rack was not met before, in the order of the walk. |
| `RackSpread.SparesAt` | cassandra/metadata.py:530-532 | The hosts passed over: exactly the tokens whose rack was met, by another host, in the order of the walk. |
| `RackSpread.FreshAt` | cassandra/metadata.py:526-528 | The others: exactly the hosts not placed and met for the first time, in the order of the walk. |
| `RackSpread.CoverIsShortest` | cassandra/metadata.py:538-544 | The hosts passed over are taken up after the shortest part of the walk that meets every rack. |
| `RackSpread.ShareBounds` | cassandra/metadata.py:515-544 | A datacenter contributes at most RF entries, all owners of its tokens, and all of them when RF is large enough. |
| `RackSpread.ShareCoversRacks` | cassandra/metadata.py:529-544 | The entries lie on exactly min(RF, racks of the datacenter) distinct racks. |
| `RackSpread.ShareDistinct` | cassandra/metadata.py:529-544 | The entries are distinct hosts if and only if the passed-over tokens that fill the places left are of distinct hosts. |
| `RackSpread.ShareCount` | cassandra/metadata.py:515-544 | The entries number min(RF, hosts) if and only if RF does not exceed the hosts or no host is passed over twice before all racks are met. |
| `RackSpread.ShareWithOneTokenPerHost` | cassandra/metadata.py:515-544 | With one token per host the entries are distinct and number exactly min(RF, hosts). |
| `RackSpread.ShareCanRepeatAHost` | cassandra/metadata.py:529-544 | A walk on which a host with two tokens is listed twice. |
| `NetworkTopology.MakeTokenReplicaMap` | cassandra/metadata.py:477-546 | The running per-datacenter index, rack spreading and skipped hosts build the map that a naive scan around the ring from each position defines. |
| `NetworkTopology.GroupByDc` | cassandra/metadata.py:483-491 | The first loop collects each datacenter's ring positions in order, its racks and its located hosts. |
| `NetworkTopology.PlaceAtPosition` | cassandra/metadata.py:498-544 | For one ring position, the replicas are those the naive scan gives, and the running indexes stay at or before the next position's tokens. |
| `NetworkTopology.AdvanceIndex` | cassandra/metadata.py:506-513 | Resuming from the last index stops at the first of the datacenter's tokens at or after the ring position. |
| `NetworkTopology.PlaceInDc` | cassandra/metadata.py:515-544 | The loop over the circular slice of token offsets computes the datacenter's share of the naive walk. |
| `NetworkTopology.AddSkipped` | cassandra/metadata.py:538-544 | The inner loop appends skipped hosts in order while places remain, and counts them off. |
| `NetworkTopology.CycleIsWalk` | cassandra/metadata.py:506-521 | Reading the datacenter's tokens circularly from the running index is the naive clockwise scan from the ring position. |
| `NetworkTopology.WalkAt` | cassandra/metadata.py:521-522 | The k-th token of the circular slice is the k-th of that datacenter met on the scan. |
| `NetworkTopology.WalkMeetsEveryToken` | cassandra/metadata.py:521-522 | The walk meets each of the datacenter's tokens exactly once. |
| `NetworkTopology.OthersDoNotMatter` | cassandra/metadata.py:526-544 | Replicas already placed for other datacenters do not change a datacenter's share. |
| `NetworkTopology.ReplicasByDc` | cassandra/metadata.py:483-546 | With distinct tokens and located hosts, the replicas of each datacenter at each ring position are its share of the naive scan, independent of datacenter order. |
| `NetworkTopology.ReplicasConcatenate` | cassandra/metadata.py:498-546 | The whole list of a ring position is the datacenters' shares, one after the other in the order in which the ring first mentions the datacenters. |
| `NetworkTopology.ReplicasOfDatacenter` | cassandra/metadata.py:515-544 | In the finished map each datacenter has at most RF replicas on exactly min(RF, racks) racks, with exact conditions for distinctness and count, both met when each host owns one token. |
| `NetworkTopology.HostListedTwice` | cassandra/metadata.py:529-544 | A ring of four tokens whose finished map lists one host twice among the replicas of its first token. |
| `NetworkTopology.ReplicasAreOwners` | cassandra/metadata.py:515-544 | Every replica in the finished map owns a token of the ring. |
| `SimpleStrategy.MakeTokenReplicaMap` | cassandra/metadata.py:437-449 | The map built by the nested loops sends each ring token to the next owners of its position. |
| `SimpleStrategy.OwnersFrom` | cassandra/metadata.py:440-446 | The inner loop gathers the first RF distinct owners met clockwise. |
| `SimpleStrategy.NextOwnersFacts` | cassandra/metadata.py:437-449 | The owners gathered are distinct, number min(RF, distinct owners), and leave out no owner met before the last of them. |
| `SimpleStrategy.MapAfterAt` | cassandra/metadata.py:437-449 | With distinct tokens, every ring position's entry is its own. |
| `TokenMaps.SimpleLookup` | cassandra/metadata.py:1474-1493 | Under a simple strategy any token is answered by the first distinct owners clockwise from the least ring token strictly after it, wrapping around. |
| `TokenMaps.SimpleReplicas` | cassandra/metadata.py:1474-1493 | Any token has min(RF, owners) distinct replicas: the owners met first clockwise from the least ring token strictly greater, or from the start when there is none. |
| `TokenMaps.SimpleReplicasInOrder` | cassandra/metadata.py:437-449 | They come in the order in which the walk from that position first meets them. |
| `TokenMaps.NetworkReplicas` | cassandra/metadata.py:1474-1493 | Under a strategy per datacenter, for any token: with i the position of the least ring token strictly after it, or 0, the replicas in each datacenter are the first RF entries of the closed form on the walk through that datacenter's tokens from i, lie on min(RF, racks) racks, and every replica is an owner in a datacenter with a positive factor; the whole list is these shares in ring order. |
| `TokenMaps.NoReplicas` | cassandra/metadata.py:1464-1482 | A local or unknown strategy, none at all, and an unknown keyspace have no replicas. |
| `TokenMaps.AnswersAfterAnyRun` | cassandra/metadata.py:1474-1493 | After every run of events, what a lookup answers under each strategy, up to order: the first distinct owners from the token's position, or each datacenter's share from there and nobody else, or nothing. |
| `TokenMaps.KnowsTheLastWord` | cassandra/metadata.py:147-184 | After every run each keyspace is what the latest event about it said, and the ring the one read last. |
| `TokenMaps.TokensUpToSplits` | cassandra/metadata.py:1485-1492 | The linear scan's position separates the ring tokens at or before the given one from those after it. |
| `TokenMaps.BisectRight` | cassandra/metadata.py:1488-1492 | Binary search finds the position of the linear scan. |
| `TokenMaps.AlwaysCoherent` | cassandra/metadata.py:147-184 | After every run of schema reads, keyspace updates and drops, topology reads, lookups and shuffles of a handed-out list, each cached map belongs to a known keyspace and has the tokens and the replicas that its current strategy gives, in some order; and in that order if nobody shuffles. |
| `TokenMaps.CacheIsTransparent` | cassandra/metadata.py:1474-1493 | After every run a lookup answers with the replicas of a map built on the spot, as a multiset, and in the same order if nobody has shuffled a list. |
| `TokenMaps.CoherentAnswer` | cassandra/metadata.py:1474-1493 | A coherent cache answers every lookup with a permutation of what a fresh map would, and with the same list if no list is out of order. |
| `TokenMaps.ReorderCoherent` | cassandra/policies.py:370-372 | Shuffling a list that was handed out keeps the cache coherent up to order. |
| `TokenMaps.ExactExactlyWithoutShuffling` | cassandra/policies.py:370-372 | Every lookup of every run answers in the fresh order if and only if the policy does not shuffle replicas. |
| `TokenMaps.ShuffleShows` | cassandra/policies.py:370-372 | A run in which one shuffle shows in a later lookup. |
| `TokenMaps.TokenMap.ReplicaMapForKeyspace` | cassandra/metadata.py:1464-1469 | The map of the keyspace's strategy on the current ring, or nothing without a strategy; `TokenMaps.NetworkReplicas`, `TokenMaps.SimpleReplicas` and `TokenMaps.NoReplicas` say what is in it for every token. |
| `TokenMaps.TokenMap.RebuildKeyspace` | cassandra/metadata.py:1449-1462 | The cache is rebuilt for a keyspace that is cached, or when absence is to be filled, and is otherwise unchanged. |
| `TokenMaps.TokenMap.RemoveKeyspace` | cassandra/metadata.py:1471-1472 | Exactly the keyspace's entry is removed. |
| `TokenMaps.TokenMap.GetReplicas` | cassandra/metadata.py:1474-1493 | On a coherent cache the answer is what is cached: a permutation of the fresh one, and equal to it if no list is out of order; the cache changes as the step says. `TokenMaps.AnswersAfterAnyRun` says which hosts these are. |
| `TokenMaps.TokenMap.ShuffleHandedOut` | cassandra/policies.py:370-372 | The caller's shuffle takes the reordering step on the cache and keeps it coherent. |
| `TokenMaps.Metadata.UpdateKeyspace` | cassandra/metadata.py:166-180 | Takes the update step of the machine and keeps the cache coherent. |
| `TokenMaps.Metadata.DropKeyspace` | cassandra/metadata.py:182-184 | Takes the drop step and keeps the cache coherent. |
| `TokenMaps.Metadata.RebuildAllKeyspaces` | cassandra/metadata.py:147-164 | Replaces the listed keyspaces, drops the unlisted ones, and keeps the cache coherent. |
| `TokenMaps.Metadata.KeyspaceTouched` | cassandra/metadata.py:248-254 | An added or updated keyspace has its cached map refreshed and nothing else changes. |
| `TokenMaps.Metadata.KeyspaceRemoved` | cassandra/metadata.py:256-258 | A removed keyspace loses its cached map. |
| `TokenMaps.Metadata.RebuildTokenMap` | cassandra/metadata.py:260-287 | A new ring starts with an empty cache. |
| `TokenMaps.Metadata.GetReplicas` | cassandra/metadata.py:289-300 | No token map answers with no replicas; otherwise the answer is a permutation of the fresh one, and equal to it if no list is out of order. |
| `TokenMapRaces.TidyRunsStayCoherent` | cassandra/metadata.py:147-184 | For every interleaving of single reads and writes of lookups, updates, drops, schema reads, ring changes and shuffles in which schema operations do not overlap and no removal lands inside a rebuild of the same keyspace: what is cached or about to be is up to date or awaits the operation in progress, and with none in progress the cache is coherent. |
| `TokenMapRaces.TidyLookupsAreRight` | cassandra/metadata.py:1474-1493 | In such a run, a lookup with no schema operation in progress answers with a permutation of the fresh replicas. |
| `TokenMapRaces.NextKeeps` | cassandra/metadata.py:1449-1472 | Every such step keeps the invariant. |
| `TokenMapRaces.MoveKeeps` | cassandra/metadata.py:1449-1462 | Every read or write inside the locked rebuild keeps it, the exception handler's empty map included. |
| `TokenMapRaces.WriteKeeps` | cassandra/metadata.py:166-180 | Writing the new keyspace keeps it, with a refresh or, for an unchanged strategy, without. |
| `TokenMapRaces.PopKeepsExactly` | cassandra/metadata.py:1471-1472 | Removing a cached map keeps it if and only if no lookup has read that keyspace and will still store a map; otherwise the next write leaves the cache incoherent. |
| `TokenMapRaces.LookupAlone` | cassandra/metadata.py:1474-1482 | Undisturbed, the steps of a lookup are the one step of `TokenMaps`. |
| `TokenMapRaces.UpdateAlone` | cassandra/metadata.py:166-180 | The same for an update. |
| `TokenMapRaces.DropAlone` | cassandra/metadata.py:182-184 | The same for a drop. |
| `TokenMapRaces.DropInsideRebuildFails` | cassandra/metadata.py:1449-1472 | From any quiet state, a drop whose two pops land inside a lookup's rebuild leaves the map of the dropped keyspace in the cache. |
| `TokenMapRaces.DropInsideRebuildHappens` | cassandra/metadata.py:1449-1472 | Every ring and keyspace have a run from the start that ends so. |
| `TokenMapRaces.UpdateInsideUpdateFails` | cassandra/metadata.py:166-180 | From any quiet state with a cached map, two overlapping refreshes of one keyspace can leave the map of the other strategy in the cache. |
| `Varint.VarintPack` | cassandra/marshal.py:78-93 | For every integer the packed bytes read back as it, no shorter byte string does, and no other of that length. |
| `Varint.GatherDigits` | cassandra/marshal.py:87-89 | The loop yields exactly the base-256 digits, least significant first, with no leading zero. |
| `Varint.UnpackRange` | cassandra/marshal.py:52-57 | n bytes hold the numbers from -2^(8n-1) to 2^(8n-1)-1. |
| `Varint.UnpackInjective` | cassandra/marshal.py:52-57 | Two byte strings of one length with the same value are the same. |
| `Vints.ZigZag` | cassandra/marshal.py:96-101 | The zig-zag code is never negative, is below 2^64 if and only if the number is a signed 64-bit one, and then decodes to it. |
| `Vints.ZigZagCounts` | cassandra/marshal.py:96-101 | The code of a signed 64-bit number is twice it from 0 up and -2n-1 below; decoding halves even codes and negates odd ones. |
| `Vints.VintLayout` | cassandra/marshal.py:127-157 | For every number below 2^64: as many leading ones as bytes follow, a zero unless eight follow, then the number, high bits first, byte by byte, in the fewest bytes that hold it. |
| `Vints.VintsPack` | cassandra/marshal.py:127-157 | Packing succeeds if and only if every number is a signed 64-bit one, and then gives the concatenated vints. |
| `Vints.VintsUnpack` | cassandra/marshal.py:104-124 | The reading loop computes the unpacking function, with nothing where it runs past the end. |
| `Vints.PackOne` | cassandra/marshal.py:130-154 | One turn appends a vint's bytes in reverse, and fails exactly when the code needs more than 64 bits. |
| `Vints.TakeExtraBytes` | cassandra/marshal.py:135-149 | The inner loop sheds as many low bytes as the vint needs beside its marker bits, more than 8 exactly when the number is too large. |
| `Vints.MarkFirst` | cassandra/marshal.py:151-154 | The first byte carries the marker ones and the number's top part without overlap. |
| `Vints.ReadVint` | cassandra/marshal.py:107-122 | Reading at an offset gives what reading the rest of the bytes gives, and the offset after it. |
| `Vints.VintReadsBack` | cassandra/marshal.py:104-157 | A vint is self-delimiting: whatever follows, reading gives the number and stops at its end. |
| `Vints.UnpackPacked` | cassandra/marshal.py:104-157 | Unpacking a packed list followed by anything gives the list followed by what the rest gives. |
| `Vints.RoundTrip` | cassandra/marshal.py:104-157 | Unpacking undoes packing for every list of signed 64-bit numbers. |
| `CqlLeaves.PackVarint` | cassandra/cqltypes.py:503-505 | Varint leaves are packed in their one shortest form. |
| `CqlLeaves.LeafReadsBack` | cassandra/cqltypes.py:484-505 | Every leaf that serialises deserialises to itself, and only blob and text can be empty; which bytes it is written as is in `CqlLayout`. |
| `CqlLeaves.LessIsTotal` | cassandra/util.py:605-611 | The order a decoded set keeps its leaves in is a total order. |
| `CqlLeaves.LessMeans` | cassandra/util.py:605-611 | Numbers are ordered by value, byte strings and texts by their first difference with beginnings first. |
| `CqlLeaves.SortedFixes` | cassandra/util.py:605-615 | Sorting leaves exactly the strictly increasing sequences alone. |
| `CqlLeaves.SortedSetOf` | cassandra/util.py:503-505 | Building a sorted set from a list lists its elements in order, each once. |
| `Utf8.TextReadsBack` | cassandra/cqltypes.py:691-701 | Decoding the UTF-8 bytes of a text gives the text. |
| `Utf8.DecodesOnlyEncodings` | cassandra/cqltypes.py:691-693 | Bytes decode to a text if and only if they are the encoding of that text: nothing overlong, cut off or out of range. |
| `CqlLayout.IntBytes` | cassandra/cqltypes.py:491-493 | An int is written as its four two's-complement bytes, high byte first, and a number outside 32 bits not at all. |
| `CqlLayout.IntOf` | cassandra/cqltypes.py:487-489 | Exactly four bytes are an int, and which one. |
| `CqlLayout.VarintByteAt` | cassandra/cqltypes.py:503-505 | Byte i of a varint is the two's-complement digit of its place, in the fewest bytes that hold the number. |
| `CqlLayout.VarintOf` | cassandra/cqltypes.py:499-501 | Any bytes are the varint in range whose digits they are. |
| `CqlLayout.CharBytes` | cassandra/cqltypes.py:695-698 | The one to four bytes of every character: lead byte, continuation bytes and the bits they carry. |
| `CqlLayout.TextBytes` | cassandra/cqltypes.py:695-698 | A text is its characters' bytes, one after the other. |
| `CqlLayout.LengthBytes` | cassandra/cqltypes.py:754-760 | A count or length is four bytes from version 3 on and two before, high byte first, and fails exactly when it does not fit. |
| `CqlLayout.ListLayout` | cassandra/cqltypes.py:749-762 | In a serialised list of any element type: the count first, and item i behind its length at the place that the lengths before it give, and nothing else. |
| `CqlLayout.SetLayout` | cassandra/cqltypes.py:749-762 | The same for a set, in the order in which it is given. |
| `CqlLayout.MapLayout` | cassandra/cqltypes.py:809-826 | The same for a map: entry i's key, then its value, each behind its length. |
| `CqlLayout.TupleLayout` | cassandra/cqltypes.py:858-872 | Part i of a tuple stands behind its four-byte length, a null part as four bytes 255 alone, and nothing else; no part is written for a missing one. |
| `CqlLayout.NullPartBytes` | cassandra/cqltypes.py:871 | The length of a null part is four bytes 255. |
| `CqlWire.LengthReadsBack` | cassandra/cqltypes.py:730-736 | A count or length read back is the one written, in both widths. |
| `CqlWire.ChunksReadBack` | cassandra/cqltypes.py:728-763 | Length-prefixed items are found again wherever they stand in a buffer. |
| `CqlWire.CollectionReadsBack` | cassandra/cqltypes.py:728-763 | A counted collection reads back as its items. |
| `CqlWire.PartsReadBack` | cassandra/cqltypes.py:833-871 | Tuple parts, present or null, read back when there are no more than the type has. |
| `CqlWire.CollectionInjective` | cassandra/cqltypes.py:749-763 | Two collections with the same bytes have the same items. |
| `CqlWire.PartsInjective` | cassandra/cqltypes.py:858-871 | Two tuples with the same bytes have the same parts. |
| `CqlCodec.RoundTrip` | cassandra/cqltypes.py:228-248 | For every nested type, value and protocol version: whatever serialises deserialises to the value described by Seen (empty for a null blob or text, null for an empty tuple, short tuples padded, sets sorted, all else itself). |
| `CqlCodec.SeenUnchanged` | cassandra/cqltypes.py:726-872 | What comes back equals the value if and only if the value is clean. |
| `CqlCodec.ExactRoundTrip` | cassandra/cqltypes.py:726-872 | The round trip is the identity on the clean values and only on them. |
| `CqlCodec.NullBlobComesBackEmpty` | cassandra/cqltypes.py:228-248 | A null in a list of blobs comes back as the empty blob. |
| `CqlCodec.CleanInjective` | cassandra/cqltypes.py:726-872 | Distinct clean values have distinct bytes. |
| `CqlCodec.SerializableIsTyped` | cassandra/cqltypes.py:726-872 | Only values that fit their type serialise. |
| `CqlCodec.LeavesReadBack` | cassandra/cqltypes.py:771-774 | The members of a set read back one by one. |
| `CqlCodec.PartsComeBack` | cassandra/cqltypes.py:833-871 | The parts of a tuple come back, the missing ones as nulls. |
| `CqlSerializers.ToBinary` | cassandra/cqltypes.py:241-248 | Null is empty bytes; anything else is serialised. |
| `CqlSerializers.Serialize` | cassandra/cqltypes.py:719-724 | The recursive serialiser computes the codec's bytes, or fails where it does; `CqlLayout` says which byte stands where in them. |
| `CqlSerializers.SerializeItems` | cassandra/cqltypes.py:749-763 | The buffer loop writes the count and every item behind its length, and fails if any item or length does. |
| `CqlSerializers.SerializeEntries` | cassandra/cqltypes.py:809-826 | For a dict: the buffer loop writes keys and values in turn behind their lengths. |
| `CqlSerializers.SerializeDecodedMap` | cassandra/cqltypes.py:809-826 | For a decoded map: the same loop, with each value looked up by its key, computes the bytes of the decoded object, or fails where a lookup does. |
| `CqlSerializers.IterateItem` | cassandra/util.py:788-806 | What iteration over a decoded map yields for one entry: the key it shows, and the value it gives for that key. |
| `CqlSerializers.SerializeTuple` | cassandra/cqltypes.py:858-871 | The buffer loop writes each part behind its 32-bit length, null parts as -1. |
| `CqlSerializers.FromBinary` | cassandra/cqltypes.py:228-239 | Absent bytes, and empty ones unless allowed, are null; anything else is deserialised. |
| `CqlSerializers.Deserialize` | cassandra/cqltypes.py:712-717 | The recursive deserialiser computes the codec's value on all bytes, malformed ones included. |
| `CqlSerializers.DeserializeItems` | cassandra/cqltypes.py:728-746 | The offset loop reads what the layout says, with Python's slice rules for cut-off and negative lengths. |
| `CqlSerializers.DeserializeEntries` | cassandra/cqltypes.py:782-806 | The offset loop builds a map whose items are the decoded entries and whose index is over the keys' own bytes. |
| `CqlSerializers.DeserializeTuple` | cassandra/cqltypes.py:833-855 | The offset loop reads parts until the bytes or the types end, and pads with nulls. |
| `CqlSerializers.DecodedMap` | cassandra/cqltypes.py:782-826 | Decoding an encoded map gives its entries as they come back, indexed by the bytes they were written with. |
| `CqlSerializers.LookUpOwnKey` | cassandra/cqltypes.py:782-826 | Write, read back, look up: each clean key finds its own value, in every version in which keys are comparable. |
| `CqlDecoded.DecodesAsShown` | cassandra/cqltypes.py:726-855 | Decoding what was encoded gives, for every value and version, the object `Shown` says: maps keep the bytes of their keys and the version they were read with. |
| `CqlDecoded.ViewOfDecoded` | cassandra/cqltypes.py:726-855 | For all bytes, the decoded object seen as plain values is what the codec reads. |
| `CqlMaps.EncodesTheSame` | cassandra/cqltypes.py:726-872 | The object a value is decoded to encodes to the bytes it came from if and only if the value was stable: no short tuple, no empty tuple inside a tuple, sets in order, and in every map that is not empty, comparable keys, none coming back as null, and no two entries with the same key bytes and different value bytes. |
| `CqlMaps.MapEncodesTheSame` | cassandra/cqltypes.py:809-826 | The entries that iteration over the decoded map yields are the encoded ones if and only if the map was stable. |
| `CqlMaps.CannotSerializeAgain` | cassandra/cqltypes.py:809-826 | A decoded map with a key that came back as null, or with keys that are not comparable, cannot be serialised again. |
| `CqlMaps.NullKeyInKeyIsLost` | cassandra/util.py:854-855 | A map that is a key and has a null for a key makes its own lookup raise. |
| `CqlMaps.NullAndEmptyKeys` | cassandra/cqltypes.py:809-826 | A map with the keys null and empty blob is written again with the second value twice. |
| `CqlMaps.OrderedMapSerializedKey.InsertUnchecked` | cassandra/util.py:850-852 | Appends the entry, indexes it by the given bytes, and keeps the index at the last entry of each key. |
| `CqlMaps.OrderedMapSerializedKey.GetItem` | cassandra/util.py:788-793 | Serialises the key, a plain value or one that was decoded, and gives the last entry with those bytes, a KeyError, or the serialiser's exception. |
| `CqlMaps.EncodedKeyFinds` | cassandra/util.py:843-855 | Where keys are comparable (version 3 and up, or a key type that is not itself a collection), a key that was encoded finds its own value, unless a later entry has the same bytes. |
| `CqlMaps.SameInEveryVersion` | cassandra/cqltypes.py:858-871 | A key that is not itself a list, set or map has the same bytes in every version, since tuples are always written as in version 3. |
| `CqlMaps.OldCollectionKeysMiss` | cassandra/util.py:854-855 | Under versions 1 and 2 a map whose keys are collections finds nothing, whatever key it is asked for, plain or decoded. |
| `CqlMaps.KeysFoundExactlyWhen` | cassandra/util.py:843-855 | A key that was encoded finds an entry if and only if keys are comparable. |
| `CqlMaps.CleanKeysFindTheirOwn` | cassandra/util.py:843-855 | Where keys are comparable, with distinct clean keys each decoded entry shows its original key and is found under it; under the shown key itself it is found in its own place if and only if that key is stable. |
| `CqlMaps.DecodedKeyFlattens` | cassandra/util.py:854-855 | The decoded key, serialised with the lookups that its own maps need, leads back to its entry's bytes if and only if keys are comparable and the encoded key was stable and neither an empty tuple nor a null of a type without empty values. |
| `CqlMaps.ShortTupleKeyIsLost` | cassandra/util.py:843-855 | A map whose only key, a short tuple, is not found under the padded key it shows, in any version. |
| `OrderedMaps.OrderedMap.constructor` | cassandra/util.py:759-764 | Starts empty with an exact index. |
| `OrderedMaps.OrderedMap.Insert` | cassandra/util.py:777-784 | Sets the key's value, in place for a known key and at the end for a new one; all other items stay. |
| `OrderedMaps.OrderedMap.GetItem` | cassandra/util.py:788-793 | The value last set for the key, or a KeyError. |
| `OrderedMaps.OrderedMap.DelItem` | cassandra/util.py:795-802 | Removes exactly that key, keeps the order of the rest, and the shifted index stays exact. |
| `OrderedMaps.OrderedMap.PopItem` | cassandra/util.py:831-837 | Removes and gives the last item, or a KeyError when empty. |
| `OrderedMaps.ShiftedIndexes` | cassandra/util.py:797-800 | Moving down the places after a removed one keeps every other key with its own item. |
| `TypeNames.ParseCasstypeArgs` | cassandra/cqltypes.py:142-169 | The loop with its explicit stack computes the parse, with nothing for stray characters, unbalanced closing parentheses and wrong arity. |
| `TypeNames.ParseSpelled` | cassandra/cqltypes.py:142-169 | Parsing rebuilds every tree of known names with correct arity and named or unnamed parameters, from any spelling: short or fully qualified, with `:` or `=>` after a parameter's name, with any commas and white space between parameters. |
| `TypeNames.ParsePrintedShape` | cassandra/cqltypes.py:268-312 | Parsing the printed name, short or fully qualified, gives the type without its parameters' names, and so the type itself if and only if it has none. |
| `TypeNames.ScanType` | cassandra/cqltypes.py:117-121 | Scanning a spelled type, named or not, gives its tokens and goes on with the rest. |
| `TypeNames.ParseType` | cassandra/cqltypes.py:145-166 | The tokens of a type leave the stack as it was, with the type and its parameter's name pushed. |
| `TypeNames.LookupPrinted` | cassandra/cqltypes.py:124-139 | A printed name, short or qualified, is looked up as the type it names. |
| `TypeNames.KnownPrints` | tests/unit/test_types.py:115-117 | The printed names that the tests expect, and that of a map type. |
| `TypeNames.KnownParse` | tests/unit/test_types.py:164-181 | The type that the tests expect from a spelling with named parameters. |
| `Frames.WriteFrame` | cassandra/protocol.py:1094-1101 | The header writer and body give the frame layout for protocol versions 1 to 5. |
| `Frames.FrameLayout` | cassandra/protocol.py:1094-1101 | For every frame that can be packed: which byte of the version, flags, stream id, opcode, length and body stands where, in both widths. |
| `Frames.HeaderLayout` | cassandra/connection.py:547-563 | For any nine bytes with a supported version: from which bytes each header field is read and with what sign, where the frame ends, and that a negative length is malformed. |
| `Frames.HeaderReadsBack` | cassandra/connection.py:548-563 | The header read from a written frame has its fields, whatever follows. |
| `Frames.PartialFrame` | cassandra/connection.py:570-587 | A frame cut short is neither delivered nor taken for a malformed one. |
| `Frames.WholeFrame` | cassandra/connection.py:570-587 | A whole frame is delivered with header fields and body unchanged. |
| `Frames.PrefixOfStream` | cassandra/connection.py:570-587 | Of any prefix of a stream of frames exactly the complete ones come out, in order, and the bytes of the next are kept. |
| `Frames.ParseResumes` | cassandra/connection.py:570-587 | Parsing may stop after any bytes and go on from the leftover. |
| `Frames.MalformedStays` | cassandra/connection.py:552-561 | After an unsupported version nothing more is delivered. |
| `Frames.Receiver.Receive` | cassandra/connection.py:570-587 | However the bytes are cut into chunks, the frames processed and the leftover are those of all bytes received. |
| `Frames.Receiver.ReadFrameHeader` | cassandra/connection.py:547-563 | A frame is current exactly when its header is complete; an unsupported version makes the connection defunct. |
| `Frames.Receiver.ResetFrame` | cassandra/connection.py:565-568 | The consumed bytes are dropped and the rest kept. |
| `Frames.Receiver.ProcessIoBuffer` | cassandra/connection.py:570-587 | The loop delivers every complete frame in the buffer and keeps what is left. |
| `Frames.ReceiveStream` | cassandra/connection.py:547-587 | However a stream of frames is cut into chunks and wherever it breaks off: the frames handed on are exactly the complete ones, unchanged and in order, and the bytes of the next are kept. |
| `StreamIds.StepSound` | cassandra/connection.py:440-451 | With the unlocked call as one step, every step keeps: free and issued ids partition 0..highest without repeats, in_flight accounts for every issued id and stays at most max_request_id + 1; and the allocator's assertion holds. |
| `StreamIds.AlwaysSound` | cassandra/connection.py:288-298 | The same after every interleaving of those steps from the constructor on. |
| `StreamIds.NeverIssuedTwice` | cassandra/connection.py:440-451 | In every interleaving of those steps, one that takes n ids adds n ids that nobody holds. |
| `StreamIds.BorrowsCountUp` | cassandra/connection.py:288-298 | In any configuration, n borrows in a row after the handshake hold the ids 0 to n-1, up to min(max_in_flight, 32768) of them from version 3 on and min(max_in_flight, 127)+1 before, and no more. |
| `StreamIds.RequestCycle` | cassandra/pool.py:349-365 | From any sound state with room, a borrow followed by its send, response, put-back and return leaves everything as it was but that the id is the last of the free ones. |
| `StreamIds.KeyspaceCycle` | cassandra/connection.py:836-873 | The same for a change of keyspace that needs a request; one that needs none leaves the very same state. |
| `StreamIdRaces.SoundExactlyWhen` | cassandra/connection.py:440-451 | Down to the interpreter's steps of `get_request_id`: no interleaving hands out an id twice or fails the assertion if and only if the version is below 3 or max_in_flight is at most 301; then ids stay partitioned and in_flight accounted for. |
| `StreamIdRaces.StepIntact` | cassandra/connection.py:440-451 | When at most one id is left to grow, every fine step of every thread keeps the partition, the count, and at most one call that found the deque empty. |
| `StreamIdRaces.LooksWithRoom` | cassandra/connection.py:444-449 | A call that looks finds the deque empty only if no other call under way has, and an id is left to grow. |
| `StreamIdRaces.Breaks` | cassandra/connection.py:845-873 | For every other configuration, a run from the constructor on that hands out an id twice. |
| `StreamIdRaces.BothSchedulesBreak` | cassandra/connection.py:446-451 | A borrow after the read, and a borrow between the write and the second read, each share an id; the second loses another for good. |
| `StreamIdRaces.CoarseIsFine` | cassandra/connection.py:440-451 | Each step of the coarse machine is a run of fine steps without interference. |
| `StreamIdRaces.CoarseRunIsFine` | cassandra/connection.py:440-451 | Every run of the coarse machine is a schedule of the fine one. |
| `StreamIds.Connection.constructor` | cassandra/connection.py:288-298 | The initial ids, bounds and counts. |
| `StreamIds.Connection.GetRequestId` | cassandra/connection.py:440-451 | Takes the head of the free list or grows by one, as the step does. |
| `StreamIds.Connection.BorrowConnection` | cassandra/pool.py:349-353 | Succeeds exactly when in_flight is at most max_request_id, with an id nobody held. |
| `StreamIds.Connection.PoolBorrowConnection` | cassandra/pool.py:530-533 | Succeeds exactly when in_flight is below max_request_id, with an id nobody held. |
| `StreamIds.Connection.SendHeartbeat` | cassandra/connection.py:951-957 | Counts, takes and sends in one locked step, exactly when there is room. |
| `StreamIds.Connection.TakeForResponses` | cassandra/connection.py:494-499 | Takes as many ids as are needed and left; they are distinct, nobody held them, and they are held now beside those held before. |
| `StreamIds.Connection.SendMsg` | cassandra/connection.py:461-475 | Registers the request under its id. |
| `StreamIds.Connection.ReserveForKeyspace` | cassandra/connection.py:845-849 | Counts in exactly when in_flight is below max_request_id. |
| `StreamIds.Connection.TakeForKeyspace` | cassandra/connection.py:869-871 | Takes an id nobody held, on the permission reserved before, when nothing runs inside the call. |
| `StreamIds.Connection.PopRequest` | cassandra/connection.py:597-603 | A known id leaves the pending requests; an unknown one is ignored. |
| `StreamIds.Connection.PutBackId` | cassandra/connection.py:605-606 | An answered id goes back to the free list. |
| `StreamIds.Connection.ReturnConnection` | cassandra/pool.py:363-365 | One unit of in_flight is given back. |
| `ConcurrentExecution.StartsInOrderWithinTheWindow` | cassandra/concurrent.py:109-150 | In every interleaving, of either executor: statements start once each in input order, at most `concurrency` are outstanding, and exactly that many while input remains. |
| `ConcurrentExecution.DeliversInOrder` | cassandra/concurrent.py:168-220 | The results delivered are the answers to the first statements in input order; a finished reader has them all. |
| `ConcurrentExecution.WaitsOnlyForOutstanding` | cassandra/concurrent.py:176-216 | The reader waits only while some statement is outstanding, the generator's only while the very statement it is at is. |
| `ConcurrentExecution.EveryRunFinishes` | cassandra/concurrent.py:109-220 | No run is longer than 5n + 1 steps, and one that cannot go on has delivered every result. |
| `ConcurrentExecution.ExecuteNextKeeps` | cassandra/concurrent.py:120-150 | However deep inline completions nest, starting the next statement adds one to the window or finds the input used up. |
| `ConcurrentExecution.PutResultKeeps` | cassandra/concurrent.py:170-174 | Taking in a result keeps the window and leaves no reader waiting for nothing. |
| `ConcurrentExecution.CountKeeps` | cassandra/concurrent.py:201-210 | So does the list executor's locked part, with its notification only at the end. |
| `ConcurrentExecution.StepKeeps` | cassandra/concurrent.py:109-220 | Every step keeps the invariant and decreases the measure. |
| `ConcurrentExecution.SortedIsAnswers` | cassandra/concurrent.py:220 | Sorting the arrived results by index lists the answers in input order. |
| `ConcurrentExecution.RecursionStops` | cassandra/concurrent.py:130-150 | When every statement left raises, one call starts exactly as many as there is depth left below 100, and at least one, of either executor. |
| `ConcurrentExecutors.Executor.Execute` | cassandra/concurrent.py:109-118 | The launch loop leaves the window filled and the invariant in place. |
| `ConcurrentExecutors.Executor.ExecuteNext` | cassandra/concurrent.py:120-128 | Starts one statement if there is one, says whether there was, and widens the window by one. |
| `ConcurrentExecutors.Executor.ExecuteStatement` | cassandra/concurrent.py:130-150 | A statement that raises is answered inline below the recursion limit and left to another thread at it; either way the window is one wider and the invariant holds. |
| `ConcurrentExecutors.Executor.PutResult` | cassandra/concurrent.py:170-174 | Either executor's `_put_result`, run by one thread: the window stays as wide, and no reader is left waiting for nothing. |
| `ConcurrentExecutors.Executor.AppendResult` | cassandra/concurrent.py:202 | The append outside the lock keeps the invariant. |
| `ConcurrentExecutors.Executor.CountResult` | cassandra/concurrent.py:203-210 | The locked part of the list executor's `_put_result` keeps the window and leaves a waiting reader something to wait for. |
| `ConcurrentExecutors.Executor.ReadResults` | cassandra/concurrent.py:176-187 | The reader waits only for something outstanding, yields the answer to the statement it is at, and finishes only with all answers in input order. |
| `ConcurrentExecutors.Executor.ResumeReading` | cassandra/concurrent.py:188-190 | The reader has been given one answer more than statements it had passed, and moves on with the invariant kept. |
| `ConcurrentExecutors.Executor.OnCompletion` | cassandra/concurrent.py:152-157 | A future that completes on another thread keeps the invariant, wakes the reader, and brings the run nearer its end. |
| `ConcurrentExecutors.ExecuteConcurrent` | cassandra/concurrent.py:85-92 | A ValueError for a window that is not positive; otherwise, whatever completes when, all answers in input order. |
| `Policies.TableIsLive` | cassandra/policies.py:274-307 | After any sequence of up, down, add and remove events the table holds exactly the live hosts, each once under its own datacenter, and no empty datacenter. |
| `Policies.DcAwarePlanFacts` | cassandra/policies.py:256-272 | The DC-aware plan lists exactly the live hosts that are not ignored, each once; `Policies.DcAwareOrder` gives the order. |
| `Policies.DcAwareOrder` | cassandra/policies.py:256-272 | The plan is all live local hosts, cyclically from the position, then remote hosts only: of each other datacenter exactly its first ones, in table order. |
| `Policies.RemoteByDatacenter` | cassandra/policies.py:268-272 | The remote hosts of the plan come datacenter by datacenter, in the order the dict gives. |
| `Policies.TableInOrder` | cassandra/policies.py:274-307 | After any sequence of events the hosts of a datacenter stand in the order in which they last came up. |
| `Policies.AmongFirstIsRemote` | cassandra/policies.py:239-254 | A host is at remote distance exactly when it is among the first of its own remote datacenter's live hosts; local distance is membership of the local datacenter. |
| `Policies.EachLocalHostComesFirst` | cassandra/policies.py:256-265 | Round robin: while the table is unchanged, of as many plans in a row as there are local hosts exactly one starts with any given local host. |
| `Policies.TokenAwareDistinct` | cassandra/policies.py:354-382 | The token-aware plan has no duplicates if and only if no local replica that is flagged up is given twice. |
| `Policies.TokenAwareCovers` | cassandra/policies.py:370-382 | The plan lists exactly the usable hosts if and only if the up flags of the local replicas agree with the table. |
| `Policies.TokenAwareHas` | cassandra/policies.py:370-382 | A local replica is listed when it is flagged up, any other host when it is usable. |
| `Policies.TokenAwareOrder` | cassandra/policies.py:370-382 | The plan is local replicas that are up, in the order given, and then hosts that are no replicas or remote, in the order of the child's plan. |
| `Policies.TokenAwarePlanAfterAnyRun` | cassandra/policies.py:354-382 | After any run from an empty policy, with true flags: the live local replicas first and in order, exactly the live hosts not ignored, and no duplicates if and only if no live local replica is given twice. |
| `Policies.TokenAwareOverRing` | cassandra/policies.py:369-382 | Over the replica map of a ring, with its hosts flagged up: no duplicates if and only if the passed-over local tokens that fill the places left are of distinct hosts, and so when each host owns one token. |
| `Policies.PlanWithAHostTwice` | cassandra/policies.py:369-382 | On the ring that lists a host twice, a plan with that host twice. |
| `Policies.StaleFlagDropsAHost` | cassandra/policies.py:373-382 | A stale flag makes the plan miss a live host. |
| `Policies.DcAwareRoundRobinPolicy.OnUpEvent` | cassandra/policies.py:287-290 | The host is in the table, and no other host's presence changes. |
| `Policies.DcAwareRoundRobinPolicy.OnDownEvent` | cassandra/policies.py:292-301 | The host is out of the table, and no other host's presence changes. |
| `Policies.DcAwareRoundRobinPolicy.GetDistance` | cassandra/policies.py:239-254 | Local exactly for the local datacenter, remote exactly for the first live hosts of another one, ignored otherwise. |
| `Policies.DcAwareRoundRobinPolicy.MakeQueryPlan` | cassandra/policies.py:256-272 | The loops yield the specified plan, which is duplicate-free and lists exactly the usable hosts, the local ones first and from the position on. |
| `Policies.DcAwareRoundRobinPolicy.CycleLocal` | cassandra/policies.py:259-265 | The circular slice is the local hosts rotated to the position. |
| `Policies.TokenAwarePolicy.MakeQueryPlan` | cassandra/policies.py:354-382 | The loops yield the specified plan, duplicate-free exactly when no local replica flagged up is given twice, and complete exactly when the flags agree. |
| `Retries.PolicyFacts` | cassandra/policies.py:804-1002 | No built-in policy retries twice; fall-through never does; the default keeps the reported level; downgrading asks for no more replicas than responded and ignores only a write some replica holds. |
| `Retries.DefaultDecides` | cassandra/policies.py:830-893 | The default policy retries on the same host if and only if it is the first time and either enough replicas responded without data or the batch log timed out, on the next host if and only if it is the first time and replicas were unavailable, at the reported level; it rethrows everything else. |
| `Retries.DowngradingDecides` | cassandra/policies.py:959-1002 | Exactly when the downgrading policy retries, at which level, and exactly which write timeouts it ignores. |
| `Retries.FallthroughDecides` | cassandra/policies.py:896-909 | The fall-through policy rethrows everything. |
| `Retries.AtMostOneRetry` | cassandra/cluster.py:3533-3592 | Whatever the hosts and servers do, at most plan length + 1 attempts are made (plan length under fall-through), to hosts of the plan in order with at most one immediate repeat. |
| `Retries.EveryRequestEnds` | cassandra/cluster.py:3884-3951 | A run has at most twice the plan plus two steps besides late writes of errors, and at most twice that with them; nothing but a write can happen exactly when the future has a result or an exception, and nothing at all exactly when the errors are also written. |
| `Retries.RequestOutcome` | cassandra/cluster.py:3669-3811 | At any time of any run: the future has a value if and only if the last response was that answer, none if and only if it was a write timeout the downgrading policy ignores, a server's error if and only if that was the last response and is rethrown, not retriable or unexpected, and a complete future fails for want of hosts if and only if there was no response or the last one moved on or was granted a retry. The level is that of the last retry granted, or the one given, and the retries counted are those granted. |
| `Retries.RetryTries` | cassandra/cluster.py:3941-3951 | The next host tried after a retry on the same host is that host, after any other the next of the plan. |
| `Retries.ErrorsAreTrue` | cassandra/cluster.py:3533-3592 | At any time the error on record for a host is one that it met: why an attempt on it was not sent, or a response of it that was put to the policy. |
| `Retries.NoHostAvailableTriedAll` | cassandra/cluster.py:3533-3549 | On NoHostAvailable every host of the plan was sent the request or has an error on record. |
| `Retries.ErrorsName` | cassandra/cluster.py:3533-3592 | At any time the errors, with those still to be written, name exactly the hosts that could not be sent the request or had a response put to the policy; on NoHostAvailable a host of the plan is missing if and only if every request to it was sent and every response moved on without the policy. |
| `Retries.ErrorsNameEveryHost` | cassandra/cluster.py:3731-3811 | Once written, the errors of a NoHostAvailable name every host of the plan if and only if each failed to be sent the request or had a response put to the policy. |
| `Retries.ErrorWrittenLate` | cassandra/cluster.py:3793-3805 | A run in which NoHostAvailable is raised before the error of the only host is written. |
| `Retries.OverloadedIsNotRecorded` | cassandra/cluster.py:3731-3744 | A run that ends with NoHostAvailable and no error recorded for the host that was overloaded. |
| `Retries.SendRequestKeeps` | cassandra/cluster.py:3533-3549 | Going on with the plan keeps the bounds and the order of attempts. |
| `Retries.SetResultKeeps` | cassandra/cluster.py:3713-3811 | Handling any response keeps them, and counts a retry only when a policy grants one. |
| `Retries.RetryTaskKeeps` | cassandra/cluster.py:3941-3951 | So does a queued retry, on the same host or the next. |
| `Retries.StepKeeps` | cassandra/cluster.py:3669-3811 | Every step but a late write decreases the measure on hosts left plus the unused retry, and leaves at most one write more. |
| `ResponseFutures.ResponseFuture.constructor` | cassandra/cluster.py:3527-3549 | A new request is with the first host of the plan that takes it, or has failed. |
| `ResponseFutures.ResponseFuture.Query` | cassandra/cluster.py:3551-3592 | The request is out with the host, or the reason it is not is recorded. |
| `ResponseFutures.ResponseFuture.SendRequest` | cassandra/cluster.py:3533-3549 | The loop takes the plan up where it was left, to the first host that takes the request or to NoHostAvailable. |
| `ResponseFutures.ResponseFuture.SetResult` | cassandra/cluster.py:3669-3811 | Takes the machine's step, up to the last statement, keeps the invariant and decreases the measure; `Retries.RequestOutcome` says what the steps amount to. |
| `ResponseFutures.ResponseFuture.FinishSetResult` | cassandra/cluster.py:3805 | The last statement writes the error down, whatever has happened to the request since. |
| `ResponseFutures.ResponseFuture.RetryTask` | cassandra/cluster.py:3941-3951 | The same for the queued retry. |
| `ResponseFutures.Drive` | cassandra/cluster.py:3669-3951 | Whatever the responses and whenever errors are written, the steps end, after at most plan length + 1 sends (plan length under fall-through), and the future ends as the last of the responses given says. |
| `SortedSets.Canonical` | cassandra/util.py:527-529 | Over any total order an increasing list is determined by its set. |
| `SortedSets.BisectLeft` | cassandra/util.py:652-653 | Searching from a correct lower bound is the search of the whole list. |
| `SortedSets.SortedSet.Contains` | cassandra/util.py:595-597 | Binary search decides membership. |
| `SortedSets.SortedSet.Add` | cassandra/util.py:605-611 | Adds exactly the item and keeps the list strictly increasing. |
| `SortedSets.SortedSet.Update` | cassandra/util.py:613-615 | Adds exactly the given items. |
| `SortedSets.SortedSet.Remove` | cassandra/util.py:639-645 | Removes exactly the item, or fails exactly when it is absent. |
| `SortedSets.SortedSet.Pop` | cassandra/util.py:634-637 | Removes and gives the greatest item, or fails exactly when empty. |
| `SortedSets.SortedSet.Union` | cassandra/util.py:647-663 | The merge with a moving lower bound is set union. |
| `SortedSets.SortedSet.Merge` | cassandra/util.py:653-659 | One turn adds exactly the item and keeps the lower bound correct. |
| `SortedSets.SortedSet.Difference` | cassandra/util.py:686-701 | The moving-bound difference is set difference. |
| `SortedSets.SortedSet.Intersection` | cassandra/util.py:703-718 | The moving-bound intersection, with its early exit, is set intersection. |
| `SortedSets.SortedSet.SymmetricDifference` | cassandra/util.py:681-684 | The union of both differences is the symmetric difference. |
| `SortedSets.SortedSet.IsSubset` | cassandra/util.py:628-629 | Comparing sizes decides the subset relation. |
| `UserTypes.UserTypeStrings` | cassandra/metadata.py:682-689 | Every type is exported exactly once, in the order of the recursion, and each after all types the scanner finds in its fields if and only if those have no cycle. |
| `UserTypes.ExportDeclared` | cassandra/metadata.py:682-697 | If no field's type has a quoted name or one that starts with `frozen`, each type comes after all types it really uses if and only if the uses have no cycle. |
| `UserTypes.FrozenNameOutOfOrder` | cassandra/cqltypes.py:85-93 | Two types without a cycle that are exported in the wrong order, because one is called `frozen_b`. |
| `UserTypes.Exporter.Resolve` | cassandra/metadata.py:691-697 | Terminates on the shrinking map of unvisited types, emits the type after what it mentions, keeps what was emitted, and leaves exactly the state of the recursion's specification. |
| `UserTypes.Exporter.ResolveField` | cassandra/metadata.py:694-696 | After the loop over the names that the scanner finds in a field, all known types among them are out, if there is no cycle, and the state is that of the specification. |
| `UserTypes.OrderIsRank` | cassandra/metadata.py:682-697 | An order that respects the mentions shows that they have no cycle. |
| `CqlTypeNames.ReadsExactlyTheReadable` | cassandra/cqltypes.py:85-93 | The scanner finds the types in a printed CQL type, each once and in order, if and only if none is quoted and none starts with `frozen`. |
| `CqlTypeNames.ScanReadable` | cassandra/cqltypes.py:85-93 | In a readable type, followed by anything, the scanner finds exactly its parts. |
| `CqlTypeNames.TokenCount` | cassandra/cqltypes.py:85-93 | A type gives no more names than it has parts, and fewer when a quote stops the scan. |
| `CqlTypeNames.NothingFrozenFound` | cassandra/cqltypes.py:85-93 | Nothing the scanner finds starts with `frozen`. |

## Left out

- StreamIds.StepSound: the unlocked call in `set_keyspace_async` is one step of this machine; `StreamIdRaces.SoundExactlyWhen` takes it apart and says for which configurations that makes no difference.
- StreamIds.AlwaysSound: the same; its runs are the schedules in which nothing runs inside the unlocked call (`StreamIdRaces.CoarseRunIsFine`).
- StreamIds.NeverIssuedTwice: the same.
- StreamIds.Connection.TakeForKeyspace: a method cannot be interrupted, so that it is the unlocked call without interference.
- Sockets, TLS, reactors, event loops, threads and timers: input and output plumbing; what they do to shared state is modelled as steps.
- ControlConnection, host up and down handling of Cluster, Session pools, schema queries: orchestration of network calls.
- Client timeouts, speculative execution, re-preparing and prepared statements in `ResponseFuture`: several completions can race there.
- SET KEYSPACE and schema-change responses in `ResponseFuture`: they finish through other objects.
- Connections that are closed or defunct, and requests whose encoder raises: ids are deliberately not given back there, so that `StreamIds` covers live connections with sends that do not raise.
- Fail-fast mode of the concurrent executors: it stops at the first error; the executors are modelled with it off.
- Appends of the list executor that land inside another thread's locked region are modelled right after it; the region does not read the list.
- `heapq` and `sorted`: the results queue is kept as a list by index, of which only the head and the sorted whole are read; `sorted` of the user type names is a parameter.
- TokenMaps.AlwaysCoherent: each operation is one step of this machine; `TokenMapRaces.TidyRunsStayCoherent` takes lookups, updates and removals apart and says which interleavings break coherence.
- TokenMaps.CacheIsTransparent: the same.
- TokenMaps.Metadata.UpdateKeyspace: a method cannot be interrupted, so that it is the update without interference (`TokenMapRaces.UpdateAlone`).
- TokenMaps.Metadata.DropKeyspace: the same (`TokenMapRaces.DropAlone`).
- TokenMaps.Metadata.RebuildAllKeyspaces: the same; in `TokenMapRaces` a schema read is one update per keyspace and one removal of the rest.
- Reading `self.token_map` and entering its method are one step of `TokenMapRaces`; so are the two passes over the keyspaces that drop the unlisted ones.
- CqlSerializers.SerializeEntries: takes a dict; a decoded map is `CqlSerializers.SerializeDecodedMap`. A dict that holds decoded maps, or a decoded map changed by its caller, is not modelled.
- UserType, DynamicCompositeType, frozen and reversed types in the codec and the type-name parser: dynamic class creation and special cases for empty values.
- Float, decimal, date, time, inet, UUID and the other fixed-width leaves: foreign libraries or easy members.
- A decoded set with a null element: it raises for more than one element, and the model has it raise for one as well.
- Duck typing in the serialisers: each type takes its own kind of value, so that for example a tuple given for a list is an error here.
- Texts with lone surrogates, which the UTF-8 encoder rejects: the model's characters exclude them.
- White space outside ASCII in the type-name scanners.
- The C extension on big-endian machines, and C's undefined signed overflow, which is taken to wrap around.
- Local datacenter inference and `populate` of the DC-aware policy: the policy starts empty with an explicit local datacenter; a plan is read in one go.
- The order of `dict` keys in `NetworkTopology` is first appearance; the per-datacenter theorems do not depend on it.
- Partitioners other than Murmur3, LocalStrategy and other strategies without a token map, reconnection and timestamp policies, compression, authentication, metrics, paging, the query encoder, CQL export text, cqlengine.

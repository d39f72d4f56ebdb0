# Verified models of atomr's protocols

atomr is an actor runtime: clustering, sharding, replicated data, persistence, FIX connectivity and
configuration. This project models the parts of it whose correctness is an argument over whole runs or
over every input, and proves that argument in Dafny 4.11. `dafny verify dfyconfig.toml` checks all of it.

* **FIX** (`Fix*.dfy`, `CivilDate.dfy`): the tag=value wire codec, the sequence-numbered session state
  machine, two sessions joined by a network that loses, duplicates and reorders, and the calendar
  arithmetic behind the timestamps.
* **Sharding** (`Sharding.dfy`, `Rebalancing.dfy`, `BatchRebalancing.dfy`): the least-shard strategy,
  the coordinator's table, and the loop of rebalancing and allocating.
* **Replicated data** (`Semilattice.dfy`, `Crdts.dfy`, `CounterDeltas.dfy`, `LastWriter.dfy`,
  `ObservedRemove.dfy`, `SignedSums.dfy`, `SignedSumRuns.dfy`): merges as join-semilattices, what every
  reachable replica satisfies, deltas, and saturating signed sums.
* **WORM journal** (`Worm*.dfy`): batched writes, the hash chain over rows, and what its verifier proves.
* **Split brain** (`SplitBrain.dfy`, `DowningDecisions.dfy`, `MemberSplits.dfy`, `SbrRuntime.dfy`): the
  downing strategies over arbitrary partitions, and the timed runtime around them.
* **Event sourcing** (`EventSourced.dfy`, `EventRecovery.dfy`, `EventBatches.dfy`): persist, snapshot
  and recover, with write failures and restarts.
* **HOCON** (`Hocon*.dfy`): layering of configuration trees, the byte parser, and substitutions.
* **Gossip** (`VectorClocks.dfy`, `Gossip.dfy`, `GossipAgreement.dfy`): version vectors and the exchange
  of status, envelope and merge messages.

Objects that change in place are classes whose methods are proved against functions of the old state;
loops are loops. Maps the program iterates in hash or tree order are iterated in an arbitrary order, so
each result holds for every order. Environment input (clocks, digests, codecs, failing writes,
included files, floating-point literals, lease ownership) enters as parameters.

## Findings

Properties the code does not have, each with an exact condition or a witness in the table below.

* A FIX frame is protected against single-byte replacement except at three positions: the delimiter
  before the trailer and the two digits of its tag, each with the bytes accepted there. A frame
  without a checksum field is accepted.
* If each FIX session misses a message of the other for good, each resend request is itself out of
  sequence: no run accepts anything any more. One message lost each way is enough.
* The rebalancing loop settles if and only if the threshold is at least 2, for every batch size. The
  default is 1. Batches larger than the threshold can take the last shard of a region. The comment
  on the strategy says "exceeds"; the code compares with at-least, as the field comment says.
* The tags of an observed-remove set are unique only per replica, although its documentation calls
  them unique, so an add that the remover never saw can be lost in a merge, of an item shown or not.
  Puts into an observed-remove map can be lost in the same way, and a removed value can come back
  joined to a later one.
* `LwwRegister::set` ignores the node on equal timestamps although `merge` uses it.
* An intact WORM chain says nothing about rows cut off its end or about columns it does not cover;
  rows missing elsewhere are reported unless the running hashes on both sides are equal. The hash of
  a single row does not fix the id; two rows do.
* `KeepOldest` ignores member status, although it is documented over up members. It lets sides that
  share the lowest number all survive; `Member::new` gives every member number 0, and nothing in the
  cluster crate outside its tests assigns another.
* An event-sourced actor takes a sequence number before writing. After a refused write every later
  write of the instance is refused; a snapshot taken then makes that permanent, across restarts.
  `persist_all` is documented as atomic, but writes event by event and stops at a failing snapshot.
* Layered configuration is not associative when a plain value sits between two objects. The comment
  on `with_fallback` says the argument wins; the code keeps the receiver's values.
* Plainly quoted HOCON strings re-encode every non-ASCII byte, so only ASCII text survives, and some
  keys have no spelling at all. A substitution that leads to another substitution leaves an internal
  marker in the result, and a quoted string that spells such a marker is substituted.
* A zero byte ends a HOCON document at its top level as if it were a terminator. It goes unreported
  when only white space and comments follow.

## Model

| member | source | states |
|---|---|---|
| `FixDecimal.DigitsRoundTrip` | crates/atomr-fix/src/message.rs:308-313 | the decimal text of a number is non-empty, all digits, and denotes that number |
| `FixDecimal.ParseDigits` | crates/atomr-fix/src/message.rs:273-273 | reading a written number gives it back exactly when it fits the integer width, and nothing otherwise |
| `FixDecimal.ThreeDigitsRoundTrip` | crates/atomr-fix/src/message.rs:239-241 | the three-digit checksum text denotes the byte it was written from |
| `FixUtf8.SplitAtAscii` | crates/atomr-fix/src/message.rs:263-272 | cutting well-formed text at any ASCII byte (a delimiter, an equals sign) leaves well-formed text on both sides |
| `FixMessage.FoldOffsets` | crates/atomr-fix/src/message.rs:262-289 | the running offset is the position of the segment being read, so the checksum boundary lies inside the frame |
| `FixCodec.SumOfBytes` | crates/atomr-fix/src/message.rs:239-240 | the 32-bit sum, whose wrap-around does not reach the checksum byte |
| `FixCodec.ToWire` | crates/atomr-fix/src/message.rs:213-244 | the encoder emits 8, 9, 35, the carried fields in order, and the checksum trailer |
| `FixCodec.TakeSegment` | crates/atomr-fix/src/message.rs:263-289 | the loop body of the parser, with every error case |
| `FixCodec.Parse` | crates/atomr-fix/src/message.rs:251-305 | the parser with its running offset, boundary and error order refines the segment-by-segment definition |
| `FixCodec.VerifyCheckSum` | crates/atomr-fix/src/message.rs:291-304 | the end of the parser: no field at all, a wrong checksum, or the fields read |
| `FixCodecLaws.RoundTrip` | crates/atomr-fix/src/message.rs:213-305 | a message comes back from the wire as 8, 9, 35, its other fields in order and 10, if and only if its emitted values are delimiter-free well-formed text |
| `FixCodecLaws.FramedHeader` | crates/atomr-fix/src/message.rs:214-235 | field 9 of what comes back is the decimal byte count of the body; 8 and 35 are the ones put in, or the defaults |
| `FixCodecLaws.FramedGet` | crates/atomr-fix/src/message.rs:168-170 | any other field reads the same before and after the wire |
| `FixCodecLaws.Reencode` | crates/atomr-fix/src/message.rs:213-244 | encoding what was parsed gives identical bytes |
| `FixCodecLaws.ParsedIsClean` | crates/atomr-fix/src/message.rs:251-289 | whatever the input bytes, a parsed message holds only well-formed delimiter-free fields |
| `FixCodecLaws.ParsePlainFields` | crates/atomr-fix/src/message.rs:295-304 | a frame without a checksum field is accepted as written |
| `FixCodecLaws.WrongSumRejected` | crates/atomr-fix/src/message.rs:295-302 | a frame whose trailer is not the byte sum of what precedes it is refused, for any bytes in front |
| `FixCorruption.BodyByteProtected` | crates/atomr-fix/src/message.rs:251-305 | replacing any byte before the delimiter in front of the trailer is refused, for every message, including changes that make or remove delimiters |
| `FixCorruption.SingleByteRejected` | crates/atomr-fix/src/message.rs:251-305 | the same for the rest of the trailer: equals sign, digits and terminal delimiter |
| `FixCorruption.ProtectedPositions` | crates/atomr-fix/src/message.rs:251-305 | exactly three positions of a frame are unprotected: the delimiter before the trailer and the two digits of its tag |
| `FixCorruption.DelimiterLost` | crates/atomr-fix/src/message.rs:263-302 | replacing that delimiter yields an accepted frame without a checksum |
| `FixCorruption.OtherTagAccepted` | crates/atomr-fix/src/message.rs:275-302 | a trailer under any other tag is accepted unverified |
| `FixTrailerBytes.DelimiterByteAccepted` | crates/atomr-fix/src/message.rs:263-302 | in place of that delimiter exactly the other ASCII bytes are accepted |
| `FixTrailerBytes.FirstTagByteAccepted` | crates/atomr-fix/src/message.rs:263-302 | in place of the first tag digit exactly the other digits, a plus sign and a delimiter are accepted |
| `FixTrailerBytes.SecondTagByteAccepted` | crates/atomr-fix/src/message.rs:263-302 | in place of the second tag digit exactly the other digits and an equals sign are accepted |
| `FixCorruption.TagLost` | crates/atomr-fix/src/message.rs:275-302 | single-byte witnesses for the two tag digits |
| `CivilDate.CivilCountsDays` | crates/atomr-fix/src/session.rs:474-485 | for every integer day number the result is a valid Gregorian date whose day count, by month lengths and the leap rule, is that number |
| `CivilDate.CivilSuccessor` | crates/atomr-fix/src/session.rs:474-485 | the next day number maps to the calendar successor |
| `CivilDate.CivilInverse` | crates/atomr-fix/src/session.rs:474-485 | every valid date is the image of its own day count, so the map is a bijection |
| `FixSession.SeqStore.constructor` | crates/atomr-fix/src/seq_store.rs:61-63 | both counters start at 1 |
| `FixSession.SeqStore.WithCounters` | crates/atomr-fix/src/seq_store.rs:67-69 | counters resumed as given |
| `FixSession.SeqStore.TakeOut` | crates/atomr-fix/src/seq_store.rs:80-82 | hands out the next number and advances, wrapping at 64 bits |
| `FixSession.SeqStore.ObservedIn` | crates/atomr-fix/src/seq_store.rs:88-98 | the expected number becomes the saturated successor, and never moves back |
| `FixSession.SeqStore.Reset` | crates/atomr-fix/src/seq_store.rs:104-107 | both counters return to 1 |
| `FixSession.FixEndpoint.FinalizeOutbound` | crates/atomr-fix/src/session.rs:148-156 | stamping takes exactly one number and puts header, number and time in place |
| `FixSession.FixEndpoint.BuildLogon` | crates/atomr-fix/src/session.rs:161-178 | logon, with the reset of both counters when configured |
| `FixSession.FixEndpoint.BuildLogout` | crates/atomr-fix/src/session.rs:182-190 | logout and the state change |
| `FixSession.FixEndpoint.ReactTo` | crates/atomr-fix/src/session.rs:290-373 | the reaction to an accepted message, by type |
| `FixSession.FixEndpoint.Handle` | crates/atomr-fix/src/session.rs:257-373 | the whole inbound handler: gap-fills, gaps, duplicates, accepted messages |
| `FixReactions.InSequenceReaction` | crates/atomr-fix/src/session.rs:290-373 | for every kind of message and every state: whether an accepted message is answered and by what kind, the state after it, and what is surfaced |
| `FixReactions.InSequenceNumbers` | crates/atomr-fix/src/session.rs:290-373 | both counters after an accepted message, resets included |
| `FixReactions.AnswerSays` | crates/atomr-fix/src/session.rs:290-373 | the header of the answer, the test id sent back, the range of a gap-fill, the number of a logon |
| `FixReactions.GapReaction` | crates/atomr-fix/src/session.rs:270-288 | a number past the expected one changes only the outbound counter; the request names the missing range |
| `FixReactions.StaleReaction` | crates/atomr-fix/src/session.rs:270-288 | a number below it changes nothing |
| `FixReactions.StampedFields` | crates/atomr-fix/src/session.rs:148-159 | tags 8, 49, 56, 34 and 52 of a stamped message; every other field is the one of the body |
| `FixReactions.LogonFields` | crates/atomr-fix/src/session.rs:161-180 | encryption, heartbeat interval, reset flag and application version of a logon |
| `FixReactions.GapFillFields` | crates/atomr-fix/src/session.rs:221-232 | number, new number, flags and header of a gap-fill |
| `FixReactions.SetInPlace` | crates/atomr-fix/src/message.rs:179-189 | `set` changes the first field of its tag in place, or appends one |
| `FixReactions.GetIsFirst` | crates/atomr-fix/src/message.rs:168-170 | `get` reads the first field of its tag, and nothing if and only if there is none |
| `FixReactions.TypeLetters` | crates/atomr-fix/src/message.rs:82-112 | each message type by its letter; any other text is a type of its own |
| `FixHandshake.Handshake` | crates/atomr-fix/src/session.rs:161-373 | from any level network, one greeting (logon or logout), its reception and the reception of the answer leave both sides Active or both Disconnected, level, with exactly one such message each |
| `FixHandshake.GreetingsCross` | crates/atomr-fix/src/session.rs:161-373 | the same when both greet at once: neither answers the other |
| `FixMessageFacts.OnTheWire` | crates/atomr-fix/src/message.rs:213-305 | a session message reaches the peer with its type and every session field intact |
| `FixDelivery.ReactionToFill` | crates/atomr-fix/src/session.rs:335-345 | a gap-fill only raises the expected number, to its NewSeqNo |
| `FixDelivery.ReactionToGap` | crates/atomr-fix/src/session.rs:270-288 | a number too high costs one resend request from the expected number to infinity and changes nothing else |
| `FixDelivery.ReactionToDuplicate` | crates/atomr-fix/src/session.rs:270-288 | a number too low is ignored |
| `FixDelivery.ReactionToResend` | crates/atomr-fix/src/session.rs:321-334 | an accepted resend request is answered by one gap-fill up to the next outbound number |
| `FixDelivery.ActKeeps` | crates/atomr-fix/src/session.rs:257-373 | every send and every reception, of any message in flight in any order, keeps the two-session invariant |
| `FixGuarantees.EveryRunDelivers` | crates/atomr-fix/src/session.rs:257-373 | in every run over a network that loses, duplicates and reorders, neither side expects a number the other has not reached, and each surfaces a subsequence, in order and without repeats, of the application messages the other sent |
| `FixGuarantees.GapIsClosed` | crates/atomr-fix/src/session.rs:270-345 | a detected gap whose request arrives in sequence is closed by the gap-fill: the requester then expects exactly the next outbound number and accepts whatever is sent next |
| `FixGuarantees.RequestAnsweredIff` | crates/atomr-fix/src/session.rs:270-345 | a resend request is answered by a gap-fill if and only if it arrives in sequence |
| `FixDeadlock.DeadlockStays` | crates/atomr-fix/src/session.rs:257-373 | when each side waits for a number the other has passed and nothing in flight helps, no run, whatever is sent, delivered, repeated or lost, accepts anything on either side |
| `FixDeadlock.NeverMovesIff` | crates/atomr-fix/src/session.rs:257-373 | no run moves either expected number if and only if the sessions are in that state |
| `FixDeadlock.CanRecoverIff` | crates/atomr-fix/src/session.rs:257-373 | once the missing messages are lost for good, some run brings the sessions level if and only if one of them has seen everything the other sent |
| `FixDeadlock.OneSidedGapCloses` | crates/atomr-fix/src/session.rs:270-345 | if only one side is behind, one message of the other starts a recovery that ends level |
| `FixDeadlock.TwoLossesDeadlock` | crates/atomr-fix/src/session.rs:257-373 | from any level state with nothing in flight, one message lost each way reaches the deadlock |
| `FixGuarantees.MutualGapNeverCloses` | crates/atomr-fix/src/session.rs:270-345 | when both sides wait for a number the other has passed, under immediate delivery requests answer requests for ever |
| `Sharding.RegionShardCounts` | crates/atomr-cluster-sharding/src/coordinator.rs:86-92 | the loop counts the shards of each region that has one |
| `Sharding.AllocateShard` | crates/atomr-cluster-sharding/src/allocation.rs:49-53 | the region with the fewest shards, the lexicographically first on a tie; none exactly when there is no region |
| `Sharding.LeastIsUnique` | crates/atomr-cluster-sharding/src/allocation.rs:49-53 | that choice is unique, so the iteration order of the map does not show |
| `Sharding.MinMax` | crates/atomr-cluster-sharding/src/allocation.rs:55-63 | smallest and largest load |
| `Sharding.SortedPrefix` | crates/atomr-cluster-sharding/src/allocation.rs:68-75 | the k smallest shard names in ascending order |
| `Sharding.Rebalance` | crates/atomr-cluster-sharding/src/allocation.rs:55-77 | names the first shards of most-loaded regions when the spread reaches the threshold, otherwise none |
| `Sharding.ShardCoordinator.Allocate` | crates/atomr-cluster-sharding/src/coordinator.rs:29-32 | keeps an existing allocation, records the default otherwise |
| `Sharding.ShardCoordinator.AllocateWithStrategy` | crates/atomr-cluster-sharding/src/coordinator.rs:37-47 | places the shard on the least-loaded known region and changes nothing else |
| `Sharding.ShardCoordinator.RebalanceWithStrategy` | crates/atomr-cluster-sharding/src/coordinator.rs:53-57 | the strategy applied to the current table |
| `Rebalancing.MoveLowersEnergy` | crates/atomr-cluster-sharding/src/allocation.rs:48-77 | a move from a region at least two ahead lowers the sum of squared loads, keeping shards and regions |
| `Rebalancing.BalancedIff` | crates/atomr-cluster-sharding/src/allocation.rs:55-63 | rebalance is silent exactly when the spread is below the threshold |
| `Rebalancing.Settle` | crates/atomr-cluster-sharding/src/allocation.rs:48-77 | repeating rebalance and allocation terminates, keeps the sets of shards and regions, and ends below the threshold |
| `Rebalancing.MoveEnergy` | crates/atomr-cluster-sharding/src/allocation.rs:48-77 | the exact change of the sum of squared loads by one move |
| `BatchRebalancing.MoveBatch` | crates/atomr-cluster-sharding/src/allocation.rs:55-76 | allocating every named shard again, however many, keeps the shards and leaves fewer regions, a lower sum of squares, or at an equal sum less skew; regions are kept up to the threshold |
| `BatchRebalancing.PhaseStep` | crates/atomr-cluster-sharding/src/allocation.rs:49-53 | allocating a shard again to the least-loaded region raises the sum of squares by at most one step, and then some region is left alone as the smallest |
| `BatchRebalancing.BatchDrops` | crates/atomr-cluster-sharding/src/allocation.rs:48-77 | the same of every batch, as a relation between tables |
| `BatchRebalancing.SettleInBatches` | crates/atomr-cluster-sharding/src/allocation.rs:48-77 | moving all named shards in every round terminates below the threshold for every batch size once the threshold is at least two |
| `BatchRebalancing.SettlesInBatchesIff` | crates/atomr-cluster-sharding/src/allocation.rs:48-77 | whatever the batch size, no sequence of rounds goes on for ever if and only if the threshold is at least two |
| `BatchRebalancing.ForthAndBackInBatches` | crates/atomr-cluster-sharding/src/allocation.rs:48-77 | with a threshold of one a batch of any size moves a shard forth and the next one back |
| `BatchRebalancing.RegionLost` | crates/atomr-cluster-sharding/src/allocation.rs:48-77 | a batch larger than the threshold moves the last shard of a region away |
| `Rebalancing.RoundsAreBounded` | crates/atomr-cluster-sharding/src/allocation.rs:48-77 | no run of rounds is longer than the initial sum of squares plus one |
| `Rebalancing.ForthAndBack` | crates/atomr-cluster-sharding/src/allocation.rs:42-46 | at the default threshold a shard moves between two regions and back |
| `Rebalancing.SettlesIff` | crates/atomr-cluster-sharding/src/allocation.rs:48-77 | the loop settles from every table if and only if the threshold is at least two |
| `Semilattice.SchedulesAgree` | crates/atomr-distributed-data/src/traits.rs:1-12 | for any join-semilattice, two merge schedules with repeats over the same set of replica states give the same result |
| `Semilattice.MapLaws` | crates/atomr-distributed-data/src/maps.rs:204-210 | key-by-key merging of a semilattice is a semilattice |
| `Semilattice.MergeEntries` | crates/atomr-distributed-data/src/maps.rs:204-210 | the merge loop, for any iteration order, computes the key-by-key join |
| `Crdts.UnionLaws` | crates/atomr-distributed-data/src/sets.rs:50-56 | grow-only sets: commutative, associative, idempotent |
| `Crdts.GCounterLaws` | crates/atomr-distributed-data/src/counters.rs:36-43 | grow-only counters |
| `Crdts.PosNegLaws` | crates/atomr-distributed-data/src/counters.rs:89-94 | positive/negative counters and the replicated part of signed sums |
| `Crdts.OrSetLaws` | crates/atomr-distributed-data/src/sets.rs:127-137 | observed-remove sets |
| `Crdts.ORMapLaws` | crates/atomr-distributed-data/src/maps.rs:90-109 | observed-remove maps over any convergent value type |
| `Crdts.GCounterConverges` | crates/atomr-distributed-data/src/counters.rs:36-43 | any two schedules agree |
| `Crdts.PosNegConverges` | crates/atomr-distributed-data/src/signed_sum.rs:111-121 | any two schedules agree |
| `Crdts.OrSetConverges` | crates/atomr-distributed-data/src/sets.rs:127-137 | any two schedules agree |
| `Crdts.ORMapConverges` | crates/atomr-distributed-data/src/maps.rs:90-109 | any two schedules agree |
| `Crdts.PosNegMapConverges` | crates/atomr-distributed-data/src/maps.rs:204-210 | any two schedules agree, also for maps of signed sums |
| `Crdts.ORMultiMapConverges` | crates/atomr-distributed-data/src/maps.rs:254-260 | any two schedules agree |
| `CounterDeltas.GCounterReplica.Add` | crates/atomr-distributed-data/src/counters.rs:25-29 | counts in the state and in the pending delta |
| `CounterDeltas.GCounterReplica.MergeFrom` | crates/atomr-distributed-data/src/counters.rs:37-42 | the larger count of each node; pending deltas stay |
| `CounterDeltas.GCounterReplica.TakeDelta` | crates/atomr-distributed-data/src/counters.rs:50-55 | hands out what is pending and clears it |
| `CounterDeltas.GCounterReplica.MergeDelta` | crates/atomr-distributed-data/src/counters.rs:57-62 | adds the amounts of a delta |
| `CounterDeltas.GCounterReplica.Value` | crates/atomr-distributed-data/src/counters.rs:31-33 | the sum of all counts, in any order |
| `CounterDeltas.CountsWhatWasCounted` | crates/atomr-distributed-data/src/counters.rs:25-33 | after any operations the counter holds, for each node and in all, exactly what was counted |
| `CounterDeltas.ReceiverLagsByPending` | crates/atomr-distributed-data/src/counters.rs:25-62 | a receiver of every delta lags the source by exactly what is pending |
| `CounterDeltas.DeltasRebuildSource` | crates/atomr-distributed-data/src/counters.rs:50-62 | every delta once, in any order, rebuilds the source |
| `CounterDeltas.TwiceIsOnceIff` | crates/atomr-distributed-data/src/counters.rs:57-62 | a repeated delta is harmless if and only if it is all zeros |
| `LastWriter.LwwMapCommutesIff` | crates/atomr-distributed-data/src/maps.rs:152-163 | merging commutes if and only if equal timestamps carry equal values |
| `LastWriter.LwwMapAssociates` | crates/atomr-distributed-data/src/maps.rs:152-163 | merging is associative and idempotent without condition |
| `LastWriter.LwwMapConverges` | crates/atomr-distributed-data/src/maps.rs:152-163 | pairwise agreeing replicas converge under any schedule |
| `LastWriter.LatestWriteWins` | crates/atomr-distributed-data/src/maps.rs:134-163 | after any writes and merges a key holds one of its writes, and none is later |
| `LastWriter.MergeTakesLater` | crates/atomr-distributed-data/src/maps.rs:153-163 | a merge takes an entry if and only if there is none of its own as late |
| `LastWriter.PutTakesLater` | crates/atomr-distributed-data/src/maps.rs:134-141 | a put takes effect if and only if there is no entry as late; no other key changes |
| `LastWriter.LwwMapReplica.Put` | crates/atomr-distributed-data/src/maps.rs:134-141 | a write not strictly later is dropped |
| `LastWriter.LwwMapReplica.MergeFrom` | crates/atomr-distributed-data/src/maps.rs:153-162 | key by key, ours unless theirs is strictly later |
| `LastWriter.RegisterCommutesIff` | crates/atomr-distributed-data/src/register.rs:36-42 | merging commutes if and only if equal timestamp and node imply equal values |
| `LastWriter.RegisterAssociates` | crates/atomr-distributed-data/src/register.rs:36-42 | merging is associative and idempotent without condition |
| `LastWriter.RegisterConverges` | crates/atomr-distributed-data/src/register.rs:36-42 | agreeing registers converge under any schedule |
| `LastWriter.SetIsMergeIff` | crates/atomr-distributed-data/src/register.rs:27-42 | a local set equals merging the written register, except on equal timestamps with a greater node |
| `LastWriter.LatestRegisterWins` | crates/atomr-distributed-data/src/register.rs:27-42 | after any sets and merges the register holds one of the written values with its timestamp and node, and no written timestamp is later |
| `LastWriter.MergeKeepsLater` | crates/atomr-distributed-data/src/register.rs:36-42 | a merge keeps the later register, on equal timestamps the one of the larger node, else its own |
| `LastWriter.SetTakesLater` | crates/atomr-distributed-data/src/register.rs:27-33 | a set takes effect if and only if it is strictly later |
| `LastWriter.LwwRegisterReplica.Set` | crates/atomr-distributed-data/src/register.rs:27-33 | a strictly later write replaces value, timestamp and node |
| `LastWriter.LwwRegisterReplica.MergeFrom` | crates/atomr-distributed-data/src/register.rs:37-41 | the later register, by timestamp then node |
| `ObservedRemove.OrSetReplica.AddItem` | crates/atomr-distributed-data/src/sets.rs:82-85 | adds one fresh tag |
| `ObservedRemove.OrSetReplica.RemoveItem` | crates/atomr-distributed-data/src/sets.rs:87-91 | retires every tag seen |
| `ObservedRemove.OrSetReplica.MergeFrom` | crates/atomr-distributed-data/src/sets.rs:127-137 | union of tags, larger counter |
| `ObservedRemove.ReachableSetOk` | crates/atomr-distributed-data/src/sets.rs:82-137 | on every replica reachable by operations and merges no tag exceeds the counter and only added tags are removed |
| `ObservedRemove.AddShows` | crates/atomr-distributed-data/src/sets.rs:82-116 | a local add shows the item and leaves every other item as it was |
| `ObservedRemove.RemoveHides` | crates/atomr-distributed-data/src/sets.rs:87-116 | a local remove hides the item and leaves every other item as it was |
| `ObservedRemove.RemoveRetires` | crates/atomr-distributed-data/src/sets.rs:87-91 | a remove retires every tag of its item, keeps those retired before, and touches no other item |
| `ObservedRemove.ConcurrentAddSurvivesIff` | crates/atomr-distributed-data/src/sets.rs:58-137 | an add, of an item shown or not, survives a merge with a side that does not show the item if and only if a live tag of the adder is unused over there |
| `ObservedRemove.JoinShowsIff` | crates/atomr-distributed-data/src/sets.rs:93-137 | a merge of any two reachable sets shows an item if and only if one side has a live tag for it that the other has not removed |
| `ObservedRemove.RepeatedAddLost` | crates/atomr-distributed-data/src/sets.rs:58-137 | a second add of an item already shown is lost to a remover that has counted as far |
| `ObservedRemove.ConcurrentAddLost` | crates/atomr-distributed-data/src/sets.rs:58-137 | two replicas with equal counters: an unobserved add is lost |
| `ObservedRemove.ORMapReplica.PutEntry` | crates/atomr-distributed-data/src/maps.rs:49-52 | writes the value under a fresh tag |
| `ObservedRemove.ORMapReplica.UpdateEntry` | crates/atomr-distributed-data/src/maps.rs:55-66 | joins with the stored value under a fresh tag |
| `ObservedRemove.ORMapReplica.RemoveEntry` | crates/atomr-distributed-data/src/maps.rs:68-72 | leaves a tombstone at the current tag |
| `ObservedRemove.ORMapReplica.MergeFrom` | crates/atomr-distributed-data/src/maps.rs:90-109 | values are always joined; tag, tombstone and counter by maximum |
| `ObservedRemove.ReachableMapOk` | crates/atomr-distributed-data/src/maps.rs:49-109 | on every reachable map no tag or tombstone exceeds the counter |
| `ObservedRemove.ItemsAgree` | crates/atomr-distributed-data/src/maps.rs:74-88 | iteration and lookup agree |
| `ObservedRemove.PutShows` | crates/atomr-distributed-data/src/maps.rs:49-88 | a local put shows exactly the new value and touches no other key |
| `ObservedRemove.UpdateShows` | crates/atomr-distributed-data/src/maps.rs:55-66 | a local update shows the value joined to the stored one, removed or not |
| `ObservedRemove.JoinLookupIff` | crates/atomr-distributed-data/src/maps.rs:73-109 | a merge of any two maps shows a key if and only if the larger of its tags is past both tombstones, and then the joined values |
| `ObservedRemove.PutValueShowsIff` | crates/atomr-distributed-data/src/maps.rs:49-109 | a put that survives a merge shows its own value if and only if the other side stores none that changes it |
| `ObservedRemove.RemovedValueReturns` | crates/atomr-distributed-data/src/maps.rs:49-109 | a value seen and removed before a put comes back joined to the new one |
| `ObservedRemove.ConcurrentPutSurvivesIff` | crates/atomr-distributed-data/src/maps.rs:49-109 | a put survives a merge if and only if the other side has no tombstone that reaches both the new tag and its own |
| `ObservedRemove.ConcurrentPutLost` | crates/atomr-distributed-data/src/maps.rs:49-109 | a put lost to a side that never observed it |
| `ObservedRemove.DeleteHides` | crates/atomr-distributed-data/src/maps.rs:68-88 | a local remove hides the key and touches no other |
| `SignedSums.SaturatingSum` | crates/atomr-distributed-data/src/signed_sum.rs:106-108 | in any order of the map, the fold is the exact total cut off at the largest 128-bit value |
| `SignedSums.SignedSumReplica.Add` | crates/atomr-distributed-data/src/signed_sum.rs:78-96 | saturating gains and magnitudes, in state and pending delta |
| `SignedSums.SignedSumReplica.Value` | crates/atomr-distributed-data/src/signed_sum.rs:100-104 | the net value, always within 128 bits |
| `SignedSums.SignedSumReplica.Merge` | crates/atomr-distributed-data/src/signed_sum.rs:111-121 | larger accumulator of each node; pending deltas stay |
| `SignedSums.SignedSumReplica.TakeDelta` | crates/atomr-distributed-data/src/signed_sum.rs:135-143 | hands out what is pending and clears it |
| `SignedSums.SignedSumReplica.MergeDelta` | crates/atomr-distributed-data/src/signed_sum.rs:145-153 | adds with saturation |
| `SignedSumRuns.EveryRunIsSingleWriter` | crates/atomr-distributed-data/src/signed_sum.rs:78-121 | in every run in which nodes add only at their own replica, every replica is behind the owner, whose accumulators are the saturated totals of its deltas |
| `SignedSumRuns.EveryRunConverges` | crates/atomr-distributed-data/src/signed_sum.rs:78-121 | after any run, however all replicas are merged, the value is min(MAX, all gains) minus min(MAX, all losses) |
| `SignedSumRuns.DeltasRebuildSource` | crates/atomr-distributed-data/src/signed_sum.rs:132-153 | each taken delta applied once, in any order, rebuilds a source that only adds |
| `WormChain.PreimageInjective` | crates/atomr-persistence-sql/src/worm.rs:72-86 | for one id and previous hashes of one length, the hashed bytes determine previous hash, number, payload and timestamp |
| `WormIdentity.PreimagesCollide` | crates/atomr-persistence-sql/src/worm.rs:72-86 | across ids they do not: an id that ends in the number bytes of another swallows them |
| `WormIdentity.OneRowTwoIds` | crates/atomr-persistence-sql/src/worm.rs:96-127 | so one row hash is an intact chain of two ids |
| `WormIdentity.OneIdOnly` | crates/atomr-persistence-sql/src/worm.rs:96-127 | two intact chains of two or more consecutive rows that end in one hash have one id and the same content |
| `WormChain.VerifyRows` | crates/atomr-persistence-sql/src/worm.rs:107-126 | the verifier loop refines the definition of the first failing row |
| `WormChain.IntactMeansPasses` | crates/atomr-persistence-sql/src/worm.rs:107-126 | an intact answer if and only if every row passes |
| `WormIntegrity.TipFixesChain` | crates/atomr-persistence-sql/src/worm.rs:72-127 | two intact chains of one id and length with the same last hash agree on every covered column of every row |
| `WormIntegrity.EarliestEditReported` | crates/atomr-persistence-sql/src/worm.rs:96-127 | edited payloads or timestamps are reported at the earliest edited number |
| `WormIntegrity.TruncationUndetected` | crates/atomr-persistence-sql/src/worm.rs:96-127 | cutting rows off the end leaves an intact chain |
| `WormIntegrity.CutUnnoticedIff` | crates/atomr-persistence-sql/src/worm.rs:96-127 | missing rows go unnoticed if and only if they were the last ones or the running hash is the same on both sides of the cut; otherwise the row behind the cut is reported |
| `WormIntegrity.MissingFrontReported` | crates/atomr-persistence-sql/src/worm.rs:96-127 | rows missing from the front are always reported, unless none are left |
| `WormIntegrity.OnlyCoveredColumnsCount` | crates/atomr-persistence-sql/src/worm.rs:72-127 | the answer depends on the covered columns alone |
| `WormJournal.GroupByPid` | crates/atomr-persistence-sql/src/journal.rs:187-191 | the batch split by id, each id in batch order |
| `WormJournal.WriteGroup` | crates/atomr-persistence-sql/src/journal.rs:193-271 | one id: accepted if and only if the numbers continue the stored ones, and then every row is chained |
| `WormJournal.SqlJournal.WriteMessages` | crates/atomr-persistence-sql/src/journal.rs:182-275 | a batch is committed whole or leaves the table unchanged; without a database fault it is accepted if and only if every id continues its numbers |
| `WormJournal.CommitKeepsTable` | crates/atomr-persistence-sql/src/journal.rs:182-275 | a committed batch keeps every chain of the table intact and numbered |
| `WormJournal.ChainIsIntact` | crates/atomr-persistence-sql/src/worm.rs:96-127 | in such a table each id verifies as intact and holds exactly 1..n |
| `WormJournal.EveryRunVerifies` | crates/atomr-persistence-sql/src/journal.rs:182-275 | after any sequence of calls from the empty table, accepted or refused |
| `WormContents.CommitStores` | crates/atomr-persistence-sql/src/journal.rs:182-275 | after an accepted call an id holds what it held before, followed by the messages of that id in order, every column but the hashes and the time |
| `WormContents.EveryRunStores` | crates/atomr-persistence-sql/src/journal.rs:182-275 | after any calls, accepted or refused, each id holds exactly its messages of the accepted ones, in order |
| `WormContents.BySeqSorts` | crates/atomr-persistence-sql/src/worm.rs:97-103 | rows ordered by number are the same rows, ascending |
| `WormContents.LatestIsMaximum` | crates/atomr-persistence-sql/src/journal.rs:190-212 | the row taken as the latest has the highest number |
| `SplitBrain.MajorityAtMostOne` | crates/atomr-cluster/src/sbr.rs:30-43 | for every split at most one side survives |
| `DowningDecisions.MajorityDecides` | crates/atomr-cluster/src/sbr.rs:30-43 | a side with more than half of the Up members goes on, one with exactly half takes all down, any other steps down |
| `DowningDecisions.MajorityWins` | crates/atomr-cluster/src/sbr.rs:30-43 | a side with more than half survives, and every other side steps down |
| `DowningDecisions.LeaseMajorityDecides` | crates/atomr-cluster/src/sbr.rs:143-151 | the same, except that a half with the lease goes on |
| `DowningDecisions.CountUpCounts` | crates/atomr-cluster/src/sbr.rs:32-32 | the count is the number of members that are Up |
| `DowningDecisions.RefereeDecides` | crates/atomr-cluster/src/sbr.rs:100-112 | the side of the referee decides by its size, every other side steps down |
| `DowningDecisions.EverythingDecides` | crates/atomr-cluster/src/sbr.rs:126-134 | every side goes down unless all other sides are empty |
| `DowningDecisions.OldestDecides` | crates/atomr-cluster/src/sbr.rs:67-91 | for every non-empty side: goes on, takes all down as a lone oldest member, or steps down |
| `DowningDecisions.WeightIsMaximum` | crates/atomr-cluster/src/sbr.rs:176-180 | a member weighs as much as its heaviest weighted role |
| `SplitBrain.LeaseAtMostOne` | crates/atomr-cluster/src/sbr.rs:143-151 | at most one side when at most one holds the lease |
| `SplitBrain.QuorumAtMostOneIff` | crates/atomr-cluster/src/sbr.rs:51-59 | at most one side in every split of the members if and only if twice the quorum exceeds their number |
| `SplitBrain.WeightedAtMostOne` | crates/atomr-cluster/src/sbr.rs:171-193 | at most one side when twice the required weight exceeds the weight of all Up members |
| `SplitBrain.RefereeAtMostOne` | crates/atomr-cluster/src/sbr.rs:100-112 | at most one side when addresses are unique |
| `MemberSplits.RefereeAtMostOneIff` | crates/atomr-cluster/src/sbr.rs:100-112 | at most one side in every split of the members if and only if at most one of them has the referee address or they are fewer than twice the required size |
| `MemberSplits.WeightedAtMostOneIff` | crates/atomr-cluster/src/sbr.rs:171-193 | at most one side in every split, however many sides, if and only if no two disjoint groups of members reach the weight, with 32-bit sums that wrap around |
| `MemberSplits.DividesInTwo` | crates/atomr-cluster/src/sbr.rs:171-193 | while the total weight fits 32 bits, divisions of the members in two decide |
| `SplitBrain.HolderSurvives` | crates/atomr-cluster/src/sbr.rs:67-91 | a side survives if and only if it holds a member as old as any and is not a lone member that is to be downed |
| `SplitBrain.OldestAtMostOneIff` | crates/atomr-cluster/src/sbr.rs:67-91 | at most one side if and only if no two sides share the lowest number of all, or lone members are downed and one of any two such sides has a single member |
| `SplitBrain.TiedSidesSurvive` | crates/atomr-cluster/src/sbr.rs:67-91 | two given sides both survive if and only if they share the lowest number and neither is a lone member to be downed |
| `SplitBrain.EqualNumbersAllSurvive` | crates/atomr-cluster/src/sbr.rs:67-91 | when all members carry one number and lone members are not downed, every non-empty side survives |
| `SplitBrain.TwoNewMembersBothSurvive` | crates/atomr-cluster/src/member.rs:28-30 | two members as created, which all carry number 0, both survive a split when lone members are not downed |
| `SplitBrain.KeepsAsDocumentedIff` | crates/atomr-cluster/src/sbr.rs:61-91 | the code keeps the documented sides, those with the oldest Up member, if and only if the lowest number of all and the lowest number of Up members are on the same sides |
| `SplitBrain.JoiningMemberDecides` | crates/atomr-cluster/src/sbr.rs:61-91 | a joining member with the lower number: its side is kept and the side of the only Up member downed |
| `SplitBrain.OldestAtMostOne` | crates/atomr-cluster/src/sbr.rs:67-91 | at most one side when up numbers are distinct, with either setting for a lone member |
| `SbrRuntime.SplitMembers` | crates/atomr-cluster/src/sbr_runtime.rs:82-95 | the partitioning loop skips Down and Removed members and keeps order |
| `SbrRuntime.Resolver.NoteQuorumLost` | crates/atomr-cluster/src/sbr_runtime.rs:59-66 | one notification per loss |
| `SbrRuntime.Resolver.NoteQuorumRegained` | crates/atomr-cluster/src/sbr_runtime.rs:70-77 | one notification per regain, only after a loss |
| `SbrRuntime.Resolver.DoTick` | crates/atomr-cluster/src/sbr_runtime.rs:81-125 | one tick: new state, action and notifications |
| `SbrRuntime.ActsExactlyWhenStable` | crates/atomr-cluster/src/sbr_runtime.rs:81-125 | over every sequence of ticks with a non-decreasing clock, the action is the mapped decision if and only if members have been unreachable without a break for the stability window, and none otherwise |
| `SbrRuntime.NotesAlternate` | crates/atomr-cluster/src/sbr_runtime.rs:58-125 | over every sequence of ticks, lost and regained alternate, starting with lost |
| `SbrRuntime.WhoIsDowned` | crates/atomr-cluster/src/sbr_runtime.rs:81-125 | downing the other side names exactly the members neither Down nor Removed that are observed as unreachable; downing all names every member |
| `SbrRuntime.SideIs` | crates/atomr-cluster/src/sbr_runtime.rs:82-94 | each side is the members still counted, by whether somebody observes them as unreachable |
| `SbrRuntime.PartitionedIff` | crates/atomr-cluster/src/sbr_runtime.rs:82-100 | a partition is seen if and only if a member still counted is observed as unreachable |
| `SbrRuntime.NotedWhen` | crates/atomr-cluster/src/sbr_runtime.rs:58-125 | a loss is noted exactly when a tick steps down and none was noted, a recovery when the partition is gone |
| `SbrRuntime.ClockSetBack` | crates/atomr-cluster/src/sbr_runtime.rs:100-109 | a clock set back counts as no time |
| `EventSourced.InMemoryJournal.WriteEvent` | crates/atomr-persistence/src/journal.rs:87-98 | accepted if and only if the number continues the stream; other streams untouched |
| `EventSourced.InMemoryJournal.ReplayEvents` | crates/atomr-persistence/src/journal.rs:116-134 | the events from a number onwards, in order |
| `EventSourced.InMemorySnapshotStore.Save` | crates/atomr-persistence/src/snapshot.rs:38-40 | appends to the snapshots of the id |
| `EventSourced.InMemorySnapshotStore.Load` | crates/atomr-persistence/src/snapshot.rs:42-44 | the snapshot saved last |
| `EventSourced.EventSourcedActor.TakeSnapshot` | python/atomr/persistence.py:358-364 | saves state and number, nothing without a store |
| `EventSourced.EventSourcedActor.PersistEvents` | python/atomr/persistence.py:341-356 | encode, number, write, handle and possibly snapshot, event by event, stopping where one raises |
| `EventSourced.EventSourcedActor.ApplyEffects` | python/atomr/persistence.py:311-339 | effects in order; the last reply; whether to stop |
| `EventSourced.LastReplyIsLast` | python/atomr/persistence.py:311-339 | the reply is the one after which no other comes |
| `EventSourced.LastCadenceHolds` | python/atomr/persistence.py:311-339 | the cadence after a completed command is the last one asked for, none for zero and less |
| `EventSourced.EventSourcedActor.PreStart` | python/atomr/persistence.py:261-284 | latest snapshot, then the journal from the next number |
| `EventRecovery.EveryRunRecovers` | python/atomr/persistence.py:261-364 | without write faults, a fresh instance recovering at any point of any run reaches the live state, sequence number and snapshot mark |
| `EventRecovery.RecoveryExact` | python/atomr/persistence.py:184-284 | recovery reaches the live state in every run, with faults and restarts, if and only if codecs and handler are faithful at every state that storable events lead to |
| `EventRecovery.RecoveredNumber` | python/atomr/persistence.py:341-364 | with write faults, the recovered number equals the live one if and only if the live counter is not ahead of both stores |
| `EventRecovery.ReplayIsBounded` | python/atomr/persistence.py:341-364 | with a store and constant cadence k, recovery replays fewer than k events at any point of any run |
| `EventRecovery.WedgedForever` | python/atomr/persistence.py:341-364 | once a snapshot carries a number past the journal, no later run writes anything |
| `EventRecovery.CanWriteIff` | python/atomr/persistence.py:341-356 | an instance can still write if and only if its counter is not ahead of the journal |
| `EventRecovery.WritesAgainIff` | python/atomr/persistence.py:261-364 | some continuation, restarts included, writes again if and only if no snapshot carries a number past the journal |
| `EventBatches.BatchWrites` | python/atomr/persistence.py:341-356 | at least k events of a batch are written if and only if the first k encode, none of their writes is refused, and every snapshot due before the k-th encodes |
| `EventBatches.AllOrNothingIff` | python/atomr/persistence.py:341-356 | a batch is all or nothing, as documented at line 30, if and only if the instance is ahead, the first event fails, or no event and no snapshot due before the last event fails |
| `EventBatches.SnapshotStopsBatch` | python/atomr/persistence.py:341-364 | every event taken, but the snapshot due after the first does not encode: one of two is written |
| `EventBatches.HalfABatch` | python/atomr/persistence.py:341-356 | two events, the second refused: one is written |
| `EventRecovery.WedgeHappens` | python/atomr/persistence.py:341-364 | one refused write followed by one snapshot leads there, for every behaviour that can do both |
| `HoconTree.MergeObject` | crates/atomr-config/src/value.rs:212-235 | the recursive in-place loop, in any order, is the pointwise merge |
| `HoconTree.DeepMergeInto` | crates/atomr-config/src/hocon.rs:564-575 | is the same merge with the right-hand side on top |
| `HoconTree.FallbackIsOverride` | crates/atomr-config/src/value.rs:94-105 | overriding a by b is b falling back to a, for all trees |
| `HoconTree.CoversIff` | crates/atomr-config/src/value.rs:212-235 | a layer adds nothing if and only if everything it could add is already covered |
| `HoconTree.FallbackAssociatesIff` | crates/atomr-config/src/value.rs:94-105 | stacking three layers is independent of grouping if and only if no plain value separates an object from a richer one below it |
| `HoconTree.SameShapeLayers` | crates/atomr-config/src/value.rs:94-105 | in particular when neighbouring layers agree on which places are objects |
| `HoconTree.FallbackNeedNotAssociate` | crates/atomr-config/src/value.rs:94-105 | the smallest layers for which grouping shows |
| `HoconTree.InsertDotted` | crates/atomr-config/src/hocon.rs:540-562 | setting a dotted key is deep-merging the nested object |
| `HoconTree.AppendDotted` | crates/atomr-config/src/hocon.rs:516-538 | `+=` is setting the path to the array found there extended by the value |
| `HoconTree.AppendThenGet` | crates/atomr-config/src/hocon.rs:511-538 | the path then holds the array that was there with the value behind it, or an array of the value alone |
| `HoconTree.AppendElsewhere` | crates/atomr-config/src/hocon.rs:511-538 | diverging paths keep their value |
| `HoconTree.LookupMerged` | crates/atomr-config/src/value.rs:200-210 | what every path holds after a merge, from what it held on the two sides |
| `HoconTree.SetThenGet` | crates/atomr-config/src/hocon.rs:540-562 | reading back a path just set |
| `HoconTree.SetElsewhere` | crates/atomr-config/src/hocon.rs:540-562 | every path that parts ways keeps its value |
| `HoconParser.Parser.Advance` | crates/atomr-config/src/hocon.rs:432-445 | moves forward, never past the end, keeping line and column those of the position |
| `HoconParser.Parser.SkipWsAndComments` | crates/atomr-config/src/hocon.rs:455-490 | white space, line comments, block comments closed or not |
| `HoconLayout.BlanksSkipped` | crates/atomr-config/src/hocon.rs:455-490 | any run of white space, line comments and block comments is skipped |
| `HoconLayout.SkippingStops` | crates/atomr-config/src/hocon.rs:455-490 | and nothing that starts neither |
| `HoconLayout.InlineSkipped` | crates/atomr-config/src/hocon.rs:446-453 | within a line exactly blanks and tabs are skipped |
| `HoconLayout.LineCountsNewlines` | crates/atomr-config/src/hocon.rs:432-444 | the line is one more than the newlines in front |
| `HoconLayout.ColumnCountsFromNewline` | crates/atomr-config/src/hocon.rs:432-444 | the column counts from the last newline |
| `HoconParser.Parser.ReadString` | crates/atomr-config/src/hocon.rs:249-332 | quoted and triple-quoted strings with their errors |
| `HoconParser.Parser.ReadKey` | crates/atomr-config/src/hocon.rs:195-228 | dotted keys |
| `HoconLayout.NameReads` | crates/atomr-config/src/hocon.rs:195-228 | an unquoted name of letters, digits, underscores and dashes reads as itself |
| `HoconLayout.IncludeIff` | crates/atomr-config/src/hocon.rs:423-430 | `include` is a directive if and only if no letter, digit or underscore follows |
| `HoconLayout.UnclosedQuote` | crates/atomr-config/src/hocon.rs:280-331 | a line or text that ends before the closing quote is an unterminated string, with its line |
| `HoconParser.Parser.ReadScalar` | crates/atomr-config/src/hocon.rs:387-405 | unquoted scalars |
| `HoconLayout.ScalarReachesStop` | crates/atomr-config/src/hocon.rs:387-405 | an unquoted scalar ends at the first separator, closing bracket or comment, or at the end |
| `HoconLayout.TrimmedIff` | crates/atomr-config/src/hocon.rs:357-405 | nothing is trimmed if and only if neither end is a character with the Unicode property White_Space |
| `HoconParser.Parser.ReadSubstitution` | crates/atomr-config/src/hocon.rs:357-385 | substitution markers |
| `HoconParser.Parser.ReadValue` | crates/atomr-config/src/hocon.rs:230-247 | values, by first byte |
| `HoconParser.Parser.ReadArray` | crates/atomr-config/src/hocon.rs:334-355 | arrays |
| `HoconParser.Parser.ReadBody` | crates/atomr-config/src/hocon.rs:119-193 | object bodies, with include as a parameter |
| `HoconParser.Parser.ReadMember` | crates/atomr-config/src/hocon.rs:157-191 | key, operator and value, merged or appended |
| `HoconForms.AssignmentForms` | crates/atomr-config/src/hocon.rs:157-191 | `=` and `:` behind a key both assign |
| `HoconForms.AppendForm` | crates/atomr-config/src/hocon.rs:157-191 | `+=` appends |
| `HoconForms.BodyForm` | crates/atomr-config/src/hocon.rs:157-191 | a body right behind the key is assigned |
| `HoconForms.OtherwiseRefused` | crates/atomr-config/src/hocon.rs:157-191 | anything else behind a key is refused |
| `HoconForms.BodyGaps` | crates/atomr-config/src/hocon.rs:119-140 | any run of blanks, comments, commas, semicolons and newlines in an object changes nothing |
| `HoconForms.ArrayGaps` | crates/atomr-config/src/hocon.rs:334-355 | the same in an array without the semicolons |
| `HoconForms.SemicolonEndsArray` | crates/atomr-config/src/hocon.rs:334-355 | a semicolon in an array is an error |
| `HoconForms.IncludeOverrides` | crates/atomr-config/src/hocon.rs:141-155 | an included object goes on top of what was read before it, path by path |
| `HoconParser.Parser.ReadRoot` | crates/atomr-config/src/hocon.rs:93-115 | terminates on every input; success means the whole text was consumed |
| `HoconGrammar.ParseRoot` | crates/atomr-config/src/hocon.rs:93-115 | the grammar the parser refines: success ends at the end of the text with an object |
| `HoconRoundTrip.DocumentReads` | crates/atomr-config/src/hocon.rs:93-490 | every document of dotted keys, repeated keys, appends, nested objects, arrays, unquoted scalars and substitutions, written out, parses to its meaning, with or without outer braces |
| `HoconRoundTrip.ZeroEndsDocument` | crates/atomr-config/src/hocon.rs:93-133 | a zero byte after a document without outer braces ends it: accepted if and only if only white space and comments follow, otherwise what follows is reported at its place |
| `HoconRoundTrip.RootStops` | crates/atomr-config/src/hocon.rs:93-133 | for every text, a document without outer braces that parses was read to its end or to a zero byte |
| `HoconRoundTrip.BodyStops` | crates/atomr-config/src/hocon.rs:119-193 | for every text, an object body that parses ended at its terminator, or at the end of the text |
| `HoconSpelling.ConfigurationReads` | crates/atomr-config/src/hocon.rs:93-490 | every configuration whose keys, strings and numbers can be spelled has a well-formed text that parses to it |
| `HoconSpelling.HasTextIff` | crates/atomr-config/src/hocon.rs:93-490 | and no other has one: keys need plain or triple quotes that carry them, strings those or an unquoted scalar or a substitution, numbers a literal |
| `HoconSpelling.AccentQuoteKeyHasNoText` | crates/atomr-config/src/hocon.rs:93-490 | a key of an accented letter and a quote has no text |
| `HoconStrings.SpelledIff` | crates/atomr-config/src/hocon.rs:249-332 | a text has a quoted spelling if and only if it reads byte by byte from a well-formed one, or no three quotes in a row start inside it in front of the closing ones |
| `HoconStrings.TextReads` | crates/atomr-config/src/hocon.rs:249-332 | a written text, not followed by a quote, reads as itself |
| `HoconStrings.KeyIsSpelled` | crates/atomr-config/src/hocon.rs:195-228 | every key part read from well-formed text has a quoted spelling |
| `HoconScalars.LiteralReads` | crates/atomr-config/src/hocon.rs:387-405 | a trimmed text with nothing in it that ends a scalar reads as that scalar, whatever its first byte |
| `HoconScalars.ScalarIsSpelled` | crates/atomr-config/src/hocon.rs:387-405 | every unquoted scalar read is of that kind |
| `HoconScalars.ReferenceReads` | crates/atomr-config/src/hocon.rs:357-385 | a substitution of a trimmed name without a closing brace reads as its marker |
| `HoconStrings.QuotedReadsBytes` | crates/atomr-config/src/hocon.rs:280-331 | plain quotes read each byte of any text, escaped, as a character of its own |
| `HoconStrings.QuotedIsLatin1` | crates/atomr-config/src/hocon.rs:280-331 | and nothing else: whatever they read is some text read that way |
| `HoconStrings.QuotesPreserveIff` | crates/atomr-config/src/hocon.rs:280-331 | so they preserve a text if and only if it is ASCII |
| `HoconResolve.LookupPath` | crates/atomr-config/src/hocon.rs:616-625 | the walk along a dotted path |
| `HoconResolve.FollowIsLookup` | crates/atomr-config/src/hocon.rs:616-625 | agrees with the lookup of the configuration |
| `HoconPaths.SegmentsAreParts` | crates/atomr-config/src/hocon.rs:616-625 | splitting a path cuts at every dot and nowhere else: no part holds a dot, and joining the parts gives the path back |
| `HoconPaths.PartsAreSegments` | crates/atomr-config/src/hocon.rs:616-625 | splitting what was joined from parts without dots gives the parts back |
| `HoconPaths.ReferenceIsLookup` | crates/atomr-config/src/hocon.rs:586-625 | a strict substitution of a dotted path gives what the path leads to, or fails when it leads nowhere |
| `HoconPaths.OptionalIsVariable` | crates/atomr-config/src/hocon.rs:592-593 | an optional one gives the variable of that name, or null |
| `HoconPaths.ResolvedAt` | crates/atomr-config/src/hocon.rs:586-614 | what any path holds after the pass is the resolved form of what it held before |
| `HoconPaths.ReferenceReadsTarget` | crates/atomr-config/src/hocon.rs:62-67 | where a written document has a dotted substitution, the configuration read has what the dotted path leads to |
| `HoconResolve.ResolveIn` | crates/atomr-config/src/hocon.rs:586-614 | one pass over the tree, in any order: the resolved tree, or the key of a substitution that has no target |
| `HoconResolve.ResolvedIff` | crates/atomr-config/src/hocon.rs:581-614 | the pass succeeds without a marker left if and only if no substitution is missing or leads to another marker |
| `HoconResolve.UnchangedIff` | crates/atomr-config/src/hocon.rs:586-614 | the pass leaves a tree unchanged if and only if every string in it is no marker, or its target or variable is that very string |
| `HoconResolve.SpelledMarkerReplaced` | crates/atomr-config/src/hocon.rs:586-614 | a string that merely spells a marker is replaced |
| `HoconDocuments.DocumentSurvivesIff` | crates/atomr-config/src/hocon.rs:62-67 | parsing and resolving a written document gives its meaning if and only if every string in it is no marker or names itself |
| `HoconDocuments.CleanConfigurationSurvives` | crates/atomr-config/src/hocon.rs:62-67 | every configuration that can be spelled and holds no marker has a well-formed text that parses and resolves to it |
| `HoconDocuments.QuotedMarkerDoesNotSurvive` | crates/atomr-config/src/hocon.rs:62-67 | a quoted string that spells a marker does not survive |
| `HoconResolve.ChainLeaksMarker` | crates/atomr-config/src/hocon.rs:581-614 | a chain of two substitutions leaves the second marker as a string |
| `VectorClocks.Compare` | crates/atomr-cluster/src/vector_clock.rs:42-66 | the flag loop decides exactly the pointwise order, a missing component being zero |
| `VectorClocks.Merge` | crates/atomr-cluster/src/vector_clock.rs:31-40 | the loop computes the join |
| `VectorClocks.JoinIsLeastUpperBound` | crates/atomr-cluster/src/vector_clock.rs:31-40 | the join is the least upper bound |
| `VectorClocks.TickIsAfter` | crates/atomr-cluster/src/vector_clock.rs:27-29 | a tick is strictly later, at one component |
| `VectorClocks.SameIsEqual` | crates/atomr-cluster/src/vector_clock.rs:42-66 | clocks without zero entries that compare the same are equal |
| `Gossip.PickTarget` | crates/atomr-cluster/src/gossip_pdu.rs:55-71 | none exactly when every peer is the node itself; otherwise the first other peer from the cursor onwards |
| `Gossip.FirstOtherIsUnique` | crates/atomr-cluster/src/gossip_pdu.rs:55-71 | that peer is unique |
| `Gossip.Daemon.LocalChange` | crates/atomr-cluster/src/cluster_daemon.rs:223-239 | a membership change ticks the own component |
| `Gossip.Daemon.DoTick` | crates/atomr-cluster/src/cluster_daemon.rs:260-314 | ticks for leader actions and downing, then one status to the first other peer from the cursor |
| `Gossip.Daemon.Handle` | crates/atomr-cluster/src/cluster_daemon.rs:316-370 | replies and version update for each message |
| `Gossip.WhoAnswers` | crates/atomr-cluster/src/cluster_daemon.rs:316-370 | a status is answered with a request if and only if the other side knows strictly more, with the own version if and only if it misses something, not at all if and only if both are equal; a request always, an envelope never |
| `Gossip.WhatIsLearnt` | crates/atomr-cluster/src/cluster_daemon.rs:316-370 | only an envelope changes a version, to the larger of both in every component |
| `GossipAgreement.ExchangeCanComplete` | crates/atomr-cluster/src/cluster_daemon.rs:316-370 | from every state an exchange between any two nodes can be completed |
| `Gossip.PeersInOrder` | crates/atomr-cluster/src/gossip_pdu.rs:55-71 | the walk over the peers starts at the cursor and goes round in order |
| `Gossip.NextKeeps` | crates/atomr-cluster/src/cluster_daemon.rs:316-370 | every change, send and delivery keeps the cluster invariant and only raises versions |
| `Gossip.EveryRunIsInformed` | crates/atomr-cluster/src/cluster_daemon.rs:220-370 | in every run versions never decrease and no node or packet holds a component above its owner |
| `GossipAgreement.OneExchange` | crates/atomr-cluster/src/cluster_daemon.rs:316-370 | whatever the traffic, after a completed exchange its starter has everything both knew; so has the other unless the versions compared were concurrent |
| `GossipAgreement.EachStartsOne` | crates/atomr-cluster/src/cluster_daemon.rs:316-370 | whatever the traffic, one completed exchange started by each node, in any order, leaves both with everything they knew |
| `GossipAgreement.OneExchangeAgrees` | crates/atomr-cluster/src/cluster_daemon.rs:316-370 | one exchange on comparable versions makes them equal |
| `GossipAgreement.TwoExchangesAgree` | crates/atomr-cluster/src/cluster_daemon.rs:316-370 | two completed exchanges in either direction, among any other traffic but local changes and third-party envelopes, leave both nodes with the join of what they had |
| `GossipAgreement.OneIsNotEnough` | crates/atomr-cluster/src/cluster_daemon.rs:316-370 | on concurrent versions a lone exchange updates only the node that started it |

## Left out

- Transports, sockets, timers, task scheduling and lock interleavings: each public operation is one step, and delivery is a step of a run.
- FIX resets: runs have `reset_on_logon` off and no reset logon in flight; the methods themselves model resets. Application messages are gap-filled rather than replayed, by design of the source.
- FIX run guarantees assume text without the delimiter and counters below the 64-bit limit; the time text is an input. Sums kept in 32 bits wrap around here; a build that stops on arithmetic overflow would stop instead.
- Splitting configuration text into path segments for `Config::get`, durations and typed extraction: they would only add easy members.
- SHA-256 itself: a parameter with 32-byte output.
- WormIntegrity.TipFixesChain: assumes no collision among the preimages compared, because no function from all byte strings to 32 bytes is injective.
- WormIntegrity.EarliestEditReported: assumes the same.
- WormIdentity.OneIdOnly: assumes the same.
- SQL text, migrations, triggers, and the other journal backends.
- FixCorruption.DelimiterLost: one accepted byte; FixTrailerBytes.DelimiterByteAccepted gives all of them.
- FixCorruption.TagLost: one accepted byte per digit; FixTrailerBytes gives all of them.
- FixGuarantees.MutualGapNeverCloses: the exchange under immediate delivery; FixDeadlock.DeadlockStays covers every run.
- Rebalancing.Settle: moves one named shard per round; BatchRebalancing.SettleInBatches moves all of them.
- WormIntegrity.TruncationUndetected: cuts at the end; WormIntegrity.CutUnnoticedIff covers every cut.
- EventRecovery.WedgedForever: one direction; both are in EventRecovery.WritesAgainIff.
- SplitBrain.WeightedAtMostOne: one direction, on a threshold; the exact condition, which depends on the subsets of weights, is MemberSplits.WeightedAtMostOneIff.
- SplitBrain.RefereeAtMostOne: one direction; the exact condition is MemberSplits.RefereeAtMostOneIff.
- GCounter and PNCounter counts and version numbers are unbounded; wrap-around of 64-bit sums is not modelled. PNCounter, PNCounterMap, ORMultiMap and GSet appear as their merges on values, because their own operations only delegate.
- Snapshot and event deletion, tags, recovery permits and the codec registry's choice of encoder: codecs are parameters that may refuse a value.
- EventSourced.InMemoryJournal.WriteEvent: writes one event per call, the way the actor uses it, and has no deleted flag.
- Included HOCON files, environment variables and floating-point literals: functions given to the parser.
- HoconSpelling.HasTextIff: assumes that included files yield nothing that could not be spelled in place.
- HoconResolve.ResolveIn: reports some substitution without a target; which one when there are several depends on key order.
- HoconRoundTrip.DocumentReads: one layout of each document; other layouts are covered law by law in HoconLayout.dfy and HoconForms.dfy, not by one round trip.
- Membership contents in gossip envelopes, leader election and node restarts: only versions are modelled. Addresses parse back to themselves.
- GossipAgreement.TwoExchangesAgree: excludes envelopes from third nodes, which bring in knowledge neither node had.
- Leases, discovery, hosting, pub/sub, cluster client, passivation, money, metrics, dashboard and tooling.

# Redis core, modelled and verified in Dafny

This project models the hardest parts of a Redis 4.0 server and proves what they promise. It covers
the dictionary that rehashes while it is used and the cursor scan over it, the epochs, votes and
slot tables of the cluster, the append only file with its background rewrite, the word-level bit
commands, the two cyclic redundancy checks, and the indexes of the keyspace. Check it all
with `dafny verify dfyconfig.toml`.

## What is where

| part | modules |
|---|---|
| dictionary and scan | `Words`, `BitReversal`, `ScanOrder`, `HashTables`, `Dicts`, `DictScan` |
| cluster elections | `ClusterNode`, `Election`, `ElectionTiming`, `ElectionRuns`, `LateVote`, `ClusterHandlers`, `ElectionSteps`, `EpochCollision` |
| cluster slots | `SlotTable`, `SlotClaims`, `SlotNumbers`, `KeySlots` |
| append only file | `AofCodec`, `AofLoader`, `AofRoundTrip`, `AofReplay`, `AofRewriteBuffer`, `AofRewrite`, `AofLog`, `AofFlush`, `AofSteps` |
| bit commands | `BitBytes`, `BitStrings`, `WordBytes`, `BitCount`, `BitPos`, `BitOps`, `Bitfields`, `BitfieldOverflow` |
| checksums | `Polynomials`, `Crc64`, `Crc16`, `DumpPayload` |
| keyspace | `Keyspace` |
| shared | `Common` |

Objects that the C code updates in place are classes whose methods are proved against functions and
maps; loops over local variables are methods with invariants; protocols between processes or nodes
are step relations over explicit states, and their theorems hold in every state of every run.

Where a property does not hold of the code, the code is kept and the exact condition is proved:

- Two nodes can win an election in the same epoch. A slave forgets its votes when it schedules an
  election but keeps the old election epoch until it asks for votes, so a vote that arrives in
  between is counted for the next election. `TimeoutIsExact` shows that votes delayed by at most
  auth_timeout are safe and that no greater bound is. The election epoch is 0 after a restart, so a
  vote asked for before it is counted, too: `ElectionSafety` needs `NoVoteOutlivesRestart`, and
  `RestartsAreExact` shows that no bound on delays can stand in for it.
- UPDATE packets do not always spread a claim: they are ignored when the epoch is already known, for
  instance from the header of a vote or of a FAIL packet. `UpdatesComeTooLate` states that, and
  `PingedNodesAgree` what does suffice.
- A slave that does not know its master crashes on a claim for a slot that nobody owns, because it takes
  the missing owner for its missing master. `UpdateSlotsConfigWith` gives the condition.
- With truncated loading on, a file whose end was unexpected is cut at the end of the last command that
  was run, and at 0 before the first. A file cut inside the first command after an RDB preamble is
  emptied, and only such a file: `PreambleKept`. A log that ends inside a transaction is loaded and
  stays open, so that it may be refused later: `OpenLogStaysOpen`, with the condition for restarts
  in `LogLoadsBetweenTransactions`.
- Saturating a very low value with the signed overflow check yields the greatest value instead of
  the least, because `max - value` leaves the range of int64_t. C leaves that subtraction undefined;
  the model wraps. `SignedSetCheck` gives the condition.

Where code and documentation differ, the code is followed: the header of crc64.c names an initial
value of all ones, while the function starts from the value it is given, which is 0 in every use;
the comment of the overflow checks says that underflow returns -1, while a wrapping underflow
returns 1; the comment of the collision handler says a node takes the greatest epoch plus one,
while it takes its own currentEpoch plus one, which `EpochDominance` shows to be at least that. The
same comment promises only that collisions end; the bound n(n-1)/2 is proved.

## Model

| member | source | states |
|---|---|---|
| `BitReversal.ReverseWord` | redis-stable/src/dict.c:742-750 | the parallel swap loop leaves in bit i what was bit 63 - i, for every word |
| `Dicts.NextPower` | redis-stable/src/dict.c:942-952 | the smallest power of two that is at least the size and at least 4, or 2^63 for larger requests |
| `Dicts.Dict.constructor` | redis-stable/src/dict.c:111-131 | a new dictionary is an empty map and is not rehashing |
| `Dicts.Dict.Expand` | redis-stable/src/dict.c:147-177 | succeeds exactly when no rehash is running, the size holds the entries and the power of two is a new one; the map is unchanged and a failure changes nothing |
| `Dicts.Dict.Resize` | redis-stable/src/dict.c:135-144 | the table goes to the least size that holds the entries; because the count passes through an int, never for more than 2^31 - 1 entries |
| `Dicts.Dict.ExpandIfNeeded` | redis-stable/src/dict.c:920-939 | outside a rehash the first table gets 4 buckets; growth to the power of two for twice the count starts exactly when the table is full and resizing is allowed or the ratio exceeds 5; it fails exactly when that count exceeds 2^63 - 1; the map is unchanged |
| `Dicts.Dict.MoveBucket` | redis-stable/src/dict.c:202-217 | moving a whole chain to the second table keeps the map: nothing lost, nothing duplicated |
| `Dicts.Dict.Rehash` | redis-stable/src/dict.c:188-231 | n steps keep the map and report work left exactly while the rehash runs; a rehash left running has moved n filled buckets or used up its 10n empty visits, never both short; on completion the second table becomes the first |
| `Dicts.Dict.RehashStep` | redis-stable/src/dict.c:260-262 | with no iterators running a rehash advances, otherwise nothing changes; the map never does |
| `Dicts.Dict.Locate` | redis-stable/src/dict.c:476-495 | the two-table search finds a key exactly when the map has it, in the table that holds it |
| `Dicts.Dict.AddRaw` | redis-stable/src/dict.c:292-318 | adds exactly when the key is absent and the table need not grow beyond its limits, also in the middle of a rehash; an existing entry is returned unchanged; a refusal changes nothing in the map and happens exactly when no rehash is left running, growth is due and the count exceeds 2^63 - 1 |
| `Dicts.Dict.Add` | redis-stable/src/dict.c:265-272 | succeeds exactly when the key is absent and the table is not refused growth, and then the map has the new pair |
| `Dicts.Dict.Replace` | redis-stable/src/dict.c:325-346 | the map has the new pair and the result tells whether the key was new, except that a null entry is dereferenced exactly when growth is due and the count exceeds 2^63 - 1 |
| `Dicts.Dict.Delete` | redis-stable/src/dict.c:364-399 | returns the value of the key, if any, and the map loses exactly that key |
| `Dicts.Dict.Find` | redis-stable/src/dict.c:476-495 | returns what the map holds for the key, keeps the map, and advances a running rehash unless an iterator suspends it |
| `Dicts.Dict.Empty` | redis-stable/src/dict.c:986-991 | an empty map, no rehash, no iterators |
| `HashTables.InsertHolds` | redis-stable/src/dict.c:305-313 | an entry put at the head of its bucket keeps every chain sound and adds exactly that pair to the table |
| `HashTables.RemoveHolds` | redis-stable/src/dict.c:374-396 | unlinking a chain element removes exactly that key from the table |
| `HashTables.MoveHolds` | redis-stable/src/dict.c:204-215 | moving one entry between two tables of different masks moves exactly that pair |
| `ScanOrder.LessIsReversed` | redis-stable/src/dict.c:770-778 | the order used for cursors is the order of their bit-reversed values |
| `ScanOrder.NextAdvances` | redis-stable/src/dict.c:861-868 | setting the unmasked bits and incrementing the reversed cursor moves forward in that order, or wraps to 0 |
| `ScanOrder.NextCoversBucket` | redis-stable/src/dict.c:861-868 | no hash between a cursor and its successor lies outside the bucket that was emitted, for any table size |
| `ScanOrder.StepInBlock` | redis-stable/src/dict.c:892-911 | inside the expansions of a small-table bucket each step visits the next large-table bucket |
| `DictScan.ScanExpansions` | redis-stable/src/dict.c:892-911 | the loop over the larger table emits all expansions of the bucket of the smaller one and ends at the cursor after them |
| `DictScan.Scan` | redis-stable/src/dict.c:836-915 | one call, in the middle of a rehash or not, returns entries of the dictionary, advances the cursor and emits every key whose hash lies between the two cursors |
| `DictScan.ScanComplete` | redis-stable/src/dict.c:752-763 | scan completeness: a key present at every call of a scan that starts at cursor 0 and ends at cursor 0 is emitted, whatever happens to the dictionary between the calls |
| `DictScan.ScanProgress` | redis-stable/src/dict.c:836-915 | scan progress: the reversed cursor strictly grows with every call until it is 0, across any resizes, so every scan ends |
| `DictScan.FullScan` | redis-stable/src/dict.c:752-763 | a client loop between whose calls other clients add, replace, delete, look up, resize and rehash, with resizing allowed or not each time: it finishes if it may make 2^64 calls; if it finishes, every key that was there at the start and is deleted by none of them was emitted, as was every key found by all calls; every emitted entry was in the dictionary at some call; the contents found follow from each other by the effects of the operations |
| `DictScan.KeyStays` | redis-stable/src/dict.c:752-763 | whatever sequence of operations runs between two calls, a key leaves the map only by its own deletion |
| `DictScan.StaticScan` | redis-stable/src/dict.c:820-835 | on an unchanging table a scan takes exactly as many calls as buckets and emits every entry exactly once |
| `ClusterHandlers.ClusterState.ReceiveHeader` | redis-stable/src/cluster.c:1690-1701 | the epochs of a packet of a known sender raise currentEpoch and the stored configEpoch, never lower them |
| `ClusterHandlers.ClusterState.GetMaxEpoch` | redis-stable/src/cluster.c:968-981 | the greatest epoch known: an upper bound of all of them that is one of them |
| `ClusterHandlers.ClusterState.BumpConfigEpochWithoutConsensus` | redis-stable/src/cluster.c:1012-1029 | takes a new epoch only if this node does not already have the greatest one, and reports whether it did |
| `ClusterHandlers.ClusterState.HandleConfigEpochCollision` | redis-stable/src/cluster.c:1077-1092 | of two masters with the same epoch only the one with the smaller name moves, to a new epoch |
| `ClusterHandlers.ClusterState.SendFailoverAuthIfNeeded` | redis-stable/src/cluster.c:2630-2731 | a vote is given exactly when this node is a master with slots, the request is not old, it has not voted in its current epoch, the sender is a slave of a failed master (or forces), that master was last voted for two timeouts ago, and no claimed slot has an owner with a greater epoch; then the epoch and the time of the vote are recorded |
| `ClusterHandlers.ClusterState.ReceiveVote` | redis-stable/src/cluster.c:2033-2045 | a vote counts exactly when its sender is a master with slots and its epoch is not older than the election |
| `ClusterHandlers.ClusterState.GetSlaveRank` | redis-stable/src/cluster.c:2745-2760 | the number of other slaves of the same master with a greater offset |
| `ClusterHandlers.ClusterState.HandleSlaveFailover` | redis-stable/src/cluster.c:2870-3038 | winning needs more than half of the masters with slots and leaves a configEpoch of at least the election's; asking takes a new epoch; both only by an eligible slave, inside auth_timeout; a new election is scheduled only after twice that, at least 500 ms ahead unless manual |
| `ClusterNode.FailoverMeans` | redis-stable/src/cluster.c:2940-3034 | what each outcome of the failover step implies: quorum and epoch for a win, a new epoch for asking, the deadline for scheduling, and no config epoch changed without a win |
| `ElectionSteps.TakePing` | redis-stable/src/cluster.c:1690-1701 | the object that receives a ping makes the step of the election protocol |
| `ElectionSteps.TakeRequest` | redis-stable/src/cluster.c:2630-2731 | the object that receives a vote request makes the step of the protocol, and grants exactly when the protocol does |
| `ElectionSteps.TakeVote` | redis-stable/src/cluster.c:2033-2045 | the object that receives a vote makes the step of the protocol |
| `ElectionSteps.TakeFailover` | redis-stable/src/cluster.c:2870-3038 | the failover code makes the step of the protocol, with the same outcome and a majority of the masters behind every win |
| `ElectionSteps.TakeBump` | redis-stable/src/cluster.c:1012-1029 | taking an epoch without consensus is a step of the protocol |
| `ElectionSteps.WinnerHasEpoch` | redis-stable/src/cluster.c:3019-3034 | in every state of every run the winner of an epoch has a config epoch of at least it |
| `Election.EpochDominance` | redis-stable/src/cluster.c:1690-1701 | in every state of every run each currentEpoch is at least lastVoteEpoch and all configEpochs stored, and no packet carries a config epoch above its currentEpoch |
| `Election.OneVotePerEpoch` | redis-stable/src/cluster.c:2658-2664 | in every run, over restarts and lost packets, a node votes for at most one candidate per epoch |
| `Election.CountDecomposition` | redis-stable/src/cluster.c:2033-2045 | in every state of every run a candidate's vote count is the number of distinct masters that voted for it in its present epoch plus the late votes taken between scheduling and asking |
| `Election.HonestWinsAgree` | redis-stable/src/cluster.c:3019-3034 | two wins of one epoch that counted no late vote are wins of the same node |
| `ElectionTiming.ElectionSafety` | redis-stable/src/cluster.c:3019-3034 | election safety: if every vote arrives within auth_timeout of its request, and none asked for before a restart of the candidate arrives after it, no two nodes ever win the same epoch |
| `LateVote.LateVoteElectsTwo` | redis-stable/src/cluster.c:2940-2957 | without the bound on votes safety fails: in every cluster of three or more masters, one of them failed, and for every timeout, there is a run with votes late by one unit in which two slaves win the same epoch |
| `LateVote.SafeWithinTimeout` | redis-stable/src/cluster.c:2870-3038 | every cluster whose votes take at most auth_timeout and do not outlive a restart of the candidate is safe |
| `LateVote.TimeoutIsExact` | redis-stable/src/cluster.c:2940-2957 | the condition is exact: in every cluster of three or more masters, the runs whose votes are delayed by at most a bound and do not outlive restarts are all safe if and only if the bound is at most auth_timeout |
| `LateVote.RestartElectsTwo` | redis-stable/src/cluster.c:2033-2045 | without the condition on restarts safety fails as well: in every cluster of three or more masters a slave that restarts after asking counts the votes it asked for before, and two slaves win the same epoch, however fast votes are |
| `LateVote.RestartsAreExact` | redis-stable/src/cluster.c:2033-2045 | no bound on the delay of votes makes a cluster of three or more masters safe if votes may outlive restarts |
| `EpochCollision.CollisionsTerminate` | redis-stable/src/cluster.c:1046-1092 | in every run of n colliding masters the one with the greatest name never moves, the a-th greatest moves at most a times, and all together at most n(n-1)/2 times |
| `EpochCollision.SettledIffDistinct` | redis-stable/src/cluster.c:1062-1064 | no further collision is possible exactly when all masters have different epochs |
| `SlotTable.SetBit` | redis-stable/src/cluster.c:3550-3554 | sets one bit of the bitmap and no other |
| `SlotTable.ClearBit` | redis-stable/src/cluster.c:3557-3561 | clears one bit of the bitmap and no other |
| `SlotTable.TestBitIsDigit` | redis-stable/src/cluster.c:3543-3547 | testing a bit of the bitmap reads the binary digit of its byte, lowest first |
| `SlotTable.Table.AddNode` | redis-stable/src/cluster.c:886-892 | a new node owns nothing and the views stay in step |
| `SlotTable.Table.AddSlot` | redis-stable/src/cluster.c:3622-3627 | a free slot gets the owner, a taken one is refused, and table, bitmaps and counts stay in step |
| `SlotTable.Table.DelSlot` | redis-stable/src/cluster.c:3632-3639 | the slot becomes free, the owner's count drops by one, and the assertion in the code never fails |
| `SlotTable.Table.DelNodeSlots` | redis-stable/src/cluster.c:3643-3653 | frees exactly the slots of the node and returns how many it had |
| `SlotTable.Table.DelNode` | redis-stable/src/cluster.c:861-932 | forgets the node and every slot it owned, imported or was the migration target of; its slaves no longer have a known master, and all else about the other nodes is kept |
| `SlotTable.Table.CloseAllSlots` | redis-stable/src/cluster.c:3657-3662 | no slot is importing or migrating afterwards |
| `SlotTable.Table.Reset` | redis-stable/src/cluster.c:530-557 | the node is a master, all slots are free, all other nodes forgotten, views still in step |
| `SlotTable.Table.SetNodeAsMaster` | redis-stable/src/cluster.c:1503-1517 | the node is a master of no master, and nothing else changes |
| `SlotTable.Table.ReplaceMaster` | redis-stable/src/cluster.c:2832-2848 | a slave with a known master becomes a master and exactly the slots of the old master move to it; otherwise nothing changes |
| `SlotTable.Table.UpdateSlotsConfigWith` | redis-stable/src/cluster.c:1530-1618 | a claimed slot, owned or not, is rebound exactly when it is not being imported and its owner is absent or has a smaller epoch; the node is told to follow the sender exactly when its master lost its last slot, and otherwise exactly which slots with keys it lost; it crashes exactly when it knows no master of its own and a slot is claimed that has no owner and is not being imported |
| `SlotTable.Table.RaiseEpoch` | redis-stable/src/cluster.c:1696-1701 | the header of a packet raises the stored configEpoch of its sender and changes nothing else |
| `SlotTable.Table.ReceivePing` | redis-stable/src/cluster.c:1871-1930 | the sender is a master, and owners, epochs and outcome are those of the claim: the shortcut that compares bitmaps first changes none of them |
| `SlotTable.Table.ReceiveUpdate` | redis-stable/src/cluster.c:2057-2079 | an UPDATE whose epoch is not newer than the stored one changes nothing; any other makes its node a master, also if it was seen as a slave, and its claim takes effect, unless it is about this node itself |
| `SlotClaims.ClaimsConverge` | redis-stable/src/cluster.c:1552-1590 | any node, master or slave, that hears claims with different epochs, 0 included, in pings, UPDATEs and headers, in any order and with any repetitions, gives every slot to the claimant with the highest epoch whose claim it has taken, in a ping or in an UPDATE newer than the stored epoch |
| `SlotClaims.NodesAgree` | redis-stable/src/cluster.c:1552-1590 | nodes that have taken the same claims have the same slot table |
| `SlotClaims.PingedNodesAgree` | redis-stable/src/cluster.c:1925-1930 | nodes that have been pinged by every claimant have the same slot table, whatever else they heard |
| `SlotClaims.UpdateIgnored` | redis-stable/src/cluster.c:2062-2064 | an UPDATE changes nothing exactly when its epoch is already known |
| `SlotClaims.UpdatesComeTooLate` | redis-stable/src/cluster.c:2062-2064 | once the epoch of a node is known from another packet, no number of UPDATEs about it teaches a slot of it: only its pings do |
| `AofCodec.CatAppendOnlyGenericCommand` | redis-stable/src/aof.c:493-516 | appends the array-of-bulk-strings form of the command |
| `AofLoader.LoadAppendOnlyFile` | redis-stable/src/aof.c:673-853 | the reading loop computes the specification of loading on every file: empty, with or without a preamble, short or malformed at any point, unknown commands, ending inside a transaction |
| `AofRoundTrip.CommandRoundTrip` | redis-stable/src/aof.c:493-516 | reading an encoded command followed by anything gives the command and what follows |
| `AofRoundTrip.CommandCut` | redis-stable/src/aof.c:813-844 | an encoded command cut anywhere inside is recognised as short, never misread as another command or as malformed |
| `AofCodec.OpenMeansUnended` | redis-stable/src/multi.c:72-102 | the client of the loader is in a transaction exactly when some MULTI has neither EXEC nor DISCARD after it |
| `AofRoundTrip.RoundTrip` | redis-stable/src/aof.c:673-853 | loading undoes encoding for every sequence of commands; only with truncated loading off, and exactly when the commands end inside a transaction, they are refused |
| `AofRoundTrip.TruncatedLoad` | redis-stable/src/aof.c:813-844 | a file cut at any byte loads exactly the commands it wholly contains, is truncated to the end of the last of them, and its end counts as unexpected exactly inside a command or a transaction |
| `AofRoundTrip.CutRefused` | redis-stable/src/aof.c:799-853 | with truncated loading off a cut file loads if and only if the cut falls between two commands and no transaction is open there |
| `AofRoundTrip.PreambleLoad` | redis-stable/src/aof.c:703-723 | the same for the commands after an RDB preamble, for every cut |
| `AofRoundTrip.PreambleKept` | redis-stable/src/aof.c:822-844 | truncated loading keeps the preamble and the whole commands after it if and only if the file is not cut inside the first of them; then, and only then, it empties the file |
| `AofCodec.ParseNumeral` | redis-stable/src/aof.c:747-761 | a signed decimal numeral followed by anything but a digit reads as its number |
| `AofRoundTrip.BadTailRefused` | redis-stable/src/aof.c:849-853 | after any whole commands, bytes that are not in the format or an unknown command end the server, with truncated loading on or off |
| `AofRoundTrip.NoStarRefused` | redis-stable/src/aof.c:745 | where a command should start, any byte but * ends the server |
| `AofRoundTrip.LowCountRefused` | redis-stable/src/aof.c:747-748 | a count below 1 ends the server |
| `AofRoundTrip.NoDollarRefused` | redis-stable/src/aof.c:760 | where an argument should start, any byte but $ ends the server, after any arguments before it |
| `AofRoundTrip.NegativeLengthRefused` | redis-stable/src/aof.c:761-762 | a negative length ends the server; not by a test but because the unsigned length cannot be allocated |
| `AofRoundTrip.UnknownRefused` | redis-stable/src/aof.c:777-782 | a whole command the server does not know ends it |
| `AofRoundTrip.BadPreambleRefused` | redis-stable/src/aof.c:716-719 | a preamble the RDB loader cannot read ends the server |
| `AofReplay.Feeder.FeedAppendOnlyFile` | redis-stable/src/aof.c:555-619 | the bytes fed to the buffer and to the rewrite buffer are those of the commands, preceded by a SELECT exactly when the database differs from the last one |
| `AofReplay.FeedReplays` | redis-stable/src/aof.c:555-567 | wherever replay has got to, a fed command is replayed in the database it was fed for |
| `AofReplay.ReplayConcat` | redis-stable/src/aof.c:673-853 | replaying a log is replaying its parts with the database carried over |
| `AofRewriteBuffer.RewriteBuffer.Size` | redis-stable/src/aof.c:79-90 | the number of bytes in all blocks |
| `AofRewriteBuffer.RewriteBuffer.Append` | redis-stable/src/aof.c:125-169 | the contents grow by exactly the bytes, however they spread over blocks |
| `AofRewriteBuffer.RewriteBuffer.ChildWriteDiffData` | redis-stable/src/aof.c:95-122 | what was sent followed by what is left is what was there; sending goes on through short writes until one fails or takes nothing, and nothing is sent after the stop |
| `AofRewriteBuffer.AcceptedOfBlock` | redis-stable/src/aof.c:105-121 | of one block as much is sent as the writes before the first failing one took together |
| `AofRewriteBuffer.AcceptedAll` | redis-stable/src/aof.c:105-121 | if no write fails and there are as many as bytes, everything is sent |
| `AofRewriteBuffer.RewriteBuffer.Write` | redis-stable/src/aof.c:174-194 | succeeds exactly when the write of every block took all of it, and then all contents were written in order; a failure leaves a prefix |
| `AofRewrite.RewriteConservation` | redis-stable/src/aof.c:1096-1106 | at every moment of every run of parent and child, what was fed since the fork is what the child read, then what is in the pipe, then what is in the buffer |
| `AofRewrite.RewriteResult` | redis-stable/src/aof.c:1481-1508 | a rewrite that finishes consists of the snapshot followed by exactly what was fed since the fork |
| `AofRewrite.PipeOnlyDrains` | redis-stable/src/aof.c:1247-1263 | after the child has the parent's answer nothing enters the pipe any more, so its last read is the last |
| `AofLog.LogReplaysToDataset` | redis-stable/src/aof.c:555-619 | over every history of writes, transactions, flushes, rewrites, aborted rewrites and switching off and on: while the log is on, file and buffer load, unless they end inside a transaction and truncated loading is off, and replaying them from nothing gives the data set, whatever commands do |
| `AofLog.LogLoadsBetweenTransactions` | redis-stable/src/multi.c:105-187 | a server whose log was not open when it started can be restarted whenever it is not executing a transaction, with truncated loading on or off |
| `AofLog.OpenLogStaysOpen` | redis-stable/src/aof.c:799-844 | a log that was loaded although it ended inside a transaction stays open, and is refused with truncated loading off, as long as no rewrite and no further transaction mends it |
| `AofLog.RewriteKeepsDataset` | redis-stable/src/aof.c:1582-1597 | installing a rewritten file leaves the data set it stands for unchanged |
| `AofLog.InstalledIsRewritten` | redis-stable/src/aof.c:1500-1508 | the file that replaces the log is the one parent and child make together, however their steps interleave |
| `AofLog.CrashKeepsPrefix` | redis-stable/src/aof.c:673-853 | whatever prefix of the file survives a crash, loading it gives exactly the commands of the log that survived whole |
| `AofFlush.AppendOnlyFile.Write` | redis-stable/src/aof.c:291-310 | writes on through interruptions and short writes until all is written or an error occurs, and returns the number of bytes or -1 |
| `AofFlush.TakenIsOffered` | redis-stable/src/aof.c:291-310 | the bytes written are what the calls before the first error took together, at most all of them |
| `AofFlush.AppendOnlyFile.Flush` | redis-stable/src/aof.c:331-469 | unless the process exits, file and buffer together are what they were and the recorded size is the size of the file; a truncated short write leaves the file as it was; writing is postponed exactly under the every-second policy while an fsync runs, unforced, for less than two seconds |
| `AofSteps.FeedRewrite` | redis-stable/src/aof.c:615-616 | appending to the rewrite buffer is the event of the rewrite that feeds it |
| `AofSteps.SendDiff` | redis-stable/src/aof.c:95-122 | what the parent sends is an event the protocol allows, and exactly that enters the pipe |
| `AofSteps.FinishRewrite` | redis-stable/src/aof.c:1500-1508 | if the rest of the buffer can be written, the rewrite finishes with it after the file of the child |
| `AofSteps.Propagate` | redis-stable/src/server.c:2108-2115 | feeding a command is the event of the log that executes it: buffer, child and selected database agree |
| `AofSteps.FlushLog` | redis-stable/src/aof.c:331-469 | unless it exits, a flush is an event of the log |
| `AofSteps.StopAppendOnly` | redis-stable/src/aof.c:227-237 | stopping is the event of the log: a forced flush, then no log, no selected database and no child |
| `Polynomials.LongDivision` | redis-stable/src/crc64.c:1-11 | the reference: every polynomial is its quotient times the divisor plus its remainder |
| `Polynomials.RegisterDivides` | redis-stable/src/crc64.c:173-181 | a shift register fed with the message computes the remainder of long division |
| `Polynomials.ShiftAllInjective` | redis-stable/src/crc64.c:176-179 | the step loses nothing: registers equal after as many bits as they are long were the same sum of register and bits |
| `Polynomials.BurstChanges` | redis-stable/src/crc64.c:173-181 | messages that differ only within as many consecutive bits as the register has leave different remainders |
| `Crc64.JonesIsReflected` | redis-stable/src/crc64.c:6-7 | the constant of the model is the published polynomial with its bits reversed |
| `Crc64.EntryDivides` | redis-stable/src/crc64.c:42-171 | each of the 256 table entries is its index divided by eight coefficients |
| `Crc64.UpdateShifts` | redis-stable/src/crc64.c:176-179 | one turn of the loop is eight steps of the bitwise division |
| `Crc64.CrcIsRemainder` | redis-stable/src/crc64.c:173-181 | the CRC of every byte string is the remainder of the message times x^64 on division by the Jones polynomial |
| `Crc64.Compute` | redis-stable/src/crc64.c:173-181 | the loop computes that remainder |
| `Crc16.EntryDivides` | redis-stable/src/crc16.c:47-80 | each of the 256 table entries is its index divided by eight coefficients |
| `Crc16.CrcIsRemainder` | redis-stable/src/crc16.c:82-88 | the CRC of every byte string is the remainder of the message times x^16 on division by x^16 + x^12 + x^5 + 1 |
| `Crc16.Compute` | redis-stable/src/crc16.c:82-88 | the loop computes that remainder |
| `DumpPayload.CreateDumpPayload` | redis-stable/src/cluster.c:4661-4688 | what is created verifies, starts with the serialized value, is ten bytes longer and carries the current version, low byte first |
| `DumpPayload.VerifyDumpPayload` | redis-stable/src/cluster.c:4694-4711 | accepts exactly the payloads of at least ten bytes whose version number is at most 8 and whose CRC, checksum included, is zero |
| `DumpPayload.VerifiesIsCodeword` | redis-stable/src/cluster.c:4694-4711 | a payload verifies exactly when its version is supported and the CRC of all of it, checksum included, is zero |
| `DumpPayload.SupportedMeans` | redis-stable/src/cluster.c:4703-4705 | a version is supported exactly if its number, low byte first, is at most 8 |
| `DumpPayload.Residue` | redis-stable/src/cluster.c:4683-4687 | the checksum is the only eight bytes that bring the CRC to zero |
| `DumpPayload.BurstRejected` | redis-stable/src/cluster.c:4694-4711 | any change to a valid payload confined to 64 consecutive bits is rejected, wherever the bits are |
| `DumpPayload.ChangeRejected` | redis-stable/src/cluster.c:4694-4711 | any change to at most eight consecutive bytes of a valid payload is rejected |
| `KeySlots.KeyHashSlot` | redis-stable/src/cluster.c:662-681 | the CRC16 of the part of the key that is hashed, modulo 16384 |
| `KeySlots.SlotIsRemainder` | redis-stable/src/cluster.c:662-681 | the slot is the number of the 14 lowest coefficients of the remainder of the hashed part on division by the CRC16 polynomial |
| `SlotNumbers.Low14IsModulo` | redis-stable/src/cluster.c:669 | masking with 0x3FFF is the remainder modulo 16384 |
| `KeySlots.TagIsHashed` | redis-stable/src/cluster.c:656-661 | with a nonempty tag between the first { and the next } only the tag is hashed |
| `KeySlots.UntaggedIsWhole` | redis-stable/src/cluster.c:668-677 | the whole key is hashed exactly when it has no such tag |
| `KeySlots.SameTagSameSlot` | redis-stable/src/cluster.c:656-661 | keys with the same tag share a slot, the slot of the tag taken as a key |
| `BitCount.RedisPopcount` | redis-stable/src/bitops.c:40-92 | the number of bits set in the string, for every length, alignment and byte order |
| `BitCount.TableCounts` | redis-stable/src/bitops.c:44 | each table entry is the number of bits of its index |
| `BitCount.FoldLocal` | redis-stable/src/bitops.c:66-86 | the sums inside a word never carry from one byte into the next |
| `BitCount.TopSumAdds` | redis-stable/src/bitops.c:80-86 | seven words hold at most 56 per byte, so multiplying and shifting adds the four bytes without loss |
| `BitPos.RedisBitpos` | redis-stable/src/bitops.c:101-186 | the least position of the bit, the length for a zero bit that is not there, and -1 for a one that is not there; the panic at the end is unreachable |
| `BitPos.WordBit` | redis-stable/src/bitops.c:150-180 | probing the assembled word from its highest bit reads the bits of the string in order |
| `BitStrings.BitAtIsDigit` | redis-stable/src/bitops.c:229-241 | bit i of a string is the binary digit of byte i / 8, highest first |
| `BitOps.BitOp` | redis-stable/src/bitops.c:623-746 | the fast path on words and the slow path on bytes together give, at every byte, the fold over the inputs padded with zeros |
| `BitOps.ByteOfOp` | redis-stable/src/bitops.c:662-728 | an operation on a 64-bit word is the operation on each of its bytes |
| `BitOps.FoldedBit` | redis-stable/src/bitops.c:732-745 | a result bit is set by all, by some, by an odd number or by none of the inputs, for AND, OR, XOR and NOT |
| `Bitfields.SetUnsignedBitfield` | redis-stable/src/bitops.c:209-222 | replaces exactly the bits of the field, in place, by the low bits of the value |
| `Bitfields.SetSignedBitfield` | redis-stable/src/bitops.c:224-227 | the same with the two's complement bits of the value |
| `Bitfields.GetUnsignedBitfield` | redis-stable/src/bitops.c:229-241 | the number in the field, highest bit first |
| `Bitfields.GetSignedBitfield` | redis-stable/src/bitops.c:243-263 | the number in the field as two's complement |
| `Bitfields.GetAfterSet` | redis-stable/src/bitops.c:209-241 | a field reads back as the value modulo two to its width, and every disjoint field is untouched |
| `Bitfields.SetAfterGet` | redis-stable/src/bitops.c:209-241 | writing what was read changes no bit |
| `Bitfields.SignedGetAfterSet` | redis-stable/src/bitops.c:224-263 | a signed value that fits reads back as itself |
| `Bitfields.GetThroughWindow` | redis-stable/src/bitops.c:1083-1115 | reading through the nine-byte window is reading the string padded with zeros |
| `Bitfields.PaddingIsZero` | redis-stable/src/bitops.c:1088-1092 | every bit past the end of the string reads as zero, and how much padding there is does not change what is read |
| `BitfieldOverflow.UnsignedCheck` | redis-stable/src/bitops.c:288-323 | for a value that fits, nonzero exactly when the sum does not fit, and the limit is the sum wrapped or saturated |
| `BitfieldOverflow.UnsignedSetCheck` | redis-stable/src/bitops.c:288-323 | for a value to be set, nonzero exactly when it does not fit, with the exact limit |
| `BitfieldOverflow.SignedCheck` | redis-stable/src/bitops.c:325-375 | the same for signed values that fit |
| `BitfieldOverflow.SignedSetCheck` | redis-stable/src/bitops.c:325-375 | for a signed value to be set the check is nonzero exactly when it does not fit, and its limit is right exactly when it does not saturate or the value is at least max - (2^63 - 1) |
| `BitfieldOverflow.SaturatesUpwards` | redis-stable/src/bitops.c:325-345 | an input for which the limit is wrong: saturating -2^63 into eight signed bits gives 127 |
| `BitfieldOverflow.WrappedFits` | redis-stable/src/bitops.c:357-373 | a wrapped value is in range, congruent, and the value itself if that fits |
| `BitfieldOverflow.SaturatedIsNearest` | redis-stable/src/bitops.c:288-375 | the saturated value is in range, the value itself if that fits, and otherwise the nearest value in range |
| `BitfieldOverflow.StoredMeans` | redis-stable/src/bitops.c:1022-1082 | what is stored: the aim if it fits; else nothing, the congruent value in range, or the nearest in range, except for the signed values too low to saturate, which give the greatest |
| `BitfieldOverflow.ApplyWrite` | redis-stable/src/bitops.c:1022-1082 | SET and INCRBY store and reply exactly what the overflow mode promises, and FAIL writes nothing |
| `Keyspace.Database.DbAdd` | redis-stable/src/db.c:167-175 | the pair is added and both slot indexes follow |
| `Keyspace.Database.DbOverwrite` | redis-stable/src/db.c:181-196 | the value changes, the expire and the indexes do not |
| `Keyspace.Database.DbSyncDelete` | redis-stable/src/db.c:261-271 | key, expire and index entries go together; true exactly if there was a key |
| `Keyspace.Database.SetKey` | redis-stable/src/db.c:206-215 | afterwards the key has the value and no expire, whether it existed, had expired or was new |
| `Keyspace.Database.RemoveExpire` | redis-stable/src/db.c:1045-1050 | the key loses its expire, and the result tells whether it had one |
| `Keyspace.Database.SetExpire` | redis-stable/src/db.c:1056-1068 | the key has the expire and still belongs to the main dictionary |
| `Keyspace.Database.GetExpire` | redis-stable/src/db.c:1072-1083 | the expire or -1; the assertion that an expire has a key never fails |
| `Keyspace.Database.ExpireIfNeeded` | redis-stable/src/db.c:1128-1163 | a key past its expire is deleted from everything, but not on a slave and not while loading |
| `Keyspace.Database.LookupKeyWrite` | redis-stable/src/db.c:146-149 | the value that is left after expiring |
| `Keyspace.Database.Rename` | redis-stable/src/db.c:851-891 | value and expire move together and replace what was at the destination; every reply of the command in its own case |
| `Keyspace.Database.SlotToKeyUpdateKey` | redis-stable/src/db.c:1402-1419 | one counter and one index key change |
| `Keyspace.Database.GetKeysInSlot` | redis-stable/src/db.c:1439-1454 | as many different keys of the slot as asked for, or all of them |
| `Keyspace.Database.DelKeysInSlot` | redis-stable/src/db.c:1458-1477 | terminates, deletes exactly the keys of the slot and returns their number |
| `Keyspace.BetweenHasPrefix` | redis-stable/src/db.c:1466-1470 | whatever lies between a prefix and a key that starts with it starts with it, so the seek never leaves the slot while keys are left in it |

## Left out

- Hash functions are an arbitrary function from keys to words, chains are sequences and a table is a sequence of chains: links, allocation and the reuse of entries are not modelled.
- The scan callback is the list of entries it is called with; callbacks that change the dictionary during a call are not modelled. Iterators appear only as the count that suspends rehash steps; random keys, statistics and fingerprints are not modelled.
- Cursor arithmetic is on words as sequences of 64 bits; the machine-word reversal it uses is proved separately on bit vectors.
- ElectionTiming.ElectionSafety: the set of masters with slots is fixed during a run, a node that restarts comes back with at least the epochs it saved and without its pending election, and epochs are unbounded numbers. Packets survive restarts; that no vote asked for before a restart is counted after it is a hypothesis, `NoVoteOutlivesRestart`.
- LateVote.TimeoutIsExact: with fewer than three masters only the safe direction is stated, because without the failed master at most one is left to vote.
- Gossip, failure detection, handshakes, manual takeover, hard reset and slave migration of the cluster bus are not modelled; a packet is its epochs, its claim and its vote, and packets may be lost, delayed, reordered and delivered late.
- EpochCollision.CollisionsTerminate: the masters are the only nodes that change epochs, as at the start of a cluster; elections and manual bumps in between are not part of that run.
- SlotTable.Table.Reset: the flushing of the data set and what only a hard reset does, a new name and epochs of 0, are not modelled.
- SlotClaims.ClaimsConverge: claims are fixed while they spread and have different epochs, and nothing is being imported.
- Strings in `atoi` and `strtol` are decimal numbers without overflow; counts and lengths above the C ranges are excluded by `WellTyped`.
- AofLoader.LoadAppendOnlyFile: what the RDB loader makes of a preamble is a parameter, the number of bytes it reads, and so are the names of the commands the server knows; renamed commands, errors of the file system and failures to truncate are not modelled.
- AofRoundTrip.NegativeLengthRefused: the code does not test the sign of a length; it passes the unsigned number to the allocator, which ends the process. Lengths so close to 0 that adding the string header wraps the size around are not modelled faithfully: the model ends the server for them, too.
- AofReplay.Feeder.FeedAppendOnlyFile: the translation of EXPIRE, SETEX and SET with options into argument vectors with absolute times is given, not modelled.
- AofLog.LogReplaysToDataset: that the snapshot a child writes stands for the data set at the fork and opens no transaction is assumed of the child; the snapshot is commands, not an RDB preamble, and scripts and fsync are not modelled.
- AofFlush.AppendOnlyFile.Flush: the fsync after the write and the log messages are not modelled; the results of the system calls are parameters.
- AofRewrite.RewriteResult: the time limits of the child are a failure it may have at any time.
- Bitfields.GetSignedBitfield: widths 1 to 63; at 64 the code shifts by the width of the word, which C leaves undefined.
- BitPos.RedisBitpos: an unsigned long has eight bytes.
- BitOps.BitOp: a word is loaded and stored through its eight bytes; the key lookups and replies of the command are not modelled.
- Keyspace.Database.Rename: one database, cluster mode, synchronous deletes; lazy freeing, list wake-ups, notifications, replication and the remembered expires of writable slaves are not modelled, and the main and expires dictionaries are maps.
- The radix tree of slots to keys is a set of byte strings with its lexicographic order.
- Everything else a server does, from networking, data types and scripting to replication, Sentinel and RDB files, is not part of this model.

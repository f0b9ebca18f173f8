# Verified models of CRDT-Redis

Dafny models of the parts of CRDT-Redis (Redis 6.0.5 with conflict-free replicated data types) that
are hardest to get right, and proofs of what they promise. `dafny verify dfyconfig.toml` checks
everything; the project needs nothing but Dafny 4.11.

| files | what is modelled |
|---|---|
| `RemoveWin`, `Convergence`, `Replicas`, `PriorityQueue` | the remove-win framework and the replicated priority queue on it: vector clocks, the three checks, prepare and effect of the commands, and replicas that exchange effects in any order |
| `ListPositions`, `ListLinks`, `ReplicatedList`, `ListRuns` | the replicated list: dense identifiers between neighbours, element names and the words for predecessors, and the linking of inserts that arrive in any order |
| `ClusterNode`, `ClusterMachine`, `ClusterEpochs`, `ClusterElection`, `ClusterRoles`, `ClusterCollision`, `ClusterSlots`, `Sets` | the cluster: epochs, failover elections, who is a master, configuration epoch collisions and slot ownership, as methods of a node and as a machine of many nodes and a network |
| `AofText`, `AofGrammar`, `AofLoader`, `AofReplay`, `AofRecovery`, `AofFlush`, `AofRewrite` | the append-only file: its text, loading whole, cut and damaged files, flushing and syncing, and rewriting in the background |
| `AclRules`, `AclMeaning`, `AclUser`, `AclFile` | access control: rule strings, command bitmaps, the description from which a user is restored and the file of users |
| `BlockedClients` | clients blocked on lists: the two-sided index, ready keys and serving in order |
| `Iteration`, `Slicing`, `Crc64` | CRC-64 by reference loop and by slicing tables, in both byte orders |
| `Bitfields`, `BitCounts` | bit fields and their overflow policies, population count and first-bit search |
| `Options` | the option type they share |

Code that updates state in place is modelled by classes and methods with loops, each proved against a
specification function; the theorems over runs and histories are lemmas about those functions.

What the proofs found where the code does not keep what it, or its documentation, suggests. Each has a
concrete counterexample and a proof of exactly when the property holds:

- CRC-64 on a big-endian host: the table initialisation takes the address of an `int`, whose first byte is
  then always 0, so every checksum from 0 is 0 (`Crc64.NativeAgreesOnLittleEndianOnly`).
- Cluster elections: a vote counted after an election is scheduled and before it starts is counted for the
  new epoch, and an epoch can get two winners (`ClusterElection.LateVoteElectsTwo`,
  `ClusterElection.StepKeepsInv`).
- Cluster reset: a hard reset makes a node a master and clears `currentEpoch`, but not the epoch and the votes
  of an election it has started. Made a replica again, and told to take over while that election has not timed
  out, it wins with them and has a configEpoch above its currentEpoch
  (`ClusterEpochs.ResetLeavesElectionAhead`, `ClusterEpochs.StepKeepsDomination`).
- Slot ownership depends on the order of messages exactly when two claimants share the greatest epoch
  (`SlotOwners.AgreeExactlyWithoutTies`).
- The replicated list: an element keeps the first position it is given, so when two replicas insert the same
  name at the same time the lists can differ for good (`ListRuns.ConcurrentNameDisagrees`). The predecessor is
  sent as a word that every replica looks up, also where the word stands for none: an element named `null` or
  `readd` is then found, and an insert linked behind it (`ListRuns.NullNameDisagrees`). And elements share a table
  with the reference to the first one: an element named `head` is linked only where the list is empty
  (`ListRuns.HeadNameDisagrees`). Exactly which inserts lead to one list in every order is
  `ListLinks.OrdersAgreeExactly`, in runs `ReplicatedList.AgreeExactlyWhenSettled`; for clients that avoid those
  names it is that each name was given one position (`ReplicatedList.AgreeExactlyWithOnePosition`). The TLA+ model
  in the repository has unique elements and no words.
- A log cut inside a command of an open transaction is truncated to end inside that transaction. Single
  commands appended later are lost at the next load (`AofRecovery.AppendedLostExactly`,
  `AofRecovery.CutTransactionSwallows`); once a transaction is appended nothing is lost, but the commands of the
  half transaction take effect too (`AofRecovery.TornReturnsExactly`, `AofRecovery.HalfTransactionReturns`).
  The comment at the end of the load loop says that the unprocessed tail is removed, which is so only when the
  cut falls between commands.
- The loader of the append-only file takes more than the server writes, such as any two characters behind an
  argument (`AofDamage.LooseTextLoads`). Exactly which files load, and what each error means, is
  `AofWholeFiles.LoadExactly`.
- A node that takes a new configuration epoch without agreement keeps its own if that is the greatest it knows,
  even if it shares it with another (`ClusterRoles.BumpIsUniqueUnlessTied`).
- Describing a user panics exactly when a bit has outlived its command, as after a module is unloaded
  (`AclDescriptions.PanicsExactlyWhenBitsOutlive`, `AclDescriptions.UnloadedCommandPanics`), and the file of users
  restores them exactly when no subcommand has a space or a newline in it or a tab or carriage return at its end
  (`AclFiles.FileRestoresExactly`, `AclFiles.TabbedSubcommandIsLost`).
- A client blocked on a key is not told of a list that replaces a value of another type there, as SORT with STORE
  does after SET (`BlockedClients.Server.SetKey`, `BlockedClients.OverwriteForgetsWaiter`).
- Signed bit fields of 64 bits rely on a shift by 64, which C leaves open; on a host that takes the count
  modulo 64 every negative one reads as -1 (`Bitfields.SignedFieldsReadRight`). Which increments still go right
  there is given exactly (`BitfieldOverflow.KeptWordRightExactly`). Saturation takes a number far below the range of a
  field to its maximum, because the margin wraps around although the comment says that it is used only after
  the range has been checked (`BitfieldOverflow.SignedSetVerdict`, `BitfieldOverflow.LeastSaturatesUpwards`).
- The remove-win effects converge in every order in every run, but as functions of arbitrary messages they
  do so exactly when adds with one clock and one replica agree on the value
  (`Convergence.ConvergesExactlyWhenDecided`), and without the remove step before each effect only under causal
  delivery (`Convergence.BareChecksNeedCausality`).

Time, randomness, the network, fork, rename, fsync and the results of system calls are parameters or
chosen by the step. Numbers are unbounded unless a wrap-around is written out.

## Model

| member | source | states |
|---|---|---|
| `Crc64.ReferenceBit` | redis-6.0.5/src/crc64.c:95-103 | one round of the inner loop is one step of the bitwise register on the bit of the byte under the mask |
| `Crc64.ReferenceByteLoop` | redis-6.0.5/src/crc64.c:93-107 | the loop over the walking one-bit mask, which ends when the mask is shifted out, feeds the eight bits of the byte lowest first |
| `Crc64.CrcReflect` | redis-6.0.5/src/crc64.c:69-78 | for any length the loop pushes that many bits of the data, at least one, in reverse; for 64 bits the result is the word mirrored |
| `Crc64.ReflectInvolution` | redis-6.0.5/src/crc64.c:69-78 | mirroring a word twice gives it back |
| `Crc64.StepMirrored` | redis-6.0.5/src/crc64.c:94-104 | seen in a mirror, a step of the reference register is a step of a right-shifting register with the mirrored polynomial |
| `Crc64.ReferenceByteMirrored` | redis-6.0.5/src/crc64.c:92-107 | seen in a mirror, a whole byte of the reference loop is one byte step of the right-shifting register |
| `Crc64.ReferenceMirrored` | redis-6.0.5/src/crc64.c:88-111 | the reference register after a whole byte string, mirrored, is the right-shifting checksum of it from the mirrored initial value |
| `Crc64.ReferenceCrc64` | redis-6.0.5/src/crc64.c:88-111 | the loops of `_crc64` compute, for every initial value and every byte string, the mirror of the reference register |
| `Crc64.Z8Xor` | redis-6.0.5/src/crcspeed.c:41-48 | the byte step is linear over exclusive or, which is why tables can be added up |
| `Crc64.Z8Lookup` | redis-6.0.5/src/crcspeed.c:45-45 | a byte step of a word is the table entry of its low byte xor the word shifted by a byte |
| `Slicing.FillColumn` | redis-6.0.5/src/crcspeed.c:43-47 | the nested loop makes entry k of a column the checksum of the byte followed by k zero bytes and leaves every other column alone |
| `Slicing.FillTable` | redis-6.0.5/src/crcspeed.c:33-49 | for every linear step the two loops make the whole eight-row table: row k holds k+1 steps of each byte |
| `Crc64.LittleInit` | redis-6.0.5/src/crcspeed.c:33-49 | on a little-endian machine the table built from `_crc64` is the slicing table of the CRC step |
| `Slicing.ChecksumConcat` | redis-6.0.5/src/crc64.c:120-123 | the checksum of a concatenation is the checksum of the second part from the checksum of the first |
| `Slicing.ChecksumOfWord` | redis-6.0.5/src/crcspeed.c:122-134 | feeding the bytes of a word one at a time is iterating the step on the register xor the whole word |
| `Slicing.IterateSlices` | redis-6.0.5/src/crcspeed.c:123-131 | n steps of a word are the sum of one table entry per byte of the word and the word shifted n times |
| `Slicing.UpToAligned` | redis-6.0.5/src/crcspeed.c:115-119 | the first loop has checksummed exactly the bytes it passed, whatever the address |
| `Slicing.WordByTable` | redis-6.0.5/src/crcspeed.c:122-131 | eight table look-ups xored together advance the checksum by the next eight bytes |
| `Slicing.WholeWords` | redis-6.0.5/src/crcspeed.c:121-134 | the middle loop keeps the checksum of the bytes passed and leaves fewer than eight bytes |
| `Slicing.ByteByTable` | redis-6.0.5/src/crcspeed.c:137-140 | one table look-up advances the checksum by one byte |
| `Slicing.OneByOne` | redis-6.0.5/src/crcspeed.c:136-140 | the last loop finishes the checksum of all the bytes |
| `Slicing.TableWalk` | redis-6.0.5/src/crcspeed.c:111-143 | the three loops compute the byte-by-byte checksum of the whole buffer for every linear step, initial value, buffer and alignment |
| `Crc64.LittleCrc64` | redis-6.0.5/src/crcspeed.c:111-143 | the slicing-by-8 walk returns the byte-by-byte CRC of every buffer at every address |
| `Crc64.FastFormRefinesReference` | redis-6.0.5/src/crc64.c:115-123 | the slicing form equals the left-shifting, mirrored-at-the-end `_crc64` on every byte string from 0, and from any other value when the reference starts from its mirror |
| `Crc64.CrcResumes` | redis-6.0.5/src/crc64.c:120-123 | a checksum can be continued: feeding its result with the rest of the data gives the checksum of all of it |
| `Crc64.Rev8Involution` | redis-6.0.5/src/crcspeed.c:69-82 | reversing the bytes of a word twice gives it back |
| `Slicing.ReversedChecksum` | redis-6.0.5/src/crcspeed.c:182-212 | a checksum kept in byte-reversed words is the byte-reversed checksum |
| `Slicing.ReverseTable` | redis-6.0.5/src/crcspeed.c:88-93 | reversing every entry of a table gives the table of the byte-reversed step |
| `Crc64.BigTable` | redis-6.0.5/src/crcspeed.c:88-93 | the reversal loop turns the little-endian table into the one the big-endian walk needs |
| `Slicing.ReversedTableWalk` | redis-6.0.5/src/crcspeed.c:182-212 | the walk over reversed words, from and back to plain words, computes the plain checksum |
| `Crc64.BigCrc64` | redis-6.0.5/src/crcspeed.c:182-212 | given the right table the big-endian walk returns the byte-by-byte CRC of every buffer |
| `Crc64.LittleInitOnBigHost` | redis-6.0.5/src/crcspeed.c:36-48 | on a big-endian host the byte at the address of the loop counter is always 0, so the table is that of a step that only shifts |
| `Crc64.BigInit` | redis-6.0.5/src/crcspeed.c:86-94 | so the table that initialisation leaves on a big-endian host is the reversed table of a step that only shifts |
| `Crc64.UnfedStaysZero` | redis-6.0.5/src/crcspeed.c:86-94 | with that table the checksum from 0 of every byte string is 0 |
| `Crc64.NativeInit` | redis-6.0.5/src/crcspeed.c:268-274 | which table each kind of host ends up with |
| `Crc64.NativeCrc64` | redis-6.0.5/src/crcspeed.c:248-258 | which checksum each kind of host computes with the table it built |
| `Crc64.NativeAgreesOnLittleEndianOnly` | redis-6.0.5/src/crcspeed.c:252-274 | the native checksum equals the reference on all inputs if and only if the host is little-endian |
| `RemoveWin.PurgeJoins` | redis-6.0.5/src/RWFramework.h:61-66 | the remove step that precedes every effect keeps the header clock the join of all clocks seen |
| `RemoveWin.EffectDenotes` | redis-6.0.5/src/t_rwfzset.c:41-124 | each effect takes an element that means a history to one that means the history with the effect at its end |
| `RemoveWin.RunDenotes` | redis-6.0.5/src/t_rwfzset.c:41-124 | after any sequence of effects the clock is the join of their clocks, and pid, innate, acquired and the shown score are those of the adds and increments that carry exactly that clock |
| `Convergence.HeaderIgnoresOrderAndDuplicates` | redis-6.0.5/src/RWFramework.h:97-131 | clock and pid depend only on the set of effects run, not on their order or repetition |
| `Convergence.TotalPermutes` | redis-6.0.5/src/t_rwfzset.c:96-104 | the acquired score does not depend on the order of the increments |
| `Convergence.Converges` | redis-6.0.5/src/RWFramework.h:97-131 | any two orders of the same effects give the same element when adds with one clock and one pid agree on the value |
| `Convergence.ConvergesExactlyWhenDecided` | redis-6.0.5/src/RWFramework.h:104-113 | all orders of a multiset of effects give one element if and only if the winning adds agree on the value |
| `Convergence.CausalDeliveryNeedsNoPurge` | redis-6.0.5/src/RWFramework.h:104-131 | if effects arrive after the removes they have seen, the bare checks without the preceding remove step give the same element, and the clock is the join of the removes |
| `Convergence.CausalReplicasConverge` | redis-6.0.5/src/RWFramework.h:104-131 | under causal delivery the bare checks converge too |
| `Convergence.BareChecksNeedCausality` | redis-6.0.5/src/RWFramework.h:104-131 | without causal delivery the bare checks do not: one add and one remove in two orders end differently |
| `Replicas.ExecKeepsInv` | redis-6.0.5/src/RWFramework.h:77-131 | in every run of any number of replicas, with messages delayed, reordered and concurrent, each replica is the run of its log, its own clock entry leads, adds by one replica with one clock are unique and increments follow adds |
| `Replicas.StrongEventualConsistency` | redis-6.0.5/src/RWFramework.h:97-131 | in every run, two replicas that ran the same messages in any order hold the same element |
| `Replicas.QuiescentReplicasAgree` | MET/oracle.h:193-206 | in every run, replicas that have everything agree, and none is left waiting for the innate value |
| `Replicas.WaitingMissesAnAdd` | redis-6.0.5/src/RWFramework.h:115-120 | a replica that waits for the innate value has an add still to come |
| `Replicas.RemoveWins` | redis-6.0.5/src/RWFramework.h:122-131 | an element that exists was put there by an add whose clock is at least every clock the replica has run: it had seen every remove |
| `Replicas.AddsAreUnique` | redis-6.0.5/src/RWFramework.h:77-85 | no replica issues two adds with the same clock |
| `Replicas.OwnersKnowMost` | redis-6.0.5/src/vector_clock.h:51-58 | no message and no replica is ahead of a replica in its own clock entry |
| `Replicas.AddShows` | redis-6.0.5/src/t_rwfzset.c:53-79 | in every state of every run an add is refused, and changes nothing, exactly if the element exists at that replica; otherwise the element is set by that replica and shows exactly the value added, its clock is unchanged, one message is issued and no other replica changes |
| `Replicas.IncrementRaises` | redis-6.0.5/src/t_rwfzset.c:81-107 | in every state of every run an increment is refused exactly if the element does not exist; otherwise what is shown rises by exactly the increment and nothing else of the element changes |
| `Replicas.RemoveRemoves` | redis-6.0.5/src/t_rwfzset.c:109-124 | in every state of every run a remove is refused exactly if the element does not exist; otherwise it is gone there at once, with no value shown or kept, and the replica's own clock entry is one more and no other |
| `Replicas.DeliverRuns` | redis-6.0.5/src/t_rwfzset.c:63-124 | a delivered message is run at that replica, once, and nowhere else; what the replica then holds is what the messages it has run mean in any order |
| `Replicas.RemovedUntilLaterAdd` | redis-6.0.5/src/RWFramework.h:122-131 | after an accepted remove, in whatever happens next, every replica that has run it shows the element only because of an add that was issued later and whose clock knows of the remove |
| `PriorityQueue.RwfElement.constructor` | redis-6.0.5/src/t_rwfzset.c:22-32 | a new element has the zero clock and does not exist |
| `PriorityQueue.RwfElement.UpdateClock` | redis-6.0.5/src/vector_clock.c:91-98 | the loop makes the clock the join of the two |
| `PriorityQueue.RwfElement.EqualsClock` | redis-6.0.5/src/vector_clock.c:33-41 | the loop returns true if and only if the clocks are equal |
| `PriorityQueue.RwfElement.AddCheck` | redis-6.0.5/src/RWFramework.h:104-113 | succeeds exactly on the current clock with a greater pid, which it then records |
| `PriorityQueue.RwfElement.UpdateCheck` | redis-6.0.5/src/RWFramework.h:115-120 | succeeds exactly on the current clock, and makes a missing element wait for its innate value |
| `PriorityQueue.RwfElement.RemoveCheck` | redis-6.0.5/src/RWFramework.h:122-131 | succeeds exactly when the clock is not below the current one, and then joins it and removes the element |
| `PriorityQueue.RwfElement.Remove` | redis-6.0.5/src/t_rwfzset.c:41-51 | the new element is the purged one |
| `PriorityQueue.RwfElement.RunEffect` | redis-6.0.5/src/t_rwfzset.c:63-124 | the effect part of the three commands computes the effect function for which convergence is proved |
| `PriorityQueue.RwfElement.ClockNow` | redis-6.0.5/src/vector_clock.h:51-58 | returns the clock one ahead in its own entry and leaves the clock as it was |
| `PriorityQueue.RwfElement.Command` | redis-6.0.5/src/t_rwfzset.c:53-124 | a client command is refused exactly by the existence of the element: an add if it exists, the others if not; an accepted add sets the replica and the value, an accepted increment raises the acquired part and what is shown, an accepted remove clears the element and advances the own clock entry alone; what is broadcast carries the clock |
| `ListPositions.CompareLeid` | redis-6.0.5/src/list_basics.c:54-62 | the loop computes the lexicographic comparison of identifiers, a prefix being smaller |
| `ListPositions.BeforeTotal` | redis-6.0.5/src/list_basics.c:54-62 | the comparison is irreflexive, total and antisymmetric |
| `ListPositions.BeforeTransitive` | redis-6.0.5/src/list_basics.c:54-62 | the comparison is transitive |
| `ListPositions.ConstructLeid` | redis-6.0.5/src/list_basics.c:64-111 | the construction ends, its identifier is above the left neighbour, has the replica and the clock sum in its last position, and is strictly between the two when they are in order |
| `ListPositions.ConstructedBetween` | redis-6.0.5/src/list_basics.c:69-107 | any position chosen strictly inside the first gap of two or more gives an identifier above the left neighbour, and between the two when they are in order |
| `ListPositions.AboveLeft` | redis-6.0.5/src/list_basics.c:77-107 | the padded prefix of the left neighbour with a greater position after it is above that neighbour |
| `ListPositions.BelowRight` | redis-6.0.5/src/list_basics.c:69-107 | skipping the places without a gap keeps the new identifier below the right neighbour |
| `SortedSequences.ScanInserts` | redis-6.0.5/src/t_rwflist.c:235-250 | the scan from any element before the new one finds the only sorted place |
| `SortedSequences.InsertedSorted` | redis-6.0.5/src/t_rwflist.c:227-250 | linking keeps the list sorted |
| `SortedSequences.SortedUnique` | redis-6.0.5/src/t_rwflist.c:227-250 | there is only one sorted list of a set of identifiers |
| `ListLinks.BeforeStrictTotal` | redis-6.0.5/src/list_basics.c:54-62 | identifiers are strictly totally ordered |
| `ListLinks.Link` | redis-6.0.5/src/t_rwflist.c:213-251 | an element whose name is not found is linked where the scan from what the word for its predecessor finds stops, or from the head; one whose name is found is not linked again |
| `ListLinks.ScanList` | redis-6.0.5/src/t_rwflist.c:235-250 | the loop stops at the first element after the start that is not before the new one |
| `ListLinks.PlaceInserts` | redis-6.0.5/src/t_rwflist.c:227-250 | in a sorted list that place is the sorted one, if the word does not lead past it |
| `ListLinks.ScanFromBehindUnsorts` | redis-6.0.5/src/t_rwflist.c:235-250 | a word that leads past the place has the element linked out of order |
| `ListLinks.LinkAllSorted` | redis-6.0.5/src/t_rwflist.c:213-251 | settled inserts in any order give the sorted list of exactly the elements inserted |
| `ListLinks.OrdersAgreeExactly` | redis-6.0.5/src/t_rwflist.c:213-251 | every two orders of every part of a set of inserts give the same list if and only if the inserts are settled: names and positions belong together one to one, nothing is named like the head unless everything is, and no word finds an element that belongs behind the new one while something belongs in front of it |
| `ReplicatedList.ExecKeepsInv` | redis-6.0.5/src/t_rwflist.c:146-251 | in every run, with clients inserting after or in front of elements, removed ones added again and inserts delivered in any order, every list is what linking the replica's log gives, every insert is at a position after one of its predecessor, new positions are unlike all others, and a replica keeps the positions it issued |
| `ReplicatedList.ExecSorted` | MET/TLA/rwf_list/rwf_list.tla:206-215 | in every run whose inserts are settled every replica's list is sorted by position |
| `ReplicatedList.SameInsertsSameList` | redis-6.0.5/src/t_rwflist.c:213-251 | in every run whose inserts are settled, replicas that have the same inserts show the same list |
| `ReplicatedList.InsertIntentionKept` | redis-6.0.5/src/t_rwflist.c:185-198 | in every such run an element stays after the one it was inserted after, at every replica |
| `ReplicatedList.InsertedRightAfter` | redis-6.0.5/src/t_rwflist.c:185-250 | where it was issued, an element stands immediately after its predecessor |
| `ReplicatedList.ClientInserts` | redis-6.0.5/src/t_rwflist.c:185-251 | an accepted insert is broadcast with the word as sent, the position and the next count, only the issuer changes, and in a sorted list the element stands right behind what the word finds, or at the front |
| `ReplicatedList.ClientRefused` | redis-6.0.5/src/t_rwflist.c:154-165 | an insert of a name that is found, or after a word that finds nothing and does not mean the front, changes nothing |
| `ReplicatedList.ReaddRepeats` | redis-6.0.5/src/t_rwflist.c:185-212 | a known name is broadcast again at the position it has, exactly if the word asks for that, and the list stays as it is |
| `ReplicatedList.DeliverLinks` | redis-6.0.5/src/t_rwflist.c:213-251 | a delivered insert is run once, at that replica only, and adds exactly its element unless the name is found |
| `ReplicatedList.AgreeExactlyWhenSettled` | redis-6.0.5/src/t_rwflist.c:213-251 | after every run in which two replicas have heard nothing yet, all further deliveries leave replicas with the same inserts with the same list if and only if the inserts are settled |
| `ReplicatedList.OrdinarySettled` | redis-6.0.5/src/t_rwflist.c:154-165 | in every run in which no element is named like the head or like a word for no predecessor, the inserts are settled if and only if each name was given one position |
| `ReplicatedList.OrdinaryStepsIssue` | redis-6.0.5/src/t_rwflist.c:146-165 | it is so in every run in which clients use no such names |
| `ReplicatedList.TwoPositionsDisagree` | redis-6.0.5/src/t_rwflist.c:67-68 | if two inserts gave one name two positions, deliveries exist after which replicas with the same inserts hold different lists |
| `ReplicatedList.AgreeExactlyWithOnePosition` | redis-6.0.5/src/t_rwflist.c:67-68 | after every run without such names, all further deliveries leave replicas with the same inserts with the same list if and only if each name was given one position |
| `ListRuns.ConcurrentNameDisagrees` | redis-6.0.5/src/t_rwflist.c:67-68 | a run of two replicas that insert the same name at the same time and end with the same inserts and different lists |
| `ListRuns.NullNameDisagrees` | redis-6.0.5/src/t_rwflist.c:236-241 | a run with an element named null, where each name has one position, that ends with the same inserts and different lists |
| `ListRuns.HeadNameDisagrees` | redis-6.0.5/src/list_basics.c:113-129 | a run with an element named head that ends with the same inserts and different lists |
| `ClusterNode.ClusterState.constructor` | redis-6.0.5/src/cluster.c:443-460 | a new node starts from zero epochs |
| `ClusterNode.ClusterState.ProcessHeader` | redis-6.0.5/src/cluster.c:1763-1774 | a header raises currentEpoch and the recorded configEpoch to its own and never lowers them |
| `ClusterNode.ClusterState.HandleConfigEpochCollision` | redis-6.0.5/src/cluster.c:1120-1135 | in a collision exactly the node with the smaller name takes a new epoch |
| `ClusterNode.ClusterState.ProcessPing` | redis-6.0.5/src/cluster.c:2050-2057 | a ping updates the epochs first; the own epoch then changes exactly in a collision between masters with the sender's name greater, to one above all that is known |
| `ClusterNode.ClusterState.ProcessUpdate` | redis-6.0.5/src/cluster.c:2131-2147 | an UPDATE records the greatest of what was recorded, what the header says of the sender and what is reported of the third node, and changes no other epoch |
| `ClusterNode.MaxOf` | redis-6.0.5/src/cluster.c:1009-1021 | the greatest of the recorded configEpochs |
| `ClusterNode.ClusterState.GetMaxEpoch` | redis-6.0.5/src/cluster.c:1009-1023 | the loop returns the greatest epoch known |
| `ClusterNode.ClusterState.BumpConfigEpochWithoutConsensus` | redis-6.0.5/src/cluster.c:1055-1072 | takes the next epoch, and says so, exactly if the own configEpoch is zero or something known is greater; no other epoch changes |
| `ClusterNode.ClusterState.SendFailoverAuthIfNeeded` | redis-6.0.5/src/cluster.c:2810-2911 | a vote is given if and only if this is a master with slots that has not voted in the epoch, the request is not older, the requester is a replica of a master that failed or hands over, two node timeouts have passed since the last vote about that master, and the loop over the claimed slots finds none with a newer owner; giving it records the epoch and the time, and nothing else changes |
| `ClusterNode.ClusterState.ProcessAuthAck` | redis-6.0.5/src/cluster.c:2106-2118 | an acknowledgement counts exactly if it comes from a slot-serving master and is not older than the election |
| `ClusterNode.ClusterState.HandleSlaveFailover` | redis-6.0.5/src/cluster.c:3050-3219 | votes are asked for, or the replica takes over, if and only if its master has slots, the failover is a manual one that can start or an automatic one with a failed master, allowed and with data that is not stale, and the election is due and not too old: votes are asked for once with the next epoch, a majority makes it a master with the epoch of the election unless its own is greater; an election that is too old is scheduled anew with its delay, one not yet started is delayed when the rank gets worse; nothing else changes |
| `ClusterNode.ClusterState.ResetHard` | redis-6.0.5/src/cluster.c:545-597 | the node becomes a master, forgets all epochs and keeps the fields of its election |
| `ClusterNode.ClusterState.SetConfigEpochTo` | redis-6.0.5/src/cluster.c:4788-4824 | an epoch is accepted exactly if it is not negative, no other node is known and the node has none; then it is the node's, and currentEpoch at least that |
| `ClusterRoles.RolesAsTold` | redis-6.0.5/src/cluster.c:4017-4033 | a node told to replicate another follows it, one promoted or hard reset follows none, and no other step but a win changes whom a node follows |
| `ClusterRoles.SendsWhatItKnows` | redis-6.0.5/src/cluster.c:2348-2402 | a packet carries the current epoch, the configuration epoch of the sender's master or its own, and in an UPDATE what the sender has recorded; a vote request carries the next epoch |
| `ClusterRoles.WinTakesOver` | redis-6.0.5/src/cluster.c:3199-3216 | whoever wins an election is a master at once, with the epoch of the election unless its own was greater; nobody else's epoch changes there |
| `ClusterRoles.StaysMaster` | redis-6.0.5/src/cluster.c:3077-3087 | in every run a master stays one, and schedules, starts and wins no election, until it is told to replicate another node |
| `ClusterRoles.WinsNeedAMaster` | redis-6.0.5/src/cluster.c:3012-3019 | in every run, between two elections that one node wins it has been told to replicate another |
| `ClusterRoles.NothingForgotten` | redis-6.0.5/src/cluster.c:1763-1774 | in every run with dominated epochs, what a node knows of epochs never goes down unless it is hard reset |
| `ClusterRoles.ToldForGood` | redis-6.0.5/src/cluster.c:2131-2147 | in every run from dominated epochs without the hard reset of a candidate, whatever a ping or an UPDATE said is known to its receiver ever after, unless that is hard reset |
| `ClusterRoles.BumpTakesNext` | redis-6.0.5/src/cluster.c:1055-1072 | with dominated epochs the node takes a new epoch exactly if its own is zero or below its currentEpoch, and then has the next one; afterwards no recorded epoch is greater than its own |
| `ClusterRoles.BumpIsUniqueUnlessTied` | redis-6.0.5/src/cluster.c:1026-1072 | afterwards its epoch is nobody else's, as far as it knows, if and only if it was not tied with another for the greatest one |
| `ClusterRoles.AssignGivesEpoch` | redis-6.0.5/src/cluster.c:4788-4824 | in the machine, an epoch assigned by hand is given to a node that has none and to no other |
| `ClusterEpochs.StepKeepsDomination` | redis-6.0.5/src/cluster.c:1763-1774 | a step keeps currentEpoch at least every configEpoch known, in nodes and in messages, if and only if it is not the win of an election that outlived a hard reset |
| `ClusterEpochs.EpochsDominated` | redis-6.0.5/src/cluster.c:1009-1135 | so in every run without such a win every reachable state has that property |
| `ClusterEpochs.StepKeepsElectionsCurrent` | redis-6.0.5/src/cluster.c:545-597 | a step keeps every election at or below currentEpoch if and only if it is not the hard reset of a node that has started one |
| `ClusterEpochs.DominatedWithoutElectionReset` | redis-6.0.5/src/cluster.c:545-597 | in every run in which no node that has started an election is hard reset, currentEpoch is at least every configEpoch known |
| `ClusterEpochs.ResetLeavesElectionAhead` | redis-6.0.5/src/cluster.c:545-597 | a run where a hard reset breaks it: a replica with its vote is reset, made a replica of another node and takes over from it with the epoch and the votes of before, which the reset does not clear |
| `ClusterElection.VotesStayRemembered` | redis-6.0.5/src/cluster.c:2837-2844 | a step keeps every vote at or below its voter's lastVoteEpoch if and only if it is not the hard reset of a node that has voted |
| `ClusterElection.VotesStayUnique` | redis-6.0.5/src/cluster.c:2835-2911 | every step keeps votes unique by voter and epoch |
| `ClusterElection.OneVotePerEpoch` | redis-6.0.5/src/cluster.c:2810-2911 | in every run in which no node that has voted is hard reset, no node votes twice in an epoch |
| `ClusterElection.AcksStayGenuine` | redis-6.0.5/src/cluster.c:2106-2118 | every acknowledgement under way belongs to a vote cast, once, and is not among those counted for the current election |
| `ClusterElection.StartKeepsTally` | redis-6.0.5/src/cluster.c:3185-3197 | starting an election keeps the tally honest if and only if the count is zero then |
| `ClusterElection.TallyStaysHonest` | redis-6.0.5/src/cluster.c:2106-2118 | the count is the number of distinct masters that voted for this candidate in this epoch; a step keeps that if and only if it is not the start of an election with votes already counted |
| `ClusterElection.WinsStayBacked` | redis-6.0.5/src/cluster.c:3199-3212 | every win is backed by a majority of masters that voted for the winner in its epoch |
| `ClusterElection.StepKeepsInv` | redis-6.0.5/src/cluster.c:3120-3219 | a step keeps the whole election invariant if and only if it is not a late start |
| `ClusterElection.RunKeepsInv` | redis-6.0.5/src/cluster.c:2810-3219 | every state of a run without a late start has the invariant |
| `ClusterElection.MajoritiesMeet` | redis-6.0.5/src/cluster.c:3199-3200 | two majorities of the masters share a master |
| `ClusterElection.OneWinnerPerEpoch` | redis-6.0.5/src/cluster.c:2810-3219 | in every run without a late start an epoch has at most one winner |
| `ClusterElection.LateVoteElectsTwo` | redis-6.0.5/src/cluster.c:3120-3197 | a run of five nodes where a vote counted between the scheduling and the start of an election gives an epoch two winners |
| `ClusterCollision.StaysBehind` | redis-6.0.5/src/cluster.c:1120-1135 | gossip keeps every record of a node's epoch at or below the node's own, own epochs only grow, and change only on a collision with a greater name |
| `ClusterCollision.AlwaysBehind` | redis-6.0.5/src/cluster.c:1120-1135 | so it is in every state of a gossip run |
| `ClusterCollision.PacketHasSource` | redis-6.0.5/src/cluster.c:2348-2400 | the epoch in a message is one its sender had |
| `ClusterCollision.HistoryYields` | redis-6.0.5/src/cluster.c:1120-1135 | in a gossip run an epoch given up is one that a node with a greater name has had |
| `ClusterCollision.CollisionsEnd` | redis-6.0.5/src/cluster.c:1120-1135 | in every gossip run, however long, a master changes its epoch at most as often as there are masters with greater names |
| `ClusterCollision.SettledExactlyWhenDistinct` | redis-6.0.5/src/cluster.c:2050-2057 | no ping between masters changes any epoch if and only if the epochs of all masters differ |
| `EpochHistories.GivenUpAbove` | redis-6.0.5/src/cluster.c:1120-1135 | all values a node has given up are values of nodes above it |
| `EpochHistories.FewValues` | redis-6.0.5/src/cluster.c:1120-1135 | the nodes from one name upwards take at most as many values between them as they are |
| `EpochHistories.ChangesBounded` | redis-6.0.5/src/cluster.c:1120-1135 | so a node's epoch changes at most once for each node above it |
| `SlotOwners.CountUpdate` | redis-6.0.5/src/cluster.c:3749-3809 | setting one slot changes the counts of the old and the new owner by one |
| `SlotOwners.OwnerHasGreatestEpoch` | redis-6.0.5/src/cluster.c:1581-1641 | after any sequence of claims the owner of a slot is a claimant heard with the greatest configEpoch, and the recorded epochs are those heard |
| `SlotOwners.FirstKeepsSlot` | redis-6.0.5/src/cluster.c:1615-1620 | a claimant with the greatest epoch that is heard first keeps the slot whatever follows |
| `SlotOwners.TieMakesOrderMatter` | redis-6.0.5/src/cluster.c:1615-1620 | two claimants that share the greatest epoch give two orders that end with different owners |
| `SlotOwners.AgreeExactlyWithoutTies` | redis-6.0.5/src/cluster.c:1581-1641 | nodes that heard the same claims can disagree on the owner if and only if two claimants share the greatest epoch |
| `ClusterSlots.SlotTable.constructor` | redis-6.0.5/src/cluster.c:466-467 | a new table has no owner for any slot and consistent bitmaps and counts |
| `ClusterSlots.SlotTable.AddSlot` | redis-6.0.5/src/cluster.c:3790-3798 | a free slot gets its owner in the table, the bitmap and the count; an owned one is refused and nothing changes |
| `ClusterSlots.SlotTable.DelSlot` | redis-6.0.5/src/cluster.c:3800-3809 | an owned slot is freed in the table, the bitmap and the count; a free one is refused |
| `ClusterSlots.SlotTable.DelNodeSlots` | redis-6.0.5/src/cluster.c:3811-3821 | exactly the slots of the node are freed, and their number returned |
| `ClusterSlots.SlotTable.DelNode` | redis-6.0.5/src/cluster.c:948-975 | a forgotten node owns, imports and migrates nothing any more, and no other slot changes |
| `ClusterSlots.SlotTable.FailoverReplaceYourMaster` | redis-6.0.5/src/cluster.c:3012-3028 | exactly the old master's slots become the new one's |
| `ClusterSlots.SlotTable.RebindSlot` | redis-6.0.5/src/cluster.c:1605-1640 | one claimed slot changes owner exactly if it is free or owned with a smaller epoch, and is not being imported; a slot that is not claimed or is being imported is left alone |
| `ClusterSlots.SlotTable.RebindSlots` | redis-6.0.5/src/cluster.c:1604-1642 | the loop does so for all slots, and finds exactly which of them held keys here and whether the master lost one |
| `ClusterSlots.SlotTable.UpdateSlotsConfigWith` | redis-6.0.5/src/cluster.c:1581-1675 | a slot changes owner, to the claimant, exactly if it is claimed, not being imported, and free or owned with a smaller epoch; the server then follows the claimant exactly if its master lost its last slot, or drops exactly the keys of slots it lost; a replica that knows no master uses it regardless exactly if a free slot was claimed |
| `Decimals.StrtolDecimal` | redis-6.0.5/src/aof.c:527-541 | the number a printed decimal is read back as |
| `Decimals.DecimalCut` | redis-6.0.5/src/aof.c:527-541 | a decimal cut short is a smaller decimal |
| `AofText.CatAppendOnlyGenericCommand` | redis-6.0.5/src/aof.c:522-545 | the loop appends the protocol text of the command |
| `AofText.ScanEncoded` | redis-6.0.5/src/aof.c:779-825 | reading the text of a command, whatever follows it, gives the command and leaves what follows |
| `AofText.ScanCut` | redis-6.0.5/src/aof.c:779-825 | the text of a command cut anywhere inside is noticed as cut short, never read as a command |
| `AofDamage.EncodeSpelled` | redis-6.0.5/src/aof.c:522-545 | the text of SET a 1, character by character |
| `AofGrammar.FirstLine` | redis-6.0.5/src/aof.c:779-784 | a line is what fgets takes: up to a newline, 127 characters or the end of the file |
| `AofGrammar.ScanArgsExactly` | redis-6.0.5/src/aof.c:796-825 | each outcome of reading n arguments is exactly one shape of the text: n arguments, each a line with a mark and its length, that many characters and any two more; or fewer and then the end of the file, an argument without its mark, or a negative length |
| `AofGrammar.ScanExactly` | redis-6.0.5/src/aof.c:779-825 | each outcome of reading a command is exactly one shape of the text, said without the reader: nothing left, a whole command, a command the file ends in, no command, a line without a count |
| `AofWholeFiles.BeginExactly` | redis-6.0.5/src/aof.c:833-873 | a transaction is open at the end of a log exactly if a MULTI has no EXEC behind it |
| `AofWholeFiles.LoadExactly` | redis-6.0.5/src/aof.c:710-929 | for every file, command table and setting of aof-load-truncated, and every outcome: the load ends so if and only if the file is the text of known commands followed by what calls for it. It succeeds with nothing left and no open transaction; with truncation on also with an open transaction, cut to the last MULTI, or before a command that the file ends in, cut to that; executed is all before the open transaction. Anything else is refused, each error for its own kind of tail |
| `AofDamage.DamagedLogRefused` | redis-6.0.5/src/aof.c:785-805 | what was written followed by something that is no command is refused as a bad format whether truncation is on or off |
| `AofDamage.UnknownCommandRefused` | redis-6.0.5/src/aof.c:827-834 | what was written followed by a command that there is not is refused, whatever follows |
| `AofDamage.NoCountIsBad` | redis-6.0.5/src/aof.c:785-788 | a count below one is no command |
| `AofDamage.UnmarkedArgumentIsBad` | redis-6.0.5/src/aof.c:796-805 | a command with fewer arguments than counted, and then something without the mark of one, is no command |
| `AofDamage.WrittenIsCommand` | redis-6.0.5/src/aof.c:522-545 | the text that is written for a command has that shape, whatever follows |
| `AofDamage.LooseTextLoads` | redis-6.0.5/src/aof.c:819-824 | a file with any two other characters behind an argument loads as well, although it is neither the text of a log nor the beginning of one |
| `AofReplay.ReadArgument` | redis-6.0.5/src/aof.c:797-824 | one argument is read, or the reason why not returned, as the scanner specifies |
| `AofReplay.ReadArguments` | redis-6.0.5/src/aof.c:796-825 | the loop over the arguments computes the scan of all of them |
| `AofReplay.ReadCommand` | redis-6.0.5/src/aof.c:779-825 | one round of parsing computes the scan of one command, with the same end, cut and format errors |
| `AofReplay.ReplayCommands` | redis-6.0.5/src/aof.c:763-873 | the loop replays the file as specified, and for every file ends in exactly the outcome that its text calls for, in the terms of `AofWholeFiles.LoadExactly` |
| `AofReplay.LoadAppendOnlyFile` | redis-6.0.5/src/aof.c:710-929 | the whole load: the empty file and the other format are refused, and for every other file the outcome is exactly the one that its text calls for |
| `AofLoader.TextLaws` | redis-6.0.5/src/aof.c:522-545 | the protocol text satisfies the laws that recovery needs: it reads back, cuts are noticed, and it begins with a star |
| `AofLoader.LoadLog` | redis-6.0.5/src/aof.c:763-862 | loading a log followed by anything is obeying the log and then loading the rest |
| `AofRecovery.WholeUnits` | redis-6.0.5/src/aof.c:763-862 | a log of commands and whole transactions leaves no transaction open and executes exactly its commands in order |
| `AofRecovery.WholeFileLoads` | redis-6.0.5/src/aof.c:710-883 | a file of whole commands and transactions loads completely, with or without truncation |
| `AofRecovery.CutFileLoads` | redis-6.0.5/src/aof.c:864-917 | a file cut at any byte loads exactly the commands and transactions before the one that was cut if truncation is on, and is refused otherwise; the size it is truncated to is given |
| `AofRecovery.CutOfLog` | redis-6.0.5/src/aof.c:710-917 | every proper prefix of a log file is such a cut |
| `AofRecovery.AnyPrefixLoads` | redis-6.0.5/src/aof.c:710-917 | so every nonempty prefix of every log file loads to a prefix of its commands and transactions |
| `AofRecovery.LaterWritesSurvive` | redis-6.0.5/src/aof.c:864-917 | what the next load makes of a truncated file with any commands and transactions appended: everything, if the cut was not inside a command of an open transaction; otherwise, if a transaction was appended, everything and the half transaction with it; otherwise nothing of what was appended |
| `AofRecovery.AppendedLostExactly` | redis-6.0.5/src/aof.c:864-917 | what was appended is lost if and only if the cut was inside a command of an open transaction, something was appended and no transaction was |
| `AofRecovery.TornReturnsExactly` | redis-6.0.5/src/aof.c:864-917 | more than what was whole or appended is executed if and only if the cut was inside an open transaction that had a whole command and a transaction was appended |
| `AofRecovery.HalfTransactionReturns` | redis-6.0.5/src/aof.c:864-917 | the protocol text of concrete commands where the first command of a transaction that was never finished takes effect at the second load |
| `AofRecovery.MultiSwallows` | redis-6.0.5/src/aof.c:885-917 | a file cut inside the first command of a transaction is truncated to end in MULTI, and what is appended to that does not load |
| `AofRecovery.CutTransactionSwallows` | redis-6.0.5/src/aof.c:885-917 | the same with the protocol text of concrete commands |
| `AofFlush.Taken` | redis-6.0.5/src/aof.c:300-317 | the retried writes take part of the buffer, and all of it exactly if none fails before the end |
| `AofFlush.TakenInAll` | redis-6.0.5/src/aof.c:300-317 | writes that are interrupted or take a part are retried: together they take what each takes |
| `AofFlush.TakenUpToFailure` | redis-6.0.5/src/aof.c:300-317 | the first write that fails before everything is written is the last |
| `AofFlush.AppendOnlyFile.constructor` | redis-6.0.5/src/aof.c:1666-1676 | an opened file is in step with its recorded size |
| `AofFlush.AppendOnlyFile.Append` | redis-6.0.5/src/aof.c:642-643 | bytes handed over are at the end of the buffer |
| `AofFlush.AppendOnlyFile.WriteAll` | redis-6.0.5/src/aof.c:300-317 | the retry loop puts exactly the bytes taken at the end of the file and returns their number, or -1 if there are none |
| `AofFlush.AppendOnlyFile.Flush` | redis-6.0.5/src/aof.c:338-520 | whatever the system calls do, file and buffer together stay what was appended and the recorded size that of the file; a flush waits for a running fsync from the time it first had to until two seconds later, and is otherwise done, undone or left partial exactly as the outcome of the calls says; the server gives up exactly on a failed write under the always policy; and it is exactly said when everything handed over has been asked to be synced |
| `AofFlush.AppendOnlyFile.WriteBuffer` | redis-6.0.5/src/aof.c:392-494 | the write of a flush is done, undone or left partial exactly as the outcome of the calls says, and the server gives up exactly on a failed write under the always policy |
| `AofFlush.AppendOnlyFile.TryFsync` | redis-6.0.5/src/aof.c:496-520 | fsync is called, asked for once a second, or left to the running one, and the time and the size are recorded accordingly |
| `AofFlush.AppendOnlyFile.Acknowledge` | redis-6.0.5/src/aof.c:452-461 | under the always policy, as long as fsync is not suspended, what was handed over is in the file and synced after the flush, or the server gives up |
| `RewriteBuffers.RewriteBuffer.constructor` | redis-6.0.5/src/aof.c:70-76 | a new rewrite buffer is empty |
| `RewriteBuffers.RewriteBuffer.Size` | redis-6.0.5/src/aof.c:79-90 | the loop returns the number of bytes held |
| `RewriteBuffers.RewriteBuffer.Append` | redis-6.0.5/src/aof.c:125-169 | bytes spread over blocks are at the end of the contents, no block overflowing |
| `RewriteBuffers.RewriteBuffer.SendToChild` | redis-6.0.5/src/aof.c:95-122 | however much each write takes, what was sent followed by what is left is what was there; nothing is sent once stopped |
| `RewriteBuffers.RewriteBuffer.WriteOut` | redis-6.0.5/src/aof.c:174-194 | a success has written the whole contents, a failure a prefix |
| `AofRewrite.FeedKeepsLog` | redis-6.0.5/src/aof.c:584-643 | feeding a command or a whole transaction, with the SELECTs needed in between, keeps the log on disk and in the buffer a log of the data |
| `AofRewrite.FeedKeepsDiff` | redis-6.0.5/src/aof.c:584-650 | and keeps what the child has, what is in the pipe and what is in the blocks together the difference from the snapshot to the data |
| `AofRewrite.MovesKeepDiff` | redis-6.0.5/src/aof.c:95-122 | moving bytes to the pipe, to the child and into its file loses and reorders none |
| `AofRewrite.FlushKeepsLog` | redis-6.0.5/src/aof.c:338-520 | flushing keeps the log |
| `AofRewrite.ForkStartsDiff` | redis-6.0.5/src/aof.c:1593-1636 | a fork starts with an empty difference and forces a SELECT |
| `AofRewrite.FeedGoesWhere` | redis-6.0.5/src/aof.c:584-650 | what is fed goes to the buffer exactly while the log is on, and for the child exactly while there is one and the log is not off |
| `AofRewrite.BytesMoveOn` | redis-6.0.5/src/aof.c:95-122 | every other step before the child is done moves as many bytes as it says from the buffer to the file, from the blocks to the pipe or from the pipe to the child, and loses none |
| `AofRewrite.StartsAndStops` | redis-6.0.5/src/aof.c:213-290 | a fork records the data of the moment and starts with nothing; a child that is lost leaves nothing behind; the log is waiting, on or off as the step says |
| `AofRewrite.DoneInstalls` | redis-6.0.5/src/aof.c:1683-1793 | when the child is done the file is the snapshot of its data followed by everything fed since the fork, the child and its buffers are gone and, unless the log is off, the buffer is empty and the log is on |
| `AofRewrite.DoneKeepsLog` | redis-6.0.5/src/aof.c:1683-1793 | and that file replays to the data |
| `AofRewrite.StepKeepsInv` | redis-6.0.5/src/aof.c:1683-1832 | every step, with transactions, failures and switching the log on and off, keeps all of this |
| `AofRewrite.RunKeepsInv` | redis-6.0.5/src/aof.c:1581-1636 | so it holds in every state of every run |
| `AofRewrite.RewriteCompletes` | redis-6.0.5/src/aof.c:1581-1636 | from every reachable state without a child a rewrite can run to its end, and leaves just the snapshot, an empty buffer and the log on |
| `AofRewrite.TurnedOnAgain` | redis-6.0.5/src/aof.c:251-290 | from every reachable state with the log off it can be turned on again, by a rewrite that ends with the log on |
| `AofRewrite.RestartRestores` | redis-6.0.5/src/aof.c:1581-1592 | in every run of commands and transactions, loading the file once the buffer is empty gives exactly the data, whatever rewrites have happened |
| `AofRewrite.CrashLosesSuffix` | redis-6.0.5/src/aof.c:864-917 | in every run, a crash before the buffer is written loses only a suffix of the commands and transactions, and the size the file is cut to is bounded by what is kept |
| `AclUsers.ApplyKeepsInv` | redis-6.0.5/src/acl.c:737-901 | every rule keeps the user consistent: bits of no command are as the reserved bit, allowed subcommands are distinct and belong to commands not allowed as a whole |
| `AclUsers.ObeyAllKeepsInv` | redis-6.0.5/src/acl.c:737-901 | so do all sequences of rules |
| `AclUsers.CategoryKeepsInv` | redis-6.0.5/src/acl.c:393-408 | so does a category |
| `AclUsers.AddSubKeepsInv` | redis-6.0.5/src/acl.c:630-657 | so does adding a subcommand |
| `AclUsers.ObeyAllExactly` | redis-6.0.5/src/acl.c:737-901 | a sequence of rules is accepted exactly if each is, by the user that those before it have made |
| `AclRuleWords.SetCategorySets` | redis-6.0.5/src/acl.c:393-408 | on any table, a category turns on or off exactly the bits that a command of the category, not a module's, has, and forgets the subcommands of exactly these; the all-commands flag goes exactly when a bit is turned off |
| `AclRuleWords.CategoryWordMeans` | redis-6.0.5/src/acl.c:885-890 | +@category and -@category do that, and are refused, changing nothing, exactly for a category that there is not |
| `AclRuleWords.CommandWordMeans` | redis-6.0.5/src/acl.c:827-884 | +command and -command, in any case, turn on or off exactly that bit and forget exactly its subcommands |
| `AclRuleWords.SubWordMeans` | redis-6.0.5/src/acl.c:836-876 | +command with a subcommand after a bar adds it unless it is listed in some case, and is refused exactly for no subcommand and for a command allowed as a whole |
| `AclRuleWords.UnknownCommandRefused` | redis-6.0.5/src/acl.c:827-884 | all three are refused, changing nothing, for a name that there is not |
| `AclRuleWords.AllWordsMean` | redis-6.0.5/src/acl.c:754-765 | the words for all commands and for none, in any case, set or clear every bit and the flag and leave no subcommand |
| `AclRuleWords.OtherWordsKeep` | redis-6.0.5/src/acl.c:737-901 | every other word without a sign leaves the command rules alone, and is accepted exactly if it is empty, one of the keywords or a word about passwords or keys |
| `AclDescriptions.ParseCategory` | redis-6.0.5/src/acl.c:480-483 | a category rule that is written is read as that category |
| `AclDescriptions.ParseCommand` | redis-6.0.5/src/acl.c:497-499 | a command rule that is written is read as that command |
| `AclDescriptions.ParseSub` | redis-6.0.5/src/acl.c:508-512 | a subcommand rule that is written is read as that subcommand of that command |
| `AclRuleWords.CategoryNamedExactly` | redis-6.0.5/src/acl.c:472-487 | a description names a category exactly if strictly more of its commands differ from the opening rule than agree with it |
| `AclDescriptions.OpeningOpens` | redis-6.0.5/src/acl.c:462-487 | the description's opening rules are accepted and give a consistent user without subcommands |
| `AclDescriptions.SubRulesAdd` | redis-6.0.5/src/acl.c:503-514 | the subcommand rules add exactly the subcommands in order |
| `AclDescriptions.CommandRulesRestore` | redis-6.0.5/src/acl.c:489-516 | the command rules turn the user of the opening into the user described |
| `AclDescriptions.DescriptionRestores` | redis-6.0.5/src/acl.c:443-535 | a description applied to a new user restores every command bit and every subcommand, and the check against the fake user passes |
| `AclDescriptions.SmallTable` | redis-6.0.5/src/server.c:188-190 | a table with one read command and a new user meet all that these results require |
| `AclDescriptions.SavedUserMayRunTheSame` | redis-6.0.5/src/acl.c:443-535 | every user that rules can make may run the same commands after being described and read back |
| `AclDescriptions.PanicsExactlyWhenBitsOutlive` | redis-6.0.5/src/acl.c:521-533 | the describer's check fails, and the server panics, if and only if a bit of no known command differs from the reserved bit |
| `AclDescriptions.UnloadedCommandPanics` | redis-6.0.5/src/module.c:7310-7325 | a user given a command of a module makes the describer panic once the module is unloaded |
| `Trimming.TrimmedPiece` | redis-6.0.5/src/sds.c:708-721 | trimming leaves one piece of the string; what is taken off at both ends consists of characters of the set, and the piece neither begins nor ends with one |
| `Trimming.SdsTrim` | redis-6.0.5/src/sds.c:708-721 | the two loops compute that |
| `Trimming.SdsSplitLen` | redis-6.0.5/src/sds.c:820-868 | the loop computes the pieces between separators, and no piece for the empty string |
| `AclFiles.LoadOneLine` | redis-6.0.5/src/acl.c:1288-1364 | one line is trimmed, split, trimmed again piece by piece and obeyed, or skipped when blank, or refused, exactly as specified |
| `AclFiles.LoadAllLines` | redis-6.0.5/src/acl.c:1288-1364 | the loop loads the lines in order |
| `AclFiles.LinesLoadExactly` | redis-6.0.5/src/acl.c:1288-1364 | lines load exactly if each is blank or names a user without blanks in the name and with rules that are all accepted |
| `AclFiles.FileLoadsExactly` | redis-6.0.5/src/acl.c:1253-1399 | every file loads exactly if each of its lines does; then the users are the default one and those named, each with the rules of the last line that names it |
| `AclFiles.LoadFromFile` | redis-6.0.5/src/acl.c:1253-1399 | the file is split at newlines and gives exactly those users, or none if a line is refused |
| `AclFiles.SaveToFile` | redis-6.0.5/src/acl.c:1404-1428 | the loop writes one description a line |
| `AclFiles.LoadedUsersClean` | redis-6.0.5/src/acl.c:1253-1364 | whatever the file, no loaded user has a subcommand with a space or a newline in it or a tab or carriage return at its end |
| `AclFiles.FileRestoresExactly` | redis-6.0.5/src/acl.c:1253-1428 | saving users and loading the file gives all of them back if and only if none has a subcommand with a space or a newline in it or a tab or carriage return at its end |
| `AclFiles.UncleanSubcommandIsLost` | redis-6.0.5/src/acl.c:1295-1342 | a user given such a subcommand does not come back from its file |
| `AclFiles.TabbedSubcommandIsLost` | redis-6.0.5/src/acl.c:1338-1342 | in particular one whose subcommand ends in a tab |
| `Words.SplitJoin` | redis-6.0.5/src/acl.c:1300-1301 | splitting joined words gives them back if and only if none has the separator |
| `Words.SplitEnded` | redis-6.0.5/src/acl.c:1274-1274 | splitting words each ended by the separator gives them back and one empty word, if and only if none has it |
| `AclUserObjects.CommandIds.constructor` | redis-6.0.5/src/acl.c:1014-1020 | no command has an identifier yet |
| `AclUserObjects.CommandIds.GetCommandID` | redis-6.0.5/src/acl.c:1014-1042 | a known name keeps its identifier, a new one gets one that nobody has, and the reserved one is never given |
| `AclUserObjects.AclUser.constructor` | redis-6.0.5/src/acl.c:231-253 | a new user has no command |
| `AclUserObjects.AclUser.SetCommandBit` | redis-6.0.5/src/acl.c:376-386 | sets one bit; clearing one also clears the all-commands flag |
| `AclUserObjects.AclUser.ResetSubcommandsForCommand` | redis-6.0.5/src/acl.c:602-609 | forgets the subcommands of one command |
| `AclUserObjects.AclUser.AddAllowedSubcommand` | redis-6.0.5/src/acl.c:630-657 | the loop over the list appends the subcommand unless it is there in any case |
| `AclUserObjects.AclUser.SetAll` | redis-6.0.5/src/acl.c:754-765 | all bits, the flag and no subcommands |
| `AclUserObjects.AclUser.SetBitsForCategory` | redis-6.0.5/src/acl.c:393-408 | the loop turns on or off exactly the bits that a command of the category, not a module's, has, and forgets the subcommands of exactly these, or refuses an unknown category and changes nothing |
| `AclUserObjects.AclUser.AllowCommand` | redis-6.0.5/src/acl.c:827-884 | sets or clears the bit of a command of that name and forgets its subcommands, and changes no other; refuses exactly a name that there is not |
| `AclUserObjects.AclUser.Follow` | redis-6.0.5/src/acl.c:737-901 | does to the object what the rule does to the user |
| `AclUserObjects.AclUser.SetUser` | redis-6.0.5/src/acl.c:737-901 | does to the object what the rule string does to the user, with the same error |
| `AclUserObjects.AclUser.CountCategoryBits` | redis-6.0.5/src/acl.c:414-434 | the loop returns how many commands of the category are on and how many off |
| `AclUserObjects.AclUser.Try` | redis-6.0.5/src/acl.c:482-484 | a rule written is also applied to the fake user |
| `AclUserObjects.AclUser.DescribeCategory` | redis-6.0.5/src/acl.c:477-486 | writes the category rule the counts ask for and applies it to the fake user |
| `AclUserObjects.AclUser.DescribeCategories` | redis-6.0.5/src/acl.c:472-487 | the loop writes the category rules in order |
| `AclUserObjects.AclUser.DescribeOpening` | redis-6.0.5/src/acl.c:462-487 | text and fake user of the opening |
| `AclUserObjects.AclUser.DescribeSubs` | redis-6.0.5/src/acl.c:503-514 | the loop writes the subcommand rules in order |
| `AclUserObjects.AclUser.DescribeBit` | redis-6.0.5/src/acl.c:493-500 | writes the rule of a command exactly where the fake user differs, and sets its bit right |
| `AclUserObjects.AclUser.DescribeCommand` | redis-6.0.5/src/acl.c:493-514 | one command's rules, and the fake user's bit set right |
| `AclUserObjects.AclUser.DescribeCommands` | redis-6.0.5/src/acl.c:489-516 | the loop writes the rules of all commands |
| `AclUserObjects.AclUser.DescribeCommandRules` | redis-6.0.5/src/acl.c:443-535 | returns the description as one line, and panics exactly if the predicted bitmap is not the user's |
| `WaitingLists.UnblockedIndex` | redis-6.0.5/src/blocked.c:601-634 | unblocking keeps the queues by key and the keys by client each other's inverse |
| `WaitingLists.BlockedIndex` | redis-6.0.5/src/blocked.c:556-597 | so does blocking |
| `WaitingLists.RotatedIndex` | redis-6.0.5/src/blocked.c:226-231 | so does moving the head of a queue to its tail |
| `WaitingLists.UnblockedNoneMissed` | redis-6.0.5/src/blocked.c:601-634 | unblocking leaves no list with a waiter unmarked |
| `WaitingLists.BlockedNoneMissed` | redis-6.0.5/src/t_list.c:687-732 | neither does blocking, because the keys are missing |
| `WaitingLists.ChangedNoneMissed` | redis-6.0.5/src/blocked.c:644-665 | neither does creating a list that is marked as ready |
| `WaitingLists.ChangedMissedExactly` | redis-6.0.5/src/db.c:214-230 | changing a key without a signal leaves it missed if and only if it becomes a list, is not marked and somebody waits for one |
| `WaitingLists.ProgressOfHead` | redis-6.0.5/src/blocked.c:214-269 | one round serves or rotates the next of the original waiters |
| `WaitingLists.ProgressEnds` | redis-6.0.5/src/blocked.c:214-269 | after one round for each original waiter none of them waits for a list |
| `WaitingLists.PopDelivers` | redis-6.0.5/src/blocked.c:237-253 | popping an element into a reply conserves every element |
| `WaitingLists.PopAndDropConserves` | redis-6.0.5/src/t_list.c:694-712 | so does popping the last element and deleting the list |
| `WaitingLists.MoveConserves` | redis-6.0.5/src/t_list.c:649-668 | so does moving an element to another list |
| `WaitingLists.PushAllOrders` | redis-6.0.5/src/t_list.c:197-232 | the elements stand behind the old ones in their order, or before them in reverse |
| `WaitingLists.ServingSends` | redis-6.0.5/src/blocked.c:233-256 | the element at the end the client waits for is sent, moved to the head of the target, or put back if that is of another type, and the reply carries it |
| `BlockedClients.LeaveQueues` | redis-6.0.5/src/blocked.c:607-621 | the loop removes the client from exactly the queues of its keys |
| `BlockedClients.JoinQueues` | redis-6.0.5/src/blocked.c:566-595 | the loop appends the client once to the queue of each of its keys, repeated or not |
| `BlockedClients.Server.constructor` | redis-6.0.5/src/blocked.c:30-61 | a new server has no keys and no waiters |
| `BlockedClients.Server.UnblockClientWaitingData` | redis-6.0.5/src/blocked.c:601-634 | the client is in no queue any more |
| `BlockedClients.Server.UnblockClient` | redis-6.0.5/src/blocked.c:146-167 | the client is forgotten by both sides of the index and queued once for reprocessing |
| `BlockedClients.Server.SignalKeyAsReady` | redis-6.0.5/src/blocked.c:644-665 | a key with waiters is marked and queued once; a key without is not |
| `BlockedClients.Server.PopFor` | redis-6.0.5/src/blocked.c:233-243 | an element is popped and the client leaves the index |
| `BlockedClients.Server.PushTarget` | redis-6.0.5/src/t_list.c:550-562 | the element goes to the head of the target, which is marked for its waiters when it is new |
| `BlockedClients.Server.MoveToTarget` | redis-6.0.5/src/t_list.c:649-675 | the element goes to the head of the target, or back where it came from if the target is not a list; none is lost |
| `BlockedClients.Server.ServeReceiver` | redis-6.0.5/src/blocked.c:237-256 | the waiter leaves the index; the element at the end it waits for is sent to it, moved to the head of its target or put back, the reply carries that element, and no other list changes |
| `BlockedClients.Server.ServeNext` | redis-6.0.5/src/blocked.c:222-260 | one round of the serving loop keeps order and elements, and stops only on an empty list |
| `BlockedClients.Server.ServeHead` | redis-6.0.5/src/blocked.c:233-256 | serving the head of the queue is serving the next of the original waiters |
| `BlockedClients.Server.RotateHeadToTail` | redis-6.0.5/src/blocked.c:226-231 | a waiter of another kind goes to the tail and nothing else changes |
| `BlockedClients.Server.DropIfEmpty` | redis-6.0.5/src/blocked.c:263-266 | an emptied list is deleted and nothing else is lost |
| `BlockedClients.Server.ServeClientsBlockedOnListKey` | redis-6.0.5/src/blocked.c:214-269 | waiters are served in the order in which they blocked, until all are served or the list is gone, conserving every element |
| `BlockedClients.Server.TakeReady` | redis-6.0.5/src/blocked.c:485-491 | taking a key off the ready list leaves only that key to be served |
| `BlockedClients.Server.ServeReady` | redis-6.0.5/src/blocked.c:474-527 | one round over the keys that are ready conserves every element, and makes more keys ready only when it unblocks a client |
| `BlockedClients.Server.HandleClientsBlockedOnKeys` | redis-6.0.5/src/blocked.c:474-527 | ends with nothing ready; a list then has a client waiting for it if and only if it was one that replaced another value without a signal and still has a waiter; every element is conserved |
| `BlockedClients.Server.BlockForKeys` | redis-6.0.5/src/blocked.c:556-597 | the client is at the tail of the queue of each of its keys |
| `BlockedClients.Server.Leave` | redis-6.0.5/src/blocked.c:146-167 | a client that times out or goes away is forgotten and nothing else changes, except that lists it alone waited for are no longer missed |
| `BlockedClients.Server.Push` | redis-6.0.5/src/t_list.c:197-232 | a push to the tail appends the elements in their order, a push to the head puts each before the one before; a push to a new list marks it for its waiters; to another type it is refused |
| `BlockedClients.Server.CreateOrExtend` | redis-6.0.5/src/db.c:179-189 | a key that is missing becomes a list that is marked, one that is a list stays as it was marked |
| `BlockedClients.Server.SetKey` | redis-6.0.5/src/db.c:244-254 | a new list, sorted set or stream is marked for its waiters; setting a key makes it a list that its waiters do not hear of if and only if it replaces a value of another type, somebody waits for a list there and the key is not marked; every other key is as before |
| `BlockedClients.Server.Delete` | redis-6.0.5/src/db.c:320-323 | the key is gone, and nobody misses it |
| `BlockedClients.Server.SortStore` | redis-6.0.5/src/sort.c:572-581 | a sorted result replaces whatever the key held, an empty one deletes it, and waiters are forgotten exactly as when setting a key |
| `BlockedClients.OverwriteForgetsWaiter` | redis-6.0.5/src/sort.c:572-581 | a client waits for a key, the key is set to a string and then to a sorted list, and after serving blocked clients the client still waits for the list that is there |
| `BlockedClients.Server.PopNow` | redis-6.0.5/src/t_list.c:694-712 | the reply is the element at the end asked for and the list is deleted if empty |
| `BlockedClients.Server.BlockingPop` | redis-6.0.5/src/t_list.c:679-733 | the client blocks if and only if all keys are missing; otherwise it gets the element of the first existing list, or an error before any list |
| `Bitfields.SetUnsignedBitfield` | redis-6.0.5/src/bitops.c:209-222 | the loop writes the bits of the number into the field, highest first, and no other bit |
| `Bitfields.SetSignedBitfield` | redis-6.0.5/src/bitops.c:224-227 | a negative number is written as the word it is cast to |
| `Bitfields.GetUnsignedBitfield` | redis-6.0.5/src/bitops.c:229-241 | the loop returns the number written in the field |
| `Bitfields.GetSignedBitfield` | redis-6.0.5/src/bitops.c:243-262 | the number in two's complement, as far as the host's shift by a whole word allows |
| `Bitfields.SignedFieldsReadRight` | redis-6.0.5/src/bitops.c:258-261 | a signed field reads right if and only if it is narrower than a word, or the host clears a word shifted by its width, or it holds no number below -1 |
| `Bitfields.ReadsWhatWasWritten` | redis-6.0.5/src/bitops.c:209-241 | reading a field gives what was written, cut to its width, and every other field reads as before |
| `Bitfields.SignedRoundTrip` | redis-6.0.5/src/bitops.c:224-262 | a signed number that fits comes back as it was |
| `BitfieldOverflow.UnsignedVerdict` | redis-6.0.5/src/bitops.c:288-323 | the check reports overflow exactly when the sum is out of range, and its limit is the wrapped or saturated sum |
| `BitfieldOverflow.SignedVerdict` | redis-6.0.5/src/bitops.c:325-375 | the same for signed fields of every width up to the word |
| `BitfieldOverflow.SignedSetVerdict` | redis-6.0.5/src/bitops.c:325-375 | for a number to be set, the limit is right if and only if the policy is not saturation or the number is not so far below that the margin wraps around |
| `BitfieldOverflow.LeastSaturatesUpwards` | redis-6.0.5/src/bitops.c:332-345 | saturation takes the least 64-bit number to the greatest value of any narrower field |
| `BitfieldOverflow.SignedIncrementsRightExactly` | redis-6.0.5/src/bitops.c:1044-1052 | increments of signed fields of a width meet the policy on all values if and only if the width is below the word or the host clears a word shifted by its width |
| `BitfieldOverflow.KeptWordChecked` | redis-6.0.5/src/bitops.c:325-375 | what the check makes of every value and increment of a 64-bit field on a host that keeps a word shifted by its width |
| `BitfieldOverflow.KeptWordRightExactly` | redis-6.0.5/src/bitops.c:258-261 | on such a host an increment of a 64-bit field meets the policy if and only if the field is at least -1 and the sum in range or the policy not wrapping, or the field is below -1 and the increment so low that both sums leave the range and the policy gives both the same |
| `BitfieldOverflow.ReplyRightExactly` | redis-6.0.5/src/bitops.c:1040-1052 | the exact set of fields, increments and policies that go right, for every width and host |
| `BitfieldOverflow.MisreadIncrement` | redis-6.0.5/src/bitops.c:258-261 | on another host adding nothing to a 64-bit field that holds -2 changes it |
| `BitfieldOverflow.WriteSigned` | redis-6.0.5/src/bitops.c:1063-1066 | a number that fits is in the field afterwards and no other bit changed |
| `BitfieldOverflow.IncrBySigned` | redis-6.0.5/src/bitops.c:1040-1069 | the field holds the reply, or is as before on a refusal; the reply is what the policy asks for on exactly the set given; no other bit changes |
| `BitfieldOverflow.IncrByUnsigned` | redis-6.0.5/src/bitops.c:1070-1099 | for unsigned fields the reply is always what the policy asks for |
| `BitfieldOverflow.IncrBy` | redis-6.0.5/src/bitops.c:1034-1099 | the same for both kinds |
| `BitfieldOverflow.SetSigned` | redis-6.0.5/src/bitops.c:1053-1069 | the reply is the value read before, a refusal happens exactly on overflow under the fail policy, and the field gets what the policy makes of the operand exactly when the margin does not wrap around |
| `BitfieldOverflow.SetUnsigned` | redis-6.0.5/src/bitops.c:1083-1099 | the same for unsigned fields and the operand cast to a word, always |
| `Lanes.SwarNumber` | redis-6.0.5/src/bitops.c:66-80 | the masked additions leave in each byte of the word the number of ones that it had |
| `Lanes.WordOnes` | redis-6.0.5/src/bitops.c:57-80 | so four bytes of memory become their four counts |
| `Lanes.TopLaneSums` | redis-6.0.5/src/bitops.c:80-86 | the multiplication puts the sum of the four byte counts into the top byte |
| `ByteReaders.CountBlock` | redis-6.0.5/src/bitops.c:55-86 | a 28-byte block counts exactly its ones: no lane overflows |
| `ByteReaders.CountBytes` | redis-6.0.5/src/bitops.c:46-50 | the byte loops count exactly their ones |
| `ByteReaders.TallyIsOnes` | redis-6.0.5/src/bitops.c:44-50 | the sum of the table look-ups is the number of one bits |
| `ByteReaders.CountAll` | redis-6.0.5/src/bitops.c:40-92 | the three loops together count all bits |
| `BitScans.Popcount` | redis-6.0.5/src/bitops.c:40-92 | the result is the number of one bits of the string for every string, alignment and byte order |
| `BitScans.SkipWords` | redis-6.0.5/src/bitops.c:132-142 | the loops skip no word that has the bit |
| `BitScans.ScanWord` | redis-6.0.5/src/bitops.c:144-180 | the word from there on gives the first wanted bit of the string, or the answer that there is none |
| `BitWords.LoadWord` | redis-6.0.5/src/bitops.c:144-159 | the loop puts up to eight bytes into a word, the first one highest, with zeroes after the end of the string |
| `BitWords.ScanBits` | redis-6.0.5/src/bitops.c:168-180 | the mask walks to the first wanted bit and does not run out before |
| `BitScans.Found` | redis-6.0.5/src/bitops.c:161-184 | a word that has passed the test for zero has the wanted bit, so the panic is not reached |
| `BitScans.NothingInWord` | redis-6.0.5/src/bitops.c:161-166 | when the word has no wanted bit, a one was wanted and the whole string has none |
| `BitScans.Bitpos` | redis-6.0.5/src/bitops.c:101-186 | the result is the first position with the bit, zeroes being found in the padding; -1 exactly if a one is sought and there is none |

## Left out

- The other replicated types (`t_rzset.c`, `t_ozset.c`, `t_rlist.c`): the remove-win framework is modelled through the priority queue and the list.
- The fonts, sizes, colours and properties of list elements, and whether an element is shown or removed: last-writer and remove-win registers beside the position would only add easy members. A client may name any element that has a position, removed or not.
- List elements named `current` or `length`, where the table keeps a clock and a number that the code would take for elements, and what a refused command leaves in the table under `head` of an empty list.
- Several keys and containers at once in the replicated types: elements do not interact, so one element stands for each.
- Scores are real numbers: the rounding of doubles, and with it the order of additions, is not modelled.
- Text encodings of clocks and identifiers between replicas.
- Overflow of `int` in clocks and identifier counts.
- The 16-bit variants of the slicing CRC and MSVC's own byte swap.
- Cluster failure detection, the replication offset and rank, packet bytes, handshakes and which nodes a node knows, and the change of name on a hard reset; whether a voter finds a request good and whether a master serves slots is decided by the step. A node becomes a replica or a master by a step of its own, by winning and by a reset.
- ClusterElection.OneWinnerPerEpoch: assumes that the nodes agree on the set of slot-serving masters, that a vote is delivered at most once and that no node is hard reset; the start of an election with votes already counted is excluded, and `ClusterElection.StepKeepsInv` shows that exclusion to be exact.
- ClusterElection.AcksStayGenuine: leaves out the hard reset step for the same reason.
- ClusterCollision.CollisionsEnd: is about runs of pings and updates between masters, without replicas, failovers and manual changes of epochs, which take new epochs for their own reasons.
- ClusterSlots.SlotTable.UpdateSlotsConfigWith: has slot bitmaps as arrays of booleans instead of packed bytes.
- ClusterNode.ClusterState.HandleSlaveFailover: takes from the caller whether the master has failed, whether the data is too old, and the rank.
- ClusterNode.ClusterState.SendFailoverAuthIfNeeded: takes from the caller whether the requester's master has failed.
- The RDB preamble of the append-only file and the functions that rewrite each type: the snapshot is a sequence of commands with the law that it rebuilds the data.
- The translation of expiring commands, DISCARD inside a log, and slow loading callbacks.
- AofFlush.AppendOnlyFile.Flush: is about when fsync is called or asked for, whose result the code does not look at.
- ACL passwords and key patterns, which are words passed through, the flags of users, the default user, the log, and the layout of the command bitmap in words.
- AclUserObjects.AclUser.AddAllowedSubcommand: is about identifiers within the bitmap; for others the code indexes beyond the table.
- AclDescriptions.DescriptionRestores: is about command tables whose identifiers fit the bitmap and whose names have no space or bar, as every built-in table is.
- Blocked sorted-set, stream and module clients beyond the fact that they wait in the same queues, several databases, timeouts of clients as such, and the counters of blocked clients.
- BlockedClients.Server.Push: stands for the commands that create a key through dbAdd; `BlockedClients.Server.SetKey` for those that set any value.
- The BRPOPLPUSH command itself when it need not block, and MULTI around blocking commands.
- BITFIELD parsing, GET replies through a nine-byte buffer, growing the string, and the other bit commands.
- BitScans.Bitpos: takes a machine word to be 64 bits, and the number that is shifted in for a byte to be given by its bits.
- ListPositions.ConstructLeid: takes the random step as a parameter.

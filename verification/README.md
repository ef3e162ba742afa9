# Verification of libdsys

libdsys is a message-passing library for C built on branching channels. A
producer puts data into queues in its own memory; one service thread per peer
answers that peer's GET requests from those queues. The example programs run
classical parallel algorithms on such channels.

This project models the library and six of the algorithms in Dafny and proves
what they are for: that the queues are FIFOs and exactly when they can block for
ever, that the request protocol never misaligns and delivers each channel's
stream, and that each parallel program computes what its sequential meaning says,
in every interleaving, for every number of processes and every problem size.

`dafny verify dfyconfig.toml` checks everything.

## How the system is modelled

* Code that updates memory in place (rings, lists, matrices, process lists) is a
  class or a method over arrays, proved against a function of its inputs.
* Concurrent behaviour is a step system: a state, an enabled condition and an
  effect for each event. Each section under a mutex, up to a condition wait, is
  one step; a sleeping thread is part of the state, and where waking is the point
  (`ByteRingProtocol`, `SlotRingProtocol`, `RequestProtocol`) wakeups can also be
  spurious.
  `Runs` holds the induction principles: an invariant holds in every state of every
  run, a falling rank bounds every run and lets each be continued to one that ends,
  and a run can be described by the events that make it, so that what is delivered is
  compared with what the programs called for (the theorems named `EveryTrace...`).
* A *stuck* state is one with no successor. A theorem about the stuck states of
  all runs, together with the bound on the length of runs, is total correctness
  under any scheduling; it also excludes deadlock.
* Sockets are reliable FIFOs. A pipe between two programs is a FIFO with room for
  the units the program asked for: a put waits only while it is full and a get only
  while it is empty. `PipeRefinement` proves this of what the library has instead.
  In every run each step of a byte ring, of a slot ring (for each reader, one unit
  less than slots) and of a channel of the request protocol, among any other
  channels, is a step of such a pipe or leaves it alone, with the same guards; and a
  get of a nonempty pipe returns. A put takes effect when it returns and a get when
  the service thread answers it.
* Integers are unbounded except where 32-bit words matter (`BitReversal`).
  Elimination is generic in its arithmetic, so that the pipeline theorem holds for
  rounded numbers; the meaning of the result is proved over the reals.

| file | what it covers |
|---|---|
| Runs, Gcds, Flat | induction over runs, gcd with Bezout coefficients, flat indices |
| ByteRing, ByteRingProtocol | the byte ring `mc121` and its threads |
| SlotRing | the slot rings `nmc12m` (broadcast) and `farmn`, and their threads |
| FanOut, Reduction | replicate and spread over a list of byte rings; reductions |
| LinkTable, ChannelTags, RequestProtocol | link list, tags, request and data FIFOs |
| PipeRefinement | rings and channels as bounded pipes of whole units |
| ListAlgebra, ListComplement, Plist | process-list algebra and its array code |
| AllToAll | the all-to-all skeleton |
| SortedBlocks, OddEvenCounts, OddEvenSort, OddEvenNetwork | odd-even block transposition sort |
| MandelbrotFarm | the self-scheduling farm |
| Gauss, GaussPipeline | sequential and pipelined elimination |
| MatrixMul, MatrixNetwork | ring matrix multiplication |
| BitReversal, ExchangePlan, Permute | distributed bit-reversal permutation |

Some properties one would like to have are false of the code, or true only from a
certain size on. Each is stated with its exact condition:

* the sort sorts every input exactly when the number of processes is even or one
  (`SortsExactlyWhen`): `iter = bc_size / 2` runs one phase too few for odd counts;
* a byte ring of capacity c with put size p and get size g is deadlock-free
  exactly when c >= p + g - gcd(p, g) (`DeadlockFreeExactlyWhen`);
* a commit to a slot ring can return exactly when the ring has two slots
  (`CommitReturnsExactlyWhen`), and the farmer's commits never wait exactly when
  the ring has R + W + 1 slots (`CommitsNeverWaitExactlyWhen`);
* the tags of two processes agree exactly when both created their channels in the
  same order (`TagsAgreeExactlyWhen`);
* a replicating or spreading channel serves every consumer its own stream in every
  run exactly when no consumer is listed twice, or its rings have no room for
  anything (`ServedExactlyWhen`);
* the answers of the request protocol are framed in every run exactly when the
  program asks slot rings for one unit at a time (`FramedExactlyWhen`): a slot ring
  sends one slot whatever number of units is asked for;
* the process-list difference is the set difference exactly when no dropped rank
  is repeated (`DiffExactlyWhen`);
* the intersection holds exactly the common ranks exactly when no list after the
  first repeats a common rank and no other rank is met as often as there are lists,
  counting the first list once and the others with repetitions
  (`IsectExactlyWhen`); both a wrong rank and a lost one are shown, and repetitions
  in the first list alone do no harm;
* the loops of the complement write the complement into the memory allotted exactly
  when the sorted arguments are distinct ranks (`ComplementExactlyWhen`), and stay
  inside that memory exactly when their cursor ends at most at the size
  (`FitsExactlyWhen`): repeated or negative arguments can fit and still be wrong;
* setting a place of a process list returns the error code exactly when the place
  is past the count, or sixteen places were unset and it sets one of them, because
  the code is a legitimate number of unset places (`PList.Set`); the place just
  behind the last is let through to an access outside the array.

## Model

| member | source | states |
|---|---|---|
| ByteRing.Flag | libdsys/queue.c:58-66 | the answer to a conditional get starts with one four-byte flag |
| ByteRing.Ring.constructor | libdsys/queue.c:68-85 | a new ring is empty and has the asked size |
| ByteRing.Appended | libdsys/queue.c:169-184 | writing a block behind the live bytes, split or not, changes no live byte and appends the block |
| ByteRing.Ring.WriteBlock | libdsys/queue.c:161-184 | both copy branches append to the live bytes and return the next free offset modulo the size |
| ByteRing.Ring.ReadBlock | libdsys/queue.c:206-225 | both send branches send exactly the oldest live bytes and return the next data offset modulo the size |
| ByteRing.Ring.PutQ | libdsys/queue.c:154-191 | succeeds iff there is room, appends to the FIFO, else changes nothing |
| ByteRing.Ring.SendQ | libdsys/queue.c:193-232 | succeeds iff enough bytes are there, removes and sends the oldest ones, flag first when conditional, else changes nothing |
| ByteRing.Ring.AnswerConditional | libdsys/queue.c:129-147 | a conditional get never waits: flag 1 and data, or flag 0 and an unchanged ring |
| ByteRingProtocol.StepKeeps | libdsys/queue.c:111-147 | every step of the two threads keeps: bytes sent then bytes held are the bytes put, the capacity, and a false guard for whoever sleeps |
| ByteRingProtocol.EveryRunIsFifo | libdsys/queue.c:111-147 | in every run of puts and gets of any sizes the ring is a bounded FIFO and no wakeup is lost |
| ByteRingProtocol.PutStores | libdsys/queue.c:154-191 | a put with room stores the bytes of its call behind those held, whoever sleeps; without room it sleeps and changes nothing else |
| ByteRingProtocol.SendTakes | libdsys/queue.c:193-232 | a send with enough bytes takes and sends exactly those asked for; otherwise it sleeps and changes nothing else |
| ByteRingProtocol.EveryTraceIsFifo | libdsys/queue.c:111-147 | in every run, for any sizes, bytes sent, bytes held and bytes of a put under way are together the data of the put calls in order, and as many are sent as the answered requests ask for |
| ByteRingProtocol.BigRingNeverDeadlocks | libdsys/queue.c:154-156 | with fixed sizes p and g and capacity at least p + g - gcd(p, g) producer and consumer are never both asleep with false guards |
| ByteRingProtocol.SmallRingDeadlocks | libdsys/queue.c:200-202 | below that capacity there is a run into a deadlock, constructed |
| ByteRingProtocol.DeadlockFreeExactlyWhen | libdsys/queue.c:111-147 | no run deadlocks iff the capacity is at least p + g - gcd(p, g) |
| SlotRing.Queue.constructor | libdsys/queue.c:489-525 | every count is cleared except that of slot 0, which keeps what memory held |
| SlotRing.Queue.Write | libdsys/queue.h:161 | the program writes the producer's current slot |
| SlotRing.Queue.PutBegin | libdsys/queue.c:573-600 | a commit publishes the slot and returns iff the next slot has no readers left |
| SlotRing.Queue.PutRetry | libdsys/queue.c:589-598 | after a wakeup the commit returns iff the next slot is free, else changes nothing |
| SlotRing.Queue.Send | libdsys/queue.c:617-652 | sends iff the reader's slot is counted and is not the producer's, flag first for a conditional get, releases it and advances the reader; otherwise a conditional get is answered by the flag alone and another waits, and nothing changes |
| SlotRingProtocol.ReadyMeansAhead | libdsys/queue.c:622-631 | the send guard holds iff a committed item is ahead of the reader |
| SlotRingProtocol.RoomMeansClose | libdsys/queue.c:586-598 | the commit guard holds iff no reader is more than du - 1 items behind |
| SlotRingProtocol.StepKeeps | libdsys/queue.c:573-652 | every step of producer and serving threads keeps the ring invariant |
| SlotRingProtocol.EveryRunHolds | libdsys/queue.c:573-652 | the invariant holds in every run, whatever memory and rc[0] start with |
| SlotRingProtocol.BroadcastDelivers | libdsys/queue.c:573-652 | each consumer receives the committed items in order, none lost, repeated or overwritten; the producer leads by at most du - 1 |
| SlotRingProtocol.WriteThenCommit | libdsys/queue.h:160-161 | for any number of readers, filling the slot with x and committing it publishes x |
| SlotRingProtocol.EveryItemWritten | libdsys/queue.c:573-600 | in every run the k-th item is the last value written before the k-th commit and since the one before it |
| SlotRingProtocol.BroadcastDeliversWritten | libdsys/queue.c:633-635 | in every run the k-th item each consumer receives is the value the program wrote for the k-th commit |
| SlotRingProtocol.BroadcastCounts | libdsys/queue.c:583-584 | the count of an item's slot is the number of consumers that have yet to read it, and the slot still holds the item |
| SlotRingProtocol.UnreadIsCount | libdsys/queue.c:583-584 | the count is the size of the set of readers that have not passed the item |
| SlotRingProtocol.FarmDelivers | libdsys/queue.c:768-847 | deliveries to all workers together are a prefix of the commits, so each item reaches exactly one worker; at most du - 1 completed commits are undelivered |
| SlotRingProtocol.SleepersHaveNothingToDo | libdsys/queue.c:586-631 | in every run a sleeping producer has no room and a sleeping serving thread no item |
| SlotRingProtocol.BlockedCommitHasReader | libdsys/queue.c:589-598 | with two or more slots a blocked commit has a reader that can be served and is not asleep |
| SlotRingProtocol.CommitWaitsBounded | libdsys/queue.c:642-649 | while a commit waits every delivery lowers the summed lag by one, so it waits for at most readers * (du - 1) deliveries |
| SlotRingProtocol.OneSlotStuck | libdsys/queue.c:587-598 | with one slot no commit ever returns |
| SlotRingProtocol.CommitReturnsExactlyWhen | libdsys/queue.c:587-598 | some commit can return iff there are at least two slots |
| FanOut.LookupReachesExactlyWhen | libdsys/queue.c:326-336 | the lookup by rank, in a send and in a replicating put, finds every consumer's own ring iff no consumer is listed twice |
| FanOut.StepKeeps | libdsys/spread.c:73-85 | while a put reaches every ring, each stop and each send through the lookup keeps every ring the right pieces of the puts; the put of a spread does so whatever the list |
| FanOut.StreamGrows | libdsys/replicate.c:62-73 | a replicating put adds all of its data to every consumer's stream, a spreading put its k-th du units to the k-th |
| FanOut.StopWaits | libdsys/spread.c:73-85 | a stop of the walk waits exactly while its ring lacks room for all of the data, or for one consumer's units |
| FanOut.EveryRunFansOut | libdsys/replicate.c:62-79 | over any number of puts every ring is given its stream: always for a spread, and for a replicate whose consumers are distinct |
| FanOut.ServedExactlyWhen | libdsys/queue.c:326-336 | in either mode every consumer is served a prefix of its own stream in every run iff no consumer is listed twice or the rings have no room |
| FanOut.SendServes | libdsys/queue.c:326-336 | a get is answered exactly when the ring found holds the units asked for, with the next of them |
| FanOut.EveryTraceServes | libdsys/replicate.c:62-79 | in every run with distinct consumers each has been served as many units as it asked for, the first of its stream of the put calls made |
| FanOut.ReplicasAgree | libdsys/replicate.c:62-73 | all consumers of a replicating channel have the same stream |
| FanOut.SlicesCover | libdsys/spread.c:73-85 | the slices of a spreading put, one after another, are what was put |
| Reduction.Reduce | libdsys/reduce.c:32-110 | sum and product: each place holds the fold of the producers' values from the unit |
| Reduction.FoldGrows | libdsys/reduce.c:32-110 | the fold of no producers is the unit, and one more producer's value is combined with the fold of those before |
| Reduction.ReduceFromFirst | libdsys/reduce.c:112-172 | maximum and minimum: each place holds the fold that starts with the first producer |
| Reduction.MinMax | libdsys/reduce.c:174-213 | the first half holds the least and the second half the greatest value of each place |
| LinkTable.Hook.Insert | libdsys/ltab.c:98-105 | a link goes to the head and leaves every other link in place |
| LinkTable.Hook.Scan | libdsys/ltab.c:120-125 | a scan from a head read earlier finds the first link of the tag at or after it, or null iff there is none |
| LinkTable.Hook.Remove | libdsys/ltab.c:137-198 | exactly the first link of the tag leaves the list |
| ChannelTags.TagTable.Allocate | libdsys/branch.c:150-151 | each listed peer's counter hands out consecutive tags, repetitions included |
| ChannelTags.TagTable.Create | libdsys/branch.c:217-219 | the counters always equal the number of links created so far, separately for sinks and sources |
| ChannelTags.TagCounts | libdsys/branch.c:150-151 | a tag is the number of links of its kind created to that peer before, earlier listings of the peer in the same channel included |
| ChannelTags.TagIsPlace | libdsys/ltab.h:40-43 | a tag is the place of its link among all links of its kind to that peer |
| ChannelTags.TagsDistinct | libdsys/ltab.h:53-54 | no two links of one kind to one peer share a tag |
| ChannelTags.SameTagSameChannel | libdsys/branch.c:118-149 | while both ends create in the same order, one possibly ahead, equal tags mean the same channel |
| ChannelTags.TagsAgreeExactlyWhen | libdsys/branch.c:118-149 | over the same channels the ends agree on every tag iff both created them in the same order |
| RequestProtocol.LinkKept | libdsys/ltab.c:98-105 | the list holds each created and not destroyed tag exactly once |
| RequestProtocol.SearchKept | libdsys/ltab.c:110-135 | unlocked scan, rescan, sleep and wakeup keep: passed links have other tags, a sleeper's tag is absent, cache and found link have the right tag |
| RequestProtocol.FrameKept | libdsys/threads.c:78-141 | every step keeps the data FIFO equal to the unread answers to the first requests, in order |
| RequestProtocol.FlagRead | libdsys/collect_any.c:44-50 | the four bytes read as a flag are the flag of the request's own answer, nonzero iff its data follows |
| RequestProtocol.DataRead | libdsys/pipe.c:72-73 | the bytes read for a request are the data of its own answer |
| RequestProtocol.EveryRunDelivers | libdsys/threads.c:78-141 | in every run of puts, gets, conditional gets, creations and destructions on any number of channels, slot rings asked one unit at a time, what is got from a source is a prefix of what was sent, which is a prefix of what was put into the sink of its tag |
| RequestProtocol.EveryTraceDelivers | libdsys/threads.c:78-141 | in every run what is got of a tag is a prefix of the data of the put calls on it, and the requests answered are those made, in order |
| RequestProtocol.EveryDestroyTakesEffect | libdsys/ltab.c:137-198 | in every run a destroyed tag is out of the list once its request is taken, and every other created tag is in it |
| RequestProtocol.NothingLost | libdsys/pipe.c:68-76 | when the wire is empty the consumer has got all that was sent |
| RequestProtocol.EveryRunFramed | libdsys/collect_any.c:40-53 | the k-th answer answers the k-th request that has one, with exactly the bytes the consumer reads for it |
| RequestProtocol.AnswersCarry | libdsys/pipe.c:62-73 | in every run each answer with data has exactly unit times du bytes for the request it answers, for every du |
| RequestProtocol.AnswerTakes | libdsys/pipe.c:62-66 | a get of du units waits for unit times du bytes and takes exactly the next ones of its channel; a conditional get does not wait |
| RequestProtocol.ReadExtends | libdsys/pipe.c:68-76 | a get that returns has got exactly unit times du bytes, the first ones on the wire |
| RequestProtocol.PutAdds | libdsys/pipe.c:57-60 | a put of any length is possible exactly while there is room for it, and adds all of it to the stream |
| RequestProtocol.SlotMisframes | libdsys/queue.c:633-635 | a slot ring asked for any other number of units than one leaves a run with the wrong bytes on the wire, constructed |
| RequestProtocol.FramedExactlyWhen | libdsys/pipe.c:68-76 | every run is framed iff the program asks slot rings for one unit at a time |
| RequestProtocol.EverySearchIsRight | libdsys/threads.c:95-106 | the cached link is the one link of the cached tag, a served link has the requested tag, and the thread sleeps only for a sink not created yet |
| RequestProtocol.SearchFalls | libdsys/ltab.c:114-134 | unless a sink is created meanwhile or the thread is woken for nothing a search ends |
| RequestProtocol.CacheServes | libdsys/threads.c:99-106 | a request for the cached tag is served from the cached link at once, any other starts a search at the head, and a search that succeeds caches its link |
| RequestProtocol.ConditionalAnswer | libdsys/queue.c:129-147 | a conditional get is answered at once, with the next bytes iff enough are buffered |
| RequestProtocol.WaitingExplained | libdsys/threads.c:78-141 | a waiting consumer can read, or the service thread can move, or the sink does not exist yet, or too little has been put |
| ByteRingPipe.PutIsPut | libdsys/queue.c:111-127 | a put of one unit into a ring with room for cap units succeeds iff the pipe of units has room, and is a put into it; else it sleeps |
| ByteRingPipe.SendIsGet | libdsys/queue.c:129-147 | a send of one unit succeeds iff the pipe holds a unit, and sends the oldest; else it sleeps |
| ByteRingPipe.EveryRingRunIsAPipeRun | libdsys/queue.c:111-147 | in every run with one size of puts and gets each step is a step of the bounded pipe or leaves it alone, and what has been sent is what has been taken |
| ByteRingPipe.PipeNeverDeadlocks | libdsys/queue.c:111-147 | with room for a single unit the two sides never sleep at once |
| SlotRingPipe.CommitIsPut | libdsys/queue.c:573-600 | a commit returns iff the pipes of all readers have room, and then is a put into each |
| SlotRingPipe.SendIsGet | libdsys/queue.c:617-652 | a send delivers iff the reader's pipe holds an item, and delivers the oldest |
| SlotRingPipe.EveryRingRunIsAPipeRun | libdsys/queue.c:573-652 | in every run each step is, for each reading pointer, a step of a pipe of du - 1 items or leaves it alone |
| ChannelPipe.PutIsPut | libdsys/pipe.c:57-60 | a put on a channel is possible iff the channel's pipe of units has room, and is a put into it |
| ChannelPipe.AnswerIsGet | libdsys/pipe.c:62-66 | an answer on a channel is possible iff its pipe holds a unit or the get is conditional; it takes the oldest unit and puts it on the wire, or sends the flag alone |
| ChannelPipe.EveryChannelRunIsAPipeRun | libdsys/threads.c:78-141 | in every run, whatever other channels do, each step is a step of the channel's pipe or leaves it alone, and with an empty wire the consumer has exactly the units taken |
| ChannelPipe.GetReturns | libdsys/pipe.c:68-76 | a get of a channel whose pipe holds a unit, nothing else being outstanding, returns after boundedly many steps of the service thread and its own, with exactly the next unit |
| ListAlgebra.UnionMeans | libdsys/plist.c:335-403 | the union holds exactly the ranks of all lists, starts with the first, and repeats a rank iff the first list does |
| ListAlgebra.UnionInOrder | libdsys/plist.c:370-387 | the union is the concatenation without repetitions |
| ListAlgebra.AddedInOrder | libdsys/plist.c:370-387 | ranks stand in the order of their first occurrences |
| ListAlgebra.TallyCounts | libdsys/plist.c:443-469 | for any lists the counter at a rank's place is one if the first list has it plus its occurrences in the others |
| ListAlgebra.IsectCounts | libdsys/plist.c:405-497 | for any lists a rank is in the intersection iff its counter equals the number of lists |
| ListAlgebra.IsectExactlyWhen | libdsys/plist.c:443-478 | the intersection holds exactly the common ranks iff no list after the first repeats a common rank and no other rank is met as often as there are lists |
| ListAlgebra.IsectMeans | libdsys/plist.c:405-497 | on lists without repetitions the intersection holds exactly the common ranks |
| ListAlgebra.IsectInOrder | libdsys/plist.c:473-478 | the intersection keeps the order of the union, each rank once |
| ListAlgebra.RepeatedValueDeceives | libdsys/plist.c:456-459 | a rank repeated in one list and missing from another is taken for common: a concrete input |
| ListAlgebra.RepeatedValueLost | libdsys/plist.c:456-459 | a common rank repeated in a later list is lost: a concrete input |
| ListAlgebra.RepeatedFirstHarmless | libdsys/plist.c:443-447 | a repetition in the first list alone leaves the result right: a concrete input |
| ListAlgebra.DiffExactlyWhen | libdsys/plist.c:522-537 | the difference is the ranks of a not in b iff no rank of b is repeated in a |
| ListAlgebra.DiffGrows | libdsys/plist.c:522-537 | for any lists the difference drops the first occurrence of each rank of b and keeps everything else in order |
| ListComplement.OthersMeans | libdsys/plist.c:127-136 | the complement holds exactly the ranks that are not arguments |
| ListComplement.OthersAscend | libdsys/plist.c:127-136 | it ascends |
| ListComplement.Fill | libdsys/plist.c:127-136 | for any arguments, sorted or not, the loops write exactly Written: between two arguments the ranks from the cursor on, the cursor passing each argument |
| ListComplement.WrittenMeans | libdsys/plist.c:127-136 | for any arguments a rank is written iff it lies below the size, or the final cursor, and no turn of the loop steps over it |
| ListComplement.WrittenAscends | libdsys/plist.c:127-136 | for any arguments what is written ascends strictly |
| ListComplement.FitsExactlyWhen | libdsys/plist.c:107-136 | what is written fits the memory allotted iff the cursor ends at most at the size; it is never less than allotted |
| ListComplement.ComplementExactlyWhen | libdsys/plist.c:107-136 | on sorted arguments the complement is written within the memory allotted iff the arguments are distinct ranks |
| ListComplement.RepeatedSkips | libdsys/plist.c:127-136 | a repeated argument can fit exactly and lose a rank: a concrete input |
| ListComplement.RepeatedOverflows | libdsys/plist.c:127-136 | a repeated last rank writes past the end: a concrete input |
| ListComplement.NegativeSkips | libdsys/plist.c:127-136 | a negative argument loses rank 0: a concrete input |
| ListComplement.AllotsExactlyWhen | libdsys/plist.c:107-110 | the complement, as opposed to what is written, has the length the code allots iff the arguments are distinct ranks |
| Plist.PList.Set | libdsys/plist.c:191-221 | for every place: past the count the error code; the place just behind the last, and negative ones, an access outside the array; an unset place is set and lowers valid, a set one is reset only while unused; and exactly when the result equals the error code |
| Plist.CreateEmpty | libdsys/plist.c:228-258 | null iff the count is not positive, else a list with every place unset and valid equal to the count |
| Plist.EqualDivision | libdsys/plist.c:307-333 | the pieces concatenate to the list and are valid; every piece but the last has count / num ranks, the last those and the rest; -1 iff too few ranks |
| Plist.Union | libdsys/plist.c:335-403 | null iff a list is invalid, else the union of the lists |
| Plist.Compact | libdsys/plist.c:473-478 | entries counted num times move to the front in place, in order |
| Plist.Isect | libdsys/plist.c:405-497 | null iff a list is invalid or nothing is common, else the counted intersection |
| Plist.Diff | libdsys/plist.c:499-546 | one array serves as flags and then as result, which is DiffTo of the lists; null iff a list is missing or invalid |
| AllToAll.FindRoot | libdsys/iskel.c:229-233 | the root is the least rank of the list |
| AllToAll.OrderMeans | libdsys/iskel.c:254-257 | root first, then the others in list order: each participant exactly once |
| AllToAll.StepKeeps | libdsys/iskel.h:128-137 | every step keeps the rounds of root and others and the pipes between them in step |
| AllToAll.RootMoves | libdsys/iskel.h:130-133 | the root waits only for a participant that can put, and never to replicate |
| AllToAll.RoundsNeverMix | libdsys/iskel.h:128-137 | in every run a participant that finished a round holds exactly that round's array |
| AllToAll.EveryMaximalRunAgrees | libdsys/iskel.h:128-137 | every run ends, without deadlock, with the same array at every participant and empty pipes |
| AllToAll.SomeRunEnds | libdsys/iskel.h:128-137 | for every job there is a run that ends so |
| AllToAll.RoundIsInOrder | libdsys/collect.c:32-48 | the array of a round is the smallest rank's input followed by the others' in list order |
| CompareAccumulate.CompareAccum | examples/common/odd_even.c:178-203 | in place, the lower or the upper half of the merge of own and received block |
| CompareAccumulate.ExchangeCounts | examples/common/odd_even.c:184-202 | an exchange keeps both blocks sorted and fills the upper partner with the large elements first |
| SortedBlocks.MergeSorted | examples/common/odd_even.c:184-202 | the merge of sorted blocks is sorted |
| SortedBlocks.CountsDetermineContents | examples/common/odd_even.c:184-202 | equal counts of large elements at every threshold mean equal contents |
| OddEvenCounts.ActiveBoundary | examples/common/odd_even.c:130-141 | per threshold, a phase maps the suffix counts to a minimum of neighbouring sums |
| OddEvenCounts.PartnersAre | examples/common/odd_even.c:90-96 | the even phases pair ranks 1 and 2, 3 and 4, ..., the odd ones 0 and 1, 2 and 3, ... |
| OddEvenCounts.EvenRunSettles | examples/common/odd_even.c:110-141 | after P phases, P even, every suffix holds as many large elements as it can |
| OddEvenSort.LockstepPermutes | examples/common/odd_even.c:130-141 | for every P and block length the phases permute the elements |
| OddEvenSort.FlattenAt | examples/common/odd_even.c:110-141 | element x of block r stands at place r * n + x of the result |
| OddEvenSort.EvenProcessCountSorts | examples/common/odd_even.c:110-141 | for every even P, block length and input the concatenated blocks end sorted |
| OddEvenSort.OddProcessCountFails | examples/common/odd_even.c:110 | for every odd P of at least three there is an input left unsorted |
| OddEvenSort.SortsExactlyWhen | examples/common/odd_even.c:110-141 | all inputs are sorted iff P is even or one |
| OddEvenNetwork.StepKeeps | examples/common/odd_even.c:90-141 | every asynchronous put, get and skip keeps each process at its lockstep block |
| OddEvenNetwork.NoDeadlock | examples/common/odd_even.c:131-140 | an unfinished network can always move, with room for one block per sink |
| OddEvenNetwork.EveryRunIsLockstep | examples/common/odd_even.c:130-141 | in every run each process holds what the lockstep phases give it; runs are bounded |
| OddEvenNetwork.MaximalRunFinishes | examples/common/odd_even.c:110-141 | every maximal run ends with each process at what 2 * (P / 2) phases give it |
| OddEvenNetwork.MaximalRunSorts | examples/common/odd_even.c:130-141 | for even P every maximal run ends with a sorted permutation of the input |
| OddEvenNetwork.SomeRunFinishes | examples/common/odd_even.c:130-141 | from every input there is a maximal run |
| MandelbrotFarm.FarmStepKeeps | examples/common/mandelbrot_refined.c:133-153 | every step of farmer, ring and workers keeps each row in exactly one place and no commit waiting |
| MandelbrotFarm.WorkerEffect | examples/common/mandelbrot_refined.c:144-196 | a worker puts its row behind those in its pipe, and the farmer takes the oldest row of a pipe |
| MandelbrotFarm.WorkerGuards | examples/common/mandelbrot_refined.c:144-196 | a worker waits to put exactly while both slots of its pipe are full, the farmer to collect while the pipe is empty |
| MandelbrotFarm.EveryFarmRun | examples/common/mandelbrot_refined.c:126-153 | that holds in every run, and every run ends |
| MandelbrotFarm.MaximalFarmRun | examples/common/mandelbrot_refined.c:144-196 | every maximal run has stopped each worker on exactly one termination value and given the farmer each row number exactly once |
| MandelbrotFarm.SomeFarmRunEnds | examples/common/mandelbrot_refined.c:126-196 | there is such a run for every number of rows and workers |
| MandelbrotFarm.CommitsNeverWaitExactlyWhen | examples/common/mandelbrot_refined.c:126 | commits can never wait iff the ring has at least R + W + 1 slots |
| MandelbrotFarm.FindRow | examples/common/mandelbrot_refined.c:268-269 | the search for a row number always succeeds, at the one place it is |
| Gauss.EliminateRow | examples/common/gauss_pipeline.c:90-93 | in place and entry by entry, one column eliminated from one row, all other rows unchanged |
| Gauss.DivideRow | examples/common/gauss_pipeline.c:82-86 | in place and entry by entry, one row divided by its pivot, all other rows unchanged |
| Gauss.GaussianSeq | examples/common/gauss_pipeline.c:75-96 | the nested loops leave the finished row r in row r, for any arithmetic |
| Gauss.ReducedGrows | examples/common/gauss_pipeline.c:75-96 | a row starts as given and is reduced by one finished row after another; a row is finished by dividing it once all before it are eliminated |
| GaussOverReals.UnitUpperTriangular | examples/common/gauss_pipeline.c:86-93 | U is unit upper triangular, whatever the pivots |
| GaussOverReals.DotGrows | examples/common/gauss_pipeline.c:75-96 | the left side of an equation adds the product of coefficient and unknown, column by column |
| GaussOverReals.ResidualKept | examples/common/gauss_pipeline.c:88-93 | eliminating with equations that hold keeps every row's residual |
| GaussOverReals.SameSolutions | examples/common/gauss_pipeline.c:75-96 | with nonzero pivots Ux = y has exactly the solutions of the original system |
| GaussPipeline.StepKeeps | examples/common/gauss_pipeline.c:209-232 | every step keeps: rows received in order, own row reduced by exactly those, pipes holding the rest in order |
| GaussPipeline.StuckMeansPassed | examples/common/gauss_pipeline.c:130-160 | no deadlock: in a stuck state every process has passed on every row, with copying and in place, where no row can be taken before its commit returns |
| GaussPipeline.ChannelsCarryFinishedRows | examples/common/gauss_pipeline.c:219-232 | what is between two processes is finished rows, in order and without a gap |
| GaussPipeline.EveryMaximalRunFinishes | examples/common/gauss_pipeline.c:99-243 | every run ends with process r holding row r of the sequential result, for every dimension and arithmetic |
| GaussPipeline.SomeRunFinishes | examples/common/gauss_pipeline.c:99-243 | from every matrix there is a maximal run |
| GaussPipeline.SequentialAgrees | examples/common/gauss_pipeline.c:75-243 | the sequential program run on the same matrix leaves exactly those rows in memory |
| MatrixKernels.MultiplyRowColumn | examples/common/matrix_mul.c:203-212 | the accumulator loop is the dot product |
| MatrixKernels.DotGrows | examples/common/matrix_mul.c:203-212 | one more term of the dot product is the product of the next two entries in memory |
| MatrixKernels.Transpose | examples/common/matrix_mul.c:67-83 | in place, the entry at j * r + i is the one that was at i * c + j |
| MatrixKernels.MultiplyBlocks | examples/common/matrix_mul.c:172-199 | the moving pointers fill exactly column block (n + rank) mod P of the row block |
| MatrixKernels.FilledAt | examples/common/matrix_mul.c:172-199 | inside the block entry (i, j) is the dot product of row i and column j, everywhere else it is what it was |
| MatrixRing.DotIsProduct | examples/common/matrix_mul.c:113-120 | a dot product of row block and transposed column block is an entry of the product |
| MatrixRing.ProductGrows | examples/common/matrix_mul.c:113-120 | one more term of an entry of the product is the product of two entries of the matrices |
| MatrixRing.RowBlockDone | examples/common/matrix_mul.c:134-139 | after P multiplications the row block is complete |
| MatrixRing.MasterHoldsProduct | examples/common/matrix_mul.c:149-152 | the collected row blocks are the product at every entry |
| MatrixNetwork.StepKeeps | examples/common/matrix_mul.c:134-161 | every put, get, send and collect keeps the rotation of the column blocks and the partial results |
| MatrixNetwork.StuckPassesRing | examples/common/matrix_mul.c:135-139 | the ring does not deadlock |
| MatrixNetwork.EveryRunRotates | examples/common/matrix_mul.c:122-139 | in step n process r holds column block (r + n) mod P |
| MatrixNetwork.EveryRunEnds | examples/common/matrix_mul.c:134-164 | every run is bounded |
| MatrixNetwork.EveryMaximalRunMultiplies | examples/common/matrix_mul.c:86-169 | every maximal run leaves A times B at the master, at every entry, for every number of processes |
| MatrixNetwork.SomeRunEnds | examples/common/matrix_mul.c:86-169 | for any two matrices there is a maximal run |
| BitReversal.BitReverse | libdsys/bits.c:25-34 | the 32-bit loop computes the reversal modulo 2^32, hence the reversal for up to 32 bits |
| BitReversal.RevBit | libdsys/bits.c:25-34 | bit i of the reversal is bit n - 1 - i of the number |
| BitReversal.BitIs | libdsys/bits.c:25-34 | bit i of a number is the lowest bit of its quotient by 2^i |
| BitReversal.Involution | libdsys/bits.c:25-34 | on [0, 2^n) reversing twice is the identity |
| ExchangePlan.CountsSymmetric | examples/common/fft_iperm.c:232-256 | a node sends to another as many pairs as it gets from it |
| ExchangePlan.StoresRight | examples/common/fft_iperm.c:248-256 | every value stored, remote or local, belongs where it is stored |
| ExchangePlan.BlockExchanged | examples/common/fft_iperm.c:248-256 | every position of the block is stored to |
| PermuteNetwork.StepKeeps | examples/common/fft_iperm.c:231-257 | every save, put, restore and get keeps blocks, saved values and pipes |
| PermuteNetwork.PutNeverWaits | examples/common/fft_iperm.c:212-242 | no put ever finds its double buffer full |
| PermuteNetwork.EveryRunExchanges | examples/common/fft_iperm.c:231-257 | every run is bounded and every maximal run has exchanged all positions and emptied the pipes |
| PermuteNetwork.SomeRunExchanges | examples/common/fft_iperm.c:231-257 | from any coefficients there is a maximal run |
| PermuteNetwork.PermuteReverses | examples/common/fft_iperm.c:157-271 | for every power of two and every dividing node count each place ends with the coefficient of the bit-reversed place |

## Left out

- Socket set-up, MPI start-up, host names, timing, printing, configuration and `perf/`: plumbing around the model.
- Partial reads and writes on sockets (`libdsys/fdutils.c`, `libdsys/service.c`): a socket is a reliable FIFO.
- Allocation failure, integer overflow outside bit reversal, and the 16-bit width of the slot counts: memory is available and counts fit.
- The byte order of the availability flag: written as in little-endian memory; reading it only tests for a nonzero byte.
- Both ends of a channel name data units of the same size (`Setup.unit`); the library does not check this.
- `nmc121` (libdsys/queue.c:356-460): no role uses it.
- Queue destroyers, reference counts of channels, and the order of frees in `bc_chan_destroy`: not modelled.
- RequestProtocol.EveryRunDelivers: destruction is the atomic removal of a tag, and the bytes buffered for one consumer stand for its share of a slot ring shared with others, which SlotRingProtocol covers.
- LinkTable.Hook.Remove: one atomic step; the unlocked walk of `__bc_link_destroy` to an inner link and its wait for an absent tag are not modelled.
- MandelbrotFarm.EveryFarmRun: the polling order of `__bc_r_collect_any` is abstracted to fetching from any pipe that holds a result, and pixel arithmetic is left out; its steps have no spurious wakeups, which SlotRingProtocol covers.
- CompareAccumulate.CompareAccum: blocks start sorted; the local `qsort` is not part of this model.
- ListComplement.Fill: takes the arguments as `qsort` leaves them, and lists what the loops would write; what a write past the end of the allotted memory does to other memory is not modelled.
- Plist.PList.Set: what the access outside the array reads and overwrites is not modelled, only that it happens and when.
- GaussOverReals.SameSolutions: over exact reals; division by a zero pivot is given the value zero there, and the pipeline theorems do not depend on it.
- MatrixRing.MasterHoldsProduct: the fixed list of three slaves is generalised to ranks 1 to P - 1, and P divides both outer dimensions.
- PermuteNetwork.PermuteReverses: indices travel as integers instead of doubles, exact for these sizes; `log2` is given as n.
- `__bc_r_opt_reduce`, `bc_plist_iselem`, `bc_plist_display` and the fixed process lists of libdsys/plist.c:551 onwards.
- The butterfly of `examples/common/fft.c`, `mva.c`, `mpi_mva.c` and the pi programs: floating-point numerics.
- `libdsys/unique_shared.c`: it names types that the headers do not declare.
- The remaining skeletons of libdsys/iskel.c (pipe, farm): thin wrappers around the channels modelled here.

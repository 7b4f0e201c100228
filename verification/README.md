# A verified model of the firewall

The system is a small Linux packet filter. A kernel module keeps rules that netlink
messages add, update, delete, flush and list; a hook walks them for every TCP and UDP
packet. A userspace service relays commands to the module, saves the rules when it stops
and replays them when it starts. A command line tool, a GUI and a generic serializer sit
around it. This project models the parts whose correctness is not plain from one function
and proves what they are for, as statements over every input, every run and every
interleaving.

## How the model is laid out

Kernel module:

- `TrxData`: the rule record, its packed key, the pattern and policy-record predicates.
- `RuleSpec`: what the module computes, on one ordered list of rules: the message
  dispatcher as a step function, first match as the verdict of a packet.
- `RuleLaws`: what those messages and verdicts come to, field by field, said without their
  definitions.
- `RuleIndex`, `RuleStore`: the three structures every rule is linked into, when they
  agree, and the operations of the module as methods of a class that are proved to do
  what the ordered list does. Chain lists and `full_list` are sequence fields; entries
  are objects, so an update through one list is seen through all.
- `RuleRings`: adding and deleting on rings of nodes, with the effect `RuleStore` states.
- `SortedChain`: the `TEST_SORT_ADD` build, against a stable sort.
- `RingList`, `HashSpec`, `HashTable`: the intrusive circular lists, node by node with
  real `next` and `prev` pointers, and the bucketed hash table built from them, refining
  a map from keys to stacks of entries for every hash function and bucket count.
- `HashLocks`: the locked table operations as an interleaving state machine.
- `RcuModel`, `RcuReaders`, `RcuWriter`, `RcuRuns`: packet traversals under RCU against
  one writer, as an interleaving state machine over single pointer loads and stores. New
  entries may go anywhere in their chain, as the sorted build puts them. `RcuProgress`: what
  a finished message has done, and that every message, reader and free gets to its end.

Transfer:

- `Listing`, `Collector`, `ListingProtocol`, `ListingRuns`, `ListingCalls`: `list_rules`, the
  client that collects until MSG_DONE or its timer, the channels and the completion between
  them, what runs and series of listings can come to, what the calls after a cut listing
  are given, and the split of the received list.
- `BatchSend`: the batched sender `nl_send_lst`.
- `Frames`, `CommandLines`: length-prefixed frames and CRLF commands, reassembled from
  arbitrary chunks.

Codecs, persistence, and two smaller machines:

- `BinCodec`, `BinStreams`: the reflection serializer: byte layout, then streams and
  overloads proved against it.
- `Persistence`, `Service`: the rule stream and what a replay does, then the rule cache,
  `stop()` and `started()` on a kernel store.
- `RulesTable`, `RowRemoval`: dirty tracking and row removal in the GUI's table model.
- `FileLog`: log rotation.

`Seqs` holds the sequence vocabulary they share.

## What the proofs found

Where a promise is false of the code as written, the code is kept as it is and the exact
condition under which it holds is proved.

- `delete_rule` unlinks the first match of each chain and one hash entry, but queues
  every `full_list` match for freeing. What it frees is out of reach exactly when the key
  was stored at most once (`RuleIndex.DeleteSafeIff`); the dispatcher's duplicate check
  is what guarantees that.
- The hook holds both rule addresses against the packet's source address, and for TCP
  through a 16-bit swap. A rule matches as its field names say exactly when it leaves the
  destination open and, for TCP, the source too (`RuleSpec.MatchesAsNamedIff`).
- The completion that paces a listing is never reset: every wait that times out leaves one
  behind. The window of fifty unacknowledged rules is kept on all runs exactly when none is
  left over or the listing has at most fifty rules (`ListingRuns.WindowOfFiftyIff`), and over
  a series of listings it widens by fifty per timeout (`ListingRuns.SeriesWindow`).
- `getRulesSync` says that each message prolongs its timer. None does: the signal that
  restarts it is not emitted while a list is being filled. When the timer fires the list is
  returned as it stands, as success, and the MSG_DONE that follows dereferences null. The
  list is whole, and MSG_DONE finds it, exactly when the timer stayed silent
  (`ListingProtocol.ListingArrives`, `ListingRuns.CutAnywhere`). A stop saves a truncated list
  over the cache all the same; the next start restores what came through
  (`Persistence.RestartUpTo`, `Persistence.CutStopRestoresIff`). Within one client every later
  call is given what an earlier one left behind (`ListingCalls.OwnListingIff`).
- `nl_send_lst` reports the whole list as sent even when messages did not fit its buffer;
  it carries every rule exactly when a buffer holds a batch or the list fits one buffer
  (`BatchSend.SendBatches`). Its default batch does not fit (`BatchSend.DefaultOverfills`).
- A frame with an empty body, and a blank command line, end the slot they are met in and
  hold back what is complete behind them. Everything comes through every cut exactly when
  they come last (`Frames.ReassemblesIff`, `CommandLines.RunsEachIff`). A NUL in a chunk of
  commands loses the rest of that chunk (`CommandLines.NulLosesIff`).
- The serializer loses strings with a NUL and merges into maps that are not empty
  (`BinCodec.ReadBackIff`, `BinCodec.SafeTargetIff`).
- A cache file that was cut inside a record loads one rule more than it holds whole, and that
  rule is switched on; with just its last two bytes missing it keeps its chain and drops
  (`Persistence.CutFile`).
- A frame size of two gigabytes or more reads as negative and is dropped, so that its body
  is taken for frames (`Frames.NegativeSize`).
- A restart does not restore chain policies, and the cache `started()` writes holds only
  INPUT rules (`Persistence.VerdictKeptIff`, `Persistence.CrashRestoresIff`).
- The GUI compares rules without their chain, and shows both chains in one table. A rule
  stored on both marks and overwrites its double there (`RulesTable.TwoChains`): the dirty
  marks, and cancelling, are right after every series of edits exactly when no two rows are
  alike (`RulesTable.MarksRightIff`, `RulesTable.CancelRestoresIff`), and after edits of one
  row `RulesTable.OneRowEdited` tells which rows come back.
- Loading a list into the GUI's table keeps the copies of the old rows, so it starts clean
  exactly when no row with uncommitted changes is in it again (`RulesTable.EditsThenLoad`).
- An edit value that does not fit a byte can mark an unchanged row dirty
  (`RulesTable.EditTracksIff`); removing a row list with repetitions can take another row
  out (`RowRemoval.RemovesSelectedIff`).

## Model

| member | source | states |
|---|---|---|
| TrxData.KeyBytesInjective | bf-ko/bf_module.c:149-152 | comparing the 15 packed key bytes is comparing every field of the base, the chain included |
| TrxData.FrPatternFields | common/trx_data.h:304-314 | of each of the eight fields: a pattern that sets it selects what it selects with the field open, less the rules with another value; one that sets nothing selects every rule |
| TrxData.PolicyRuleBytes | common/trx_data.h:234-241 | a rule looks like a policy record exactly when all key bytes but the chain are zero |
| TrxData.SameBaseBytes | common/trx_data.h:219-226 | rules are equal to the GUI exactly when their key bytes agree from the second on |
| TrxData.PolicyVerdicts | bf-ko/bf_module.c:458-482 | only the accepting policy lets a packet pass, and the policy a chain reports is the one that sets it again |
| RuleSpec.StepSound | bf-ko/nl_int.c:100-197 | every message keeps keys unique, keeps rules that look like policy records out, and keeps both chain policies accept or drop |
| RuleSpec.RunSound | bf-ko/nl_int.c:85-236 | the same over every run of messages |
| RuleSpec.StepElsewhere | bf-ko/nl_int.c:100-197 | a message for the other chain leaves this chain's rules and policy alone |
| RuleSpec.StepAlike | bf-ko/nl_int.c:100-197 | two stores alike on a chain stay alike under a message for it, and give the same answer |
| RuleSpec.OtherChainNeverMatters | bf-ko/bf_module.c:509-579 | after any run a packet's verdict is what it would be had only the messages for its own chain been sent |
| RuleSpec.FirstMatchIsFirst | bf-ko/bf_module.c:517-574 | the deciding rule is the earliest matching one, and no rule decides only if none matches |
| RuleSpec.DisabledSkipped | bf-ko/bf_module.c:526-552 | rules switched off might as well not be there |
| RuleSpec.AddedRuleComesLast | bf-ko/bf_module.c:121-145 | an accepted rule decides exactly the packets that no earlier rule of its chain decides |
| RuleSpec.DeleteTakesOne | bf-ko/bf_module.c:163-203 | with unique keys a delete takes one rule out and keeps the order of the others |
| RuleSpec.MatchesAsNamedIff | bf-ko/bf_module.c:522-552 | an enabled rule matches as its field names say on all packets of its protocol exactly when the destination and, for TCP, the source are wildcards |
| RuleLaws.AddIs | bf-ko/nl_int.c:100-127 | a new rule that is no policy record is stored last, unchanged; anything else changes nothing, and each case has its answer |
| RuleLaws.UpdateIs | bf-ko/nl_int.c:135-155 | an update changes only the rule of its key, and in it only policy and off, each to the message's value unless that says none |
| RuleLaws.DeleteIs | bf-ko/nl_int.c:163-181 | a delete of a stored key takes out that one rule and leaves all others in their order |
| RuleLaws.DeleteOtherwise | bf-ko/nl_int.c:163-197 | what is not stored is answered as missing, and a flush empties the store and keeps the policies |
| RuleLaws.PolicyIs | bf-ko/nl_int.c:61-75 | a policy message sets the policies of just the chains it names, to accept only if it says so |
| RuleLaws.NtohBytes | bf-ko/bf_module.c:526-552 | byte by byte: ntohl gives four address bytes their network weight, ntohs sees the first two |
| RuleLaws.MatchesFields | bf-ko/bf_module.c:522-552 | each set field of a rule adds its own condition on ports or source address bytes to what the rule asks with that field open |
| RuleLaws.VerdictIs | bf-ko/bf_module.c:511-583 | on any store a packet is dropped exactly when its protocol number is 6 or 17 and the earliest matching rule does not accept, or none matches and the chain's policy is drop |
| RuleLaws.UpdatedVerdict | bf-ko/nl_int.c:135-155 | an update of the rule that decides a packet makes its new policy the verdict, or, if it switches the rule off, hands the packet on as a delete would |
| RuleIndex.SameEntries | bf-ko/bf_module.c:121-145 | when the structures agree they hold one population: full_list, hash table (under the entry's own key) and the chain of the entry's kind |
| RuleIndex.AddKeepsCoherent | bf-ko/bf_module.c:121-145 | linking a new entry keeps chain lists, full_list and hash table in agreement |
| RuleIndex.DeleteKeepsCoherentIff | bf-ko/bf_module.c:163-203 | the structures still agree after a delete exactly when the key was stored at most once |
| RuleIndex.DeleteSafeIff | bf-ko/bf_module.c:163-203 | everything a delete queues for freeing is unreachable exactly when the key was stored at most once |
| RuleStore.UnlinkFirst | bf-ko/bf_module.c:170-184 | the chain passes remove the first entry with the key and stop |
| RuleStore.UnlinkAll | bf-ko/bf_module.c:188-198 | the full_list pass removes and queues every entry with the key |
| RuleStore.Store.constructor | bf-ko/bf_module.c:42-48 | the freshly loaded store: empty, agreeing, both chains accepting |
| RuleStore.Store.AddRule | bf-ko/bf_module.c:121-145 | the new entry goes last on full_list and its chain and is indexed, keeping agreement |
| RuleStore.Store.DeleteRule | bf-ko/bf_module.c:163-203 | what each structure loses to a delete, on any store |
| RuleStore.Store.DeleteRules | bf-ko/bf_module.c:205-232 | a flush empties all three structures and queues every entry, unique keys or not |
| RuleStore.Store.FindRule | bf-ko/bf_module.c:353-369 | finds an entry exactly when a rule with that base is stored, and one that is stored |
| RuleStore.Store.RcvAdd | bf-ko/nl_int.c:100-127 | policy records are dropped, known keys refused, new rules appended |
| RuleStore.Store.RcvUpdate | bf-ko/nl_int.c:135-155 | the stored rule changes where it stands, or the sender is told it is missing |
| RuleStore.Store.RcvDelete | bf-ko/nl_int.c:163-181 | the one stored rule goes and the structures agree again, or the sender is told it is missing |
| RuleStore.Store.RcvMsg | bf-ko/nl_int.c:85-197 | each message takes store and answer where the ordered list goes, and keeps the structures in agreement, keys unique, and queued entries off full_list |
| RuleStore.Store.Serve | bf-ko/nl_int.c:238-244 | so does every run of messages |
| RuleStore.Store.SetChainPolicy | bf-ko/nl_int.c:61-75 | which policies a policy message sets, and which it leaves |
| RuleStore.Store.Walk | bf-ko/bf_module.c:515-579 | the walk returns the first deciding rule's policy, else the chain's, and gives the read lock back on every way out |
| RuleStore.Store.Hook | bf-ko/bf_module.c:483-584 | on any store a packet is dropped exactly when the filter is enabled and `RuleLaws.Drops` holds of its chain, and accepted otherwise |
| SortedChain.AddEntrySort | bf-ko/bf_module.c:106-119 | inserting a rule into a chain in stable order gives the stable order of the arrivals with that rule last |
| SortedChain.StableIsSorted | bf-ko/bf_module.c:86-104 | the reference order is descending in the number of wildcards |
| SortedChain.WildcardsCount | bf-ko/bf_module.c:86-104 | the weight is four with all four fields open, none with none, and one more for each field opened |
| SortedChain.OpenFirst | bf-ko/bf_module.c:106-119 | on a sorted chain rules with everything open come before all others, rules with nothing open behind all others |
| SortedChain.StableIsPermutation | bf-ko/bf_module.c:106-119 | the reference order keeps every rule as often as it occurs |
| SortedChain.ChainStepStable | bf-ko/bf_module.c:131-142 | every message takes a stably sorted chain to the stable sort of the new store's chain |
| SortedChain.SortedAfterEveryRun | bf-ko/bf_module.c:86-142 | after every run a sorted chain is the stable sort of the surviving rules in the order they were accepted |
| RingList.AddBetween | bf-ko/base/list.h:40-47 | linking a node between two neighbours inserts it there and keeps the ring |
| RingList.Add | bf-ko/base/list.h:57-60 | a node added to a head becomes the first element |
| RingList.AddTail | bf-ko/base/list.h:70-73 | a node added at the tail becomes the last element |
| RingList.Unlink | bf-ko/base/list.h:82-86 | joining two neighbours takes exactly the node between them out |
| RingList.Del | bf-ko/base/list.h:93-98 | deletion keeps the ring of the others and clears the node's pointers |
| RingList.DelInit | bf-ko/base/list.h:104-108 | deletion leaves the node as a ring of its own |
| RingList.Move | bf-ko/base/list.h:115-119 | a move takes a node out of its ring and makes it first of the other, or of the same, ring |
| RingList.Splice | bf-ko/base/list.h:142-164 | a splice puts one list's elements in front of the other's, in order |
| RingList.SpliceInit | bf-ko/base/list.h:173-180 | and leaves the emptied list as an empty ring |
| RingList.Visit | bf-ko/base/list.h:196-230 | iteration meets every element once, in order |
| RingList.Drain | bf-ko/base/list.h:214-242 | safe iteration with removal meets every element once and ends with an empty ring |
| RuleRings.DelRcu | bf-ko/bf_module.c:170-176 | the entry drops out of its ring and keeps its next pointer |
| RuleRings.UnlinkFirst | bf-ko/bf_module.c:170-184 | on a real ring, a chain pass unlinks the node of the first entry with the key |
| RuleRings.UnlinkAll | bf-ko/bf_module.c:188-198 | on a real ring, the full_list pass unlinks the node of every entry with the key and queues the entry |
| RuleRings.AddRule | bf-ko/bf_module.c:121-144 | on the three rings, a new entry comes last on full_list and on its chain, and the rings stay apart |
| RuleRings.DeleteRule | bf-ko/bf_module.c:163-203 | on the three rings, the entries change as the store's sequences do; with unique keys what is queued for freeing hangs on none of them |
| HashSpec.InsertPushes | bf-ko/base/hash_table.h:239-248 | insertion pushes on its key's stack and touches no other key, colliding or not |
| HashSpec.LookupIsTop | bf-ko/base/hash_table.h:281-297 | lookup answers the newest entry with the key, or none |
| HashSpec.DeletePops | bf-ko/base/hash_table.h:356-366 | deletion pops its key's stack and touches no other key |
| HashTable.FirstWith | bf-ko/base/hash_table.h:281-297 | following a bucket's ring finds the first entry with the key and returns to the head otherwise |
| HashTable.HashTable.constructor | bf-ko/base/hash_table.h:171-220 | a table of one empty ring per bucket |
| HashTable.HashTable.Insert | bf-ko/base/hash_table.h:239-248 | on the pointer structure, insertion is the map's insertion and every ring stays valid |
| HashTable.HashTable.Lookup | bf-ko/base/hash_table.h:281-297 | on the pointer structure, lookup is the map's lookup |
| HashTable.HashTable.DelKey | bf-ko/base/hash_table.h:356-366 | on the pointer structure, deletion is the map's deletion and the removed node is a ring of its own |
| HashTable.HashTable.ForEach | bf-ko/base/hash_table.h:412-417 | the for-each loops yield the buckets' entries in order |
| HashTable.HashTable.EachOnce | bf-ko/base/hash_table.h:412-417 | and no entry twice |
| HashTable.HashTable.YieldedIsStored | bf-ko/base/hash_table.h:412-417 | what is yielded is exactly what some key's stack holds |
| HashLocks.SamePrefix | bf-ko/base/hash_table.h:322-326 | on keys of equal length the locked lookup's prefix comparison is equality |
| HashLocks.StepInvariant | bf-ko/base/hash_table.h:257-383 | every step of a locked operation keeps lock ownership, placement and each thread's progress consistent |
| HashLocks.Linearizable | bf-ko/base/hash_table.h:257-383 | in every interleaving the operations give the results and contents of a sequential run, each taking effect once between its call and its return |
| HashLocks.OneLockAtATime | bf-ko/base/hash_table.h:129-139 | no thread holds two locks, and one that has returned holds none |
| HashLocks.SomeThreadSteps | bf-ko/base/hash_table.h:257-383 | no deadlock: while an operation is under way some thread can step |
| HashLocks.StepAdvances | bf-ko/base/hash_table.h:257-383 | every step brings its operation a section further or past one slot with another key; it stays the same operation until it returns |
| HashLocks.CanCall | bf-ko/base/hash_table.h:257-383 | in every reachable state a thread that has returned can call any operation |
| RcuWriter.NextInv | bf-ko/bf_module.c:106-232 | every step of writer, readers and free queue, insertion anywhere in a chain included, keeps chains, unlinked entries, queues and traversals consistent |
| RcuWriter.CanPublish | bf-ko/bf_module.c:111-118 | wherever in its chain a new entry goes, the publishing step is there |
| RcuRuns.NeverOnFreed | bf-ko/bf_module.c:515-576 | in every interleaving the entry a traversal stands on, and the one its next load reaches, are not freed |
| RcuRuns.QueuedIsUnlinked | bf-ko/bf_module.c:188-230 | only entries off both chains and full_list are ever queued or freed |
| RcuRuns.LockBalanced | bf-ko/bf_module.c:454-576 | the read-side section is entered and left once per traversal |
| RcuRuns.VisitsEveryLinked | bf-ko/bf_module.c:517-574 | a traversal meets every rule linked throughout it; when a rule decides, those it missed stand behind that rule |
| RcuRuns.VisitsInChainOrder | bf-ko/bf_module.c:517-574 | it meets nothing twice and linked rules in chain order |
| RcuProgress.MessageDone | bf-ko/bf_module.c:163-232 | when the writer is done with a delete no list holds the key; when it is done with a flush all three are empty |
| RcuProgress.AddDone | bf-ko/bf_module.c:121-145 | when it is done with an add the new entry is on full_list and on its chain |
| RcuProgress.OffIsQueued | bf-ko/bf_module.c:188-230 | whatever was on full_list and is off it later is queued for freeing or freed |
| RcuProgress.DeletedIsQueued | bf-ko/bf_module.c:163-203 | every entry with the key of a finished delete is on no list, and queued or freed |
| RcuProgress.OthersStay | bf-ko/bf_module.c:163-203 | no step of a delete moves an entry with another key |
| RcuProgress.MessageEnds | bf-ko/bf_module.c:121-232 | every step of a message brings it nearer its end |
| RcuProgress.BusySteps | bf-ko/bf_module.c:121-232 | in every reachable state a writer at work on a message has a step |
| RcuProgress.IdleTakesAny | bf-ko/nl_int.c:100-197 | an idle writer can take up any delete or flush, and an add exactly when no stored rule has the key |
| RcuProgress.ReaderSteps | bf-ko/bf_module.c:515-576 | a reader never waits: it can enter, load the next pointer, and leave from an entry or the end |
| RcuProgress.CanFree | bf-ko/bf_module.c:154-161 | a queued entry can be freed once the readers it waits for have left |
| Listing.SendRule | bf-ko/bf_module.c:289-306 | a selected rule gets the next number and goes out with it, as it stands, flagged and waited for at multiples of fifty |
| Listing.SendChain | bf-ko/bf_module.c:289-307 | one chain's share: its selected rules in order, numbered on |
| Listing.ListRules | bf-ko/bf_module.c:257-337 | two policy records, the selected INPUT then OUTPUT rules numbered from 1, the count; only ids change |
| Listing.ListedIs | bf-ko/bf_module.c:289-306 | the rules listed are exactly the stored rules of the two chains the pattern selects; a pattern for all chains selects all, whatever else it says |
| Listing.ScriptPayload | bf-ko/bf_module.c:257-337 | what the messages carry in all |
| Listing.ScriptPaced | bf-ko/bf_module.c:292-305 | at every point one flag per fifty rules has gone out, and all but the one just sent have been waited for |
| Listing.ShowPolicies | bfctl/cmds.cpp:49-60 | the policies shown are the last policy records of each chain |
| Listing.ShowRows | bfctl/cmds.cpp:62-86 | the rows shown under a chain are the list's rules of that chain that are not policy records |
| Listing.ListRulesCmd | bfctl/cmds.cpp:35-91 | the split of a received list into policies and rows |
| Listing.RowsRecoveredIff | common/trx_data.h:234-241 | the rows are exactly the stored rules precisely when no stored rule looks like a policy record |
| Listing.SplitRecovers | bfctl/cmds.cpp:46-86 | after every run the split shows the policies the hook applies and exactly the selected stored rules |
| Collector.BFControl.Process | bf-link/bfcontrol.cpp:32-83 | one message is collected, or signalled singly when no list is being filled; MSG_DONE hands the list out, or dereferences null when there is none; flagged messages are acknowledged |
| Collector.BFControl.GetRulesSync | bf-link/bfcontrol.cpp:113-147 | the caller gets the rules that came in before MSG_DONE or the timer, whichever was first, and nothing when the request was refused |
| Collector.CollectsInTime | bf-link/bfcontrol.cpp:113-147 | of a closing listing of which n messages arrive in time, exactly the first n rules are returned |
| ListingProtocol.WindowBound | bf-ko/nl_int.c:54-58 | at most fifty rules are ahead of the last acknowledgement, plus fifty per left-over completion and per timed-out wait |
| ListingProtocol.ListingArrives | bf-link/bfcontrol.cpp:113-147 | the list handed out is always a beginning of the carried one; it is all of it, and MSG_DONE finds a list, exactly when the client's timer did not fire before MSG_DONE was processed; nothing is lost, the rest being signalled singly; and a listing that can go no further is through on both sides |
| ListingProtocol.ListingEnds | bf-ko/bf_module.c:257-337 | no listing takes more than three steps per script entry and one more |
| ListingRuns.CanFinish | bf-ko/bf_module.c:257-337 | every run can be brought to its end with no timer firing any more |
| ListingRuns.WindowMet | bf-ko/nl_int.c:217-224 | the window bound is met: some run gets exactly that far ahead |
| ListingRuns.WindowOfFiftyIff | bf-ko/bf_module.c:292-305 | a window of fifty holds on all runs without timed-out waits exactly when no completion is left over or the listing has at most fifty rules |
| ListingRuns.CutAnywhere | bf-link/bfcontrol.cpp:133-146 | for every k some run hands out just the first k rules as the list and ends with MSG_DONE dereferencing null |
| ListingRuns.CompletionsLeft | bf-ko/nl_int.c:54-58 | a finished listing leaves the completions it found and one more for each wait that timed out |
| ListingRuns.SeriesWindow | bf-ko/nl_int.c:54-58 | over a series of listings the window is fifty, and fifty more for every wait that has timed out in any of them |
| ListingRuns.OneTimeoutWidens | bf-ko/nl_int.c:54-58 | one timed-out wait suffices: the next listing can get fifty-one rules ahead with none timing out |
| ListingCalls.AnswerIsDelivered | bf-link/bfcontrol.cpp:113-147 | what a call of a live client collects is the list handed to its caller |
| ListingCalls.OwnListingIff | bf-link/bfcontrol.cpp:32-147 | after any series of calls, one that hears anything is given its own listing, whatever that holds, exactly when no call before it was cut short |
| BatchSend.BatchesCarryAll | bf-ko/nl_int.c:284-360 | the batches carry every rule once, in order |
| BatchSend.BatchesShape | bf-ko/nl_int.c:304-341 | all batches but the last are full, only last messages are flagged, and a wait follows exactly the flagged batches |
| BatchSend.EvenBatchesFlagged | bf-ko/nl_int.c:304-345 | how many batches there are, and that just the full ones with an even number are flagged |
| BatchSend.SendBatches | bf-ko/nl_int.c:300-360 | the loop sends those batches, and the whole list arrives exactly when a buffer holds a batch or the list fits one |
| BatchSend.SendLst | bf-ko/nl_int.c:284-360 | the same behind the size check and the default size, with its return value; with the default size only lists that fit one buffer arrive whole, in batches of twenty all do |
| BatchSend.DefaultOverfills | bf-ko/nl_int.c:293-305 | the default batch, which forgets alignment, is more than its buffer holds |
| Frames.SizeReadsBack | bf-link/bflocalcontrolprivate.cpp:404-421 | a size written in host order reads back, for bodies below two gigabytes |
| Frames.NegativeSize | bf-link/bflocalserver.cpp:54-87 | a size of two gigabytes or more reads as negative: it is dropped, nothing is handed on, and what is behind it stays |
| Frames.Receiver.OnReadyRead | bf-link/bflocalserver.cpp:54-87 | one slot reads at most one size and one body and recurs on strictly fewer bytes |
| Frames.Receiver.ReceiveAll | bf-link/bflocalcontrolprivate.cpp:66-122 | a connection is one slot per chunk |
| Frames.DrainExact | bf-link/bflocalserver.cpp:54-87 | a slot hands on exactly the bodies complete so far and keeps the unfinished tail |
| Frames.Reassembles | bf-link/bflocalserver.cpp:54-87 | non-empty bodies come back, in order, from every cut of their stream |
| Frames.ChunkingNeverMatters | bf-link/bflocalcontrolprivate.cpp:66-122 | two cuts of the same bytes leave the same bodies, tail and awaited size, at every point |
| Frames.StopsAtEmpty | bf-link/bflocalserver.cpp:54-87 | an empty body ends the slot that reads its size, and what is behind it stays in the buffer, complete bodies included |
| Frames.ReassemblesIff | bf-link/bflocalserver.cpp:54-87 | the non-empty bodies all come through every cut exactly when no empty body is sent before one of them |
| CommandLines.IndexOfCrLf | exts/qtservice/src/qtservice_unix.cpp:361-364 | the position of the first line end, or none |
| CommandLines.Service.Execute | exts/qtservice/src/qtservice_unix.cpp:320-350 | a command is run once and answered once: each of the five commands with its own answer, anything else with "false" |
| CommandLines.Service.SlotReady | exts/qtservice/src/qtservice_unix.cpp:314-353 | a slot runs and answers the complete commands in order and keeps the rest, of the text its chunk of bytes converts to |
| CommandLines.NulLosesIff | exts/qtservice/src/qtservice_unix.cpp:317 | the characters of a byte stream all reach the cache under every cut exactly when it holds no NUL |
| CommandLines.RunsEach | exts/qtservice/src/qtservice_unix.cpp:314-353 | every cut of a NUL-free byte stream of non-blank commands runs each once, in order, and caches the unfinished end |
| CommandLines.Service.ServeSocket | exts/qtservice/src/qtservice_unix.cpp:314-353 | a connection, one slot per chunk, runs and answers exactly what the reference split of its chunks yields |
| CommandLines.StopsAtBlank | exts/qtservice/src/qtservice_unix.cpp:314-353 | a blank line ends the slot it is met in, and what is behind it stays unrun, complete commands included |
| CommandLines.RunsEachIff | exts/qtservice/src/qtservice_unix.cpp:314-353 | the non-blank commands of a NUL-free byte stream are all run under every cut exactly when no blank line stands before one of them |
| BinCodec.ReadBack | exts/reflection/bin_reflection.h:56-184 | read gives back what write wrote, for every nesting of types, and consumes exactly its bytes |
| BinCodec.ReadBackIff | exts/reflection/bin_reflection.h:107-116 | an object whose counts fit comes back exactly when its strings hold no NUL |
| BinCodec.SafeTargetIff | exts/reflection/bin_reflection.h:152-164 | an object is safe to read anything into exactly when its maps are empty |
| BinCodec.WrittenIff | exts/reflection/bin_reflection.h:170-184 | a type is written as at least one byte exactly when some part of it is |
| BinCodec.WrittenBytes | exts/reflection/bin_reflection.h:54-168 | where booleans, NULs and counts stand in the bytes, and their byte order |
| BinCodec.ReadableIff | exts/reflection/bin_reflection.h:54-184 | of what was written only the whole can be read: no object's bytes begin another's |
| BinStreams.InputStream.Get | exts/reflection/bin_streams.h:62-68 | a read takes the next bytes and moves on by as many |
| BinStreams.InputStream.GetString | exts/reflection/bin_reflection.h:112-116 | a string read takes the bytes up to the NUL and skips it |
| BinStreams.WriteObject | exts/reflection/bin_reflection.h:56-150 | write appends exactly the object's bytes |
| BinStreams.WriteVector | exts/reflection/bin_reflection.h:119-126 | the vector loop appends its elements' bytes in order |
| BinStreams.WriteMap | exts/reflection/bin_reflection.h:140-149 | the map loop appends its entries' bytes in order |
| BinStreams.ReadObject | exts/reflection/bin_reflection.h:62-165 | read yields the layout's object and leaves the stream behind it |
| BinStreams.ReadVector | exts/reflection/bin_reflection.h:128-137 | the resized vector is filled element by element |
| BinStreams.ReadMapEntries | exts/reflection/bin_reflection.h:151-165 | each key read makes or finds its entry, which is then read into |
| BinStreams.WrapUnwrap | exts/reflection/bin_reflection.h:170-184 | unwrap after wrap is the identity for types with at least one byte |
| Persistence.DecodeBack | common/trx_data.h:317-343 | every field the rule stream writes comes back; the id does not |
| Persistence.RecordBytes | common/trx_data.h:317-329 | which bytes of the 17 hold which field, highest byte first |
| Persistence.CutFile | bf-service/bfrules.cpp:57-65 | a file cut inside a record loads every whole record and one more rule, switched on; which of its fields are missing decides whether it drops and whether it is replayed |
| Persistence.LoadsWhatWasSaved | bf-service/bfrules.cpp:46-65 | loading a saved cache gives the saved rules, ids apart |
| Persistence.AddAllNew | bf-link/bfcontrol.cpp:323-339 | new rules sent one by one are all taken, in order |
| Persistence.AddAllKnown | bf-link/bfcontrol.cpp:323-339 | known rules and policy records add nothing |
| Persistence.RestartUpTo | bf-service/bfserviceprivate.cpp:32-97 | a start into an empty kernel from the file of a listing cut after n messages restores the first n - 2 listed rules, in order, and no policy |
| Persistence.StopStart | bf-service/bfserviceprivate.cpp:32-97 | a clean stop and a start into an empty kernel rebuild both chains, order, `off` and `policy` included |
| Persistence.CutStopRestoresIff | bf-service/bfserviceprivate.cpp:76-97 | a stop whose listing was cut after n messages still restores both chains exactly when all rules came through or there were none |
| Persistence.ReplayChangesNothing | bf-service/bfserviceprivate.cpp:32-49 | replaying a saved list, cut or whole, into the store it came from changes nothing |
| Persistence.VerdictKeptIff | bf-service/bfserviceprivate.cpp:32-97 | a restart keeps a packet's verdict exactly when a rule decides it or the chain accepted by default |
| Persistence.CrashRestoresIff | bf-service/bfserviceprivate.cpp:56-64 | the cache a start leaves restores both chains exactly when OUTPUT is empty |
| Service.RuleCache.GetByPattern | bf-service/bfrules.cpp:27-44 | the cached rules that match a pattern, in order |
| Service.RuleCache.LoadFromFile | bf-service/bfrules.cpp:46-65 | the cache becomes the file's rules, or stays as it was when the file does not open |
| Service.RuleCache.LoadFromList | bf-service/bfrules.cpp:132-143 | the cache becomes the list |
| Service.RuleCache.SaveToFile | bf-service/bfrules.cpp:89-108 | the file becomes the cache's rules; when it does not open it is not written and false is returned |
| Service.GetRules | bf-link/bfcontrol.cpp:113-147 | a synchronous listing returns what the kernel carries, as far as it came in before the timer, or nothing when refused, and changes ids only |
| Service.SendRulesSync | bf-link/bfcontrol.cpp:323-339 | the kernel takes the rules one by one, up to the first socket error, which is reported and resets the list pointer |
| Service.Stop | bf-service/bfserviceprivate.cpp:76-97 | stop saves the kernel list as far as it came in, cut or refused listings included, if the file opens |
| Service.Replay | bf-service/bfserviceprivate.cpp:32-49 | the kernel after the replay of the cached rules, up to a socket error; it is the full restart's when nothing fails |
| Service.Started | bf-service/bfserviceprivate.cpp:32-64 | start replays the cache and then caches what the kernel lists for INPUT, as far as that came in and the file opens |
| RulesTable.EditTracksIff | tests/bfctl_gui/rulestablemodel.cpp:84-133 | on any table whose marks are right, an edit keeps them right exactly when the value fits its byte or, cut, differs from the baseline, and every row alike to the edited one is dirty with it and stays so |
| RulesTable.EditsTrack | tests/bfctl_gui/rulestablemodel.cpp:84-133 | for rows distinct under operator==, after any series of byte-range edits a row is dirty exactly when it differs from the last load or commit |
| RulesTable.MarksRightIff | tests/bfctl_gui/rulestablemodel.cpp:84-188 | for any list: the marks are right after every series of byte-range edits of it, freshly loaded, exactly when no two rows are alike under operator== |
| RulesTable.OneRowEdited | tests/bfctl_gui/rulestablemodel.cpp:84-211 | one row of any list edited: getDirty lists the rows alike to it too while it differs from its loaded value, and cancelChanges restores an alike row exactly when it was loaded with the same `off` and `policy` |
| RulesTable.CancelRestoresIff | tests/bfctl_gui/rulestablemodel.cpp:84-211 | for any list: cancelChanges brings it back after every series of byte-range edits exactly when no two rows are alike |
| RulesTable.TwoChains | common/trx_data.h:219-226 | a concrete rule on both chains, which the kernel stores twice: editing the INPUT row marks the OUTPUT row, and cancelling overwrites it |
| RulesTable.WideEditMisleads | tests/bfctl_gui/rulestablemodel.cpp:91-105 | a concrete wide value that marks an unchanged row |
| RulesTable.ReloadTracksIff | tests/bfctl_gui/rulestablemodel.cpp:278-282 | over a table with right marks whose copies belong to its rows, alike rows included, a newly loaded list starts clean exactly when no old row with uncommitted changes is in it again |
| RulesTable.EditsThenLoad | tests/bfctl_gui/rulestablemodel.cpp:84-282 | after any edits of any loaded list, the next list starts with right marks exactly when no row getDirty listed is in it again; for distinct rows and byte values those are the rows with uncommitted edits |
| RulesTable.Model.SetData | tests/bfctl_gui/rulestablemodel.cpp:84-133 | an edit changes one field of one row and the copies as specified |
| RulesTable.Model.GetDirty | tests/bfctl_gui/rulestablemodel.cpp:176-188 | in row order the rows some copy is alike to; with right marks, those that differ from their baseline |
| RulesTable.Model.ClearDirty | tests/bfctl_gui/rulestablemodel.cpp:190-195 | on any table the present values become the baseline and the marks are right |
| RulesTable.Model.CancelChanges | tests/bfctl_gui/rulestablemodel.cpp:197-211 | on any table each row takes the `off` and `policy` of the copy alike to it; with right marks every row is back at its baseline |
| RulesTable.Model.SetRules | tests/bfctl_gui/rulestablemodel.cpp:278-282 | a new list replaces the rows but not the copies, and starts clean under just that condition on the old rows |
| RulesTable.Model.AddRule | tests/bfctl_gui/rulestablemodel.cpp:239-244 | a row is appended to any table; right marks stay right exactly when no copy is alike to it |
| RowRemoval.RemoveItems | tests/bfctl_gui/rulestablemodel.cpp:255-265 | the nested loops remove, for the j-th row taken, position row minus j |
| RowRemoval.RemovesSelectedIff | tests/bfctl_gui/rulestablemodel.cpp:246-267 | exactly the selected rows go precisely when none is selected twice, or they are the top rows with only the last repeated |
| FileLog.FileLogger.CheckAndRotate | bf-service/filelogger.cpp:15-30 | a log past its size moves every file up by one, missing ones included, and loses the last |
| FileLog.FileLogger.WriteMsg | bf-service/filelogger.cpp:41-57 | a write rotates if need be and appends one line |
| FileLog.WriteRotatesIff | bf-service/filelogger.cpp:15-57 | a write starts a new log exactly when the old one is longer than the maximum, which is backup 1 then; otherwise it only grows |
| FileLog.FileLogger.WriteAll | bf-service/filelogger.cpp:41-57 | a run of writes leaves the files the specification's run leaves |
| FileLog.BackupIsRotation | bf-service/filelogger.cpp:15-30 | after any run backup k holds what the log held at the k-th most recent rotation |
| FileLog.SizesBounded | bf-service/filelogger.cpp:15-57 | no log file exceeds the maximum by more than one line |
| FileLog.OnlyOldestLost | bf-service/filelogger.cpp:15-57 | the files rotated out, the backups and the log, read oldest first, are all that was ever there or written |

## Left out

- The two MAC address fields of `filter_rule_t`: nothing modelled reads them.
- `__hash`: kept an arbitrary function, so every theorem about the table holds for it.
- Kernel plumbing: hook registration, socket buffers, the log work queue, the proc entry,
  allocation failure and failing unicasts. Headers the hook finds missing are not modelled.
- A listing racing with store changes, and two listings at once: nothing in the code
  protects `comp` and `thrd_params` from them.
- `list_del_rcu`: a kernel primitive, taken to keep the removed entry's `next` pointer.
- Collector.BFControl.constructor: promises a null list pointer, which the original leaves
  uninitialised until the first listing; that it starts out null is an assumption.
- A client that dereferenced null takes no further step; that its end is seen by the kernel
  as failing unicasts is not modelled.
- ListingCalls: the kernel has sent all of a listing before the next is asked for, so two
  listings do not interleave, and requests are not refused.
- CommandLines: bytes are characters one to one; chunks that split a multi-byte character
  are not modelled.
- RCU traversals: addresses are not reused after a free, and whether an entry decides a
  packet is left open, because updates may change its fields during the walk.
- SortedChain.AddEntrySort: works on the sequence of a chain rather than on its ring; the
  ring insertion it makes is `RingList.AddTail` before the found node.
- Chain lists and full_list in `RuleStore` are sequences; `RuleRings` shows adding and
  deleting to have the same effect on rings. The store's table is the map of `HashSpec`,
  which `HashTable` refines; one class holding rings and buckets together is not built.
- HashLocks.Linearizable: states its result for keys of one length, the module's case;
  the locked lookup compares only the stored key's length.
- ListingRuns.WindowOfFiftyIff: speaks of runs without timed-out waits; the general bound
  with timeouts is `ListingProtocol.WindowBound`, and over many listings `SeriesWindow`.
- BatchSend.SendLst: takes the buffer to have no slack behind its aligned size.
- BinCodec.ReadBack: one comparator serves all maps with the same key type; objects are
  values, so sharing between the object read into and others is not captured.
- BinStreams.Unwrap: needs at least one byte, as the original takes the first byte's address.
- Persistence: the JSON copy of the cache. Ids after a load are whatever the new objects
  held, so the theorems leave ids out.
- libnl, Qt sockets, the event loop and QVariant encoding: frame bodies are opaque bytes,
  and a slot is taken not to be re-entered while it runs.
- `BFLocalServer::processMessage` and `destroySocket`: plain dispatch and removal loops.
- `ptree_reflection.h`, GUI painting and dialogs, command-line parsing, syslog writers,
  signal handling, the Windows service, and the sample and test copies in the repository.

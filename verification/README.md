# Verified models of the server's stateful components

The repository splits a game server into services.  Most of it moves messages; this project models
the components that keep state of their own, and proves what they promise over whole runs.

- **Health checks and metrics** (`WorkerPool.dfy`): one loop sends every object into a bounded channel
  before it reads any result, and p workers sit between two channels of capacity 100.
- **Packet framing and fields** (`PacketFraming.dfy`, `PacketFields.dfy`, `Bytes.dfy`): a resumable parser
  over arbitrary reads with a stateful header cipher, and the typed field reader and writer.
- **Group cache** (`GroupSlices.dfy`, `GroupCache.dfy`): pointers into Go slices that are appended to and
  shifted in place.  The first file is the cache on values with its invariants and runs, the second the
  cache on the heap, each method proved against the first.
- **Chat channels** (`ChannelState.dfy`, `ChatChannel.dfy`): owners, moderators and bans with
  write-through to a database whose writes may fail.
- **GUID allocation** (`GuidAllocator.dfy`): an optimistic transaction retried by any number of clients.
- **Update coalescing** (`UpdatesBarrier.dfy`, `TrackedUpdates.dfy`, `OnlineCharacters.dfy`): the barrier and its two
  consumers, with characters that log in and out.
- **Paired indexes and streams** (`ChannelHub.dfy`, `StreamClosing.dfy`, `OnlineCharacters.dfy`,
  `RealmCharacters.dfy`).
- **Smaller state machines** (`FriendLimits.dfy`, `ModeratorList.dfy`, `AuthSession.dfy`).

Objects that the program updates in place are classes; their methods are proved against functions on
values, and the lemmas are about those functions and about runs of them.  Nondeterminism of the program
(map iteration, scheduling, how a stream is cut into reads, which writes fail) is a parameter or an
arbitrary choice.

Facts that differ from the repository's comments:

- The comment at `apps/groupserver/service/group-cache_inmem.go:23-26` says that the index shares the
  objects of the lists.  That holds until a list is reallocated or shifted; the lemmas say exactly when
  it stops, and that group membership is read correctly all the same.
- One iteration of the health checker over more than 200 + p objects never ends.
- A reconnect for a name without an account is accepted, and the proof that follows dereferences the missing
  account (`apps/authserver/session/authsession.go:237`).
- A broadcast can panic on a stream that a concurrent disconnect closes between
  `apps/gateway/events-broadcaster/chat-channels.go:185` and line 191.
- A character that logs in while the barrier still buffers an older update gets that update after the login.
- After a refused header another call of `Next` would overwrite the previous packet's data; no caller makes one.
- The database copy of a channel can lose or duplicate its owner flag when one of two writes fails.

## Model

| member | source | states |
|---|---|---|
| WorkerPool.IterationOutcome | shared/healthandmetrics/health-checker.go:134-203 | with p workers and n objects every maximal iteration takes at most 4n steps and ends if and only if n = 0, or p >= 1 and n <= 200 + p; otherwise it is stuck, whatever others do to the list: for p >= 1 the sender waits with 200 + p objects sent, both channels full and every worker holding one; for p = 0 no result ever comes, and the receive loop waits if n <= 100, else the sender after 100 objects |
| WorkerPool.Progress | shared/healthandmetrics/health-checker.go:147-163 | short of its end, an iteration that can finish always has a step to take: no deadlock |
| WorkerPool.PoolStepDecreases | shared/healthandmetrics/health-checker.go:147-200 | every send, take, put and collect lowers the same measure by one |
| WorkerPool.BlockedWhileSending | shared/healthandmetrics/health-checker.go:60-61 | a pool blocked in the send loop is in the stuck state for its p and n, and n is beyond the bound |
| WorkerPool.BlockedWhileCollecting | shared/healthandmetrics/health-checker.go:155-163 | a pool blocked in the receive loop has no workers and at least one object, all of them in the queue |
| WorkerPool.TooManyNeverCollects | shared/healthandmetrics/health-checker.go:147-155 | with more than 200 + p objects no run reaches the collecting loop |
| WorkerPool.EveryRunConserves | shared/healthandmetrics/health-checker.go:134-203 | in every state of every run of any number of iterations, with additions and removals interleaved, the objects sent equal, as a multiset, queue + held by workers + results + handled, and the list keeps distinct addresses |
| WorkerPool.IdleIsDrained | shared/healthandmetrics/health-checker.go:155-163 | between iterations both channels and all workers are empty |
| WorkerPool.IterationResult | shared/healthandmetrics/health-checker.go:134-184 | at the end each object of the snapshot was handled exactly once, and without concurrent changes the list is the snapshot without the failed addresses, in order |
| WorkerPool.ListTracks | shared/healthandmetrics/metrics-reader.go:150-190 | at every moment of an undisturbed iteration the list is the snapshot without the addresses whose failure has been handled; the consumer of metrics, which removes nothing, keeps the snapshot |
| WorkerPool.RemovedFromWithout | shared/healthandmetrics/health-checker.go:80-92 | removing one address from a list that is already filtered by a set of addresses is filtering by the larger set |
| WorkerPool.RemovedKeepsDistinct | shared/healthandmetrics/health-checker.go:80-92 | after a removal no object of that address is listed, and addresses stay distinct |
| WorkerPool.StaysListed | shared/healthandmetrics/health-checker.go:65-92 | in every run an object once listed stays listed until a removal of its address by another goroutine or a handled failed report of it |
| WorkerPool.ListChanges | shared/healthandmetrics/health-checker.go:65-92 | one step leaves the list alone, appends one object at an address not on it, or takes the first object of an address off for one of these two reasons |
| WorkerPool.TargetList.AddHealthCheckObject | shared/healthandmetrics/health-checker.go:65-78 | the list is as before if an object of that address is on it, and otherwise the old list with the object appended; addresses stay distinct |
| WorkerPool.TargetList.RemoveHealthCheckObject | shared/healthandmetrics/health-checker.go:80-92 | in place, exactly the first object of that address is gone, if there is one; all others stay in order |
| WorkerPool.TargetList.HandleResult | shared/healthandmetrics/health-checker.go:166-184 | with the health checker a failed report takes exactly the first object of its address off the list; any other report, and any report of the metrics consumer, changes nothing |
| PacketFraming.PacketsReader.Next | apps/gateway/sockets/packets-reader.go:42-97 | for every way of cutting the stream into reads the result is the reference parser's on the flat bytes: same opcode, data, remaining bytes and keystream position; a read error inside a header loses nothing; the data is a new array and no earlier data changes. A call after a refused header or a failed payload read completes the payload buffer as it stands and returns it under opcode 0, so after a refusal the next bytes overwrite the previous packet's data |
| PacketFraming.ReadAll | apps/gateway/sockets/packets-reader.go:42-97 | successive calls return exactly the frames of the reference parser, in order, and no earlier packet's data changes |
| PacketFraming.PacketsReader.FinishPayload | apps/gateway/sockets/packets-reader.go:78-95 | the path with the header already counted as read: the buffer in place is filled from where it stands and handed out, or kept with what arrived |
| PacketFraming.PacketsReader.FillHeader | apps/gateway/sockets/packets-reader.go:46-55 | a header is complete after any number of partial reads and holds the next bytes of the stream |
| PacketFraming.PacketsReader.FillPayload | apps/gateway/sockets/packets-reader.go:78-88 | likewise for the payload |
| PacketFraming.PacketsReader.HeaderReady | apps/gateway/sockets/packets-reader.go:55-72 | the header is deciphered in place once; it is refused if and only if 256 times the first byte plus the second is below the opcode size, and otherwise that sum is the opcode size plus the payload size, and the opcode's bytes, low one first, follow |
| PacketFraming.PacketsReader.EnableEncryption | apps/gateway/sockets/packets-reader.go:107-109 | the bytes already buffered are kept, and the next complete header is deciphered |
| PacketFraming.RefusedExactlyWhenTooShort | apps/gateway/sockets/packets-reader.go:61-65 | in 32-bit wrapping arithmetic a size is refused if and only if the length field is below the opcode size, and is the plain difference otherwise |
| PacketFraming.ParseAllStep | apps/gateway/sockets/packets-reader.go:42-97 | the reference parser takes complete frames off the front, one by one, and stops at the first that is refused or incomplete |
| PacketFraming.FrameComplete | apps/gateway/sockets/packets-reader.go:55-95 | a header that was read and all of its payload are one complete frame of the reference parser |
| PacketFraming.ParsedMeans | apps/gateway/sockets/packets-reader.go:55-95 | conversely a complete frame of the reference parser is a header whose two length bytes count opcode and data, the opcode low byte first, the data, and the rest of the stream |
| PacketFraming.EncodedFramesParse | apps/gateway/sockets/packets-reader.go:42-97 | for every list of frames, enciphered header by header, parsing what a sender wrote gives back the frames, then whatever follows them |
| PacketFraming.EncodedFrameParses | apps/gateway/sockets/packets-reader.go:55-95 | the same for one frame |
| PacketFraming.SegmentOfHeader | apps/gateway/sockets/packets-reader.go:57-59 | the k-th header uses the k-th segment of the keystream; payloads use none |
| PacketFraming.DecipherInverts | apps/gateway/sockets/packets-reader.go:57-59 | deciphering undoes enciphering at the same keystream position |
| PacketFields.BodyRoundTrip | apps/gateway/packet/writer.go:42-155 | for every list of typed fields in range, writing and then reading with the same kinds gives the same values, no error, and leaves exactly the bytes that follow, if and only if every string is free of NUL bytes |
| PacketFields.WriteThenRead | apps/gateway/packet/reader.go:23-175 | the same for the two objects: what a writer wrote a reader reads back, with nothing left |
| PacketFields.TruncatedBodyFails | apps/gateway/packet/reader.go:23-175 | reading any proper prefix of a written body with the same kinds ends in an error, if the last field is no string and no string holds a NUL |
| PacketFields.TruncatedReadFails | apps/gateway/packet/reader.go:23-175 | of any bytes: a list of reads that ends in no string and succeeds on the bytes succeeds on a prefix of them if and only if the prefix holds all the bytes it consumed, and then with the same values; on a shorter one it ends in an error |
| PacketFields.NulHidesTruncation | apps/gateway/packet/reader.go:113-136 | a concrete body whose string holds a NUL and of which a proper prefix reads without an error |
| PacketFields.FieldRoundTrip | apps/gateway/packet/writer.go:42-155 | the round trip of one field of each kind |
| PacketFields.StringRoundTrip | apps/gateway/packet/reader.go:113-136 | a string comes back whole if and only if it has no NUL byte |
| PacketFields.StringStops | apps/gateway/packet/reader.go:118-135 | of any bytes the string is what precedes the first NUL, which is skipped, or everything |
| PacketFields.GuidRoundTrip | apps/gateway/packet/reader.go:160-172 | unpacking a mask and its bytes gives the GUID back, for every 64-bit GUID and whatever follows |
| PacketFields.GuidCanonical | apps/gateway/packet/reader.go:160-172 | a mask and its bytes are unpacked if and only if enough bytes follow, and the GUID is packed again as the same mask and bytes if and only if none of them is zero |
| PacketFields.PackedLayout | apps/gateway/packet/writer.go:140-154 | bit i of a packed GUID's mask is set if and only if byte i of the GUID is not zero, and the bytes follow in that order, none of them zero |
| PacketFields.UnpackedLayout | apps/gateway/packet/reader.go:160-172 | of any mask and bytes that are read whole, byte i of the GUID is the next of the bytes if bit i is set and zero otherwise, and exactly those bytes are consumed |
| PacketFields.PackedGuidLength | apps/gateway/packet/writer.go:140-154 | a packed GUID takes one byte more than it has non-zero bytes |
| PacketFields.GuidSizes | apps/gateway/packet/writer.go:144-152 | the mask has as many bits as there are bytes written, and fits one byte |
| PacketFields.PackingStep | apps/gateway/packet/writer.go:144-152 | one turn of the packing loop keeps mask and bytes those of the part of the GUID consumed so far |
| PacketFields.ShiftedStep | apps/gateway/packet/reader.go:160-172 | one turn of the unpacking loop keeps the accumulated value the low bytes of the result |
| PacketFields.ErrorSticks | apps/gateway/packet/reader.go:23-26 | after an error every read yields the zero value, consumes nothing and keeps the error |
| PacketFields.BooleanFromByte | apps/gateway/packet/reader.go:93-101 | a byte reads as true if and only if it is not zero |
| PacketFields.Writer.Pack | apps/gateway/packet/writer.go:140-154 | the in-place array holds the mask and then exactly the non-zero bytes |
| PacketFields.Writer.GUID | apps/gateway/packet/writer.go:135-155 | appends a mask byte and the GUID's non-zero bytes in the mask's order |
| PacketFields.Writer.Uint | apps/gateway/packet/writer.go:42-101 | appends as many bytes as the width, which denote the number with the low byte first |
| PacketFields.Writer.Int | apps/gateway/packet/writer.go:71-109 | the same for a signed number in two's complement |
| PacketFields.Writer.Bool | apps/gateway/packet/writer.go:50-61 | appends the byte 1 or 0 |
| PacketFields.Writer.String | apps/gateway/packet/writer.go:111-117 | appends the bytes and a NUL |
| PacketFields.Reader.Uint | apps/gateway/packet/reader.go:33-101 | with no earlier error: if the width is left, that many bytes are consumed, they denote the result low byte first, and there is no error; otherwise the result is 0, nothing is left, and the error is end of file if nothing was left before and unexpected end of file if something was. After an error the result is 0 and nothing changes |
| PacketFields.Reader.Int | apps/gateway/packet/reader.go:23-91 | the same in two's complement |
| PacketFields.Reader.String | apps/gateway/packet/reader.go:113-136 | never sets an error; the result is what precedes the first NUL, which is consumed, or everything that is left |
| PacketFields.Reader.GUID | apps/gateway/packet/reader.go:146-175 | with no earlier error: succeeds if and only if a mask byte and as many bytes as it has set bits are left; then byte i of the GUID is the next of them if bit i is set and zero otherwise; a failure yields 0 and end of file |
| PacketFields.Reader.Unpack | apps/gateway/packet/reader.go:160-172 | the unpacking loop computes the recursive reference, including where it runs out of bytes |
| PacketFields.WriteBody | apps/gateway/packet/writer.go:42-155 | writing a list of fields appends their bytes in order |
| PacketFields.ReadBody | apps/gateway/packet/reader.go:23-175 | reading a list of kinds is the reference reader on the remaining bytes |
| Bytes.LittleEndianRoundTrip | apps/gateway/packet/reader.go:33-71 | the little-endian bytes of a number denote the number |
| Bytes.LittleEndianDenotes | apps/gateway/packet/reader.go:33-71 | the number read from 1, 2, 4 or 8 bytes is the sum of the bytes times the powers of 256, the first byte lowest |
| Bytes.LittleEndianBytesDenote | apps/gateway/packet/writer.go:42-69 | the bytes written for a number denote it in the same way |
| GroupSlices.EveryRunReadsExactly | apps/groupserver/service/group-cache_inmem.go:47-53 | in every state of every run of the cache operations the group read for a player is g, non-zero, if and only if the player is in the member list of g, however stale the pointers are |
| GroupSlices.GroupReadIsExact | apps/groupserver/service/group-cache_inmem.go:47-53 | the same for any state that satisfies the invariant |
| GroupSlices.StepKeepsOk | apps/groupserver/service/group-cache_inmem.go:55-208 | every operation keeps lists and index exact, and every pointer leading to a slot that carries its player's group |
| GroupSlices.StepKeepsCurrentExactly | apps/groupserver/service/group-cache_inmem.go:23-26 | when every pointer is the player's own slot, an operation keeps it so if and only if it neither appends past the capacity of a non-empty list nor removes anyone but the last member |
| GroupSlices.StillRunsStayCurrent | apps/groupserver/service/group-cache_inmem.go:23-26 | as long as nothing is reallocated or shifted, every indexed pointer is the player's own slot |
| GroupSlices.StillRunsShowLogins | apps/groupserver/service/group-cache_inmem.go:180-208 | in such runs every login and logout is visible in the group's list |
| GroupSlices.LoginLostAfterReallocation | apps/groupserver/service/group-cache_inmem.go:108-119 | a concrete group in which an addition reallocates the list and the next login is lost |
| GroupSlices.OnlineSetEffect | apps/groupserver/service/group-cache_inmem.go:180-208 | a login changes at most the one entry in the slot that is pointed at, and the player's own entry if and only if the pointer is current |
| GroupSlices.MemberUpdatedEffect | apps/groupserver/service/group-cache_inmem.go:121-142 | an update replaces exactly the player's entry, makes the pointer current and touches no other |
| GroupSlices.MemberAddedEffect | apps/groupserver/service/group-cache_inmem.go:108-119 | an addition appends; a pointer stays current if and only if it was and the slice had room or belongs to another group |
| GroupSlices.MemberAddedAllCurrent | apps/groupserver/service/group-cache_inmem.go:114 | after an addition every pointer is current if and only if there was room or the list was empty |
| GroupSlices.MemberRemovedEffect | apps/groupserver/service/group-cache_inmem.go:144-170 | a removal takes out exactly the player and keeps the order; pointers all stay current if and only if the player was last |
| GroupSlices.CreatedEffect | apps/groupserver/service/group-cache_inmem.go:55-71 | a new group is listed as given, all its players indexed by current pointers, other groups untouched |
| GroupSlices.DeletedEffect | apps/groupserver/service/group-cache_inmem.go:73-94 | a deletion removes the group and exactly its players from the index |
| GroupSlices.AddedReadsExactly | apps/groupserver/service/group-cache_inmem.go:108-119 | after an addition group lookup is still exact if and only if the player was in no other group |
| GroupSlices.CreatedReadsExactly | apps/groupserver/service/group-cache_inmem.go:55-71 | after a creation group lookup is still exact if and only if none of the new group's players was in a group |
| GroupSlices.IndexedPlayerIs | apps/groupserver/service/group-cache_inmem.go:64-66 | after the indexing loop a listed player has an entry for a slot that carries the player, and anyone else the old entry |
| GroupCache.GroupsCache.GroupIDByPlayer | apps/groupserver/service/group-cache_inmem.go:47-53 | reads through the pointer and returns g, non-zero, if and only if the player is in the list of g |
| GroupCache.GroupsCache.GroupByID | apps/groupserver/service/group-cache_inmem.go:40-45 | the live list of the group, or nothing |
| GroupCache.GroupsCache.Create | apps/groupserver/service/group-cache_inmem.go:55-71 | a failed write changes nothing, a successful one performs the specified creation on the heap, and the cache stays valid if the members are in no group yet |
| GroupCache.GroupsCache.IndexMembers | apps/groupserver/service/group-cache_inmem.go:64-66 | the loop points the index at every slot of the group's own array |
| GroupCache.GroupsCache.Delete | apps/groupserver/service/group-cache_inmem.go:73-94 | performs the specified deletion |
| GroupCache.GroupsCache.AddMember | apps/groupserver/service/group-cache_inmem.go:108-119 | appends in place while there is capacity and otherwise in a new array, exactly as specified, also for a player who is in a group already; for anyone else the cache stays valid |
| GroupCache.GroupsCache.Append | apps/groupserver/service/group-cache_inmem.go:114 | the slice append with its two cases; the old array is left as it was on reallocation |
| GroupCache.GroupsCache.UpdateMember | apps/groupserver/service/group-cache_inmem.go:121-142 | the linear search and overwrite perform the specified update |
| GroupCache.GroupsCache.RemoveMember | apps/groupserver/service/group-cache_inmem.go:144-170 | group found through the possibly stale pointer, member found by search, list shifted in place, as specified |
| GroupCache.ShiftLeft | apps/groupserver/service/group-cache_inmem.go:162 | the in-place shift leaves the later entries one slot lower and the last slot as it was |
| GroupCache.GroupsCache.SetOnline | apps/groupserver/service/group-cache_inmem.go:180-208 | writes the flag through the pointer, as specified |
| GroupCache.GroupsCache.Warmup | apps/groupserver/service/group-cache_inmem.go:210-229 | afterwards the cache holds exactly the loaded groups with their lists and every pointer is current |
| GroupCache.NextIsNew | apps/groupserver/service/group-cache_inmem.go:221-226 | each further loaded group is new to the cache and brings only new players |
| ChannelState.EveryRunHasOneOwner | apps/chatserver/service/channel-manager.go:210-318 | in every run from an empty channel with ownership on, under any pattern of failed writes, a non-empty channel has exactly one member with the owner flag and it is ownerGUID |
| ChannelState.StepKeepsOneOwner | apps/chatserver/service/channel-manager.go:546-590 | every operation, including logout transfer and pruning, keeps exactly one owner |
| ChannelState.StepHasEffect | apps/chatserver/service/channel-manager.go:210-414 | what every operation does in terms of the stored data alone: which members, rows and bans come and go, which bit of whose flags is set (0x01 owner, 0x02 moderator, 0x08 muted) or cleared while the other bits and the name stay, whose row follows, who becomes owner, and that everything else is as before |
| ChannelState.SuccessorIsModerator | apps/chatserver/service/channel-manager.go:288-315 | an automatic successor is a moderator whenever a remaining member is one |
| ChannelState.EveryRunIsBacked | apps/chatserver/service/channel-manager.go:253-315 | under any failed writes every member has a row with the same name and flags except possibly the owner bit; without prunes there are no other rows |
| ChannelState.StepKeepsBacked | apps/chatserver/service/channel-manager.go:363-414 | the same for one operation |
| ChannelState.StepKeepsRowsExactly | apps/chatserver/service/channel-manager.go:1005-1025 | while the rows are an exact copy of the members an operation keeps them so if and only if no write fails whose failure is only logged or undone in memory alone |
| ChannelState.FaultlessRunsAreCopied | apps/chatserver/service/channel-manager.go:1190-1231 | without failures members, flags and bans in the database are exact copies in every run |
| ChannelState.NoMemberIsBanned | apps/chatserver/service/channel-manager.go:210-226 | in every run whose kicks reach the database no member has an unexpired ban |
| ChannelState.BanKeepsOutExactly | apps/chatserver/service/channel-manager.go:663-696 | a ban by name keeps banned players out of the member list if and only if its kick reaches the database: the ban is set either way |
| ChannelState.UnbanLiftsNothing | apps/chatserver/service/channel-manager.go:699-724 | in such runs unbanning by name changes nobody's ban status |
| ChannelState.ReloadRestores | apps/chatserver/service/channel-manager.go:166-195 | loading an exact copy gives back the members, the owner and every live ban |
| ChannelState.LogoutThenReload | apps/chatserver/service/channel-manager.go:1005-1025 | after the owner's logout a reload finds exactly one owner if and only if both flag writes succeeded or both failed |
| ChannelState.LastOwnerIs | apps/chatserver/service/channel-manager.go:173-180 | the load finds the one flagged row, in whatever order the rows come |
| ChannelState.LastOwnerIsLast | apps/chatserver/service/channel-manager.go:173-180 | of any rows the owner found is the last one that carries the bit, or 0 when none does |
| ChatChannel.ActiveChannel.JoinChannel | apps/chatserver/service/channel-manager.go:210-263 | a live ban, a wrong password or membership change nothing; otherwise the player is a member with a row, owner bit if first in a channel with owners, moderator bit if on the rights list, and no other bit; a failed save undoes all but ownerGUID; everybody else is as before |
| ChatChannel.ActiveChannel.LeaveChannel | apps/chatserver/service/channel-manager.go:267-318 | the member and the row go, or neither when the deletion fails; if the owner leaves others behind a successor, a moderator if there is one, gets the owner bit and ownerGUID, and the row follows if its write succeeds; nobody else changes |
| ChatChannel.ActiveChannel.FindSuccessor | apps/chatserver/service/channel-manager.go:288-303 | for every iteration order finds a moderator if there is one, else anybody, and nobody only if nobody is left |
| ChatChannel.ActiveChannel.SetMemberFlag | apps/chatserver/service/channel-manager.go:363-414 | on success the member's bit is set or cleared as told, in memory and in the row if there is one; its other bits and everybody else are as before; on failure nothing changes |
| ChatChannel.ActiveChannel.SetOwnerGUID | apps/chatserver/service/channel-manager.go:546-590 | on success the player is ownerGUID and has the owner bit, a different old owner among the members has lost it, and both rows follow; when only the second write fails memory is as before and the old owner's row stays without the bit; otherwise nothing changes |
| ChatChannel.ActiveChannel.TransferOnLogout | apps/chatserver/service/channel-manager.go:966-1049 | when the owner logs out of a channel with other members it loses the bit and a successor, a moderator if there is one, gets it and ownerGUID; each row follows if its write succeeds; otherwise nothing changes |
| ChatChannel.ActiveChannel.PruneOfflineMembers | apps/chatserver/service/channel-manager.go:1179-1236 | exactly the offline members leave memory, and their rows unless the deletion fails; if the owner is offline a successor takes over, or ownerGUID becomes 0 |
| ChatChannel.ActiveChannel.BanPlayerByName | apps/chatserver/service/channel-manager.go:663-696 | a member with bit 0x01 or 0x02 removes the named member as in a leave and bans it until 3153600000 seconds from now, the ban row if its write succeeds; otherwise nothing changes |
| ChatChannel.ActiveChannel.UnbanPlayerByName | apps/chatserver/service/channel-manager.go:699-724 | a member with bit 0x01 or 0x02 lifts the ban of the named member, and the ban row if the deletion succeeds; otherwise nothing changes |
| ChatChannel.ActiveChannel.FindMemberByName | apps/chatserver/service/channel-manager.go:351-360 | a member of that name, or 0 if and only if there is none |
| ChatChannel.ActiveChannel.Load | apps/chatserver/service/channel-manager.go:153-195 | members are the rows, bans exactly the ban rows that have not expired, and the owner is the last row in query order with bit 0x01, or nobody |
| GuidAllocator.RangesPartition | apps/guidserver/repo/redis-max-guid-storage.go:94-130 | for any interleaving of any number of clients the committed ranges are pairwise disjoint and are together exactly the GUIDs from the initial value up to the current one |
| GuidAllocator.GrantedRangesCover | apps/guidserver/repo/redis-max-guid-storage.go:94-130 | every GUID up to the current value is held by a caller or lost with a reply, never both; the granted ranges cover everything if and only if no non-empty commit lost its reply |
| GuidAllocator.GrantsAreDistinct | apps/guidserver/repo/redis-max-guid-storage.go:115-120 | no two successful calls hold the same commit |
| GuidAllocator.ExhaustedWasOvertaken | apps/guidserver/repo/redis-max-guid-storage.go:115-129 | a call that exhausts its retries committed nothing and was overtaken by at least that many commits of others |
| GuidAllocator.EveryRunKeepsInv | apps/guidserver/repo/redis-max-guid-storage.go:94-130 | in every run the log of commits is a chain and every client in flight knows how often it was overtaken |
| GuidAllocator.ChainPartitions | apps/guidserver/repo/redis-max-guid-storage.go:104 | without overflow a chain of commits splits the numbers into consecutive ranges |
| GuidAllocator.IncreaseKey | apps/guidserver/repo/redis-max-guid-storage.go:94-130 | whatever others commit between WATCH and GET and between GET and EXEC of each attempt, the retry loop commits at the first attempt nobody disturbs, on top of everything committed before it, and otherwise leaves only the others' work |
| GuidAllocator.RoundsAppend | apps/guidserver/repo/redis-max-guid-storage.go:115-127 | the value after one more round of others' commits |
| UpdatesBarrier.OnlineCacheExact | apps/gateway/service/characters-updates-barrier.go:42-120 | for any run of updates and ticks, including sends that fail after some batches, after each successful tick the view of a character cached since the start is the in-order fold of all raw updates: its level, map and zone are each those of the last raw update of it that carries one, or else as at the start |
| UpdatesBarrier.FriendsCacheExact | apps/charserver/service/friends-cache.go:129-153 | the same for the friends cache, for updates that come from the barrier's three entry points: the level is that of the last update with a level, the area the zone, or without one the area, of the last update that carries either |
| UpdatesBarrier.OnlineFieldsAreLast | apps/charserver/repo/online-characters_inmem.go:178-191 | the fold of any updates sets level, map and zone each to the value of the last update of that character that carries one |
| UpdatesBarrier.FriendFieldsAreLast | apps/charserver/service/friends-cache.go:134-150 | likewise for level and area of the friends cache, where a zone takes the area's place |
| TrackedUpdates.CacheExactAfterTick | apps/gateway/service/characters-updates-barrier.go:42-120 | with logins and logouts between the updates and ticks, after each successful tick the whole cache is what the raw updates alone would have made it, if every login was settled: no update of that character was buffered, or the login view reflects it |
| TrackedUpdates.IdealSinceLogin | apps/charserver/repo/online-characters_inmem.go:118-152 | in every run the ideal view of a character is its last login view and then every raw update of it since |
| TrackedUpdates.CachedWhileLoggedIn | apps/charserver/repo/online-characters_inmem.go:118-120 | in every run a character is cached if and only if a login of it came after its last logout |
| TrackedUpdates.OnlineEndsShowingLast | apps/charserver/repo/online-characters_inmem.go:142-152 | after a settled run that ends in a successful tick each online character shows level, map and zone of the last raw update since its login that carries one, or else its login view |
| TrackedUpdates.FriendsEndShowingLast | apps/charserver/service/friends-cache.go:129-153 | the same for level and area in the friends cache |
| TrackedUpdates.StepCatchesUpExactly | apps/charserver/repo/online-characters_inmem.go:118-152 | every step keeps the cache catching up with the raw updates, a login if and only if it is settled |
| TrackedUpdates.LoginSurvivesTickExactly | apps/charserver/repo/online-characters_inmem.go:118-120 | after the next successful tick the cache shows the login view if and only if the login was settled |
| TrackedUpdates.FollowFriends | apps/charserver/service/friends-cache.go:129-153 | the barrier's loop and the friends cache object, over any inputs, take exactly these steps; the object holds exactly the players logged in, and after a final successful tick of a settled run each shows the level and area of the last raw updates since its login; no tick fails unless a publish does |
| TrackedUpdates.FollowOnline | apps/charserver/repo/online-characters_inmem.go:118-152 | the same for the online-characters cache with its two indexes and shared characters |
| TrackedUpdates.DeliverToFriends | apps/charserver/service/friends-cache.go:129-153 | handling batches one by one is applying their concatenation |
| TrackedUpdates.DeliverToOnline | apps/charserver/repo/online-characters_inmem.go:142-152 | likewise for the online characters |
| UpdatesBarrier.RunInStep | apps/gateway/service/characters-updates-barrier.go:42-63 | at every moment of every run, what was delivered followed by the buffer acts like the raw updates, on every consumer that coalesces |
| UpdatesBarrier.FriendMergeExactly | apps/gateway/service/characters-updates-barrier.go:102-120 | merging two updates acts on the friends cache like the two updates if and only if the earlier one has no zone, or the later one has a zone or no area, or its area is that zone |
| UpdatesBarrier.OnlineCoalesces | apps/gateway/service/characters-updates-barrier.go:102-120 | merging acts like the sequence, and resending is harmless, for the online cache |
| UpdatesBarrier.FriendCoalesces | apps/gateway/service/characters-updates-barrier.go:34-36 | the same for the friends cache when areas come with zones |
| UpdatesBarrier.ResendHarmless | apps/gateway/service/characters-updates-barrier.go:49-54 | delivering part of the buffer and then the buffer is delivering the buffer |
| UpdatesBarrier.AbsorbActsLikeUpdate | apps/gateway/service/characters-updates-barrier.go:56-60 | merging an update into the buffer acts like appending it |
| UpdatesBarrier.AfterAppend | apps/charserver/repo/online-characters_inmem.go:142-152 | applying one batch and then another is applying both in order |
| UpdatesBarrier.Send | apps/gateway/service/characters-updates-barrier.go:65-100 | every batch but the last has exactly 1002 updates; on success each buffered update is in exactly one batch, on failure what was delivered was buffered; it fails if and only if a publish does, and stops at that one |
| UpdatesBarrier.Run | apps/gateway/service/characters-updates-barrier.go:42-63 | the loop over any events is a run of the steps above, event by event: updates are buffered, a tick sends and empties the buffer or, only if a publish fails, keeps it; no batch exceeds 1002 updates |
| UpdatesBarrier.OnlinePlayersCache.HandleCharactersUpdates | apps/charserver/service/friends-cache.go:129-153 | each player online gets the in-order fold of the batch: the level of the last update that carries one, and of the last update with a zone or area the zone if it has one, else the area; nobody comes or goes |
| OnlineCharacters.EveryInterleavingMirrors | apps/charserver/repo/online-characters_inmem.go:24-53 | with one fixed name per GUID, unique up to case, the two indexes are exact mirrors after any interleaving of additions, gateway purges and second halves of removals |
| OnlineCharacters.AddedMirrorsExactly | apps/charserver/repo/online-characters_inmem.go:24-34 | an addition keeps the mirror if and only if neither a rename nor a shared name is cached |
| OnlineCharacters.ForgottenMirrorsExactly | apps/charserver/repo/online-characters_inmem.go:44-51 | the second half of a removal keeps the mirror if and only if the looked-up name is still the character's, or neither key is cached |
| OnlineCharacters.DroppedIsPurged | apps/charserver/repo/online-characters_inmem.go:161-172 | deleting a gateway's GUIDs from both indexes deletes exactly that gateway's characters from both |
| OnlineCharacters.CharactersOnline.Add | apps/charserver/repo/online-characters_inmem.go:24-34 | enters the character under both keys of its realm and nothing else |
| OnlineCharacters.CharactersOnline.RemoveLocked | apps/charserver/repo/online-characters_inmem.go:44-52 | deletes the two keys |
| OnlineCharacters.CharactersOnline.Remove | apps/charserver/repo/online-characters_inmem.go:36-53 | when nothing comes between its halves exactly this character leaves both indexes |
| OnlineCharacters.CharactersOnline.OneByRealmAndName | apps/charserver/repo/online-characters_inmem.go:69-81 | finds the character whose name agrees up to case, the same that the GUID index has |
| OnlineCharacters.CharactersOnline.RemoveAllWithGatewayID | apps/charserver/repo/online-characters_inmem.go:154-176 | exactly the gateway's characters of the realm leave both indexes and are reported |
| OnlineCharacters.CharactersOnline.HandleCharactersUpdates | apps/charserver/repo/online-characters_inmem.go:142-152 | every cached character, in place, shows level, map and zone of the last update of the batch for it that carries one, or else the old value |
| ChannelHub.EveryRunInStep | apps/gateway/events-broadcaster/chat-channels.go:148-221 | after any sequence of logins, joins, leaves, broadcasts and logouts: p is in c's members if and only if c is in p's entry, no entry is empty, every indexed player has a stream of at most 32 events, and each session's keys are exactly its player's entry |
| ChannelHub.StepKeepsInStep | apps/gateway/session/channels.go:87-119 | the same for one operation |
| ChannelHub.BroadcastReachesExactly | apps/gateway/events-broadcaster/chat-channels.go:178-200 | a broadcast appends to exactly the members' streams that hold fewer than 32 events; every member has a stream |
| ChannelHub.PlayerAddedPairs | apps/gateway/events-broadcaster/chat-channels.go:148-160 | a join keeps the pairing, adds exactly one channel to one player, opens an empty stream if the player has none and leaves all others as they are |
| ChannelHub.PlayerRemovedPairs | apps/gateway/events-broadcaster/chat-channels.go:162-176 | a leave keeps the pairing, takes exactly one channel from one player and leaves every stream as it is |
| ChannelHub.DisconnectedPairs | apps/gateway/events-broadcaster/chat-channels.go:202-221 | after a disconnect the player is in no channel and has no entry; exactly its stream is gone; other players keep their channels |
| ChannelHub.ChatChannelsService.AddPlayerToChannel | apps/gateway/events-broadcaster/chat-channels.go:148-160 | performs the specified join; the stream is the registered one and stays the same object |
| ChannelHub.ChatChannelsService.RemovePlayerFromChannel | apps/gateway/events-broadcaster/chat-channels.go:162-176 | performs the specified leave, also on a channel that does not exist |
| ChannelHub.ChatChannelsService.BroadcastToChannel | apps/gateway/events-broadcaster/chat-channels.go:178-200 | performs the specified broadcast without blocking, and sends to open streams only |
| ChannelHub.ChatChannelsService.DisconnectPlayer | apps/gateway/events-broadcaster/chat-channels.go:202-221 | performs the specified disconnect and closes the player's stream |
| StreamClosing.SendPanicsExactly | apps/gateway/events-broadcaster/chat-channels.go:184-199 | at the grain of the locks: a send meets a closed stream, and panics, if and only if the player was disconnected after the broadcast fetched the stream, whether or not the player is back |
| StreamClosing.FetchedStream | apps/gateway/events-broadcaster/chat-channels.go:33-49 | a fetched stream is the player's registered one until the first disconnect and closed from then on |
| StreamClosing.AtomicSendsNeverPanic | apps/gateway/events-broadcaster/chat-channels.go:178-200 | no send panics when each follows its fetch directly |
| StreamClosing.EveryRunKeepsInv | apps/gateway/events-broadcaster/chat-channels.go:20-49 | registered streams are open and no two players share one |
| ChannelHub.ChannelMembership.AddChannel | apps/gateway/session/channels.go:87-98 | the session's keys and the service's entry gain the same lower-cased channel, and the session reads the registered stream |
| ChannelHub.ChannelMembership.RemoveChannel | apps/gateway/session/channels.go:115-119 | both lose the same channel |
| RealmCharacters.EveryRunMirrors | apps/chatserver/repo/characters_inmem.go:33-84 | with fixed names the two text-keyed indexes mirror each other after any run of additions, removals and realm purges |
| RealmCharacters.CharactersInMemRepo.RemoveCharactersWithRealm | apps/chatserver/repo/characters_inmem.go:65-84 | the purge by key prefix removes exactly the realm's characters from both indexes |
| RealmCharacters.PrefixIsRealm | apps/chatserver/repo/characters_inmem.go:66-75 | a name key starts with a realm's prefix if and only if it is a key of that realm |
| RealmCharacters.GuidKeyInjective | apps/chatserver/repo/characters_inmem.go:86-88 | different realm or GUID, different key |
| RealmCharacters.NameKeyInjective | apps/chatserver/repo/characters_inmem.go:90-92 | name keys agree if and only if the realms are equal and the names agree up to case |
| RealmCharacters.AddedMirrorsExactly | apps/chatserver/repo/characters_inmem.go:33-39 | an addition keeps the mirror if and only if neither a rename nor a shared name is cached |
| RealmCharacters.RemovedMirrors | apps/chatserver/repo/characters_inmem.go:41-51 | a removal takes exactly the character out of both indexes |
| RealmCharacters.CharactersInMemRepo.AddCharacter | apps/chatserver/repo/characters_inmem.go:33-39 | enters the character under its GUID key and its name key and changes no other key |
| RealmCharacters.CharactersInMemRepo.RemoveCharacter | apps/chatserver/repo/characters_inmem.go:41-51 | the GUID key goes, and while the indexes mirror each other exactly the name keys of that character go with it |
| RealmCharacters.DeletedIsWithoutRealm | apps/chatserver/repo/characters_inmem.go:73-82 | what the two deletion loops leave is what belongs to other realms |
| ModeratorList.StoreThenLoad | apps/chatserver/repo/channels_mysql.go:267-304 | for every list of 32-bit numbers, storing it and loading it gives the list without its zeros, in order |
| ModeratorList.LoadStoreLoad | apps/chatserver/repo/channels_mysql.go:267-304 | for every string, loading, storing and loading again gives the same moderators |
| ModeratorList.PrintModerators | apps/chatserver/repo/channels_mysql.go:291-304 | the stored string loads as the list without its zeros |
| ModeratorList.ParseModerators | apps/chatserver/repo/channels_mysql.go:267-286 | the moderators of any string are non-zero 32-bit numbers, malformed parts skipped |
| ModeratorList.SplitJoined | apps/chatserver/repo/channels_mysql.go:269 | splitting at commas undoes joining comma-free parts |
| ModeratorList.SplitIs | apps/chatserver/repo/channels_mysql.go:269 | of any string the parts hold no comma and joined with commas are the string |
| ModeratorList.TrimmedIs | apps/chatserver/repo/channels_mysql.go:272 | trimming takes white space off both ends, leaves none there, and changes nothing else |
| ModeratorList.ParsedExactly | apps/chatserver/repo/channels_mysql.go:271-286 | a part yields a moderator if and only if it is white space, the decimal digits of a number that is not zero and fits 32 bits, and then nothing that starts with a digit; any other part yields none |
| Decimal.NumberedPrefix | apps/chatserver/repo/characters_inmem.go:66 | a number followed by a separator is a prefix of another's text if and only if the numbers are equal |
| Decimal.ScanPrinted | apps/chatserver/repo/channels_mysql.go:279 | scanning a printed number gives the number if it is in range and nothing otherwise |
| Decimal.DigitsRoundTrip | apps/chatserver/repo/channels_mysql.go:302 | the value of the decimal text of a number is the number |
| Decimal.DigitsAppend | apps/chatserver/repo/channels_mysql.go:302 | the text of 10 n + d is the text of n followed by the digit d |
| FriendLimits.EveryRunBounded | apps/charserver/service/friends.go:141-172 | with at most k calls in flight, interleaved with any removals and failed inserts, neither list ever has more than 49 + k rows nor a row of the player itself |
| FriendLimits.BoundAttained | apps/charserver/service/friends.go:163-169 | for every player, list and k there is a run from the empty list that ends with exactly 49 + k rows: the bound is exact |
| FriendLimits.NewcomerPasses | apps/charserver/service/friends.go:147-166 | with at most 49 rows a call for a new player passes the check |
| FriendLimits.StepKeepsBounded | apps/charserver/service/friends.go:235-268 | rows plus passed checks never exceed 49 + k, whatever step comes next |
| FriendLimits.CheckLimit | apps/charserver/service/friends.go:142-166 | the loop answers: self if and only if the player adds itself; already if and only if the row is there; full if and only if it is not and 50 rows of the kind are; and otherwise proceed |
| FriendLimits.PendingUpdate | apps/charserver/service/friends.go:153-169 | one call's progress changes the number of passed checks by exactly its own |
| AuthSession.Session.ListenAndProcess | apps/authserver/session/authsession.go:96-156 | the loop handles the requests turn by turn until one does not go on; the accepted bytes are those of the first requests and a prefix of 0, 1s, 0x10s or of 2, 3, 0x10s, the last 1 before a 0x10 being a right proof; the account never changes identity; an authenticated status implies a right proof for that account; the process crashes if and only if a reconnect challenge for a name without an account is followed by a reconnect proof |
| AuthSession.Session.Dispatch | apps/authserver/session/authsession.go:125-154 | a request is accepted if and only if its byte is 0 or 2 awaiting a challenge, 1 awaiting a logon proof, 3 awaiting a reconnect proof, or 0x10 authenticated; what status, account and outcome each leads to is stated in the request's own terms; any other byte ends the session unchanged |
| AuthSession.Session.HandleLogonChallenge | apps/authserver/session/authsession.go:255-323 | the session waits for a proof if and only if the payload arrives, the account exists and the answer is sent |
| AuthSession.Session.HandleLogonProof | apps/authserver/session/authsession.go:325-380 | authenticated if and only if the proof is right and every write succeeds; a wrong proof leaves the session waiting |
| AuthSession.Session.HandleReconnectChallenge | apps/authserver/session/authsession.go:158-219 | waits for the reconnect proof once the account lookup succeeds |
| AuthSession.Session.HandleReconnectProof | apps/authserver/session/authsession.go:221-253 | authenticated if and only if the proof is right for the account and the answer is sent; a crash if and only if the proof arrives and there is no account |
| AuthSession.Session.HandleRealmList | apps/authserver/session/authsession.go:382-445 | answers and stays authenticated, or ends the session |
| AuthSession.AfterRealmList | apps/authserver/session/authsession.go:382-445 | a realm list keeps the shape of the log and the proof in it |
| AuthSession.StatusShows | apps/authserver/session/authsession.go:59-65 | the status alone tells the shape of everything accepted so far |
| AuthSession.ShapeOrdersOpcodes | apps/authserver/session/authsession.go:47-65 | a log of such a shape has its bytes in that order |

## Left out

- All transport: gRPC, NATS, HTTP, SQL text and Redis commands; a database is a map whose writes may fail, a
  publish a call that succeeds or fails, Redis a key with steps for WATCH, GET and EXEC.
- The stream cipher, the password protocol and their hashes: the cipher is any keystream of invertible byte
  maps, a proof is an uninterpreted predicate.
- Cancellation of the worker pool (`shared/healthandmetrics/health-checker.go:113-129`): runs are over a live context.
- PacketFraming.PacketsReader.Next: does not model a read that returns both bytes and an error.
- PacketFraming.RefusedExactlyWhenTooShort: does not cover opcode sizes other than 2 or at least 4 (the program
  uses 2 and 4): with size 3 the source reads past its header.
- `Float32`, `Bytes`, the generic `Read` and `SetByteOrder` of the packet reader and writer: no arithmetic of their own.
- `Update` of the group cache: the program passes the pointer that is already cached, so it changes nothing here.
- GroupCache.GroupsCache.AddMember: does not model Go's growth policy; the number of spare slots is a parameter.
- GroupCache.GroupsCache.RemoveMember: requires the player to be indexed; for anyone else the source dereferences a
  missing group.
- Kicks, mutes and owner changes by name: permission checks in front of operations that are modelled.
- Announcements, moderation mode, passwords in the database and cross-instance channel events.
- GuidAllocator.RangesPartition: does not model wrap-around of the total past 64 bits, for which it is false.
- ChatChannel.ActiveChannel.TransferOnLogout: does not model the outer loop over the channels of a realm, each of which is
  treated by itself under its own lock.
- The timing of the initial channel list (`apps/gateway/session/channels.go:100-112`) and wall clocks beyond
  a clock that does not go back.
- ChannelHub.EveryRunInStep: takes each operation as a whole; the parts that a broadcast and a disconnect can
  interleave are modelled in StreamClosing.
- TrackedUpdates.CacheExactAfterTick: takes login and logout events and updates in the order in which the consumer
  handles them; reordering by the message bus is not part of this model.
- `WhoRequest`, realm list contents, configuration, loggers and the remaining session handlers.
- Case mapping of names is an arbitrary function; Unicode details of it are not part of this model.
- Foreign calls into the game server library.

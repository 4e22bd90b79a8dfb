# GenOS kernel core: a verified model

This project models the parts of the GenOS kernel whose correctness depends on whole runs rather than on single
functions, and proves their properties in Dafny 4.11. `dafny verify dfyconfig.toml` checks everything.

## What is modelled

**Passive TCP streams** (`SequenceNumbers`, `TcpStream`, `TcpReceiver`, `TcpSender`, `TcpEndpoint`, `TcpPair`,
`TcpHandshake`, `TcpOpening`, `TcpStack`, `TcpService`, `TcpRetirement`). `TcpStream` states what one segment, one poll
and one local call do to a slot; `TcpStack` holds the slots in an array, updates them in place and is proved to do exactly that. The receiver and the sender
are related to unbounded byte streams, then two endpoints are put across a network that loses, duplicates and reorders
segments. The segment-lifetime assumption (nothing in flight is 2^31 sequence numbers away) is a hypothesis of the theorems
about runs. `TcpOpening` starts the two endpoints from the handshake. `TcpService` bounds how long a slot waits for a poll, and
`TcpRetirement` bounds, over runs of the whole stack under a clock that never runs backwards, how long a stalled stream lives.

**Physical memory authority** (`FrameRegions`, `FrameAllocator`, `Authority`, `Ledger`, `Memory`). A bitmap allocator over
sorted regions, a generation-stamped grant ledger, and their composition. `Authority` is the meaning of both as one value;
the in-place objects follow it exactly.

**Page tables** (`PageTable`, `CloneTable`, `SplitTable`, `ProtectPage`, `SealTable`, `SealKernel`). Four-level tables as a
map from frame to 512 entries with one page walk. Cloning, huge-page splitting, tightening and sealing are proved against that
walk; `SealKernel` puts them together and shows that the sealed boot map satisfies the invariant below.

**User address spaces** (`UserPlaces`, `UserWorld`, `UserSteps`, `UserLifecycle`, `UserViews`, `UserTrees`, `UserTeardown`,
`UserDestroy`, `UserMap`, `UserSpace`, `UserBoot`). One invariant ties tables, grants and pins together: every table and every
mapped page of a space has a place (owner, level, position), every entry is the edge to the place below it or empty, and every
managed frame has a kernel alias with the right write permission. Create, allocate, map and destroy keep it, write nothing in
the kernel's tables but the aliases of the pages they map or release, and never make a leaf writable and executable; isolation
follows from the invariant. The assertions of the original are discharged: where it tests something that cannot fail, the
model asserts it.

**Wire formats** (`InternetChecksum`, `Ipv4Wire`, `Ipv6Wire`) and the **IPv6 host** (`Ipv6Host`): builders and parsers undo
each other, checksums are real mod-65535 arithmetic (RFC 1071, section 8.1 of RFC 8200), and duplicate address detection
(section 5.4 of RFC 4862) is proved over every run.

**Snapshots** (`Vfs`, `SnapshotChecksum`, `Snapshot`, `SnapshotSource`, `SnapshotMount`): the RAM file system, its on-disk
snapshot and its mount. Because nodes stay in insertion order, parents always precede children, so every encoding of a
reachable file system is accepted and restored.

**Receive descriptors** (`RxQueue`) and **round-robin selection** (`Scheduler`).

## How to read the model

- Machine integers are `int` with explicit wrap-around (`Wrap`, `% 0x1_0000`), saturation (`SaturatingAdd`) and bounds.
- Page-table entries are records of their fields instead of 64-bit words; bitmap words are sequences of 64 booleans.
- Clocks, device answers, random identifiers and memory contents are parameters. Sections run with interrupts masked are
  single steps. CR3 writes and INVLPG have no effect in the model beyond the active root.
- A grant in the address-space modules has no slot number: grants cannot be forged in the original, and the ledger modules
  prove the slot test separately.
- A space handle passed to map, allocate or destroy is one that a creation returned (`Issued`); its fields are private in
  the original. Every operation keeps all handles in this state (`Continues`, `UserMap.IssuedStays`), so "every reachable
  state" is every state reached from the constructor of `AddressSpaces` by its public methods, which all keep `Safe()`.
- The buffer size `USER_SOCKET_BUFFER_CAPACITY` is the constant 128, as in the source.

Two facts about the code that the proofs made precise:

- The test of the link-local address waits `DAD_TICKS` in every run exactly when its probe is sent at least `DAD_TICKS` before
  the end of the 64-bit clock (`Ipv6Host.LocalWaitExact`, and `LocalWaitsLess` for a run that waits less). The test of a
  global address always waits its whole time before the host is ready (`Ipv6Host.ReadyWasTested`).
- A refused mapping or creation restores every table, grant and pin, but generation and owner numbers it used up stay used.

## Model

| member | source | states |
|---|---|---|
| `SequenceNumbers.WindowExact` | kernel/src/network.rs:2514-2518 | the wrapped window test agrees with the test on unbounded stream indices, for indices less than 2^31 apart; a zero window admits exactly the next index |
| `SequenceNumbers.AfterExact` | kernel/src/network.rs:2503-2505 | the signed 32-bit comparison agrees with the order of stream indices less than 2^31 apart |
| `SequenceNumbers.DistanceShrinks` | kernel/src/network.rs:1678-1683 | advancing RCV.NXT by at most the gap to a deferred segment shortens the wrapped gap by exactly as much, across the 2^32 boundary |
| `TcpReceiver.StartReceives` | kernel/src/network.rs:1468-1531 | a stream started with early data and FIN satisfies the receiver invariant against the peer stream |
| `TcpReceiver.TakeInOrderKeeps` | kernel/src/network.rs:1691-1712 | in-order data goes to the buffer, closes the gap to a deferred segment exactly when it ends there, and what is held stays the contiguous prefix ending at RCV.NXT |
| `TcpReceiver.DeferKeeps` | kernel/src/network.rs:1713-1746 | a deferred segment extends the acknowledged prefix exactly when it is contiguous, and otherwise only waits; an acknowledged one waits behind a non-empty buffer |
| `TcpReceiver.FinPhaseKeeps` | kernel/src/network.rs:1755-1764 | a FIN is taken only at the index right after the last byte, and changes nothing else |
| `TcpReceiver.AbsorbKeeps` | kernel/src/network.rs:1672-1764 | payload and FIN of any admitted segment keep the receiver invariant and never lose a held byte |
| `TcpReceiver.HandleSegmentArrives` | kernel/src/network.rs:1533-1783 | the receive side after any segment is decided by the receive side before it and the verdict on the ACK field alone |
| `TcpReceiver.ArriveKeeps` | kernel/src/network.rs:1642-1764 | one segment cut from anywhere in the peer stream keeps the invariant; a segment before RCV.NXT changes nothing |
| `TcpReceiver.ConsumedKeeps` | kernel/src/network.rs:2148-2183 | consuming moves the buffer to the application and promotes an acknowledged deferred segment: no byte lost, duplicated or reordered |
| `TcpReceiver.ReportIsComplete` | kernel/src/network.rs:1908-1928 | PeerClosed or Closed is reported only when every byte before the FIN was consumed; a reported buffer continues the delivered prefix |
| `TcpReceiver.RunReceives` | kernel/src/network.rs:1642-1764 | for every arrival order of segments of one stream, interleaved with consumes in any way, delivered + buffer + acknowledged deferred bytes is exactly the prefix of the stream ending at RCV.NXT |
| `TcpSender.StartSends` | kernel/src/network.rs:1468-1531 | a new stream satisfies the sender invariant |
| `TcpSender.AckedSenderKeeps` | kernel/src/network.rs:1567-1627 | an acknowledgment removes exactly the flight, or the FIN, or nothing; acknowledged bytes + send queue stay the concatenation of all accepted sends |
| `TcpSender.AckedTimerKeeps` | kernel/src/network.rs:1577-1586 | the retransmission timeout stays within 4..100 ticks whatever the sample; it changes only when a whole flight is acknowledged after a single transmission, and is then within 4..50 |
| `TcpSender.GrownKeeps` | kernel/src/network.rs:1591-1601 | the congestion window never shrinks on an acknowledgment and stays within B..8B |
| `TcpSender.HandleSegmentSends` | kernel/src/network.rs:1533-1783 | any segment keeps the sender invariant: queue, flight, sequence number, timer and congestion bounds |
| `TcpSender.TransmitKeeps` | kernel/src/network.rs:2095-2132 | starting a flight keeps flight <= send_len <= B and counts the first of at most three transmissions |
| `TcpSender.StartSendSends` | kernel/src/network.rs:2060-2093 | an accepted send appends exactly its bytes to the accepted stream |
| `TcpSender.StartCloseSends` | kernel/src/network.rs:2216-2243 | a local close sends the FIN only when nothing is queued, and the accepted stream is fixed from then on |
| `TcpSender.ResumeSends` | kernel/src/network.rs:1823-1861 | resuming a paused flight keeps the sender invariant |
| `TcpSender.BackoffSends` | kernel/src/network.rs:1862-1906 | a retransmission keeps the flight, doubles the timeout up to 100 ticks, restarts the deadline with it, cuts the window to one segment and halves the threshold, and counts at most three transmissions |
| `TcpEndpoint.ActSendSide` | kernel/src/network.rs:1785-1935 | every action of an endpoint only appends to the accepted stream, keeps it fixed once closed, and every segment it emits carries, at each sequence number, the byte of the accepted stream at that index |
| `TcpEndpoint.ActReceiveSide` | kernel/src/network.rs:1533-1783 | no local action changes what is held from the peer |
| `TcpPair.DeliverData` | kernel/src/network.rs:1642-1764 | delivering any segment ever put on the wire extends what the receiver holds only along what the sender exposed; a probe changes nothing |
| `TcpPair.DeliverAck` | kernel/src/network.rs:1567-1627 | the ACK field of any segment ever put on the wire never moves SND.UNA past what its sender holds |
| `TcpPair.LeftStepKeeps` | kernel/src/network.rs:1533-1935 | every step of an endpoint, with any choice of what the network delivers, keeps the pair invariant in both directions |
| `TcpPair.RunKeeps` | kernel/src/network.rs:1533-1935 | the pair invariant holds after every run of sends, consumes, closes, polls and deliveries with loss, duplication and reordering |
| `TcpPair.EndToEnd` | kernel/src/network.rs:1533-1783 | in every reachable state, both ways: SND.UNA <= peer RCV.NXT <= SND.UNA + flight (+1 for FIN), delivered bytes are a prefix of accepted bytes, every transmission carries the accepted byte at its index, no flight is sent more than three times, and a reported SendComplete means the peer holds every byte |
| `TcpPair.ProbesAreInert` | kernel/src/network.rs:1831-1859 | a zero-window probe delivered in any reachable state changes nothing on the receive side |
| `TcpHandshake.HandshakeStep` | kernel/src/network.rs:1234-1321 | what the handshake slot admits early is a prefix of the peer stream, with the FIN only at its end |
| `TcpOpening.OnRightHalves` | kernel/src/network.rs:1234-1321 | a handshake slot that takes any delivered segment of a peer already streaming keeps the pair invariant in both directions, as if its stream slot existed already |
| `TcpOpening.EndToEndFromHandshake` | kernel/src/network.rs:1234-1321 | the end-to-end statement holds from the handshake on: whatever the peer sent early, in whatever order it arrived, and whenever the stream slot was attached |
| `TcpHandshake.HandOver` | kernel/src/network.rs:1234-1321 | whatever segments reach the handshake slot, the stream started from it satisfies the receiver invariant against the same peer stream |
| `TcpStack.NetworkStack.SlotForTuple` | kernel/src/network.rs:1111-1125 | the first slot serving a peer tuple, or none exactly when no slot serves it |
| `TcpStack.NetworkStack.StartTcpPassiveStream` | kernel/src/network.rs:1468-1531 | a stream is attached exactly when the device is available, no process socket holds the stack, its tuple is unserved, a slot is free and its early data fits; all other slots are untouched |
| `TcpStack.NetworkStack.ProcessAck` | kernel/src/network.rs:1567-1640 | the in-place ACK processing computes the acknowledged slot and the verdict on the ACK field |
| `TcpStack.NetworkStack.TakeFlightAck` | kernel/src/network.rs:1571-1617 | acknowledging the whole flight in place computes the acknowledged sender, the measured timer and the grown window |
| `TcpStack.NetworkStack.StoreSegment` | kernel/src/network.rs:1691-1764 | the in-place payload and FIN handling computes exactly the absorbed receive side |
| `TcpStack.NetworkStack.AnswerSegment` | kernel/src/network.rs:1533-1783 | one segment for one slot computes exactly the specified slot and answers |
| `TcpStack.NetworkStack.HandleStreamSegment` | kernel/src/network.rs:1533-1783 | one segment changes exactly its slot, to the specified state, and transmits exactly the specified answers |
| `TcpStack.NetworkStack.PollOne` | kernel/src/network.rs:1795-1928 | one slot of the poll is exactly the specified slot poll: retire, resume or probe, retransmit, report |
| `TcpStack.NetworkStack.PollTcpPassiveStream` | kernel/src/network.rs:1785-1935 | one whole poll visits slots from the cursor until one reports; slots, cursor, wire and report are those of the specification |
| `TcpStack.NetworkStack.StartTcpPassiveStreamSend` | kernel/src/network.rs:2060-2093 | a send for a peer without a slot is refused and changes nothing; otherwise the slot becomes exactly the specified one |
| `TcpStack.NetworkStack.StartTcpPassiveStreamClose` | kernel/src/network.rs:2216-2243 | likewise for a local close |
| `TcpStack.NetworkStack.ConsumeTcpPassiveStreamReceive` | kernel/src/network.rs:2148-2183 | likewise for consuming received bytes, with the window update it transmits |
| `TcpStack.NetworkStack.ConsumeTcpPassiveStreamSend` | kernel/src/network.rs:2185-2199 | likewise for taking a completed send |
| `TcpStack.NetworkStack.ConsumeTcpPassivePeerClose` | kernel/src/network.rs:2201-2214 | likewise for taking a peer close |
| `TcpStack.NetworkStack.ReleaseTcpPassiveStream` | kernel/src/network.rs:2245-2269 | frees exactly the slot of this peer, with a reset only when cancelled |
| `TcpService.PollMovesCursor` | kernel/src/network.rs:1788-1934 | a poll leaves the cursor just past the slot that reported, or looked at all four |
| `TcpService.PollExamines` | kernel/src/network.rs:1785-1935 | a poll applies exactly one slot poll to every slot it looks at and none to the others |
| `TcpService.ServedWithinFour` | kernel/src/network.rs:1788-1934 | every slot is examined within four consecutive polls, whatever the other slots report and however they change in between |
| `TcpRetirement.StepKeeps` | kernel/src/network.rs:1468-2269 | every poll, segment and service call keeps each occupied slot healthy (sender shape, timer and congestion bounds) and its deadline at most 200 ticks away |
| `TcpRetirement.UnhelpfulKeepsTimer` | kernel/src/network.rs:2507-2512 | received bytes that acknowledge nothing never postpone a pending retransmission |
| `TcpRetirement.ExamKeepsExpiry` | kernel/src/network.rs:1823-1907 | an examination frees the slot or leaves its expiry where it was |
| `TcpRetirement.StalledStreamRetires` | kernel/src/network.rs:1785-1907 | in every run of whole polls, segments and service calls on the four slots: a slot that nothing advances, polled at most p ticks apart, is not found occupied at or after its expiry |
| `TcpRetirement.RetirementBound` | kernel/src/network.rs:1785-1907 | in every such run the slot is freed within 500 + 16 * p ticks |
| `FrameRegions.AddressOfMonotone` | kernel/src/physmem.rs:175-205 | numbering frames by region is strictly increasing in the address |
| `FrameRegions.ManagedHasIndex` | kernel/src/physmem.rs:237-246 | every managed frame has a number, and that number leads back to it |
| `FrameAllocator.FrameAllocator.AllocFrame` | kernel/src/physmem.rs:175-205 | returns the lowest free managed frame, None exactly when all are live; only that frame becomes live |
| `FrameAllocator.FrameAllocator.FreeFrameWith` | kernel/src/physmem.rs:216-231 | frees exactly a live managed page-aligned frame whose preparation succeeded, and refuses everything else unchanged |
| `FrameAllocator.FrameAllocator.LiveIndex` | kernel/src/physmem.rs:237-246 | finds the number of a live managed frame, and nothing for any other address |
| `FrameAllocator.FrameAllocator.ContainsLive` | kernel/src/physmem.rs:233-235 | true exactly for live managed frames |
| `FrameAllocator.FrameAllocator.AddRegion` | kernel/src/physmem.rs:121-173 | reports success exactly for ignored regions and for admissible ones (before the first allocation, within the limits, overlapping no other); the managed set grows by exactly the whole pages above page zero of an admitted region |
| `FrameAllocator.FrameAllocator.InsertSorted` | kernel/src/physmem.rs:148-158 | inserts into the sorted region array at the right place |
| `FrameAllocator.FrameAllocator.IsConsistent` | kernel/src/physmem.rs:275-314 | the self-check is true in every reachable state |
| `FrameAllocator.LowestIsLeast` | kernel/src/physmem.rs:175-205 | the first clear bit at or after `next_word` is the least free frame, because every word below is full |
| `Authority.AllocKeeps` | kernel/src/frame_grant.rs:102-136 | an allocation keeps one grant per frame, unique generations and every quota, and adds exactly one frame to its owner |
| `Authority.ReleaseKeeps` | kernel/src/frame_grant.rs:201-212 | a release keeps the invariant and takes exactly the frame from its owner |
| `Authority.ApplyKeeps` | kernel/src/frame_grant.rs:94-212 | every operation keeps the invariant: no user owner above 64 frames, all users together below the kernel reserve, pins on user frames only |
| `Authority.StaleForever` | kernel/src/frame_grant.rs:94-212 | over every run of operations, a released grant never becomes live again, however its slot and frame are reused |
| `Authority.ReleaseMakesStale` | kernel/src/frame_grant.rs:201-212 | a released grant is stale at once |
| `Authority.PinnedStays` | kernel/src/frame_grant.rs:160-212 | a pinned frame survives every operation except the retirement of exactly that pin |
| `Ledger.Ledger.Reserve` | kernel/src/frame_grant.rs:102-118 | the quota and capacity test and the free slot that precede an allocation |
| `Ledger.Ledger.Commit` | kernel/src/frame_grant.rs:119-136 | records one grant under a fresh generation; every other record is unchanged |
| `Ledger.Ledger.Find` | kernel/src/frame_grant.rs:146-158 | the grant of a live frame with this owner and kind, and none otherwise |
| `Ledger.Ledger.Bind` | kernel/src/frame_grant.rs:160-173 | pins exactly an unpinned user frame of this owner at an aligned non-zero address |
| `Ledger.Ledger.Retire` | kernel/src/frame_grant.rs:190-199 | unpins exactly the frame pinned at this address by this owner |
| `Ledger.Ledger.Releasable` | kernel/src/frame_grant.rs:201-206 | a grant is releasable exactly when it is live and unpinned |
| `Ledger.Ledger.OwnerFrames` | kernel/src/frame_grant.rs:217-221 | counts the frames of one owner |
| `Memory.MemoryState.AllocFrame` | kernel/src/memory.rs:116-140 | bitmap and ledger together allocate exactly what the authority says, so the recorded addresses stay the live set |
| `Memory.MemoryState.FreeFrame` | kernel/src/memory.rs:151-164 | a live unpinned grant is freed in both; anything else is refused before the bitmap is touched |
| `Memory.MemoryState.NewOwner` | kernel/src/memory.rs:166-168 | hands out exactly the next owner, or none at the end of the counter |
| `Memory.MemoryState.PinMapping` | kernel/src/memory.rs:178-180 | pins follow the authority exactly |
| `Memory.MemoryState.RetireMapping` | kernel/src/memory.rs:187-189 | retirements follow the authority exactly |
| `Memory.MemoryState.Consistent` | kernel/src/memory.rs:204-216 | the combined self-check never fails |
| `CloneTable.TableMemory.CloneSupervisor` | kernel/src/page_table.rs:63-91 | succeeds exactly when the pool holds a table for every source table; on failure at any depth all tables, the owned set and the pool are exactly as before; the source is never written |
| `CloneTable.TableMemory.ReleaseClone` | kernel/src/page_table.rs:93-103 | frees exactly the tables of the tree and no leaf frame |
| `CloneTable.TableMemory.IdentityMappings` | kernel/src/page_table.rs:33-57 | accepts exactly the bounded identity maps; only the tables behind entries it descends through need exist |
| `CloneTable.CloneWalk` | kernel/src/page_table.rs:63-91 | the walk of the clone equals the walk of the source for every address, with USER cleared at every level |
| `CloneTable.CloneHasNoUser` | kernel/src/page_table.rs:63-91 | no entry of any table of the clone has USER set |
| `CloneTable.CloneMeaning` | kernel/src/page_table.rs:63-103 | on success only new tables appeared, they form a clone, and old walks are unchanged |
| `CloneTable.IdentityWalk` | kernel/src/page_table.rs:33-57 | a tree that passes the identity check maps each address to itself or to nothing |
| `SplitTable.SplitDeepView` | kernel/src/paging.rs:275-305 | splitting a 1 GiB or 2 MiB page anywhere in the tree leaves target, rights and attributes of every address as they were |
| `SplitTable.TightenDeepView` | kernel/src/paging.rs:307-321 | tightening a leaf changes the rights of that page to exactly the requested ones and no other address |
| `SplitTable.SplitStructure` | kernel/src/paging.rs:275-305 | splitting keeps the root entries, opens nothing to user mode and keeps every 4 KiB leaf a 4 KiB leaf |
| `SplitTable.TightenStructure` | kernel/src/paging.rs:307-321 | the same for tightening |
| `ProtectPage.ProtectKernelPage` | kernel/src/paging.rs:240-347 | the result is decided by the old tables and the pool; a failure restores the exact old tree and frame set, a success tightens exactly one page and leaves it mapped by a 4 KiB leaf |
| `ProtectPage.Rollback` | kernel/src/paging.rs:323-346 | undoing recorded splits newest first restores every table, the owned set and the pool exactly |
| `SealTable.SealTable` | kernel/src/paging.rs:447-511 | succeeds exactly when every leaf of the tree meets the text policy; then every leaf is sealed, and nothing outside the tree is touched |
| `SealTable.SealedWalk` | kernel/src/paging.rs:472-505 | after a successful seal no address and no leaf is writable and executable, every translation and write right is kept and nothing became executable |
| `SealKernel.ProtectRegion` | kernel/src/paging.rs:450-464 | after protecting one page per 2 MiB every page of the region is mapped by a 4 KiB leaf, every address goes where it went and lost no write right; an error is exactly that of one page |
| `SealKernel.SealKernelMappings` | kernel/src/paging.rs:447-511 | a success leaves the sealed form of a map that keeps the original one, with 4 KiB leaves for all usable memory; a refusal comes from a page that cannot be protected or from a leaf that breaks the text policy |
| `SealKernel.SealEstablishes` | kernel/src/paging.rs:441-511 | sealing a supervisor map that shows every managed frame at its own address, writable and outside the text, establishes the whole invariant of the address spaces, and no kernel leaf is writable and executable |
| `SealKernel.CloneReady` | kernel/src/paging.rs:80-105 | a clone of an accepted identity map has supervisor entries only, an empty user slot and no huge root entry, and maps every address to itself or not at all |
| `UserWorld.Isolation` | kernel/src/paging.rs:149-234 | in every state satisfying the invariant: what user mode reaches in any space is a page of a live user frame granted to that space and pinned at exactly that address, never a page table, never writable and executable, and the kernel alias of the frame is writable exactly when the page is |
| `UserWorld.MappedOnce` | kernel/src/paging.rs:149-234 | no frame is mapped twice, in one space or in two |
| `UserWorld.UserWalk` | kernel/src/paging.rs:739-765 | the walk in the user slot finds exactly the mapped pages, with the rights of their leaves |
| `UserWorld.SharedWalk` | kernel/src/paging.rs:111-135 | outside the user slot every space sees what the kernel sees |
| `UserSteps.GraftKeeps` | kernel/src/paging.rs:852-870 | linking an empty table keeps the invariant |
| `UserSteps.UngraftKeeps` | kernel/src/paging.rs:214-226 | unlinking an empty table and freeing its frame keeps the invariant |
| `UserSteps.PublishKeeps` | kernel/src/paging.rs:204-212 | sealing the alias, pinning the frame and writing the leaf together keep the invariant |
| `UserLifecycle.UnpublishKeeps` | kernel/src/paging.rs:928-936 | clearing a leaf, restoring the alias, retiring the pin and freeing the frame together keep the invariant |
| `UserLifecycle.RootKeeps` | kernel/src/paging.rs:111-135 | a root copied from the kernel keeps the invariant |
| `UserLifecycle.UnrootKeeps` | kernel/src/paging.rs:803-816 | removing an empty root keeps the invariant |
| `UserViews.Undisturbed` | kernel/src/paging.rs:739-765 | a page whose leaf stays, and every address outside the user slot, keeps its translation with all rights; the only exception is the kernel's write right where it sees a frame whose alias was written |
| `UserViews.WrittenWalk` | kernel/src/paging.rs:515-548 | writing aliases changes the kernel walk only where it ends in one of them, and there only the write right of a non-executable leaf |
| `UserViews.PublishWrites` | kernel/src/paging.rs:204-212 | mapping a page writes the alias of its frame and no other entry of any kernel table |
| `UserViews.SealedStays` | kernel/src/paging.rs:441-446 | writing aliases never makes a kernel leaf writable and executable |
| `UserViews.NeverBoth` | kernel/src/paging.rs:441-446 | in no space is any address writable and executable, for user mode or for the kernel |
| `UserTrees.UnpublishLoses` | kernel/src/paging.rs:928-936 | unmapping a page removes exactly its place and frame and writes, in the kernel tables, exactly the alias of that frame |
| `UserSpace.AddressSpaces.CreateUserAddressSpace` | kernel/src/paging.rs:111-135 | a space is opened exactly when the map is sealed, an owner and a frame are available and the kernel user slot is empty; otherwise the exact error and no table, grant or pin changed |
| `UserSpace.AddressSpaces.AllocateZeroedFrame` | kernel/src/paging.rs:767-772 | one more unmapped page for a live space, or the exact error and nothing changed |
| `UserSpace.AddressSpaces.EnsureUserTable` | kernel/src/paging.rs:852-870 | follows or links one table; the flag and ownership tests of an existing one cannot fail |
| `UserSpace.AddressSpaces.Publish` | kernel/src/paging.rs:204-212 | alias, pin and leaf of exactly one page; none of the recoverable failures of the original can happen there |
| `UserSpace.AddressSpaces.RollBack` | kernel/src/paging.rs:213-226 | undoes the linked tables newest first, back to the exact state before the mapping but for the generation counter |
| `UserSpace.AddressSpaces.MapUserPage` | kernel/src/paging.rs:137-234 | the result is a function of the state before the call; on a refusal, whichever level or check failed, every table word, pin and live frame is as before; on success exactly this page is mapped, and in the kernel tables only the write right of this frame's alias is written; no kernel leaf becomes writable and executable |
| `UserMap.MapMeaning` | kernel/src/paging.rs:149-234 | after a successful mapping the address translates to the granted frame with the requested rights, and every other translation in every space is unchanged with all its rights, but for the kernel's right to write this frame |
| `UserMap.RoomStep` | kernel/src/paging.rs:852-870 | the closed form of "enough memory for n tables" agrees with n allocations in a row |
| `UserMap.UngraftUndoes` | kernel/src/paging.rs:214-226 | unlinking a table just linked restores tables, grants and places exactly |
| `UserMap.IssuedStays` | kernel/src/paging.rs:22-35 | a space handle stays valid or becomes stale; it never comes to denote another space |
| `UserTeardown.Store.SetUserAliasWritable` | kernel/src/paging.rs:515-548 | sets the write right of exactly the alias of one frame; none of its refusals can happen for a managed frame |
| `UserTeardown.Store.ValidateUserTable` | kernel/src/paging.rs:886-915 | counts exactly the tables and pages of a subtree; no test of it can fail in a reachable state |
| `UserTeardown.Store.ReleaseUserTable` | kernel/src/paging.rs:917-945 | releases exactly what lies below a table, edges cut before their targets are freed; none of its assertions can fire |
| `UserDestroy.OwnerCount` | kernel/src/paging.rs:774-798 | the owner count equals the size of the tree exactly when every frame of the owner is a table or a mapped page |
| `UserSpace.AddressSpaces.DestroyUserAddressSpace` | kernel/src/paging.rs:774-820 | refuses and changes nothing, or returns exactly the owner frame count and removes exactly that owner's frames; in the kernel tables only the aliases of its pages are written; all its assertions hold |
| `UserDestroy.OthersKeep` | kernel/src/paging.rs:774-820 | destroying a space leaves every translation of every other space alone, with all rights but for the kernel's right to write the released pages |
| `UserSpace.AddressSpaces.Activate` | kernel/src/paging.rs:550-566 | the processor uses the kernel root or the root of a live space |
| `UserSpace.AddressSpaces.ActivateKernel` | kernel/src/paging.rs:568-582 | switching back to the kernel root keeps the invariant |
| `UserBoot.BootIsSafe` | kernel/src/paging.rs:447-511 | a smallest sealed machine satisfies the invariant, has no writable and executable leaf and can open its first space |
| `InternetChecksum.Checksum` | kernel/src/net.rs:38-51 | the loop computes the ones-complement checksum of the bytes, odd lengths included |
| `InternetChecksum.ComplementFolds` | kernel/src/net.rs:38-51 | adding the complement of a folded sum makes the sum fold to all ones |
| `InternetChecksum.WordSumFill` | kernel/src/net.rs:38-51 | filling a two-byte field adds exactly its value to the word sum |
| `Ipv4Wire.TransportChecksumValid` | kernel/src/net.rs:53-84 | the incremental pseudo-header loop accepts exactly when the whole sum folds to all ones |
| `Ipv4Wire.TcpOptionsValid` | kernel/src/net.rs:172-190 | the option loop accepts exactly the well-formed option lists |
| `Ipv4Wire.SendTcpWithWindow` | kernel/src/network.rs:2456-2485 | the segment with its checksum filled in, for every field and payload within size |
| `Ipv4Wire.SendIpv4From` | kernel/src/network.rs:2398-2429 | the frame with its header checksum filled in |
| `Ipv4Wire.WireRoundTrip` | kernel/src/network.rs:2271-2292 | the built frame, with any trailing padding, passes both checksums and decodes to the same ports, sequence and acknowledgment numbers, flags, window and payload |
| `Ipv6Wire.WalkExtensions` | kernel/src/ipv6.rs:98-138 | skips at most one Hop-by-Hop and then at most one Destination Options header of pure padding |
| `Ipv6Wire.TransportChecksum` | kernel/src/ipv6.rs:154-176 | the checksum over pseudo-header and message |
| `Ipv6Wire.WriteIcmp` | kernel/src/ipv6.rs:204-233 | writes exactly the frame, or refuses and leaves the buffer alone |
| `Ipv6Wire.IcmpVerifies` | kernel/src/ipv6.rs:204-233 | a message filled with its own checksum verifies |
| `Ipv6Wire.IcmpRoundTrip` | kernel/src/ipv6.rs:84-233 | what the builder writes the parser reads back and the transport test accepts, exactly when the addresses are legal |
| `Ipv6Host.RouteSound` | kernel/src/ipv6.rs:263-339 | a route taken from an advertisement goes through its sender, keeps the interface identifier, has a legal unicast prefix, an MTU within 1280..1500 and ordered lifetimes |
| `Ipv6Host.Interface.Poll` | kernel/src/ipv6.rs:381-478 | one poll computes the specified state and at most one frame; without room for a frame nothing changes |
| `Ipv6Host.Interface.Receive` | kernel/src/ipv6.rs:484-628 | one received frame computes the specified state and answer |
| `Ipv6Host.Interface.constructor` | kernel/src/ipv6.rs:365-377 | the state of a new host |
| `Ipv6Host.StepKeeps` | kernel/src/ipv6.rs:381-628 | every step keeps: a route exactly in GlobalDad and Ready, with a legal address, and at most three solicitations |
| `Ipv6Host.RunKeeps` | kernel/src/ipv6.rs:365-628 | the same in every state of every run |
| `Ipv6Host.ReadyWasTested` | kernel/src/ipv6.rs:381-628 | in every run a ready host once probed for exactly the address it uses, then waited at least DAD_TICKS without one conflicting packet, and has kept the route since |
| `Ipv6Host.LocalWasTested` | kernel/src/ipv6.rs:381-418 | in every run a host that solicits routers, tests a global address or is ready once probed for its link-local address, met no conflict until the deadline of that probe, and has been past that test since |
| `Ipv6Host.LocalWaitExact` | kernel/src/ipv6.rs:388-393 | every continuation of a link-local test waits at least DAD_TICKS exactly when its probe was sent at least DAD_TICKS before the end of the 64-bit clock |
| `Ipv6Host.LocalWaitsLess` | kernel/src/ipv6.rs:388-393 | a run that passes the link-local test after one tick |
| `Ipv6Host.DuplicateForever` | kernel/src/ipv6.rs:381-628 | once an address is found duplicate the host stays so and never sends a frame again |
| `Ipv6Host.ThreeSolicitations` | kernel/src/ipv6.rs:381-440 | at most three router solicitations between two starts of a discovery round |
| `Ipv6Host.ProbeConflicts` | kernel/src/ipv6.rs:484-570 | a probe for an address is a conflict for any other host still testing it |
| `Ipv6Host.RivalProbe` | kernel/src/ipv6.rs:484-570 | in every run, one probe from another station for the address under test ends the test |
| `Ipv6Host.EchoAnswered` | kernel/src/ipv6.rs:600-628 | a ready host answers an echo request; the answer parses, verifies, goes back to the sender and carries the same identifier, sequence number and data |
| `SnapshotChecksum.ComputeChecksum` | kernel/src/storage_format.rs:270-281 | the loop computes FNV-1a with the checksum field counted as zero |
| `SnapshotChecksum.MixInjective` | kernel/src/storage_format.rs:270-281 | each hash step is injective in the running hash and, for a fixed hash, in the byte, modulo 2^32 |
| `SnapshotChecksum.HashDiffers` | kernel/src/storage_format.rs:270-281 | contents that differ in exactly one counted byte never have the same checksum |
| `Snapshot.ValidateSnapshot` | kernel/src/storage_format.rs:129-189 | the in-place admission loop decides exactly the specified admission |
| `Snapshot.OneByteRefused` | kernel/src/storage_format.rs:129-153 | any accepted snapshot is refused after changing any single byte at any position |
| `Snapshot.DecodesList` | kernel/src/storage_format.rs:232-268 | walking a slot that holds a list returns the list entry by entry and ends where it ends |
| `Snapshot.EncodeRoundTrip` | kernel/src/storage_format.rs:75-127 | walking an encoding from the header to the recorded length returns exactly the encoded paths (root respelled), kinds and data in order; publishing changes none of it |
| `Snapshot.AcceptedExactly` | kernel/src/storage_format.rs:129-189 | a published encoding is accepted, with its generation, exactly when it has at most thirty entries and each may follow the ones before it |
| `SnapshotMount.EncodeSnapshot` | kernel/src/storage_format.rs:75-127 | the buffer-filling encoder produces exactly the specified image, or the exact error |
| `SnapshotMount.ApplySnapshot` | kernel/src/storage_format.rs:192-228 | mounts all entries or changes nothing, with the exact error |
| `SnapshotSource.EveryStateIsAccepted` | kernel/src/storage_format.rs:75-189 | for every reachable file system: encoding succeeds exactly when there is something to encode, and the published slot is accepted with its generation |
| `SnapshotMount.MountRestores` | kernel/src/storage_format.rs:192-228 | mounting a published snapshot adds exactly the encoded nodes, in order, and nothing else |
| `Vfs.RamVfs.FindIndex` | kernel/src/vfs.rs:307-312 | the first node with this name, ignoring case |
| `Vfs.RamVfs.Insert` | kernel/src/vfs.rs:260-294 | the exact error, or one node appended; valid unique names with the parent directory before each node, in every state |
| `Vfs.RamVfs.Touch` | kernel/src/vfs.rs:98-103 | creates an empty file unless the name exists |
| `Vfs.RamVfs.Write` | kernel/src/vfs.rs:105-118 | the exact error, or exactly this file has exactly these contents |
| `Vfs.WriteIsRead` | kernel/src/vfs.rs:105-118 | a write is read back |
| `Vfs.RamVfs.Append` | kernel/src/vfs.rs:120-145 | the exact error, or exactly this file is extended |
| `Vfs.RamVfs.WriteAt` | kernel/src/vfs.rs:147-162 | the exact error, or exactly this range of this file is overwritten or extended, without holes |
| `Vfs.RamVfs.Truncate` | kernel/src/vfs.rs:164-171 | the exact error, or exactly this file is emptied |
| `Vfs.RamVfs.Remove` | kernel/src/vfs.rs:181-202 | the exact error, or exactly this node is gone and no node lost its parent |
| `Vfs.ParentIsDirectChild` | kernel/src/vfs.rs:350-366 | a node whose parent is a directory passes the direct-child test of it, so only childless directories are removed |
| `RxQueue.FaultExact` | kernel/src/rx_queue.rs:86-108 | a batch is admitted exactly when it is the whole advance and every entry names a distinct descriptor of the queue with a length inside its buffer |
| `RxQueue.RxBatch.Validate` | kernel/src/rx_queue.rs:86-108 | the loop over the `seen` array reports exactly the first complaint |
| `RxQueue.RxBatch.Admit` | kernel/src/rx_queue.rs:68-84 | a batch is published whole or the queue is quarantined; a batch being drained is never replaced |
| `RxQueue.RxBatch.Take` | kernel/src/rx_queue.rs:111-119 | takes admitted entries in order, one used index each |
| `RxQueue.VirtioNet.constructor` | kernel/src/network_device.rs:470-494 | every descriptor is posted once and the indices are n apart |
| `RxQueue.VirtioNet.ReceiveFrame` | kernel/src/network_device.rs:701-789 | one receive call follows the specification, copies the frame only within the packet budget and reposts exactly the taken descriptor |
| `RxQueue.ReceiveKeeps` | kernel/src/network_device.rs:701-789 | for any device behaviour one call keeps: posted and undrained descriptors partition 0..n, and the two indices stay n apart modulo 2^16 |
| `RxQueue.RunKeeps` | kernel/src/network_device.rs:701-789 | the same after every run |
| `RxQueue.DeliveryOwned` | kernel/src/network_device.rs:701-789 | a delivered entry is the oldest undrained one, whose descriptor is not the device's, or the first of a batch captured in this call, all of whose descriptors had been posted; its length is inside its buffer, the rest stays undrained in order and the descriptor is the device's again afterwards; one bad entry anywhere in a batch delivers and reposts nothing |
| `RxQueue.QuarantineForever` | kernel/src/network_device.rs:701-705 | quarantine is permanent |
| `Scheduler.Scan.Next` | kernel/src/scheduler.rs:48-57 | visits the following slot, wrapping, exactly n times |
| `Scheduler.RoundRobin.Selected` | kernel/src/scheduler.rs:31-37 | a selection outside the capacity does not alter the order |
| `Scheduler.RoundRobin.Dispatch` | kernel/src/scheduler.rs:23-57 | selects the nearest ready slot after the last one; an idle scan leaves the order alone |
| `Scheduler.ChoiceIsNearest` | kernel/src/scheduler.rs:23-57 | a scan finds a slot exactly when one is ready, and it is the nearest in scan order |
| `Scheduler.ServedWithinN` | kernel/src/scheduler.rs:23-57 | a slot ready in every round is selected within n rounds, whatever else becomes ready, for every n |

## Left out

- TCP liveness, and any claim that a segment is eventually delivered: pure acknowledgments carry the oldest unacknowledged sequence number, and the code does not promise delivery.
- Window claims beyond the test on arrival: the advertised window ignores the gap before a deferred segment, and the plain sender always advertises the full capacity.
- Routing of segments to handshake slots, SYN admission and the handshake poll timer: table lookups beside the modelled slot.
- Metrics counters, trace output and the fault-injection feature of the network stack.
- The blocking boot-time paths (`tcp_exchange`, `udp_exchange`, `ping`, DHCP) and the asynchronous client sockets.
- UDP and ARP parsing: independent field checks without state.
- Bit encoding of page-table entries and accessed/dirty bits set by hardware: entries are field records.
- Contents of data frames (zeroing and scrubbing): only table frames have contents in the model.
- `guard_kernel_page` and `protect_kernel_image`: callers of the modelled page protection with fixed addresses.
- What the firmware's map contains: that it shows all usable memory writable at its own address is a hypothesis of `SealKernel.SealEstablishes`, and `UserBoot` gives one machine that satisfies the invariant outright.
- Repeated SYN and SYN-ACK segments on the wire of `TcpOpening`: they change no stream, and a stream slot answers them with a rate-limited ACK.
- User copy routines and `valid_user_range`: they only read through the modelled walk.
- Partition parsing and the two-slot commit protocol of the volume: only the header fields it adds to a published slot are modelled.
- UTF-8 decoding of snapshot paths: every path that the byte-level path policy accepts is ASCII.
- Process management, shell, capability, endpoint and IPC tables, ELF loading: not part of this model.
- Privileged and MMIO code, DMA isolation and memory ordering: no decidable model here.

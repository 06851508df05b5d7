# Ground console firmware: model and proofs

A Dafny model of the algorithms and state machines inside the firmware of a ground-side broadcast and
intercom console (`1.0.x/ProdExplUnits/642-ground`), with proofs of what they promise. `dafny verify
dfyconfig.toml` checks all of it.

| file | what it models |
|---|---|
| `Bytes.dfy` | octets, options, prefixes and suffixes, finite histories |
| `ByteRing.dfy`, `CharBuffers.dfy` | the byte ring: its queue, and its functions updating storage and offsets in place |
| `ByteRingThreads.dfy`, `ByteRingOverruns.dfy` | one writer and one reader of the unlocked byte ring, statement by statement; when exactly that is first in, first out |
| `BlockRing.dfy`, `BlockBuffers.dfy` | the block ring: what a look at the pointers tells, and its functions |
| `BlockRingThreads.dfy` | one writer and one reader of the unlocked block ring, statement by statement and byte by byte |
| `Player.dfy` | the player that drains two rings into a device and puts the rest back |
| `ReceiveCache.dfy` | the six-slot receive cache behind an array of pointers |
| `AudioTransport.dfy` | the packetiser, the live receive path, and the stream from one to the other |
| `Crc32.dfy`, `CrcValues.dfy`, `CrcBursts.dfy` | the table-driven image check, equal to the bitwise one, its known values, and the errors it detects |
| `LineWrap.dfy` | the line wrapper for mixed one-byte and three-byte text |
| `RequestList.dfy` | the linked list of open requests and the packages that change it |
| `RuleTable.dfy` | the rule table of the intercom machine and the installed rules |
| `Priority.dfy` | the priority list of announcements and the exchange it arbitrates |
| `Console.dfy` | both state machines together: microphone, buttons, occupancy |
| `ConsolePauses.dfy` | the same with the pause inside every change of intercom state |

Where the source changes things step by step there is a class or a method with the source's loops, proved
against functions on values; the laws are lemmas about those functions over every history (`Trace`), every
interleaving, or every input.

## What the proofs show about the code

Where the code and what its names or comments suggest part ways, the model follows the code. The exact
conditions, each proved in both directions unless marked:

- The byte ring is first in, first out for every interleaving of whole loop passes. Interleaved statement by
  statement, its full and empty tests go wrong exactly when they catch the other offset, not yet wrapped, in
  the one place that decides them; such states are reachable for both sides (`ByteRingThreads`). A wrong test
  need not do harm. The law breaks exactly at the first statement that publishes into a full ring, delivers
  out of an empty one, or delivers a byte that its cell no longer holds (`ByteRingOverruns`); from every lawful
  state in which a test goes wrong, some continuation does that. The block ring has the guard that the byte ring
  lacks (`BlockRingThreads`).
- The block ring counts correctly up to 256 slots; from 257 on, looks can fail with both pointers wrapped
  (`BlockRing.BusyMeansTail`).
- `CharBufferBrush` replays everything since the last clear exactly when fewer bytes than the storage holds
  were accepted since (`CharBuffers.BrushReplaysSinceClear`).
- The receive cache emits in order of acceptance; the shift in `ArrayMoveSort` never sorts.
  Its push flag decides nothing: between packets it is set only with three queued, when one goes out anyway.
  A repeat of the newest packet is queued again when two or fewer wait and the oldest has a lower number
  (`ReceiveCache.ReceiveByNumber`).
- The number of lines the wrapper returns is one too many exactly for texts that end in a line break; lines
  fit the width exactly when every character does.
- The request number shown is the length of the list unless the last package that touched it was a refusal
  addressed to another seat, which shows 0. `IphUpdateLink` withdraws the key in the refuse field, so an
  acceptance by another seat leaves the request listed unless that field names it too; the package of type 6
  by which that seat takes up the call removes it. `BcuUpdateLink` uses the receive field.
- The player calls its exits with -6 unlikely. The first is never taken. The second is taken exactly when both
  rings together hold less than the border when they are read, which takes a clear behind the tests, of pending
  since its size was taken or of the main ring since the first test of its counter. Everything both rings held
  is then lost. The tests watch the main ring only: a clear of pending behind its read has no effect.
- `ANNStateHangle` guards the microphone for a flag of 1, while `WhetherWantToExchangeState` lets every flag
  but 0 pass: with any other flag a command takes the microphone from a call. No caller in the program sends
  such a flag: `SetLiveCmd`, the only producer of live commands, sends 0 or 1.
- A free microphone does not mean that no call is in progress: the end of a live announcement frees it during
  a call.
- Leaving monitoring frees the microphone even while the live announcement has it; the announcement stays on
  with a free microphone (`Console.MonitoringDropsTheLiveMic`).
- No command given to `IntercomStateHangle`, in any run and whatever its fields, ends a driver call of the
  console's own; only the triggers sent elsewhere do.
- A change of intercom state sleeps between leaving the old state and entering the new one, with the state
  pointer already moved. If no other change begins in the pause, nothing is lost. If one does and both then
  finish, microphone, buttons and broadcasts are consistent exactly if neither target occupies the seat; a
  driver call released in its pause broadcasts a free seat first (`ConsolePauses`).
- A clear that falls just before `CharBufferUpdateCurrentReadPointer2` compares the counters is undone by it.
- In the option table the names `D2DXD2P` and `D2PPEND` resolve to the options they extend.
- Taken alone, `BcuDynamicStateExchange` starts the live announcement on a release, from every state of no
  higher rank; the filter in front of it prevents that.

## Model

| member | source | states |
|---|---|---|
| `ByteRing.PutByteAppends` | 1.0.x/ProdExplUnits/642-ground/buffer_read_write_fun.cxx:332-348 | One pass of the write loop, wrap included, appends one byte to the queue. |
| `ByteRing.PutAllAppends` | 1.0.x/ProdExplUnits/642-ground/buffer_read_write_fun.cxx:306-356 | Writing any run of bytes that fits appends exactly that run to the queue and leaves the read offset alone. |
| `ByteRing.TakeDrops` | 1.0.x/ProdExplUnits/642-ground/buffer_read_write_fun.cxx:357-402 | Moving the read offset over k waiting bytes, in every wrap position, drops the k oldest bytes. |
| `ByteRing.BackOffFitsIffFree` | 1.0.x/ProdExplUnits/642-ground/buffer_read_write_fun.cxx:714-759 | The error branches of the un-read are taken exactly when more bytes are handed back than the ring has free cells. |
| `ByteRing.BackOffUndoesRead` | 1.0.x/ProdExplUnits/642-ground/buffer_read_write_fun.cxx:714-759 | Reading k bytes and backing off k restores the ring exactly, wherever the wrap falls, without an error branch. |
| `ByteRing.BackOffPrepends` | 1.0.x/ProdExplUnits/642-ground/buffer_read_write_fun.cxx:714-759 | Backing off k puts the k cells just before the read offset back in front of an otherwise unchanged queue. |
| `CharBuffers.CharBuffer.constructor` | 1.0.x/ProdExplUnits/642-ground/buffer_read_write_fun.cxx:264-305 | A new ring is empty and holds at most size - 1 bytes. |
| `CharBuffers.CharBuffer.Write` | 1.0.x/ProdExplUnits/642-ground/buffer_read_write_fun.cxx:306-356 | A write accepts exactly min(length, free) leading bytes, appends them, and returns that number, or full when none fits. |
| `CharBuffers.CharBuffer.Read` | 1.0.x/ProdExplUnits/642-ground/buffer_read_write_fun.cxx:357-402 | A read delivers exactly min(size, waiting) oldest bytes into the destination and nothing else, and returns that number, or empty. |
| `CharBuffers.CharBuffer.FreeBytes` | 1.0.x/ProdExplUnits/642-ground/buffer_read_write_fun.cxx:404-445 | The reported number is the free space of the queue, or full when there is none. |
| `CharBuffers.CharBuffer.ReadPointer` | 1.0.x/ProdExplUnits/642-ground/buffer_read_write_fun.cxx:489-570 | The total is the length of the queue; the bytes to the right of the pointer are a prefix of it, cut only by the end of the storage. |
| `CharBuffers.CharBuffer.Advance` | 1.0.x/ProdExplUnits/642-ground/buffer_read_write_fun.cxx:572-632 | Advancing by origin - left drops min(origin - left, waiting) bytes in every wrap case; with more left than offered the pointer moves back by the difference, while that stays inside the storage. |
| `CharBuffers.CharBuffer.AdvanceUnlessCleared` | 1.0.x/ProdExplUnits/642-ground/buffer_read_write_fun.cxx:634-703 | The same when the clear counter still matches; otherwise the offsets are as before. A clear by another thread at the start of the call stands, one just before the comparison is undone. |
| `CharBuffers.CharBuffer.BackWrite` | 1.0.x/ProdExplUnits/642-ground/buffer_read_write_fun.cxx:714-759 | The un-read puts the offset back where it fits, leaves it alone where it does not, and returns 0 either way. |
| `CharBuffers.CharBuffer.Clear` | 1.0.x/ProdExplUnits/642-ground/buffer_read_write_fun.cxx:761-776 | The ring is empty at its head, its bytes are kept, and the one-byte clear counter moves on by one, wrapping. |
| `CharBuffers.CharBuffer.Brush` | 1.0.x/ProdExplUnits/642-ground/buffer_read_write_fun.cxx:777-788 | Only the read offset changes: it goes to the head of the storage. |
| `CharBuffers.HistoryLiesBelowWriteOffset` | 1.0.x/ProdExplUnits/642-ground/buffer_read_write_fun.cxx:306-356 | After a clear, over any history that accepts fewer bytes than the storage holds, the storage below the write offset is everything accepted, in order. |
| `CharBuffers.BrushReplaysSinceClear` | 1.0.x/ProdExplUnits/642-ground/buffer_read_write_fun.cxx:761-788 | After any history of writes, reads, un-reads and brushes since a clear, a brush makes the queue equal to everything written since the clear, if and only if fewer than size bytes were accepted. |
| `ByteRingThreads.TestIsRightUnlessBlind` | 1.0.x/ProdExplUnits/642-ground/buffer_read_write_fun.cxx:326-336 | With statements of both threads interleaved, the full and empty tests answer rightly if and only if the other offset is not caught, unwrapped, in the one place that decides the test. |
| `ByteRingThreads.WholePassesAreNeverBlind` | 1.0.x/ProdExplUnits/642-ground/buffer_read_write_fun.cxx:306-402 | Interleaved loop pass by loop pass, no test ever goes wrong, and what was accepted is what was delivered followed by what waits. |
| `ByteRingThreads.RunKeepsInv` | 1.0.x/ProdExplUnits/642-ground/buffer_read_write_fun.cxx:306-402 | Every statement-level interleaving without such a test keeps the queue invariant. |
| `ByteRingThreads.InterleavedDeliveryIsFifo` | 1.0.x/ProdExplUnits/642-ground/buffer_read_write_fun.cxx:306-402 | In each of them, bytes accepted are bytes delivered followed by the queue, which stays below size. The exact condition is that of ByteRingOverruns. |
| `ByteRingThreads.AcceptedIsWhatPassesWereGiven` | 1.0.x/ProdExplUnits/642-ground/buffer_read_write_fun.cxx:306-356 | In every interleaving, blind tests or not, the bytes accepted are those given to the passes, in order, up to the one still on its way. |
| `ByteRingThreads.BlindWriteLosesTheQueue` | 1.0.x/ProdExplUnits/642-ground/buffer_read_write_fun.cxx:330-348 | A write after a wrong test loses the whole queue and the new byte: a ring's worth of accepted bytes is never delivered. |
| `ByteRingThreads.BlindReadInventsAByte` | 1.0.x/ProdExplUnits/642-ground/buffer_read_write_fun.cxx:376-398 | A read after a wrong test delivers a byte that was never sent. |
| `ByteRingThreads.BlindWriteIsReachable` | 1.0.x/ProdExplUnits/642-ground/buffer_read_write_fun.cxx:306-402 | Wrong tests of the writer do occur: a concrete interleaving reaches one on a ring of two cells. |
| `ByteRingThreads.BlindReadIsReachable` | 1.0.x/ProdExplUnits/642-ground/buffer_read_write_fun.cxx:306-402 | So do wrong tests of the reader. |
| `ByteRingOverruns.StepCountsIff` | 1.0.x/ProdExplUnits/642-ground/buffer_read_write_fun.cxx:340-402 | A statement keeps the number of waiting bytes right if and only if it neither publishes into a full ring nor delivers out of an empty one. |
| `ByteRingOverruns.StepIsLawfulIff` | 1.0.x/ProdExplUnits/642-ground/buffer_read_write_fun.cxx:340-402 | A statement keeps accepted = delivered ++ queue if and only if, besides, it does not deliver a byte that its cell no longer holds. |
| `ByteRingOverruns.CountedIffNeverRunsOver` | 1.0.x/ProdExplUnits/642-ground/buffer_read_write_fun.cxx:306-402 | Over every statement-level interleaving, the number of waiting bytes is right throughout if and only if no statement publishes into a full ring or delivers out of an empty one. |
| `ByteRingOverruns.FifoIffNeverRunsOverOrStale` | 1.0.x/ProdExplUnits/642-ground/buffer_read_write_fun.cxx:306-402 | Over every statement-level interleaving, delivery is first in, first out throughout if and only if none does that and no byte is delivered that its cell no longer holds. |
| `ByteRingOverruns.LoadingInTimeIsFifo` | 1.0.x/ProdExplUnits/642-ground/buffer_read_write_fun.cxx:370-398 | The last part holds whenever no byte is loaded from an empty ring. |
| `ByteRingOverruns.BlindWriteCanSurvive` | 1.0.x/ProdExplUnits/642-ground/buffer_read_write_fun.cxx:326-348 | A wrong test need not do harm: if the reader moves on before the writer publishes, the law still holds. |
| `BlockRing.PtrIsValid` | 1.0.x/ProdExplUnits/642-ground/buffer_read_write_fun.cxx:841-904 | The pointer check accepts exactly two wrapped pointers among the first 257 slots. |
| `BlockRing.TakeLook` | 1.0.x/ProdExplUnits/642-ground/buffer_read_write_fun.cxx:1198-1245 | The check and the counting loop together answer the exact distance between the pointers, or busy. |
| `BlockRing.BusyMeansTail` | 1.0.x/ProdExplUnits/642-ground/buffer_read_write_fun.cxx:1198-1245 | Looks fail only on a pointer caught at the tail, for every pair of wrapped pointers, if and only if the ring has at most 256 slots. |
| `BlockRing.Count` | 1.0.x/ProdExplUnits/642-ground/buffer_read_write_fun.cxx:1471-1516 | The unlimited counting loop returns the number of blocks between the pointers. |
| `BlockRing.DistanceCounts` | 1.0.x/ProdExplUnits/642-ground/buffer_read_write_fun.cxx:1210-1236 | The distance counts the blocks published and not yet taken, for every position on the ring. |
| `BlockBuffers.PublishAppends` | 1.0.x/ProdExplUnits/642-ground/buffer_read_write_fun.cxx:1148-1162 | Filling the write slot and stepping on appends one block; the one-slot gap keeps the slot last read out of the queue. |
| `BlockBuffers.ClaimDrops` | 1.0.x/ProdExplUnits/642-ground/buffer_read_write_fun.cxx:1365-1378 | Stepping the read pointer on claims the oldest block and no other. |
| `BlockBuffers.BlockBuffer.constructor` | 1.0.x/ProdExplUnits/642-ground/buffer_read_write_fun.cxx:1093-1146 | A new ring is empty; a request for one item gets two slots. |
| `BlockBuffers.BlockBuffer.CopyIn` | 1.0.x/ProdExplUnits/642-ground/buffer_read_write_fun.cxx:1148-1162 | One block, cut to the item size, is appended; its stored length is returned. |
| `BlockBuffers.BlockBuffer.Write` | 1.0.x/ProdExplUnits/642-ground/buffer_read_write_fun.cxx:1163-1275 | A write appends the cut block while one slot is spare, is refused as full otherwise, and as busy where the loops give up; a refusal changes nothing. |
| `BlockBuffers.BlockBuffer.Read` | 1.0.x/ProdExplUnits/642-ground/buffer_read_write_fun.cxx:1276-1387 | A read removes the oldest block and copies out exactly as much of it as was asked for; empty and busy change nothing. |
| `BlockBuffers.BlockBuffer.Cnt` | 1.0.x/ProdExplUnits/642-ground/buffer_read_write_fun.cxx:1471-1516 | The count is the number of waiting blocks. |
| `BlockBuffers.BlockBuffer.Clear` | 1.0.x/ProdExplUnits/642-ground/buffer_read_write_fun.cxx:1388-1406 | The ring is empty, whatever it held. |
| `BlockRingThreads.FillingIsApart` | 1.0.x/ProdExplUnits/642-ground/buffer_read_write_fun.cxx:1148-1162 | The slot being filled is none of those still to be read or being read. |
| `BlockRingThreads.WriterKeepsInv` | 1.0.x/ProdExplUnits/642-ground/buffer_read_write_fun.cxx:1198-1270 | Every statement of the writer, and every byte it copies, keeps the protocol invariant. |
| `BlockRingThreads.ReaderKeepsInv` | 1.0.x/ProdExplUnits/642-ground/buffer_read_write_fun.cxx:1310-1383 | Every statement of the reader, and every byte it copies, keeps it too. |
| `BlockRingThreads.RunKeepsInv` | 1.0.x/ProdExplUnits/642-ground/buffer_read_write_fun.cxx:1198-1383 | So does every interleaving of both from a new ring, of any size from two slots on. |
| `BlockRingThreads.DeliveryIsFifo` | 1.0.x/ProdExplUnits/642-ground/buffer_read_write_fun.cxx:1198-1383 | In every interleaving the blocks delivered are the blocks accepted, in order, once each, cut only to the size each read asked for, and no copy leaves its slot. |
| `BlockRingThreads.AcceptedIsWhatWasWritten` | 1.0.x/ProdExplUnits/642-ground/buffer_read_write_fun.cxx:1147-1161 | In every interleaving the blocks accepted are the sources of the writes that return without an error, in order, each cut to the first min(length, item) bytes, and each such write returns the length of its block. |
| `BlockRingThreads.DeliveredIsWhatReadsReturned` | 1.0.x/ProdExplUnits/642-ground/buffer_read_write_fun.cxx:1310-1386 | The blocks delivered are those of the reads that return without an error, one each; such a read returns the number of bytes it copied. |
| `BlockRingThreads.ReadsGetWhatWasWritten` | 1.0.x/ProdExplUnits/642-ground/buffer_read_write_fun.cxx:1147-1386 | From call to call: the k-th successful read gets the first min(asked, item, length) bytes of what the k-th successful write was given, and returns their number. |
| `BlockRingThreads.WriterAvoidsReadersSlot` | 1.0.x/ProdExplUnits/642-ground/buffer_read_write_fun.cxx:1148-1162 | The writer never fills the slot the reader is copying, although the reader moves its pointer before it copies. |
| `BlockRingThreads.BusyIffCaughtAtTail` | 1.0.x/ProdExplUnits/642-ground/buffer_read_write_fun.cxx:841-904 | On up to 256 slots a side is refused as busy if and only if its snapshot caught the other pointer at the tail; being refused changes nothing. |
| `BlockRingThreads.RefusalsAreJustified` | 1.0.x/ProdExplUnits/642-ground/buffer_read_write_fun.cxx:1198-1383 | Full and empty are answered only if true when the side looked. |
| `Player.PlayKeepsOrder` | 1.0.x/ProdExplUnits/642-ground/audio_sample.cxx:162-288 | A call by itself keeps the stream played ++ pending ++ main and pending within one chunk, whatever the device takes. |
| `Player.PlayedIsWhatTheDeviceTook` | 1.0.x/ProdExplUnits/642-ground/audio_sample.cxx:244-281 | Of the min(3072, waiting) bytes offered the device gets the first ones, as many as it did not report as left over, or all if it reports more than it was offered; the rest is pending again. |
| `Player.QuietCallIsPlay` | 1.0.x/ProdExplUnits/642-ground/audio_sample.cxx:162-288 | A call in whose gaps nothing happens returns -5 or is that one. |
| `Player.CallReturnsIff` | 1.0.x/ProdExplUnits/642-ground/audio_sample.cxx:162-288 | When a call with clears and appends in its gaps returns -5, -6, -1 and 0, each in both directions. |
| `Player.DeviceGetsTheLine` | 1.0.x/ProdExplUnits/642-ground/audio_sample.cxx:196-281 | A call that returns 0 plays the first bytes in line when it read, as many as the device took, makes the rest of those offered pending and keeps the others in the main ring ahead of what arrived. A clear noticed while the device wrote drops the rest; every other call plays nothing. |
| `Player.FailsIff` | 1.0.x/ProdExplUnits/642-ground/audio_sample.cxx:230-234 | A call returns -6 if and only if it comes to its reads and the two rings then hold less than the border; this is the second of the two exits, the first is never taken. |
| `Player.FailingLosesEverything` | 1.0.x/ProdExplUnits/642-ground/audio_sample.cxx:196-234 | That takes a clear behind the tests: of pending since its size was taken or of main since the first test of the counter. All that both rings held is then lost. |
| `Player.ClearBehindTheTestFails` | 1.0.x/ProdExplUnits/642-ground/audio_sample.cxx:188-234 | It happens: 1000 bytes pending, 1500 in the main ring, and a clear of the main ring before the reads. |
| `Player.PendingClearIsUnseen` | 1.0.x/ProdExplUnits/642-ground/audio_sample.cxx:223-281 | A clear of pending behind its read has no effect at all: the call returns the same, and what the device leaves is put back. |
| `Player.CallKeepsOrder` | 1.0.x/ProdExplUnits/642-ground/audio_sample.cxx:162-400 | A call with clears of either ring and appends in any of its eight gaps: the stream is made of what it was and what arrived, in order, each byte at most once; without a clear it is all of that. What was played stays played. |
| `Player.LongerPendingReorders` | 1.0.x/ProdExplUnits/642-ground/audio_sample.cxx:196-232 | The bound on pending is exact: any longer pending ring would let some call reorder the stream. |
| `Player.NothingLostOrReordered` | 1.0.x/ProdExplUnits/642-ground/audio_sample.cxx:162-400 | Over every run of calls with clears of either ring and appends, between the calls and in all their gaps, played ++ pending ++ main is a subsequence of what arrived; without a clear it is exactly what arrived. Pending stays within 3072 bytes. |
| `Player.PlayedOnlyGrows` | 1.0.x/ProdExplUnits/642-ground/audio_sample.cxx:162-400 | In every run, each event only adds to what the device has taken. |
| `Player.TwoBufferPlayer.constructor` | 1.0.x/ProdExplUnits/642-ground/bcu_function.cxx:171-171 | The pending ring has 3072 + 64 bytes of storage. |
| `Player.TwoBufferPlayer.Interfere` | 1.0.x/ProdExplUnits/642-ground/buffer_read_write_fun.cxx:761-775 | Clears and appends of other threads, with the clear counter of the main ring in eight bits. |
| `Player.TwoBufferPlayer.ReadPending` | 1.0.x/ProdExplUnits/642-ground/audio_sample.cxx:196-220 | Everything pending goes into the chunk; the first exit with -6 is never taken. |
| `Player.TwoBufferPlayer.ReadMain` | 1.0.x/ProdExplUnits/642-ground/audio_sample.cxx:221-229 | Behind it come bytes of the main ring, as many as fit. |
| `Player.TwoBufferPlayer.PutBack` | 1.0.x/ProdExplUnits/642-ground/audio_sample.cxx:257-281 | What the device leaves over always fits back into the pending ring, in order. |
| `Player.TwoBufferPlayer.PlayTwice` | 1.0.x/ProdExplUnits/642-ground/audio_sample.cxx:162-400 | A whole call, for both variants, with clears of either ring and appends by other threads in each of its eight gaps: the returned value, what the device has got, and what both rings hold. |
| `ReceiveCache.ReceiveKeepsBounded` | 1.0.x/ProdExplUnits/642-ground/network/udp_recv_fun.cxx:612-678 | Between packets at most three are queued and the push flag stands only with three; within a receive there are at most four. |
| `ReceiveCache.ReceiveConserves` | 1.0.x/ProdExplUnits/642-ground/network/udp_recv_fun.cxx:612-678 | A receive splits the queue, with the packet if accepted, into what is passed on and what stays. |
| `ReceiveCache.EmittedOnceInOrder` | 1.0.x/ProdExplUnits/642-ground/network/udp_recv_fun.cxx:101-156 | Over every history with end flags, forced clears and forced pushes, each accepted packet no clear drops is emitted exactly once, in acceptance order; at most three wait. |
| `ReceiveCache.ReceiveByNumber` | 1.0.x/ProdExplUnits/642-ground/network/udp_recv_fun.cxx:831-904 | One receive, in every run, by where the packet's number stands between the oldest and the newest queued: whether it is queued, and what goes out; the push flag never decides it. |
| `ReceiveCache.OrderlyStreamIsDelayedByThree` | 1.0.x/ProdExplUnits/642-ground/network/udp_recv_fun.cxx:831-904 | Packets that arrive with consecutive numbers all go out in order, three packets late. |
| `ReceiveCache.EndOfStreamBringsOutAll` | 1.0.x/ProdExplUnits/642-ground/network/udp_recv_fun.cxx:831-904 | A packet with the end flag behind such a stream brings out all of it. |
| `ReceiveCache.LatePacketsStayLate` | 1.0.x/ProdExplUnits/642-ground/network/udp_recv_fun.cxx:907-925 | Emission follows acceptance, not packet numbers: a packet one place late is passed on one place late. |
| `ReceiveCache.TurnDropsOldest` | 1.0.x/ProdExplUnits/642-ground/network/udp_recv_fun.cxx:786-798 | Turning the pointer array keeps it a permutation of the six slots and drops just the oldest packet. |
| `ReceiveCache.Receiver.constructor` | 1.0.x/ProdExplUnits/642-ground/network/udp_recv_fun.cxx:74-92 | Six slots, each under its own pointer, an empty queue. |
| `ReceiveCache.Receiver.ForceClear` | 1.0.x/ProdExplUnits/642-ground/network/udp_recv_fun.cxx:101-118 | The queue is emptied and nothing is emitted; the old counter stays until the next receive. |
| `ReceiveCache.Receiver.ForcePush` | 1.0.x/ProdExplUnits/642-ground/network/udp_recv_fun.cxx:120-155 | Everything queued is emitted in order and the queue is emptied. |
| `ReceiveCache.Receiver.ArraySort` | 1.0.x/ProdExplUnits/642-ground/network/udp_recv_fun.cxx:786-798 | The first six pointers are turned by one place, through the spare seventh. |
| `ReceiveCache.Receiver.WriteToBuffer` | 1.0.x/ProdExplUnits/642-ground/network/udp_recv_fun.cxx:714-744 | The oldest packet is emitted and leaves the queue; the push flag falls with the last one. |
| `ReceiveCache.Receiver.AddPackage` | 1.0.x/ProdExplUnits/642-ground/network/udp_recv_fun.cxx:928-943 | The incoming packet is queued unless its number is not above that of the oldest; otherwise nothing changes. |
| `ReceiveCache.Receiver.ArrayMoveSort` | 1.0.x/ProdExplUnits/642-ground/network/udp_recv_fun.cxx:907-925 | The incoming pointer goes behind the newest queued packet not numbered below it; for its caller that is the end of the queue. |
| `ReceiveCache.Receiver.AddOrAbandon` | 1.0.x/ProdExplUnits/642-ground/network/udp_recv_fun.cxx:852-904 | A packet is queued or dropped by the number window of the queue's ends, and startles a short queue exactly when it is outside both windows. |
| `ReceiveCache.Receiver.Sort` | 1.0.x/ProdExplUnits/642-ground/network/udp_recv_fun.cxx:831-850 | The queue and the push flag after every packet, for an empty, short and full cache. |
| `ReceiveCache.Receiver.Receive` | 1.0.x/ProdExplUnits/642-ground/network/udp_recv_fun.cxx:612-678 | The pointer machine does to its queue and its output exactly what the abstract cache does, and keeps the pointers a permutation with the incoming slot at place counter. |
| `AudioTransport.PacketsAreFaithful` | 1.0.x/ProdExplUnits/642-ground/network/udp_send_fun.cxx:55-98 | Cutting a buffer loses nothing, fills every packet but the last with 1024 bytes, and numbers packets consecutively. |
| `AudioTransport.AllPacketsAreFaithful` | 1.0.x/ProdExplUnits/642-ground/network/udp_send_fun.cxx:55-115 | Over any number of buffers the packets carry just the bytes given and the numbering runs on. |
| `AudioTransport.NumbersWrap` | 1.0.x/ProdExplUnits/642-ground/network/udp_send_fun.cxx:100-115 | Numbers are consecutive in 32-bit arithmetic: packet k carries k, wrapped. |
| `AudioTransport.Sender.SendBuffer` | 1.0.x/ProdExplUnits/642-ground/network/udp_send_fun.cxx:55-115 | The packets sent are those of the cut buffer, up to the first failing send, which also uses up a number. |
| `AudioTransport.HeardIsWhatArrived` | 1.0.x/ProdExplUnits/642-ground/network/udp_recv_fun.cxx:475-518 | On the live path the bytes read and waiting are the payloads in arrival order if every packet found room; if one did not, bytes are missing. |
| `AudioTransport.PlayerReadsTheOldest` | 1.0.x/ProdExplUnits/642-ground/network/udp_recv_fun.cxx:475-518 | Reading takes the oldest min(asked, waiting) bytes; a packet adds the first bytes of its payload, as many as the ring has room for. |
| `AudioTransport.StreamSurvives` | 1.0.x/ProdExplUnits/642-ground/network/udp_recv_fun.cxx:202-278 | Packets delivered in order and without loss, with room in the ring, give back the very bytes handed to the sender. |
| `AudioTransport.LiveReceiver.Receive` | 1.0.x/ProdExplUnits/642-ground/network/udp_recv_fun.cxx:241-278 | The live variant's cache count stays 0, so each payload goes straight to the ring, as much as fits. |
| `Crc32.TableIsEightSteps` | 1.0.x/ProdExplUnits/642-ground/network/zhw_shell_function.cxx:23-89 | All 256 table entries are the eight-step remainders of their index. |
| `Crc32.OnePass` | 1.0.x/ProdExplUnits/642-ground/network/zhw_shell_function.cxx:110-113 | One table look-up and shift is eight steps of the bitwise register. |
| `Crc32.CalcCRC32` | 1.0.x/ProdExplUnits/642-ground/network/zhw_shell_function.cxx:97-116 | For every byte string the table-driven value is the bit-by-bit reflected CRC-32 of section 8 of RFC 1952. |
| `CrcValues.KnownValues` | 1.0.x/ProdExplUnits/642-ground/network/zhw_shell_function.cxx:97-116 | The check value of the nine digits is 0xCBF43926, that of one zero byte 0xD202EF8D, and that of no byte 0. |
| `CrcValues.CheckedImageLeavesResidue` | 1.0.x/ProdExplUnits/642-ground/network/zhw_shell_function.cxx:97-116 | For every image, the register run from 0xFFFFFFFF over the image and its check value, low byte first, ends at 0xDEBB20E3. |
| `CrcBursts.RegisterFeeds` | 1.0.x/ProdExplUnits/642-ground/network/zhw_shell_function.cxx:97-116 | The byte-wise register is the bit-serial one over the message bits. |
| `CrcBursts.FeedIsLinear` | 1.0.x/ProdExplUnits/642-ground/network/zhw_shell_function.cxx:97-116 | Two runs of equal length differ by the run of their difference. |
| `CrcBursts.FeedIsInjective` | 1.0.x/ProdExplUnits/642-ground/network/zhw_shell_function.cxx:110-113 | For the same message bits different registers stay different. |
| `CrcBursts.ShortRunsAreInjective` | 1.0.x/ProdExplUnits/642-ground/network/zhw_shell_function.cxx:110-113 | From one register, different strings of up to 32 bits lead to different registers. |
| `CrcBursts.BurstIsDetected` | 1.0.x/ProdExplUnits/642-ground/network/zhw_shell_function.cxx:97-116 | Images of equal length that differ only inside a window of 32 consecutive bits, at any bit position, get different values. |
| `CrcBursts.FourByteWindowIsDetected` | 1.0.x/ProdExplUnits/642-ground/network/zhw_shell_function.cxx:97-116 | The same for any four consecutive bytes. |
| `CrcBursts.ThirtyThreeBitsAreNotEnough` | 1.0.x/ProdExplUnits/642-ground/network/zhw_shell_function.cxx:97-116 | The bound is exact: two different strings of 33 bits lead from every register to the same one. |
| `CrcBursts.ThirtyThreeBitsCanGoUnnoticed` | 1.0.x/ProdExplUnits/642-ground/network/zhw_shell_function.cxx:97-116 | For images too: between any two others, two different strings of five bytes, alike outside 33 consecutive bits, give the same value. |
| `LineWrap.WrapOnlyInserts` | 1.0.x/ProdExplUnits/642-ground/touch_screen/change_chinese_line.cxx:18-101 | The wrapped text is the source with nothing but line breaks inserted. |
| `LineWrap.BreaksExactlyWhereRoomEnds` | 1.0.x/ProdExplUnits/642-ground/touch_screen/change_chinese_line.cxx:58-72 | A break is inserted exactly behind a whole character, not itself a break, behind which one more wide character would not fit. |
| `LineWrap.CountersMeasure` | 1.0.x/ProdExplUnits/642-ground/touch_screen/change_chinese_line.cxx:39-72 | The counters measure the text: the open bytes and the width of the last line, which is 0 or leaves room for one wide character. |
| `LineWrap.LinesFitIffGlyphsFit` | 1.0.x/ProdExplUnits/642-ground/touch_screen/change_chinese_line.cxx:58-72 | Every line of the wrapped text fits the width if and only if every single character does. |
| `LineWrap.WideEnoughAlwaysFits` | 1.0.x/ProdExplUnits/642-ground/touch_screen/change_chinese_line.cxx:58-72 | With a width of 24 or more no line is ever too wide. |
| `LineWrap.NoCharacterIsSplit` | 1.0.x/ProdExplUnits/642-ground/touch_screen/change_chinese_line.cxx:39-88 | In the wrapped form of well-formed text no break stands inside a three-byte character. |
| `LineWrap.BreaksFollowCharacters` | 1.0.x/ProdExplUnits/642-ground/touch_screen/change_chinese_line.cxx:68-87 | An inserted break stands behind a whole character even in malformed text. |
| `LineWrap.LinesCountsLastLine` | 1.0.x/ProdExplUnits/642-ground/touch_screen/change_chinese_line.cxx:97-100 | The returned count is the number of breaks plus one for a last line that is not empty, if and only if the source does not end in a break; then it is one more. |
| `LineWrap.Convert` | 1.0.x/ProdExplUnits/642-ground/touch_screen/change_chinese_line.cxx:18-101 | The destination holds exactly the wrapped text and a terminator, and the count is returned. |
| `RequestList.ListIsTheOpenRequests` | 1.0.x/ProdExplUnits/642-ground/link.cxx:29-231 | After every history of inserts, updates and deletes the list holds exactly the open keys, each once, with its latest state, in the order of opening. |
| `RequestList.DescriptionIsUnique` | 1.0.x/ProdExplUnits/642-ground/link.cxx:29-231 | That description determines the list. |
| `RequestList.InsertAndDelete` | 1.0.x/ProdExplUnits/642-ground/link.cxx:89-129 | Re-inserting changes nothing, exactly for keys that are there; deleting undoes inserting a key that was not. |
| `RequestList.DeleteMovesUp` | 1.0.x/ProdExplUnits/642-ground/link.cxx:203-231 | Deleting removes just that key and keeps the others in place and order. |
| `RequestList.DeskListIsTheOpenRequests` | 1.0.x/ProdExplUnits/642-ground/bcu_function.cxx:1810-1891 | The same law for the lists of the console after every run of packages: requests, acceptances, refusals, calls taken up by another seat (type 6), and any others. |
| `RequestList.PackageEffect` | 1.0.x/ProdExplUnits/642-ground/bcu_function.cxx:1810-1891 | What each package does to the entry of each key, after every run. |
| `RequestList.NumberIsLengthUnlessForeignRefusal` | 1.0.x/ProdExplUnits/642-ground/bcu_function.cxx:2040-2067 | The number shown is the list length after every run, unless the last package that touched the number was a refusal by another seat and the list is not empty; that package leaves the list alone and shows 0. |
| `RequestList.ForeignAcceptanceRemoves` | 1.0.x/ProdExplUnits/642-ground/bcu_function.cxx:1826-1862 | The package by which another seat accepts a request removes it if and only if the withdrawn key is its own. |
| `RequestList.ForeignTakeUpRemoves` | 1.0.x/ProdExplUnits/642-ground/bcu_function.cxx:2041-2046 | The package by which another seat takes up a call removes its request, after every run. |
| `RequestList.List.Query` | 1.0.x/ProdExplUnits/642-ground/link.cxx:29-60 | The node of the first request with the key and the node in front of it, or none and the last node. |
| `RequestList.List.Update` | 1.0.x/ProdExplUnits/642-ground/link.cxx:62-85 | Only the state of that request changes; a missing key is reported. |
| `RequestList.List.Insert` | 1.0.x/ProdExplUnits/642-ground/link.cxx:89-129 | The node is linked at the end, or given up if its key is there; all other links and nodes are kept. |
| `RequestList.List.Delete` | 1.0.x/ProdExplUnits/642-ground/link.cxx:203-231 | The node of that key is unlinked, and no other. |
| `RequestList.List.Count` | 1.0.x/ProdExplUnits/642-ground/link.cxx:139-168 | The number of requests. |
| `RequestList.List.CountUnanswered` | 1.0.x/ProdExplUnits/642-ground/link.cxx:170-204 | The number of requests in state 0. |
| `RequestList.Requests.OnRequest` | 1.0.x/ProdExplUnits/642-ground/bcu_function.cxx:1810-1824 | A request package inserts its key unanswered and shows the length of the list. |
| `RequestList.Requests.OnAccept` | 1.0.x/ProdExplUnits/642-ground/bcu_function.cxx:1826-1862 | An acceptance marks the accepted key, withdraws the other one if another seat accepted, and shows the length. |
| `RequestList.Requests.OnRefuse` | 1.0.x/ProdExplUnits/642-ground/bcu_function.cxx:1865-1883 | A refusal by the own seat deletes the key and shows the length; one by another seat shows 0. |
| `RequestList.Requests.OnTakeUp` | 1.0.x/ProdExplUnits/642-ground/bcu_function.cxx:2041-2046 | A call taken up by another seat with flag 1 is deleted and the length shown; otherwise nothing changes. |
| `RuleTable.SearchIsTheMapOfEnabledRules` | 1.0.x/ProdExplUnits/642-ground/bcu_function.cxx:389-529 | While at most 50 rules with different (source, trigger) were added, the first-match search is the partial map of the enabled rules, for every order of adding, enabling and disabling. |
| `RuleTable.FullTableDropsRules` | 1.0.x/ProdExplUnits/642-ground/bcu_function.cxx:401-414 | Adding changes nothing exactly when no slot is empty. |
| `RuleTable.EarlierRuleShadows` | 1.0.x/ProdExplUnits/642-ground/bcu_function.cxx:650-665 | Of two rules with one source and trigger the earlier one answers while it is enabled. |
| `RuleTable.HangUpStandsBetweenCalls` | 1.0.x/ProdExplUnits/642-ground/bcu_function.cxx:514-529 | However the installed rules are switched, states change only along installed rules; hang-up is entered only from a passenger call and left only to a driver or passenger call. |
| `RuleTable.InstalledSearchIsArrow` | 1.0.x/ProdExplUnits/642-ground/bcu_function.cxx:498-529 | The search in the table as installed is the machine written out state by state. |
| `RuleTable.SwitchedSearch` | 1.0.x/ProdExplUnits/642-ground/bcu_function.cxx:442-485 | With rules switched it is that machine restricted to the rules that are on. |
| `RuleTable.IdleIsAlwaysReachable` | 1.0.x/ProdExplUnits/642-ground/bcu_function.cxx:498-529 | From every state some triggers lead back to idle. |
| `RuleTable.Table.constructor` | 1.0.x/ProdExplUnits/642-ground/bcu_function.cxx:389-399 | Fifty empty, disabled slots. |
| `RuleTable.Table.AddRule` | 1.0.x/ProdExplUnits/642-ground/bcu_function.cxx:401-414 | The rule goes, enabled, into the first empty slot; a full table ignores it. |
| `RuleTable.Table.Switch` | 1.0.x/ProdExplUnits/642-ground/bcu_function.cxx:442-485 | The first slot holding just that rule is switched, and no other. |
| `RuleTable.Table.Search` | 1.0.x/ProdExplUnits/642-ground/bcu_function.cxx:644-668 | The target of the first enabled rule for the state and trigger, if any. |
| `RuleTable.Install` | 1.0.x/ProdExplUnits/642-ground/bcu_function.cxx:498-529 | The table holds the nine rules in order. |
| `Priority.CreateList` | 1.0.x/ProdExplUnits/642-ground/bcu_state_machine.cxx:263-357 | The list is the idle node followed by the table from its end to its front, with ids found by name. |
| `Priority.NamesResolve` | 1.0.x/ProdExplUnits/642-ground/bcu_state_machine.cxx:53-69 | Comparing names over the shorter length, every option stands for its own id except the two that extend an earlier one. |
| `Priority.DefaultTableMakesDefaultList` | 1.0.x/ProdExplUnits/642-ground/bcu_state_machine.cxx:72-89 | The default table makes the list of eight announcements, all but the TMS manual one with a state. |
| `Priority.CreatedListsArbitrate` | 1.0.x/ProdExplUnits/642-ground/bcu_state_machine.cxx:263-357 | Every list made from a table of unsigned priorities has idle in front, with the lowest priority. |
| `Priority.FindNode` | 1.0.x/ProdExplUnits/642-ground/bcu_state_machine.cxx:454-470 | The first node with the id. |
| `Priority.ValueRisesOnlyByEndingLive` | 1.0.x/ProdExplUnits/642-ground/bcu_state_machine.cxx:501-577 | For every list the active priority value rises if and only if the step releases the live announcement while it is active; that step goes to idle. |
| `Priority.ValueOnlyFalls` | 1.0.x/ProdExplUnits/642-ground/bcu_state_machine.cxx:501-577 | For every list and over every run of commands the value stays at or below where the start or the last such step left it, and never rises in any other step; announcements are followed by announcements if the list names no other state. |
| `Priority.DefaultListArbitrates` | 1.0.x/ProdExplUnits/642-ground/bcu_state_machine.cxx:501-577 | With the default list a command that does not release live enters its announcement if and only if that stands no further back than the active one in the order OCC, MIC_3D5, LIVE, EMERG, MANUAL, TMS-AUTO, TMS-MANUAL, idle, and is not TMS-MANUAL. |
| `Priority.OneSideMustBeIdle` | 1.0.x/ProdExplUnits/642-ground/bcu_state_machine.cxx:514-576 | For every list, -1 is returned exactly for commands that address both sides or neither, and they enter nothing. |
| `Priority.BareReleaseCanStartLive` | 1.0.x/ProdExplUnits/642-ground/bcu_state_machine.cxx:480-560 | Alone, the exchange lets a release start the live announcement exactly from the announcements whose value is not below that of live. |
| `Priority.BareReleaseInDefaultList` | 1.0.x/ProdExplUnits/642-ground/bcu_state_machine.cxx:480-560 | In the default list these are the emergency, manual, automatic and idle states. |
| `Console.ExitIsSafe` | 1.0.x/ProdExplUnits/642-ground/bcu_intercom.cxx:229-442 | Leaving any intercom state leaves microphone, buttons, occupancy and broadcasts as in idle. |
| `Console.EnterIsSafe` | 1.0.x/ProdExplUnits/642-ground/bcu_intercom.cxx:196-425 | Entering any intercom state from there leaves them as that state wants. |
| `Console.IntercomChangeIsSafe` | 1.0.x/ProdExplUnits/642-ground/bcu_intercom.cxx:196-442 | So leaving any state for any other, by rule or by force, keeps them consistent. |
| `Console.AnnChangeIsSafe` | 1.0.x/ProdExplUnits/642-ground/bcu_ann.cxx:123-160 | So does leaving and entering the live announcement. |
| `Console.EveryRunIsSafe` | 1.0.x/ProdExplUnits/642-ground/bcu_function.cxx:602-668 | After every run of changes made in one step: announcement owns the microphone only in live, intercom only in a call; the live and driver-call buttons are lit, and the own seat occupied, exactly in their states; occupancy broadcasts strictly alternate, starting with occupied; live is the only announcement ever active. |
| `Console.OtherEntriesAreReports` | 1.0.x/ProdExplUnits/642-ground/bcu_function.cxx:2086-2096 | The occupancy entry of every other seat is its last report. |
| `Console.OwnEntryIsLastBroadcast` | 1.0.x/ProdExplUnits/642-ground/bcu_function.cxx:2086-2096 | The own entry is the last broadcast in every run: no report ever changes it. |
| `Console.RulesAreSwitchedOnly` | 1.0.x/ProdExplUnits/642-ground/bcu_function.cxx:442-485 | In every run the rule table is the installed one with rules switched. |
| `Console.StepMoves` | 1.0.x/ProdExplUnits/642-ground/bcu_function.cxx:644-668 | The intercom state changes only along an enabled rule or by force into a driver call. |
| `Console.TriggersTakeEnabledRules` | 1.0.x/ProdExplUnits/642-ground/bcu_function.cxx:644-698 | In every run, a trigger with a rule for the active state that is on leads to the target of that rule; without one it changes nothing. |
| `Console.InstalledTriggersMove` | 1.0.x/ProdExplUnits/642-ground/bcu_function.cxx:644-698 | With all rules on, every trigger moves as the installed machine says. |
| `Console.IntercomEvents` | 1.0.x/ProdExplUnits/642-ground/bcu_function.cxx:644-698 | In every run an event of the intercom either moves nothing or settles the microphone: with a call that is entered, free otherwise, and untouched only from idle into monitoring. Each end of a call of the own seat is one broadcast. A forced driver call always leads to one. |
| `Console.AnnouncementEvents` | 1.0.x/ProdExplUnits/642-ground/bcu_function.cxx:899-1003 | In every run an event of the announcement changes nothing, or starts live with microphone and button, or ends it and frees the microphone; intercom, occupancy and broadcasts stay. |
| `Console.OtherEvents` | 1.0.x/ProdExplUnits/642-ground/bcu_function.cxx:2086-2096 | Reports touch only the entries of the seats, switching only the rules. |
| `Console.MonitoringDropsTheLiveMic` | 1.0.x/ProdExplUnits/642-ground/bcu_intercom.cxx:270-300 | Leaving monitoring while live is active leaves the announcement on with a free microphone, in every run. |
| `Console.MonitoringDropsTheLiveMicHappens` | 1.0.x/ProdExplUnits/642-ground/bcu_intercom.cxx:270-300 | And a run of three events does that. |
| `Console.CallsInterruptInOrder` | 1.0.x/ProdExplUnits/642-ground/bcu_function.cxx:514-529 | In every run hang-up is entered only from a passenger call and left only to a call; monitoring ends in idle unless a driver call is forced. |
| `Console.OnlyLivePasses` | 1.0.x/ProdExplUnits/642-ground/bcu_function.cxx:899-930 | Of all announcement commands only those of the live announcement change the state. |
| `Console.AnnCommandsToggleLive` | 1.0.x/ProdExplUnits/642-ground/bcu_function.cxx:899-1003 | An announcement command that changes anything turns live on or off: it never restarts it. |
| `Console.LiveStartsIff` | 1.0.x/ProdExplUnits/642-ground/bcu_function.cxx:899-930 | A command starts the live announcement in a run if and only if it is not active, the command asks for it, and the microphone is free or the flag is neither 0 nor 1. |
| `Console.LiveEndsIff` | 1.0.x/ProdExplUnits/642-ground/bcu_function.cxx:899-1003 | In every run, while live is active a command ends it if and only if it is a live command with an idle intercom field and flag 0; then live is off and the microphone free. No other announcement command changes anything. |
| `Console.OddFlagTakesTheMicFromACall` | 1.0.x/ProdExplUnits/642-ground/bcu_function.cxx:909-915 | With a flag other than 0 and 1, and only then, a command takes the microphone from a driver call in progress; no caller in the program sends one. |
| `Console.ReleaseOutsideLiveIsIgnored` | 1.0.x/ProdExplUnits/642-ground/bcu_function.cxx:967-1003 | In every run a release outside live changes nothing, although the bare exchange would start live. |
| `Console.CallLosesMicIffLiveChanges` | 1.0.x/ProdExplUnits/642-ground/bcu_ann.cxx:123-160 | A call that has the microphone and goes on loses it exactly when a live announcement starts or ends. |
| `Console.MicFallsFreeIffLiveEnds` | 1.0.x/ProdExplUnits/642-ground/bcu_ann.cxx:146-160 | During a call the microphone falls free exactly when a live announcement ends. |
| `Console.FreeMicDuringACall` | 1.0.x/ProdExplUnits/642-ground/bcu_ann.cxx:146-160 | And that happens: a run reaches a driver call in progress with a free microphone. |
| `Console.IntercomCommandsAnswer` | 1.0.x/ProdExplUnits/642-ground/bcu_function.cxx:934-964 | In every run, for every command and however rules are switched, the answer written out is given exactly if its rule is on, and otherwise nothing moves. |
| `Console.NoCommandEndsDriverCalls` | 1.0.x/ProdExplUnits/642-ground/bcu_function.cxx:934-964 | In every run no command whatever ends a driver call of its own or monitoring. |
| `Console.AnswerIsArrow` | 1.0.x/ProdExplUnits/642-ground/bcu_function.cxx:1202-1281 | The filter, the event type and the installed rules together are that answer, for every state and command. |
| `Console.Device.constructor` | 1.0.x/ProdExplUnits/642-ground/bcu_function.cxx:602-613 | Both machines idle, the microphone free, no call entry, nothing sent. |
| `Console.Device.Exit` | 1.0.x/ProdExplUnits/642-ground/bcu_intercom.cxx:229-442 | What leaving each intercom state does to the shared fields. |
| `Console.Device.Enter` | 1.0.x/ProdExplUnits/642-ground/bcu_intercom.cxx:196-425 | What entering each intercom state does to the shared fields. |
| `Console.Device.Exchange` | 1.0.x/ProdExplUnits/642-ground/bcu_function.cxx:644-668 | The first enabled rule for the trigger, if any, is followed: exit, then enter. |
| `Console.Device.ChangeAnnouncement` | 1.0.x/ProdExplUnits/642-ground/bcu_ann.cxx:123-160 | What leaving and entering announcement states does to the shared fields. |
| `Console.Device.DynamicExchange` | 1.0.x/ProdExplUnits/642-ground/bcu_state_machine.cxx:501-577 | The announcement entered, and the value returned, for every list and command. |
| `Console.Device.OnAnnCommand` | 1.0.x/ProdExplUnits/642-ground/bcu_function.cxx:899-930 | The filter and the microphone guard in front of the exchange. |
| `Console.Device.OnIntercomCommand` | 1.0.x/ProdExplUnits/642-ground/bcu_function.cxx:934-964 | The filter in front of the rule table. |
| `Console.Device.ForceIdle` | 1.0.x/ProdExplUnits/642-ground/touch_screen/touch_screen_function.cxx:331-365 | The active announcement is left for idle, whatever it is. |
| `Console.Device.ForceDriverCall` | 1.0.x/ProdExplUnits/642-ground/touch_screen/touch_screen_function.cxx:366-376 | The active intercom state is left for a driver call, whatever it is. |
| `Console.Device.RegisterCall` | 1.0.x/ProdExplUnits/642-ground/bcu_function.cxx:2086-2096 | A report of another seat replaces its entry; one that bears the own number is ignored. |
| `Console.Device.SetRule` | 1.0.x/ProdExplUnits/642-ground/bcu_function.cxx:442-485 | Only the switch of that rule changes. |
| `ConsolePauses.HalvesMakeAChange` | 1.0.x/ProdExplUnits/642-ground/bcu_function.cxx:644-668 | Without interference, leaving and then entering behind the pause is the change made in one step. |
| `ConsolePauses.OrderlyRunsAreSafe` | 1.0.x/ProdExplUnits/642-ground/bcu_function.cxx:655-658 | With every change split by its pause, and everything else going on in the pauses, every run keeps what one-step runs keep as long as no change begins in the pause of another; in a pause everything is as in idle. |
| `ConsolePauses.OverlapIsSafeIff` | 1.0.x/ProdExplUnits/642-ground/bcu_function.cxx:655-658 | If a change begins in the pause of another and both then finish, all is consistent if and only if neither target is a call that occupies the seat. |
| `ConsolePauses.ReleaseInPauseBreaks` | 1.0.x/ProdExplUnits/642-ground/bcu_function.cxx:655-658 | It happens: a driver call released in the pause before it is entered broadcasts a free seat that was never occupied. |

## Left out

- Byte ring and block ring addresses: pointers are offsets from `pb_head`, so 32-bit address arithmetic and its overflow are not modelled.
- CharBuffers.CharBuffer.Advance: asks that the pointer stays in the storage, `left <= origin + rd`; behind that the source leaves its own buffer. No function of the program calls it.
- CharBuffers.CharBuffer.AdvanceUnlessCleared: the same; clears by another thread fall at the start of the call or just before the comparison, not between the other statements.
- ByteRingThreads.InterleavedDeliveryIsFifo: asks that no test is blind, which suffices; `ByteRingOverruns.FifoIffNeverRunsOverOrStale` has the exact condition.
- BlockRingThreads.DeliveryIsFifo: memory is sequentially consistent; the order in which a compiler or the processor makes stores visible is not modelled.
- BlockRingThreads.BusyIffCaughtAtTail: asks for at most 256 slots, the exact bound below which the counting loops do not give up.
- The shared `items_waiting` counter of the block ring, which both sides change and no decision reads without the lock.
- `BlockBufferFull` and `CharBufferCurrentBytes`, whose answers do not fit the capacity of the rings.
- Buffer registries, names, handles, allocation failures, deletion, and the branches of the rings built with the mutex.
- Player.TwoBufferPlayer.PlayTwice: the sound device is the length it reports as not taken; other threads clear and append between the steps of a call, not within one read or write of a ring or one look at its size, at most one clear of each ring in each gap; only the player writes to pending.
- Player.NothingLostOrReordered: `CharBufferBrush`, which replays a ring, is not among the events.
- `PlayAudioTwice_D2P` and `PlayAudioTwice_D2D`, which drop and pad audio on purpose, so that no conservation law holds for them.
- Sockets and their errors in the receive functions; the packet that arrives is a parameter.
- AudioTransport.Sender.SendBuffer: the padding and the time stamp of a packet are not modelled.
- AudioTransport.LiveReceiver.Receive: the branch for a cache that is not empty is dead in every history from the start, and is not modelled.
- ReceiveCache.Receiver.AddOrAbandon: adds small constants to packet numbers in unbounded arithmetic; an overflow of `newest + 9` near 2^31 is not modelled.
- Crc32: the 256 entries are written as sixteen rows of sixteen.
- LineWrap.Convert: asks that the destination has room for the wrapped text and its terminator and holds a terminator on entry; the source assumes both. Text stands without its terminator.
- RequestList: a node given up or unlinked is not freed, only no longer reachable from the list; device names are left out.
- `BcuDeleteLink` for another seat, which returns a variable that was never set.
- `BCURemoveRule`, which leaves a slot marked as taken with meaningless pointers.
- Console.EveryRunIsSafe: a change of intercom state is one step there; `ConsolePauses` splits it at the pause, in which both the screen thread and the control thread can begin another.
- Console.Step: a trigger can come at any time, which includes every caller of StateMachineExchange and more.
- Console.Device.RegisterCall: asks for a sender between 1 and 5, the seats the table has.
- The seat number is constant; `CheckSoundRespnes` contains an assignment to it where a comparison was meant, and is not part of this model.
- Priority.CreateList: list nodes are elements of a sequence, appended in order and never changed afterwards.
- `ForceToIdle`, commands sent to other devices, audio destinations, alarms, lamps, pins and log output of the enter and exit functions.
- The button debouncer, bubble sort, device tables, package overlays and the touch screen, which are simple or outside the logic modelled here.

# lplex core, modelled and proved in Dafny

lplex records and forwards NMEA 2000 traffic: a broker numbers the frames of a boat's buses and
keeps them in a ring and a journal, consumers follow that log, a replication server in the cloud
collects it over a lossy link, and a number of smaller engines work on the frames. This project
models the parts that carry invariants and proves what those parts promise, for every input, every
interleaving or every run.

| files | what they model |
|---|---|
| `HoleTracker`, `Replication` | the cloud's gap tracking and its handshake, live, status, backfill and restart steps |
| `AddressClaim` | virtual devices claiming addresses, several managers on one bus |
| `Broker`, `Consumer`, `WakeUp` | the ring, the pull consumer across journal and ring, and its wake-ups |
| `Bytes`, `CanId`, `JournalFormat`, `JournalBlock` | the byte layout of journal blocks and reading them back |
| `JournalWriter`, `JournalFile`, `JournalReader` | writing blocks in place, rotation, block index and scan, seeking and prefetch |
| `JournalRuns`, `JournalRoundTrip`, `JournalRoom`, `JournalDevices` | whole runs of the writer, what readers get from the files, room for the device table, and what it says |
| `PgnBits`, `PgnLayout` | the PGN generator as a compiler: emitted bit accesses, encoders and decoders |
| `FilterSyntax`, `FilterParser`, `FilterRoundTrip` | filter expressions: printer, lexer, parser, evaluation |
| `FastPacket` | fragmentation and reassembly of multi-frame payloads |
| `ChangeDiff`, `ChangeTracker` | byte-mask differences, change tracker and replayer |
| `RequestRules`, `Retention` | the request-rate engine and the retention scan |

Where the source changes state in place the model is a class or a method with loops, proved against
a specification function; the laws are then lemmas about that function and about whole runs. Time,
file contents, script results, map iteration order and the answers of the journal are inputs, so
the laws hold for all of them.

Some promises turned out to hold only under a condition. Those are stated as equivalences, with the
condition the code needs:

- over every run, with heads that rise or fall, the cloud forgets no number below its live start if
  and only if each closing block and each restart meets a stated condition (`NeverForgetsIff`);
  rising heads are enough (`NothingForgotten`), falling ones are not (`FallingHeadForgets`);
- the cloud's cursor can overtake what it has received when the no-holes branch trusts the reported
  head (`CursorCanOvertake`), and is truthful exactly if each event is (`CursorSoundIff`);
- a consumer delivers exactly what passes its filter if the bus does not matter to it, which is so if
  and only if it names none or rejects everything (`BusIsNoMatterIff`); otherwise frames are lost on
  the way through the journal (`JournalSkips`);
- the files of a run of the journal writer read back as exactly the frames appended if and only if at
  every flush the frames end before the device table, every frame goes on with the number and time of
  its block under a valid header, and the last frame does not close the file (`JournalExactIff`); the
  fit check alone does not see to it (`LateClaim`, `ApartAfter`);
- a reader takes the claimant of an address for the device there from the claim on, unless the claim is
  the first frame of its block and the address was known (`ClaimTakesOver`, `SnapshotStays`);
- a CAN header survives its identifier if and only if it is a valid one (`ParseBuild`, `BuildParse`);
- an emitted bit-field read loses the top bits exactly of fields that end more than 64 bits after the
  byte they begin in (`ReadExactIff`), and a generated message survives exactly if every value can be
  carried (`PgnLayout.RoundTripIff`);
- a filter tree comes back from its printed form if and only if none of its strings has a double quote
  or a backslash (`FilterRoundTrip.RoundTripIff`);
- a fast-packet payload is delivered if and only if it has 1 to 223 bytes (`LengthIff`);
- a byte-mask difference applies if and only if the packet has at most 524280 bytes (`ApplyDiffIff`),
  and a replayer stays with its tracker exactly as long as no longer one is sent (`NeverDrifts`).

Check everything with `dafny verify dfyconfig.toml`.

## Model

| member | source | states |
|---|---|---|
| `HoleTracking.HoleTracker.Add` | replication.go:27-59 | the ranges stay sorted, disjoint and non-adjacent, and the set of missing numbers becomes its union with the added range |
| `HoleTracking.HoleTracker.Fill` | replication.go:63-92 | the missing set loses exactly the filled range, and the result tells whether any number in it was missing |
| `HoleTracking.HoleTracker.TotalMissing` | replication.go:111-117 | the total is the cardinality of the missing set |
| `HoleTracking.HoleTracker.ContinuousThrough` | replication.go:126-153 | the last number before the first missing one at or after the cursor, found by binary search; unbounded when nothing is missing there |
| `HoleTracking.CanonicalUnique` | replication.go:11-19 | two canonical range lists with the same missing set are the same list, so the representation is determined by the set |
| `Replication.InstanceState.Handshake` | replication_server.go:521-555 | the new cursor and head; the gaps gain exactly the numbers between cursor and reported head, and are reported back; the boat is told to start at that head, or at 1 if nothing was received yet |
| `Replication.InstanceState.LiveFrame` | replication_server.go:656-682 | the state after one live frame and the number acknowledged |
| `Replication.InstanceState.LiveStatus` | replication_server.go:707-713 | the reported head replaces the old one and nothing else changes |
| `Replication.InstanceState.BackfillBlock` | replication_server.go:818-845 | exactly the block's numbers leave the gaps; while gaps remain the cursor becomes the number before the first of them if that is further, and when none remains the reported head |
| `Replication.BackfillCompletes` | replication_server.go:818-845 | once blocks in any order have covered every gap, no gap remains and the cursor is at the reported head |
| `Replication.InstanceState.Snapshot` | replication_server.go:73-82 | what is persisted denotes the same cursor, gaps and head |
| `Replication.InstanceState.Reload` | replication_server.go:246-275 | a reloaded state denotes what was persisted |
| `Replication.SafeRun` | replication_server.go:521-550 | the inductive invariant behind the two laws, for every run of handshakes, frames, statuses, blocks, saves and crashes with rising heads |
| `Replication.NeverForgetsIff` | replication_server.go:521-555 | over every run whose heads fit the counters, rising or falling, in every state each number above the cursor and below the live start has been received or is a known gap, if and only if every closing block and every restart met the stated condition when it happened; both for the start last granted and for the one in force |
| `Replication.NothingForgotten` | replication_server.go:819-831 | with rising heads that condition always holds for the start in force, all gaps lie below that start, and it is the last one granted if every handshake was saved |
| `Replication.HandshakeRecovers` | replication_server.go:521-550 | whatever was forgotten before, after a handshake every number between the cursor and the start it grants is received or a known gap |
| `Replication.UnsavedHandshakeLost` | replication_server.go:246-275 | a restart after a handshake that was not saved leaves the cloud as if there had been no handshake, whatever it granted |
| `Replication.CursorSoundIff` | replication_server.go:825-831 | over every run with rising heads, everything up to the cursor has been received in every state if and only if each event met the stated condition when it happened |
| `Replication.CursorCanOvertake` | replication_server.go:828-830 | a concrete run in which the cursor passes a frame that never arrived |
| `Replication.FallingHeadForgets` | replication_server.go:707-713 | a concrete run in which a falling head makes the cloud forget a gap |
| `AddressClaim.VirtualDeviceManager.FindFreeAddress` | virtual_device.go:231-250 | the highest address not used by the registry or an active device, or that there is none |
| `AddressClaim.VirtualDeviceManager.ClaimForDevice` | virtual_device.go:193-228 | if some address of 0 to 252 is neither registered nor used by an active device, the device is in progress at the highest of them, and otherwise unable to claim at 254; the claim sent carries its NAME from there |
| `AddressClaim.VirtualDeviceManager.StartAfterDiscovery` | virtual_device.go:134-153 | all devices claim in turn, each seeing the claims before it |
| `AddressClaim.StartClaims` | virtual_device.go:134-153 | claiming for all, every device takes the highest address free by its turn, and sends that claim |
| `AddressClaim.StartSucceeds` | virtual_device.go:231-250 | every device gets an address as long as registered and own devices are no more than the 253 addresses |
| `AddressClaim.VirtualDeviceManager.HandleBusClaim` | virtual_device.go:258-301 | the whole reaction to a claim heard: which device it concerns, whether it re-asserts or relocates, and that the loser claims the highest free address |
| `AddressClaim.LowerNameWins` | virtual_device.go:258-301 | on a conflict the lower NAME keeps the address and re-asserts it, the higher one claims the highest free address; its own echo makes a device hold its address, and only that is reported as ours |
| `AddressClaim.OthersIgnored` | virtual_device.go:262-268 | a claim that concerns no active device changes nothing and is not answered |
| `AddressClaim.ClaimingSpreads` | virtual_device.go:193-211 | claiming never puts two devices of one manager on one address |
| `AddressClaim.InvAlways` | virtual_device.go:193-301 | in every reachable state of several managers on a lossless bus, any two devices at the same address have a claim in flight that will separate them |
| `AddressClaim.QuietMeansSettled` | virtual_device.go:193-301 | once no claim is in flight, no two devices in progress or holding share an address |
| `Ring.Broker.Append` | broker.go:690-748 | the entry written and its number, head and tail, at most ring-size entries between them, in normal and replica mode |
| `Ring.Broker.ReadEntry` | broker.go:1048-1061 | in normal mode every number from tail to head gives exactly that log entry; in replica mode never an entry written under another number |
| `Ring.Broker.RingRange` | broker.go:1064-1068 | a range of at most ring-size numbers which, outside replica mode, ends at the head of the log, begins where the ring reaches back to, and whose entries are all still in their slots |
| `PullConsumer.Consumer.ReadFromJournal` | consumer.go:162-278 | what a journal phase delivered or skipped is exactly what the filter lets through of the numbers it passed, journal frames being judged without a bus, however broker and journal interleave |
| `PullConsumer.Consumer.ReadFromRing` | consumer.go:93-128 | the same for the ring phase |
| `PullConsumer.Consumer.Next` | consumer.go:83-141 | one call moves the cursor over numbers that do not pass the filter to the next that does, and returns that log frame; it is cancelled only when the moves run out, and gives up only behind the ring and with a reason: no journal, a journal of no use for the number at a moment when the ring did not have it, or a ring entry overwritten between two looks; whenever journal or ring serves the number at the cursor it returns that frame |
| `PullConsumer.Consumer.Collect` | consumer.go:83-141 | for every filter, any number of calls and any interleaving, the frames returned are exactly those of the log from start to cursor that pass the filter, in order, none twice, across the journal-to-ring hand-off; frames taken from the journal pass as if they had no bus, which changes nothing for a filter to which the bus is no matter; fewer than asked for come only on cancellation or with a reason to give up, and as many as asked for if every call is served |
| `PullConsumer.RestingServes` | consumer.go:93-236 | while the broker rests, every call is served as long as frames match and the journal answers with the number asked for wherever the ring does not reach |
| `PullConsumer.FindJournalFile` | consumer.go:309-343 | among the readable files in chronological order, the last that begins at or before the number |
| `PullConsumer.MatchesIff` | broker.go:196-226 | a frame passes unless a filter wants other buses, PGNs or sources or excludes its PGN or source |
| `PullConsumer.BusIsNoMatterIff` | broker.go:196-226 | a filter decides the same with and without the bus name if and only if it names no bus or rejects every header |
| `PullConsumer.JournalSkips` | consumer.go:162-278 | a frame that passes on its bus but not without one is skipped for good when the journal answers for it |
| `PullConsumer.ReadAlike` | broker.go:1048-1061 | the ring a consumer sees reads as the broker object's `ReadEntry` does |
| `PullConsumer.AppendAlike` | broker.go:690-748 | appending to the broker object keeps that correspondence, log and tail included |
| `WakeUp.NoLostWakeUp` | consumer.go:93-140 | in every interleaving, a registered consumer that waits below head with no notify pending has a full notify channel |
| `WakeUp.InvAlways` | broker.go:1035-1044 | the inductive invariant behind it: whoever may have to be woken is still to be notified or already signalled |
| `Bytes.UvarintSize` | journal/format.go:43-50 | the size loop computes the length of the variable-length encoding |
| `Bytes.UvarintPut` | journal/reader.go:1066-1071 | every 64-bit value reads back from its encoding, whatever follows |
| `CanId.ParseBuild` | canbus/canid.go:27-65 | parsing a built identifier gives the header back if and only if it is a valid one |
| `CanId.BuildParse` | canbus/canid.go:27-65 | building from a parsed identifier gives it back if and only if it has 29 bits and a clear reserved bit |
| `CanId.KnownIdentifiers` | canbus/canid.go:27-65 | three identifiers taken apart and one put together, field by field |
| `CanId.BuildLeavesFlag` | journal_writer.go:253-257 | a valid header never reaches the bit the journal uses as its own flag |
| `JournalFormat.ParseEncoded` | journal_writer.go:247-269 | an encoded frame parses back to its time difference, identifier and data, whatever follows |
| `JournalFormat.ParseCut` | journal/reader.go:1066-1106 | an encoded frame that is cut off anywhere does not parse |
| `JournalFormat.GetPutTable` | journal/reader.go:1133-1168 | a device table reads back as the entries written, strings included |
| `JournalBlock.BlockReader.ParseLoadedBlock` | journal/reader.go:1018-1052 | the checksum decides, and the position is set up as the specification says |
| `JournalBlock.ChecksumGuards` | journal/reader.go:1018-1028 | of all blocks that agree up to the checksum at most one loads |
| `JournalBlock.BlockReader.ParseNextFrame` | journal/reader.go:1055-1124 | one frame is decoded and the position moves on, or the frame is reported broken |
| `JournalBlock.RoundTrip` | journal/reader.go:1018-1168 | a flushed block loads, yields exactly the frames that end before its device table, with reconstructed times and numbers, and the entries of the table; these are all its frames if and only if they are apart from the table |
| `JournalBlock.FlushedReads` | journal_writer.go:375-398 | the same for the frames alone, whatever the entries, as long as the table is under 64 KiB |
| `JournalBlock.ApartReads` | journal/reader.go:1029-1030 | frames apart from the table are all read, even when the 16-bit size field cannot hold the table's size |
| `JournalBlock.ExactIff` | journal_writer.go:214-219 | reading returns exactly the frames, times and numbers appended if and only if numbers are consecutive, times never go back and headers are valid |
| `JournalWriting.EncodedSize` | journal_writer.go:221-228 | the size computed for the fit check is the length of the frame's encoding |
| `JournalWriting.JournalWriter.InitBlock` | journal_writer.go:290-321 | the block is cleared and its header and start table set up, as the specification of a fresh block says |
| `JournalWriting.JournalWriter.FlushBlock` | journal_writer.go:324-421 | device table and trailer are written over the end of the block in place, and the block goes to the file if there is one |
| `JournalWriting.JournalWriter.PutFrame` | journal_writer.go:247-284 | the encoding is written behind the frames, bytes beyond the block dropped, and a claim is noted with its frame index |
| `JournalWriting.JournalWriter.AppendFrame` | journal_writer.go:201-287 | the new state, whether the frame goes into the block or begins a new one, with the file closed and opened as rotation demands, for frames of any size |
| `JournalWriting.AppendFiles` | journal_writer.go:201-245 | a frame that does not fit when rotation is due closes the file behind the block before it, and any other frame has a file |
| `JournalWriting.JournalWriter.Run` | journal_writer.go:152-172 | the main loop over the frames not dropped by a pause, then finalizing, equals the run of the specification; it fails exactly if frames are left in a block without a file |
| `JournalWriting.JournalWriter.Finalize` | journal_writer.go:175-198 | the last block goes to the file and the file is closed, or the block has no file and is lost |
| `JournalWriting.AppendKeeps` | journal_writer.go:201-287 | whatever the input, the block buffer holds the encoding of the current frames as far as it reaches, changes are the claims among them, and the files hold the earlier blocks |
| `JournalWriting.FlushKeeps` | journal_writer.go:324-398 | a flush turns the current frames into one more block of the file, with its table at the end and the frames in front of it as far as the table left them |
| `JournalDevices.FlushLists` | journal_writer.go:342-371 | the entries a flush writes are one for each named device of the block's snapshot, active from 0, and then one for each claim among its frames in order, with the claim's address and NAME, active from its frame, and what the registry knows of the address |
| `JournalDevices.RunTables` | journal_writer.go:201-371 | the blocks of any run have such tables, each of the snapshot its first frame came with and the registry at its flush |
| `JournalDevices.TableRead` | journal/reader.go:1133-1168 | such a table reads back from its block, whether or not it ran into the frames |
| `JournalDevices.BlockDevicesAt` | journal/reader.go:788-812 | for each address, the entry active last at or before the frame, and the first of several |
| `JournalDevices.ClaimTakesOver` | journal/reader.go:788-812 | from a claim until the next one for its address, a reader takes the claimant for the device there |
| `JournalDevices.SnapshotStays` | journal/reader.go:788-812 | before any claim, the snapshot's device; a claim that is the block's first frame does not take the address over |
| `JournalDevices.NobodyBefore` | journal/reader.go:788-812 | an address outside the snapshot belongs to nobody until it is claimed |
| `JournalRoom.ApartAfter` | journal_writer.go:230-245 | exactly when frames and table are apart after an append: the fit check looks at neither the entry of the claim being appended nor the start table of a new block |
| `JournalRoom.RoomyIsApart` | journal_writer.go:657-659 | with the reserve kept and products that fit their fields, table and trailer do not touch the frames |
| `JournalRoom.CalmRun` | journal_writer.go:201-321 | a run that keeps the reserve never panics, and every table it writes is apart from the frames and fits its size field |
| `JournalRuns.FileCount` | journal/reader.go:470-493 | blocks with tables under 64 KiB yield as many frames as were appended if and only if frames and table are apart in every one, and fewer otherwise |
| `JournalRuns.FileExact` | journal/reader.go:470-493 | blocks in which they are apart read back as everything appended, frame by frame, if and only if the frames within each block were regular |
| `JournalRuns.BlocksFrames` | journal_writer.go:175-245 | over any run with any rotations, the blocks of the files hold every frame appended, in order, except the last one when its append closed the file and nothing came after |
| `JournalRuns.BlocksReadable` | journal_writer.go:201-421 | those blocks are the contents of the files at the end of the run |
| `JournalRoundTrip.JournalExactIff` | journal_writer.go:201-421 | for every run that does not panic: the files read back as exactly the frames appended if, and with tables under 64 KiB only if, no flush finds frames and table overlapping, every frame continues its block's numbers and times under a valid header, and the last frame does not close the file; as many frames as appended are read if and only if the first and the last of these hold, and fewer otherwise |
| `JournalRoundTrip.LateClaim` | journal_writer.go:230-245 | a run of 311 standard frames and an address claim, all accepted into one block of 4096 bytes, from which fewer than 312 frames can be read |
| `JournalRoundTrip.LinearIsBlocks` | journal/reader.go:470-493 | a linear read of the reader over loadable blocks is the concatenation of what the blocks yield |
| `JournalRoundTrip.WriteAndRead` | journal/reader.go:470-678 | the writer object and then one reader object per file, prefetch on or off: what they yield is exactly the frames taken, if and only if the run is exact |
| `JournalRoom.FileRoundTrip` | journal_writer.go:201-398 | consecutive numbers, non-decreasing times, valid headers, kept reserve and no rotation by the last frame give back exactly the frames appended |
| `JournalRoom.SingleFrameCalm` | journal_writer.go:239-245 | that condition is met, for instance, by any single frame of up to 2000 bytes that is no claim |
| `JournalFile.FileWriter.WriteBlock` | journal_writer.go:430-459 | the block is appended and its offset recorded |
| `JournalFile.FileWriter.WriteBlockIndex` | journal_writer.go:562-583 | the file ends in the index of exactly the blocks written; a file without blocks gets none |
| `JournalFile.ScanBlocks` | journal/reader.go:227-289 | the scanning loop computes the forward scan |
| `JournalFile.ReadBlockIndex` | journal/reader.go:146-224 | the index is accepted or refused, and the table built, as the specification says |
| `JournalFile.TableSound` | journal/reader.go:146-224 | whatever the file, an accepted table has the number of blocks the index says, at rising offsets between header and index |
| `JournalFile.OpenBlocks` | journal/reader.go:130-140 | the index, or else a scan |
| `JournalFile.IndexIsScan` | journal/reader.go:146-289 | for every complete file within the index limit, the table from the index equals the forward scan of the body, and both are the blocks written |
| `JournalFile.ScanTruncated` | journal/reader.go:227-289 | the scan of a body cut off anywhere finds exactly the blocks wholly present |
| `JournalFile.TruncatedOpens` | journal/reader.go:130-140 | a file cut off within its body that does not end in the index magic opens with exactly those blocks |
| `JournalReading.Reader.StartPrefetch` | journal/reader.go:601-678 | reading ahead fills the second buffer with the next block or records a failure, and never touches the block being read |
| `JournalReading.Reader.CancelPrefetch` | journal/reader.go:588-595 | no prefetch is left |
| `JournalReading.Reader.LoadBlock` | journal/reader.go:817-846 | whether from the swapped prefetch buffer or from the file, the block loaded is the one asked for |
| `JournalReading.Reader.Next` | journal/reader.go:470-493 | each call takes the next frame of what a linear read has still to yield; a broken frame ends its block, an unloadable block ends the reading |
| `JournalReading.Reader.SearchTable` | journal/reader.go:345-353 | binary search over the table in memory ends at the last block that begins at or before the target, if the numbers are sorted |
| `JournalReading.Reader.SearchDisk` | journal/reader.go:355-376 | the same by reading base numbers from the file |
| `JournalReading.Reader.SeekToSeq` | journal/reader.go:335-378 | after a seek, what is to come is the linear read from the block found; it succeeds exactly if that block loads |
| `JournalReading.SeekLosesNothing` | journal/reader.go:335-378 | if the blocks before the one found load and have increasing disjoint ranges, reading from it yields the same frames at or above the target as reading from block 0, and fails exactly if that does, whatever the blocks from there on are like |
| `JournalReading.SeekAndRead` | journal/reader.go:335-493 | the whole of it for the reader object, compressed or not, prefetch on or off, for a seek that succeeds and one that fails |
| `PgnBits.ReadMeans` | pgngen/gen_go.go:1429-1498 | an emitted read yields exactly the field's own bits |
| `PgnBits.WriteMeans` | pgngen/gen_go.go:1505-1550 | an emitted write replaces the field's bits by the low bits of the value and leaves all others unchanged |
| `PgnBits.ReadExactIff` | pgngen/gen_go.go:1489-1497 | a read is right in every buffer if and only if the field ends within 64 bits of the byte it begins in |
| `PgnBits.EndMirrorsAccess` | pgngen/gen_go.go:1694-1730 | the buffer-size computation agrees with the accesses emitted |
| `PgnBits.EndsRise` | pgngen/gen_go.go:1669-1689 | later elements of a repeated field reach at least as far as earlier ones, so looking at the last is enough |
| `PgnLayout.Resolve` | pgngen/ast.go:273-287 | every field begins where the fields before it end, and nothing else changes |
| `PgnLayout.TotalBits` | pgngen/ast.go:112-125 | the sum of all widths, repeats included |
| `PgnLayout.MinBufferBytes` | pgngen/gen_go.go:1669-1689 | the furthest end of any field |
| `PgnLayout.ProgramSafe` | pgngen/gen_go.go:482-584 | no write of an emitted encoder passes the buffer |
| `PgnLayout.SizeReaches` | pgngen/gen_go.go:482-584 | no read of an emitted decoder passes the buffer |
| `PgnLayout.SkippedWidensBuffer` | pgngen/gen_go.go:1669-1689 | a reserved or unknown field counts for the buffer although nothing accesses it, and can make it longer than the packet |
| `PgnLayout.EncodeMeans` | pgngen/gen_go.go:562-584 | running the emitted writes on a buffer of ones yields the fields' bits one behind the other, ones for fields that are skipped, and ones behind them |
| `PgnLayout.DecodeMeans` | pgngen/gen_go.go:1250-1340 | decoding a field whose bits are in the buffer returns its value exactly if the field can carry it, nil corresponding to all ones |
| `PgnLayout.RoundTripIff` | pgngen/gen_go.go:482-584 | encode then decode gives back the message if and only if every value is in range, no nullable field holds the sentinel, discriminators hold their value and repeated fields are full |
| `PgnLayout.DecodeShort` | pgngen/gen_go.go:538-546 | a payload of any length decodes as it does with ones behind it |
| `PgnLayout.DecodePresent` | pgngen/gen_go.go:540-546 | a field wholly in the payload decodes to the bits there, however short the rest |
| `PgnLayout.DecodePartly` | pgngen/gen_go.go:540-546 | a single field partly in the payload decodes from the bits there followed by ones |
| `PgnLayout.BeyondPayload` | pgngen/gen_go.go:538-546 | a nullable field beyond the end of a short payload decodes as missing |
| `FilterSyntax.ParseFormatInt` | filter/filter.go:90-91 | every 64-bit integer survives printing and parsing |
| `FilterSyntax.UndecodedSuffices` | filter/filter.go:105-118 | an expression that does not ask for decoding evaluates the same whatever is decoded |
| `FilterSyntax.NeedsDecodeIff` | filter/filter.go:105-122 | decoding is asked for exactly if some comparison is of a field that is none of the header's |
| `FilterSyntax.HeaderMeans` | filter/filter.go:167-183 | the header's fields are compared by their own names |
| `FilterSyntax.Trichotomy` | filter/filter.go:277-333 | where there is something to compare exactly one of less, equal and greater holds and the other operators negate them; where there is not, none of the six holds |
| `FilterSyntax.NegatedMeans` | filter/filter.go:121-134 | negation may be moved inwards through `&&`, `||` and comparisons, as long as each has something to compare |
| `FilterParsing.Lexer.ScanString` | filter/parse.go:213-234 | a string literal is scanned as the specification says, escapes and missing end included |
| `FilterParsing.Lexer.ScanNumber` | filter/parse.go:236-254 | the longest number is taken as one token |
| `FilterParsing.Lexer.ScanIdent` | filter/parse.go:256-272 | the longest identifier is taken as one token, keywords apart |
| `FilterParsing.Lexer.Scan` | filter/parse.go:138-193 | the lexer loop computes the token list, or fails where the specification does |
| `FilterParsing.Parser.ParseExpr` | filter/parse.go:320-334 | the loop over alternatives computes the left-associative parse |
| `FilterParsing.Parser.ParseConjunction` | filter/parse.go:336-350 | the same for conjunctions |
| `FilterParsing.Parser.ParseNegation` | filter/parse.go:352-362 | the same for negations |
| `FilterParsing.Parser.ParseAtom` | filter/parse.go:364-378 | the same for parentheses |
| `FilterParsing.Parser.ParseCompare` | filter/parse.go:380-456 | the same for comparisons, errors included |
| `FilterParsing.ParseInput` | filter/parse.go:285-299 | lexer and parser together compute the parse of the text |
| `FilterRoundTrip.FormatReads` | filter/filter.go:65-95 | the printed text of a clean tree lexes as exactly its tokens, whatever follows |
| `FilterRoundTrip.ParseBack` | filter/parse.go:316-456 | the tokens of a tree parse as that tree, whatever follows |
| `FilterRoundTrip.Precedence` | filter/parse.go:320-350 | without parentheses `&&` binds before `||`, and both nest to the left, for any number of operands |
| `FilterRoundTrip.EscapedScans` | filter/parse.go:213-234 | any string, with quotes and backslashes escaped, is scanned as itself |
| `FilterRoundTrip.WordsRead` | filter/parse.go:256-272 | `and`, `or` and `not` read as the operators where an identifier would end |
| `FilterRoundTrip.OrKeeps` | filter/parse.go:316-456 | any parsed tree holds exactly the string literals of its tokens, in order |
| `FilterRoundTrip.ScanUnclean` | filter/parse.go:213-234 | a string with a quote or a backslash, printed, is never scanned as itself |
| `FilterRoundTrip.RoundTripIff` | filter/filter.go:65-95 | print, lex and parse give back the same tree if and only if no string in it has a double quote or a backslash |
| `FastPacket.FastPacketAssembler.Process` | fastpacket.go:54-121 | the new table and the completed payload, case by case |
| `FastPacket.FastPacketAssembler.PurgeStale` | fastpacket.go:124-130 | exactly the transfers older than the timeout are dropped |
| `FastPacket.FragmentFastPacket` | fastpacket.go:135-165 | the frames are those of the specification: counter and number, length, chunks, padding |
| `FastPacket.Delivered` | fastpacket.go:54-165 | from any state, among any frames of other keys and purges in time, a payload of 1 to 223 bytes is returned exactly once, unchanged, on its last frame |
| `FastPacket.OnlyTransfers` | fastpacket.go:54-121 | whatever is on the bus, a payload returned is what consecutive frames of its key announce and carry that have one counter, numbers from 0 up and come in time: transfers are never spliced |
| `FastPacket.LengthIff` | fastpacket.go:135-165 | the last frame returns the payload if and only if it has 1 to 223 bytes |
| `ChangeDiff.Diff` | changetracker/diff.go:34-70 | significant if and only if the packets differ, and the encoded mask and bytes |
| `ChangeDiff.Patch` | changetracker/diff.go:72-103 | the rebuilt packet, or a panic where an index runs out |
| `ChangeDiff.ApplyDiffIff` | changetracker/diff.go:34-103 | applying a difference to the old packet gives the new one if and only if its mask length fits 16 bits |
| `ChangeTracking.DiffBy` | changetracker/diff.go:133-223 | a tolerance only gates significance; the encoding is that of the wrapped method |
| `ChangeTracking.SignificantIff` | changetracker/diff.go:133-223 | a change is significant if and only if there is one and it is beyond every tolerance |
| `ChangeTracking.ChangeTracker.Process` | changetracker/tracker.go:139-200 | the new pairs and the event, case by case; an insignificant change leaves the baseline alone |
| `ChangeTracking.EventIff` | changetracker/tracker.go:139-200 | there is an event if and only if key or length is new or the change significant, a whole packet exactly in the first case, and the baseline moves exactly then |
| `ChangeTracking.ChangeTracker.Tick` | changetracker/tracker.go:204-223 | idle events for exactly the keys that are due, no event twice, and none again until the key is seen |
| `ChangeTracking.ChangeReplayer.ApplyEvent` | changetracker/tracker.go:286-310 | the new state and the rebuilt packet, or the error |
| `ChangeTracking.FrameFollowed` | changetracker/tracker.go:139-310 | the replayer follows a frame, and returns for its event exactly that frame, if and only if it gives no delta or is short enough for one; otherwise it fails |
| `ChangeTracking.NeverDrifts` | changetracker/tracker.go:139-310 | over any run of process, tick, remove and reset, in every state the replayer holds the tracker's baseline for every tracked key and the latest frame does not differ significantly from it, if and only if no delta was made of a frame over 524280 bytes |
| `RequestRules.Engine.ConsiderTarget` | requestrules/requestrules.go:367-388 | one decision: the request and the state after it |
| `RequestRules.Engine.OnDeviceOnline` | requestrules/requestrules.go:239-256 | the decisions an appearing device leads to, in order |
| `RequestRules.Engine.OnFrame` | requestrules/requestrules.go:297-338 | the wants a frame answers become fresh, then the rules it invalidates are decided again |
| `RequestRules.Engine.Tick` | requestrules/requestrules.go:341-363 | the decisions of a periodic refresh, in the map's order |
| `RequestRules.Engine.OnDeviceOffline` | requestrules/requestrules.go:282-292 | the device and all that is tracked of it are forgotten |
| `RequestRules.InterestingPGNs` | requestrules/requestrules.go:262-279 | exactly the PGNs that answer a want or invalidate a rule |
| `RequestRules.RequestIff` | requestrules/requestrules.go:367-388 | after any run, looking at a datum sends its request if and only if the datum is missing or past the age limit, and the last request for it and the last of all are long enough ago |
| `RequestRules.OnlineIff` | requestrules/requestrules.go:239-256 | an appearing device makes the engine look at exactly the wants of the rules that match it and ask of appearing devices |
| `RequestRules.FreshIff` | requestrules/requestrules.go:307-321 | a frame makes fresh exactly the wants it answers of the rules that match its device |
| `RequestRules.AnswersIff` | requestrules/requestrules.go:425-440 | a want is answered by its PGN, or by the rule's frame with the want's key in its bytes |
| `RequestRules.StaleIff` | requestrules/requestrules.go:323-338 | a frame makes stale exactly the wants of the matching rules that name its PGN, and each is then looked at again |
| `RequestRules.TickIff` | requestrules/requestrules.go:341-363 | a refresh looks at exactly the wants of rules with an age limit or asking of appearing devices, for the devices they match, in any map order |
| `RequestRules.RatesKept` | requestrules/requestrules.go:239-388 | over any run, any two requests are the global interval apart, and any two for the same rule, device and want with no offline event between them the rule's interval; no assumption on the clock is needed |
| `RequestRules.EngineRates` | requestrules/requestrules.go:239-388 | the same of what any engine object has sent, in every state it can get to |
| `RequestRules.UninterestingIgnored` | requestrules/requestrules.go:262-338 | a frame outside the interesting PGNs changes no state and sends nothing |
| `Retention.JournalKeeper.Decide` | keeper/keeper.go:338-408 | the decision loop computes the specified deletions, queue and pause |
| `Retention.JournalKeeper.ScanDir` | keeper/keeper.go:309-422 | decision, archiving and pause state of a whole scan |
| `Retention.JournalKeeper.ArchiveFiles` | keeper/keeper.go:445-475 | exactly the files reported ok are archived and exactly the other new ones become pending |
| `Retention.JournalKeeper.RetryArchive` | keeper/keeper.go:478-522 | vanished files leave the queue, successes are archived, the rest stays in order, and the backoff doubles up to its limit |
| `Retention.KeptIff` | keeper/keeper.go:445-522 | a file counts as archived or failed exactly by what the script reports of it |
| `Retention.ExpiresExactly` | keeper/keeper.go:338-408 | the files expired are exactly those from which on the sizes exceed the cap or whose age exceeds the limits, a prefix oldest first; the rest fits the cap; a file younger than the minimum keep time goes only by the cap |
| `Retention.DeletedIff` | keeper/keeper.go:375-393 | an expired file is deleted if and only if it is archived, or no archiving is configured, or it is given up over the cap after it failed |
| `Retention.QueuedIff` | keeper/keeper.go:375-390 | it is queued if and only if archiving is configured, not done and not failed before |
| `Retention.PausesIff` | keeper/keeper.go:376-385 | recording pauses if and only if some expired file over the cap failed to be archived and the policy keeps it |
| `Retention.QueuedAheadIff` | keeper/keeper.go:347-407 | files that may stay are archived ahead of time exactly above the given percentage of the cap, and exactly those neither archived nor pending |
| `Retention.ScanLosesNothing` | keeper/keeper.go:374-475 | after a scan every expired file has been deleted, archived or is pending |
| `Retention.QueueDistinct` | keeper/keeper.go:455-470 | failures never put a file into the retry queue twice |

## Left out

- gRPC, TLS, HTTP, SSE, WebSocket, MQTT, alerts, metrics, mDNS and the command line: plumbing around the cores.
- The boat's side of replication (connections, backoff, lag timers): the boat is whatever sends the modelled events.
- 64-bit wrap-around of sequence numbers: they are naturals here, except where they are stored in eight bytes.
- The hold-off time of virtual devices, heartbeats and product information: only addresses and claims are modelled.
- Session bookkeeping, device registry and fan-out of the broker: only the ring, the filter and the notifications are modelled.
- When a journal file is due for rotation and when the writer is paused: inputs of each frame. File names and write errors are not modelled.
- Dictionary training over a block whose only frame is larger than the block, where slicing the samples panics: the dictionary is arbitrary bytes.
- Compression and checksum algorithms: the checksum is an arbitrary function, a compressed payload arbitrary bytes, decompression part of what reading a block gives.
- Files of several buses with the same address in one device table: the reader tells devices apart by address alone, and so does the model.
- Journal files of version 1, seeking by time and `InspectBlock` while a prefetch runs: other paths than the modelled ones.
- JournalReading.SeekAndRead: needs sorted base numbers that can be read and are those of the blocks, and blocks that load before the one found.
- JournalBlock.BlockReader.ParseNextFrame: a stored payload length of 2^63 or more is a broken frame here and a panic in the source (journal/reader.go:1099-1103); no frame of the writer has one.
- JournalRoundTrip.JournalExactIff: the "only if" leaves out runs with a table of 64 KiB or more that reaches into the frames, because the reader then takes bytes of the table for frames.
- Replication.CursorSoundIff: received means handed to the cloud's broker; whether a frame has reached the disk when the cloud restarts is not modelled.
- JournalFile.IndexIsScan: nothing is stated of files with more than 262144 blocks, whose index the reader refuses.
- Signed narrow fields, strings, floats, variable-width packets and map-grouped repeats of the PGN generator: different emitted code. Writes to windows wider than 32 bits are outside `WriteMeans` except whole 64-bit words, because the mask emitted for them is not a valid constant expression.
- Scaling of fields by floating-point factors: raw integers only.
- Floating-point literals of filters are abstract functions, and `RoundTripIff` leaves them out: a float that prints without a dot comes back as an integer.
- Reflection over decoded packets in filters and tolerances: a function of the packet.
- Device matching by manufacturer, model pattern and so on, and the bytes of request frames: a rule's match is an arbitrary function of the device, and a request is identified by its target.
- Directory listing, sorting, file deletion and the archive script: the sorted list, what exists and the script's report are inputs.

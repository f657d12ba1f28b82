# Verified model of the Brief_Sample set-top-box samples

The samples drive a demultiplexer, tuners and a caption renderer through a vendor SDK. This project
models the self-contained algorithms among that glue and proves what they are for:

- `Crc32.dfy`, `CrcTable.dfy` – the section CRC. The reference is the bit-serial shift register of
  Annex A of ISO/IEC 13818-1; the table-driven loop is proved equal to it, and the error-detection
  results (every burst of up to 32 bits, residue zero) are proved over the reference.
- `SectionCollector.dfy` – the polling loop that gathers the sections of a table, in its three copies.
  The demux driver is an oracle, a function from poll numbers to batches. The specification is a fold
  over everything received (`KeepAll`); the results say what that fold means for any order, repetition
  and batching, and when and how every run ends.
- `NitParser.dfy`, `NitSample.dfy` – the parser that lays a network information section out as a linked
  list in an arena, with an independent encoder after section 5.2.1 of ETSI EN 300 468 and an independent
  client that walks the links. `NitSample` joins collector and parser: a broadcast of any number
  of sections in, table out.
- `CaptionReceiver.dfy` – the caption data receiver as a two-thread step system: worker, control thread,
  one mutex, 32 slots. Results hold in every interleaving.
- `Utf8.dfy` – the UTF-16LE to UTF-8 transcoder, with a decoder after section 2 of RFC 2279 and section 3
  of RFC 3629.
- `InjectSlots.dfy` – the slot tables of running file and IP injections.
- `ProgramDb.dfy` – the programme database on its raw bytes, with save and restore.
- `OptionParser.dfy` – the two-pass command-line parser of the USB CAM sample.
- `Types.dfy` – bytes, fixed-width words and `Option`.

`dafny verify dfyconfig.toml` checks everything.

Thirteen properties one might expect do not hold of the code as it is written. Each has a lemma with a concrete
input and a lemma that says exactly when the property does hold:

| expectation | fails on | holds exactly when |
|---|---|---|
| a completed collection has slots 0 .. total-1 | `CompleteWithoutSlotZero` | no section that was kept is numbered beyond the final total (`CompleteMeansFilled`) |
| the shared collector completes a table it has seen | `GarbageHidesSection` | no got-flag of the table but the first was up at the start (`CompletenessTestExact`) |
| a successful run over a broadcast hands over the table | `EmptySuccess` | some batch of the run had a whole section in it (`OrderIndependence`) |
| the finished network table has the streams of all sections, if the last one names any | `FirstStreamLost` | no other section names one (`LastSectionAlone`) |
| a network section that is the last of its table is read back as encoded | `EmptyLoopReadsCrc` | it names at least one transport stream (`NitParser.RoundTrip`) |
| the caption worker only touches live channels | `DeadChannelReachable` | the control thread is not waiting for the mutex while uninstalling slot 0 (`AcquireOnLiveChannel`) |
| uninstalling a caption slot leaves the channels of the others alone | `UninstallBreaksLedger` | the slot is enabled or the handle left in it is nobody's (`UninstallKeepsLedgerExactly`) |
| starting an IP injection keeps flags and slots in step | `TunerPortLeaks` | the port is a memory port or is not injecting (`IpStartKeepsExactly`) |
| every IP reader thread on the memory ports is joined exactly once | `JoinedTwice` | every thread the run asked for was created (`IpRunKeeps`) |
| overwriting a programme keeps service IDs distinct | `SetDuplicatesId` | the record is not live or the ID is no other live one's (`SetProgKeepsExactly`) |
| restoring a stream leaves a usable database | `BadLengthOutgrows` | neither length is that of more records than there is room for, and no more bytes follow than fit (`RestoreShapedExactly`) |
| an RF channel not yet listed is added, below the limit | `RfMistakenForPresent` | no live channel, of whatever type, has its parameters in the place of RF parameters (`AddFeEffect`) |
| a command line of complete option groups is parsed | `HelpStrands` | the scanner stands at the start of a word (`OptionParser.RoundTrip`), that is, the session is clean (`SessionRoundTrip`) |

## Model

| member | source | states |
|---|---|---|
| `Crc32.ComputeCrc` | Brief_Sample/demux/sample_dmx_nit.c:155-164 | the table-driven loop returns, for every byte sequence and size, the final state of the 32-stage bit-serial register preset to all ones; the table index never leaves the table |
| `Crc32.TableEntryIsEightClocks` | Brief_Sample/demux/sample_dmx_nit.c:107-146 | each of the 256 table entries is eight clocks of the register loaded with its index in the top byte |
| `Crc32.TableStepIsEightClocks` | Brief_Sample/demux/sample_dmx_cat.c:137-146 | one round of the loop is eight clocks fed with the bits of the byte, from every register state |
| `Crc32.ShiftInIsAddThenIdle` | Brief_Sample/demux/sample_dmx_nit.c:155-164 | feeding up to 32 message bits is adding them to the register at once and then clocking zeros |
| `Crc32.ShiftInInjective` | Brief_Sample/demux/sample_dmx_nit.c:155-164 | different register states stay different whatever bits follow, for any number of bits |
| `Crc32.BurstChangesRegister` | Brief_Sample/demux/sample_dmx_nit.c:155-164 | two bit streams of any equal length that differ only within 32 consecutive positions leave every register in different states |
| `Crc32.BurstDetected` | Brief_Sample/demux/sample_dmx_nit.c:107-164 | two messages of equal length that differ only within 32 consecutive bits, aligned or not, have different CRCs |
| `Crc32.FourByteWindowDetected` | Brief_Sample/demux/sample_dmx_nit.c:107-164 | the same for differences within four consecutive bytes |
| `Crc32.Residue` | Brief_Sample/demux/sample_dmx_nit.c:361-369 | for every section of at least four bytes the CRC of all but the trailer equals the big-endian trailer if and only if the CRC of the whole section is zero |
| `Crc32.CrcMatches` | Brief_Sample/demux/sample_dmx_nit.c:361-369 | the collectors' comparison of software and stream CRC answers exactly whether the whole section has CRC zero |
| `Crc32.SealedIsClean` | Brief_Sample/demux/sample_dmx_nit.c:361-369 | appending its CRC to any payload gives a section that passes the comparison |
| `Crc32.SealedSections` | Brief_Sample/demux/sample_dmx_nit.c:361-369 | a received section that differs from a sealed one only within 32 consecutive bits, trailer included, passes if and only if it is unchanged |
| `Crc32.NoMessage` | Brief_Sample/demux/sample_dmx_nit.c:157-163 | the CRC of no bytes is FFFFFFFF |
| `Crc32.CheckValue` | Brief_Sample/demux/sample_dmx_nit.c:155-164 | the CRC of the digits 1 to 9 is 0376E6E7, the check value of this CRC |
| `Crc32.PresetComplementsHead` | Brief_Sample/demux/sample_dmx_nit.c:157-161 | for every message of at least four bytes the CRC is that of the message with its first 32 bits complemented, computed from a register of zeros |
| `Crc32.ZerosShow` | Brief_Sample/demux/sample_dmx_nit.c:157-161 | no number of zero bytes has CRC zero |
| `SectionCollector.CopyToSlot` | Brief_Sample/demux/sample_dmx_nit.c:373-379 | the copy puts the section at the start of its slot and changes no other slot |
| `SectionCollector.FillSlot` | Brief_Sample/demux/sample_dmx_nit.c:373-379 | filling a free slot adds exactly that section to the kept ones, in flags, sizes and buffer alike |
| `SectionCollector.SlotGeometry` | Brief_Sample/common/mt_adp_demux.h:28-29 | the buffer has 256 slots of 4096 bytes |
| `SectionCollector.KeepItem` | Brief_Sample/demux/sample_dmx_nit.c:353-380 | flags, sizes, buffer, count, total and the number of logged CRC mismatches follow the fold for one delivered item; the count is the number of slots filled; a mismatching section is kept |
| `SectionCollector.KeepBatch` | Brief_Sample/demux/sample_dmx_nit.c:348-381 | the same for a whole batch, on top of any history, count included |
| `SectionCollector.Collect` | Brief_Sample/demux/sample_dmx_nit.c:320-409 | for every oracle: the run ends with success at the first fruitful poll that passes the completeness test, and fails exactly when the budget ends without one (or, in the shared copy, at the first fruitless poll); every non-empty batch is released exactly once; buffers hold exactly the kept sections and are otherwise untouched |
| `SectionCollector.NitDataRead` | Brief_Sample/demux/sample_dmx_nit.c:337-409 | a timeout of at least 10 ms allows timeout/10 - 1 polls, all of which are used before the run times out; below 10 ms the counter wraps and the budget is 2^32 - 1 |
| `SectionCollector.CatSectionRecv` | Brief_Sample/demux/sample_dmx_cat.c:339-424 | the CAT copy is the same collector with at most nine polls |
| `SectionCollector.Dispatch` | Brief_Sample/demux/sample_dmx_nit.c:629-634 | the parser is called once per announced section, in ascending section order, with exactly the bytes kept for it |
| `SectionCollector.SectionStartDataFilter` | Brief_Sample/common/mt_adp_demux.c:186-201 | the shared reader with its caller hands over the kept sections in order on success and nothing otherwise, whatever the got-flags other than flag 0 contain at the start |
| `SectionCollector.TotalIsLatest` | Brief_Sample/demux/sample_dmx_nit.c:356-357 | the announced total is that of the latest whole section, and zero if and only if no whole section arrived |
| `SectionCollector.FirstKept` | Brief_Sample/demux/sample_dmx_nit.c:373-379 | a filled slot holds the first section received for it, no earlier item was for it, and its flag was clear at the start |
| `SectionCollector.SeenIsKept` | Brief_Sample/demux/sample_dmx_nit.c:373-379 | a slot for which a whole section was received is filled if and only if its flag was clear at the start |
| `SectionCollector.CompleteMeansFilled` | Brief_Sample/demux/sample_dmx_nit.c:387-390 | when the test passes, the filled slots are exactly 0 .. total-1 if and only if no section that was kept is numbered beyond the total |
| `SectionCollector.CompleteWithoutSlotZero` | Brief_Sample/demux/sample_dmx_nit.c:387-390 | one section numbered 5 that claims to be the last of one passes the test with slot 0 empty |
| `SectionCollector.CompletenessTestExact` | Brief_Sample/demux/sample_dmx_nit.c:387-390 | within one table, for any order, repetition and batching, the test passes if and only if no whole section has been received, or every section has and all their flags were clear at the start |
| `SectionCollector.OrderIndependence` | Brief_Sample/demux/sample_dmx_nit.c:320-409 | a successful run over any broadcast of a table dispatches the table itself, in order, unless no whole section came at all |
| `SectionCollector.EmptySuccess` | Brief_Sample/demux/sample_dmx_nit.c:386-409 | a first batch of fragments alone ends any run, under every policy and budget, successfully and with nothing to dispatch |
| `SectionCollector.EnoughPollsSucceed` | Brief_Sample/demux/sample_dmx_nit.c:337-399 | if the table's flags were clear at the start, some poll within the budget brings the last missing section, and no fruitful poll before it leaves the collector without a whole section, the run succeeds by then with everything; fruitless polls in between do not matter to the NIT and CAT copies |
| `SectionCollector.GarbageBlocks` | Brief_Sample/common/mt_adp_demux.c:239-288 | the shared copy clears flag 0 only: if the flag of any other section of the table was up at the start, no run over any broadcast of it reports the table |
| `SectionCollector.GarbageHidesSection` | Brief_Sample/common/mt_adp_demux.c:239-288 | two sections that complete a table from clear flags do not when flag 1 was up |
| `SectionCollector.OutcomeDetermined` | Brief_Sample/demux/sample_dmx_nit.c:337-399 | the oracle and the budget determine the outcome and the number of polls |
| `SectionCollector.ReleasedOnce` | Brief_Sample/demux/sample_dmx_nit.c:342-346 | the batches released are exactly those of the polls that succeeded with at least one item, each once and in order |
| `SectionCollector.SilentChannel` | Brief_Sample/common/mt_adp_demux.c:248-293 | on a channel that delivers nothing the NIT and CAT copies use up their polls and the shared copy fails at its first |
| `SectionCollector.LoggedIsCorrupt` | Brief_Sample/demux/sample_dmx_nit.c:361-369 | the mismatches logged are as many as there are whole sections whose CRC over all but four bytes is not the word in those four, duplicates included; the shared copy logs none |
| `SectionCollector.TimeTable` | Brief_Sample/common/mt_adp_demux.c:261-265 | one section with table ID 70h or 73h completes a run of the shared copy with itself in slot 0, whatever its number fields and the got-flags hold |
| `SectionCollector.OtherTables` | Brief_Sample/common/mt_adp_demux.c:251-281 | on table IDs other than 50h to 6Fh, 70h and 73h the shared loop, from clear flags, does what the plain loop does |
| `SectionCollector.ScheduleRefinesPlain` | Brief_Sample/common/mt_adp_demux.c:251-281 | on sections with table IDs 50h to 6Fh the shared loop, from clear flags, does what the plain loop does on section numbers divided by eight, completeness test included |
| `SectionCollector.ScheduleSegments` | Brief_Sample/common/mt_adp_demux.c:251-288 | a complete schedule fills exactly segments 0 .. last/8, each with the first section received of that segment, whatever the flags were at the start |
| `NitParser.CopyNetworkDescriptors` | Brief_Sample/demux/sample_dmx_nit.c:465-476 | the network descriptors are copied verbatim behind those already there, and the rest of the arena is untouched |
| `NitParser.WriteHeader` | Brief_Sample/demux/sample_dmx_nit.c:493-501 | a header occupies its own cells and no others |
| `NitParser.CopyDescriptor` | Brief_Sample/demux/sample_dmx_nit.c:510-516 | the descriptor bytes are copied verbatim behind the header and nothing else changes |
| `NitParser.LayOutNode` | Brief_Sample/demux/sample_dmx_nit.c:491-530 | short of the overflow guard, one round writes a complete node, linked to the next 4-aligned offset, inside its own stretch of the arena |
| `NitParser.LayOutLoop` | Brief_Sample/demux/sample_dmx_nit.c:483-541 | the loop ends behind its last entry, the bytes counted are the write offset, and the nodes continue the chain laid so far by exactly the entries of the section |
| `NitParser.ParsePass` | Brief_Sample/demux/sample_dmx_nit.c:438-541 | one round of the outer loop over any section: a section numbered 0 starts both arenas afresh, any other one adds to them; descriptors that would come too close to the end are dropped |
| `NitParser.ParseNit` | Brief_Sample/demux/sample_dmx_nit.c:421-553 | for every input whose passes stay within the bytes given and short of the arena guard, however many passes there are: network descriptors verbatim, a NULL-terminated chain of exactly the entries gathered since the last section numbered 0, summary fields naming the last of them; after a single pass nothing is written behind the used part |
| `NitParser.LoopFits` | Brief_Sample/demux/sample_dmx_nit.c:477-507 | no loop that starts at the beginning of the arena reaches the overflow guard, even one whose last entry overshoots its declared length |
| `NitParser.SinglePass` | Brief_Sample/demux/sample_dmx_nit.c:438-541 | a section that is its own last one is parsed in one pass, from any readable bytes |
| `NitParser.ZeroSection` | Brief_Sample/demux/sample_dmx_nit.c:438-541 | zeros behind a section are taken for a section 0 of 0 that replaces everything gathered by one entry of zeros |
| `NitParser.UseIsBounded` | Brief_Sample/demux/sample_dmx_nit.c:483-540 | arena use is 4-aligned and at most four times the loop bytes, for both header sizes |
| `NitParser.ArenaNeverFills` | Brief_Sample/demux/sample_dmx_nit.c:503-507 | a loop that fits its 12-bit length uses at most 16380 of the 32768 bytes |
| `NitParser.ArenaLimits` | Brief_Sample/demux/sample_dmx_nit.c:431-432 | of each arena of 32768 bytes the last 256 are never used: network descriptors that would reach them are dropped, nodes stop the loop |
| `NitParser.Layout` | Brief_Sample/demux/sample_dmx_nit.c:518-530 | nodes are aligned, contiguous and disjoint, with less than four bytes of padding |
| `NitParser.ReadBack` | Brief_Sample/demux/sample_dmx_nit.c:530-544 | a client that follows the links from the start of the arena reads exactly the entries and stops at NULL |
| `NitParser.FinalNode` | Brief_Sample/demux/sample_dmx_nit.c:544-551 | the summary's descriptor pointer leads to the bytes of the last entry |
| `NitParser.LoopReadsBack` | Brief_Sample/demux/sample_dmx_nit.c:488-541 | reading an encoded non-empty loop gives its entries, whatever follows in memory |
| `NitParser.RoundTrip` | Brief_Sample/demux/sample_dmx_nit.c:421-553 | the loop of an encoded section is read back if and only if it names at least one transport stream, and the last section of a table is then read back as a whole; network ID and network descriptors are read back always |
| `NitParser.EmptyLoopReadsCrc` | Brief_Sample/demux/sample_dmx_nit.c:488-541 | with an empty loop in a cleared slot the CRC is reported as a transport stream |
| `NitParser.SectionInSlot` | Brief_Sample/demux/sample_dmx_nit.c:421-553 | any encoded section in a zeroed slot: the last one of its table is parsed with its own contents (its CRC, if its loop is empty); any other one is lost, since the outer loop goes on at its CRC and then takes the zeros for a section |
| `NitParser.SectionsGathered` | Brief_Sample/demux/sample_dmx_nit.c:438-541 | what the outer loop is for: sections 0 to L one behind the other without CRCs, each naming a transport stream, are gathered into one table with all network descriptors and all transport streams, if they fit |
| `NitParser.LongBufferIsReadable` | Brief_Sample/demux/sample_dmx_nit.c:457-541 | whatever lengths a section declares, one pass stays within 12303 bytes of its start |
| `NitSample.ParseSection` | Brief_Sample/demux/sample_dmx_nit.c:421-553 | parsing any section in its zeroed slot yields a table that a client reads as that section if it is the last one, and as one transport stream of zeros otherwise |
| `NitSample.CollectNit` | Brief_Sample/demux/sample_dmx_nit.c:622-628 | on any broadcast of a table of any number of sections all are reported if and only if the first batch has a whole section in it and every section comes within the 999 polls; then each slot holds its section followed by zeros; otherwise none is reported |
| `NitSample.AcquireNit` | Brief_Sample/demux/sample_dmx_nit.c:622-634 | end to end: on any broadcast of an encoded table the finished table presents what is found in the last section, entry by entry, exactly in that case, and otherwise the caller's table is as it was |
| `NitSample.ReportedIffArrives` | Brief_Sample/demux/sample_dmx_nit.c:337-409 | a run over a broadcast of a table ends in success with a nonzero total if and only if the first batch has a whole section in it and every section comes within the budget; then the slots hold the table |
| `NitSample.OneSectionArrives` | Brief_Sample/demux/sample_dmx_nit.c:337-409 | for a table of one section that is: the first batch comes in time and has a whole section in it |
| `NitSample.ArrivalSucceeds` | Brief_Sample/demux/sample_dmx_nit.c:337-409 | the same arrivals make a run succeed under every budget, with every section seen |
| `NitSample.SuccessStartsWhole` | Brief_Sample/demux/sample_dmx_nit.c:337-409 | a run that reports anything had a whole section in its first batch, under every budget |
| `NitSample.LastSectionAlone` | Brief_Sample/demux/sample_dmx_nit.c:629-634 | if the last section names a transport stream, the table left at the end has the streams of the whole table if and only if no other section names one |
| `NitSample.FirstStreamLost` | Brief_Sample/demux/sample_dmx_nit.c:629-634 | of two sections with a transport stream each, the first stream is lost |
| `CaptionReceiver.FirstFree` | Brief_Sample/cc/sample_cc_data.c:147-160 | the slot chosen is the first disabled one |
| `CaptionReceiver.StepKeepsInv` | Brief_Sample/cc/sample_cc_data.c:36-237 | every step of either thread keeps the invariant that ties mutex, program counters, slots and history together |
| `CaptionReceiver.RunKeepsInv` | Brief_Sample/cc/sample_cc_data.c:36-237 | so does every interleaving of any length |
| `CaptionReceiver.CallbackSafety` | Brief_Sample/cc/sample_cc_data.c:45-79 | in every interleaving a callback runs only while the worker holds the mutex and slot 0 is enabled, with the parameters of the installation that enabled it, and neither unlocked clearing of the table can happen meanwhile; the same is true of every callback in the past |
| `CaptionReceiver.RoundDelivers` | Brief_Sample/cc/sample_cc_data.c:45-79 | in every interleaving a round of the worker adds exactly the callbacks that are due: if slot 0 is enabled and the driver reports ready handles, one with slot 0's parameters for each handle that is slot 0's channel and whose data could be acquired, and none otherwise |
| `CaptionReceiver.CallbackReachable` | Brief_Sample/cc/sample_cc_data.c:61-75 | a concrete run from the start that ends inside a callback |
| `CaptionReceiver.MutexSafety` | Brief_Sample/cc/sample_cc_data.c:86-126 | in every interleaving the mutex is destroyed only when free and after the worker has been joined, and exists whenever a thread takes or holds it |
| `CaptionReceiver.NoDeadlock` | Brief_Sample/cc/sample_cc_data.c:36-237 | while a control operation is under way one of the two threads can move |
| `CaptionReceiver.JoinTerminates` | Brief_Sample/cc/sample_cc_data.c:119-121 | at the join the worker is never blocked and each of its steps brings it closer to its exit, at most four away |
| `CaptionReceiver.CallsReturn` | Brief_Sample/cc/sample_cc_data.c:86-237 | in every interleaving a call returns after a bounded number of steps of its own, at most 230 |
| `CaptionReceiver.InstallExactly` | Brief_Sample/cc/sample_cc_data.c:147-207 | in every interleaving an Install that has returned has enabled the first free slot with the given parameters and the new channel if the driver granted all three requests, and otherwise has changed nothing but possibly the handle in that slot |
| `CaptionReceiver.InitDeInitExactly` | Brief_Sample/cc/sample_cc_data.c:86-126 | in every interleaving the receiver is initialised when Init has returned and not when DeInit has, with a table of 32 zeroed slots either way |
| `CaptionReceiver.CallsRefused` | Brief_Sample/cc/sample_cc_data.c:128-170 | Install returns at once exactly if not initialised, without attributes or with 32 enabled slots; Init exactly if initialised; DeInit and Uninstall exactly if not |
| `CaptionReceiver.StepKeepsLedger` | Brief_Sample/cc/sample_cc_data.c:101-237 | every step keeps the account of live channels: one for each slot that answers for one, and no others |
| `CaptionReceiver.RunKeepsLedger` | Brief_Sample/cc/sample_cc_data.c:101-237 | so does every run that uninstalls only enabled handles |
| `CaptionReceiver.ChannelConservation` | Brief_Sample/cc/sample_cc_data.c:101-237 | between operations of every such run, after any failing step of Install too, the channels created and not destroyed are exactly those of the enabled slots, one each; after DeInit there are none |
| `CaptionReceiver.UninstallKeepsLedgerExactly` | Brief_Sample/cc/sample_cc_data.c:210-237 | however the steps of the worker fall between those of an Uninstall of any slot, once it has returned the account is in order if and only if the slot was enabled or the handle left in it was nobody's |
| `CaptionReceiver.UninstallRuns` | Brief_Sample/cc/sample_cc_data.c:210-237 | an Uninstall that finds the mutex free and is not disturbed completes, with exactly its slot, its channel and the log changed |
| `CaptionReceiver.StaleHandleReachable` | Brief_Sample/cc/sample_cc_data.c:173-207 | a concrete run that uninstalls only enabled handles and ends with a disabled slot naming a live channel: a failed Install left the handle behind and the driver gave it out again |
| `CaptionReceiver.UninstallBreaksLedger` | Brief_Sample/cc/sample_cc_data.c:210-237 | uninstalling that disabled slot destroys the channel of the enabled one |
| `CaptionReceiver.AcquireOnLiveChannel` | Brief_Sample/cc/sample_cc_data.c:61-76 | while the worker works on slot 0 its channel is live if and only if the control thread is not waiting for the mutex inside an Uninstall of slot 0 |
| `CaptionReceiver.DeadChannelReachable` | Brief_Sample/cc/sample_cc_data.c:227-230 | a concrete run in which the worker is about to acquire data from a channel already destroyed |
| `Utf8.ConvUnicodeToUtf8` | Brief_Sample/cc/sample_cc_out.c:76-120 | the bytes written are the form of the value, as many as announced, and nothing else in the buffer changes |
| `Utf8.DecodeEncode` | Brief_Sample/cc/sample_cc_out.c:44-120 | every 32-bit value is read back from its form, whatever follows it |
| `Utf8.PrefixFree` | Brief_Sample/cc/sample_cc_out.c:76-120 | no form is a prefix of another, so encoding is injective and concatenations split uniquely |
| `Utf8.ShortestForm` | Brief_Sample/cc/sample_cc_out.c:44-74 | nothing the decoder accepts for a value is shorter than the form the encoder gives it |
| `Utf8.DecodeEncodeAll` | Brief_Sample/cc/sample_cc_out.c:123-164 | decoding the concatenated forms of any sequence of values gives the sequence |
| `Utf8.TakenFits` | Brief_Sample/cc/sample_cc_out.c:147-153 | what the loop takes fits the capacity |
| `Utf8.TakenIsLongest` | Brief_Sample/cc/sample_cc_out.c:147-153 | no longer prefix of the code units would have fitted |
| `Utf8.Utf16LeToUtf8` | Brief_Sample/cc/sample_cc_out.c:123-164 | for every input length, odd and non-positive ones included, and every capacity: the output is the encoding of the greedy prefix of complete code units, its length is reported, the terminator follows, the rest of the buffer is untouched |
| `Utf8.TranscodingReadsBack` | Brief_Sample/cc/sample_cc_out.c:123-164 | decoding the output gives exactly the longest prefix of code units whose encoding fits |
| `Utf8.UnitsOfLeBytes` | Brief_Sample/cc/sample_cc_out.c:138-145 | the code units taken from any sequence of 16-bit units written with the less significant byte first are those units, an odd byte at the end being left alone |
| `Utf8.WrittenIsRead` | Brief_Sample/cc/sample_cc_out.c:123-164 | end to end: such a string, transcoded within any capacity and decoded, gives back its longest prefix that fits |
| `Utf8.Examples` | Brief_Sample/cc/sample_cc_out.c:44-120 | the examples of section 7 of RFC 3629, one for each length, and the largest five- and six-byte forms |
| `InjectSlots.SearchFree` | Brief_Sample/common/mt_adp_demux.c:696-702 | the loop finds the first free slot, or the end |
| `InjectSlots.SearchCarrying` | Brief_Sample/common/mt_adp_demux.c:825-831 | the loop finds the first used slot with the port, or the end |
| `InjectSlots.FileInjection.constructor` | Brief_Sample/common/mt_adp_demux.c:57-85 | initialisation gives the empty, consistent table on arrays of its own |
| `InjectSlots.FileInjection.StopInject` | Brief_Sample/common/mt_adp_demux.c:815-845 | the stored state follows the specification of stop and stays consistent, so the unchecked slot index is always in range |
| `InjectSlots.FileInjection.Enter` | Brief_Sample/common/mt_adp_demux.c:778-812 | entering a file follows its specification on all four paths: no slot, no file, no thread, success |
| `InjectSlots.FileInjection.StartInject` | Brief_Sample/common/mt_adp_demux.c:768-812 | the stored state follows the specification of start, nested stop included, and stays consistent |
| `InjectSlots.IpInjection.constructor` | Brief_Sample/common/mt_adp_demux.c:57-85 | initialisation gives the empty table on arrays of its own |
| `InjectSlots.IpInjection.StopInject` | Brief_Sample/common/mt_adp_demux.c:731-766 | the stored state and the return value follow the specification in every state and for every port |
| `InjectSlots.IpInjection.StartInject` | Brief_Sample/common/mt_adp_demux.c:687-719 | the same for start, whose nested stop may refuse and whose thread may not have been created |
| `InjectSlots.RoomToSpare` | Brief_Sample/common/mt_adp_demux.c:778-789 | with flags and slots in step no more slots are used than ports are flagged, so a free slot always exists |
| `InjectSlots.FileStopKeeps` | Brief_Sample/common/mt_adp_demux.c:815-845 | stop finds its slot, releases exactly the file of its port, clears the flag and disturbs no other port or slot |
| `InjectSlots.FileStartKeeps` | Brief_Sample/common/mt_adp_demux.c:768-812 | start fails only if the file or the thread cannot be had, and then leaves its port stopped with no file open |
| `InjectSlots.IpStopKeeps` | Brief_Sample/common/mt_adp_demux.c:731-766 | with flags and slots in step IP stop succeeds if and only if the port is a memory port; it keeps them in step and the threads accounted for |
| `InjectSlots.IpStartKeepsExactly` | Brief_Sample/common/mt_adp_demux.c:687-719 | IP start always finds a slot; it keeps flags and slots in step if and only if the port is a memory port or is not injecting, and the threads accounted for if and only if, besides, the thread was created |
| `InjectSlots.StaleIsUnaccounted` | Brief_Sample/common/mt_adp_demux.c:709-716 | the thread handle found in a free slot has been joined, is another slot's or never was one, so using the slot without a new thread always breaks the account |
| `InjectSlots.TunerPortLeaks` | Brief_Sample/common/mt_adp_demux.c:687-738 | two starts on port 0 leave two slots with that port, neither of which can be stopped |
| `InjectSlots.JoinedTwice` | Brief_Sample/common/mt_adp_demux.c:709-763 | start, stop, a start whose thread is not created, stop: the first thread is joined twice |
| `InjectSlots.FileRunKeeps` | Brief_Sample/common/mt_adp_demux.c:768-845 | no run of file operations on any ports indexes outside the slot table, and every run keeps consistency |
| `InjectSlots.IpRunKeeps` | Brief_Sample/common/mt_adp_demux.c:687-766 | every run of IP operations on memory ports keeps flags and slots in step, and keeps the threads accounted for if and only if every thread it asked for was created |
| `InjectSlots.AccountedExcess` | Brief_Sample/common/mt_adp_demux.c:687-766 | when the threads are accounted for, those joined and those of used slots add up to those created |
| `InjectSlots.OneSlotPerFlag` | Brief_Sample/common/mt_adp_demux.c:687-845 | a port's flag is set if and only if exactly one used slot carries it |
| `InjectSlots.ReleasedOrHeld` | Brief_Sample/common/mt_adp_demux.c:815-845 | every resource ever acquired has been released exactly once or is held by a used slot; with no port injecting, all have been released |
| `InjectSlots.FileRunSummary` | Brief_Sample/common/mt_adp_demux.c:768-845 | after any run from initialisation at most seven slots are used and every file ever opened has been closed exactly once or belongs to a running port |
| `InjectSlots.IpRunSummary` | Brief_Sample/common/mt_adp_demux.c:687-766 | after any run on memory ports at most four slots are used; and, exactly if all its threads were created, every thread ever started has been joined exactly once or is running |
| `ProgramDb.AddProgEffect` | Brief_Sample/common/mt_adp_data.c:96-117 | add fails exactly at 199 programmes, appends exactly when the service ID is new, and otherwise changes nothing and returns the index of the record with that ID |
| `ProgramDb.LookupExact` | Brief_Sample/common/mt_adp_data.c:48-70 | look-up returns index i if and only if the live record i has that service ID |
| `ProgramDb.ServiceIdField` | Brief_Sample/common/mt_adp_data.h:100-105 | the service ID compared is the fourth 16-bit field of the record |
| `ProgramDb.SetProgKeepsExactly` | Brief_Sample/common/mt_adp_data.c:84-94 | overwriting a record keeps service IDs distinct if and only if the record is not live or the ID is not that of another live record; the list changes at that index only |
| `ProgramDb.SetProgEffect` | Brief_Sample/common/mt_adp_data.c:84-94 | set writes the given record of the 200 and no other, and refuses higher numbers |
| `ProgramDb.SetDuplicatesId` | Brief_Sample/common/mt_adp_data.c:84-94 | overwriting the second of two programmes with the first leaves two live records with one service ID |
| `ProgramDb.AddFeEffect` | Brief_Sample/common/mt_adp_data.c:148-175 | a channel is appended if and only if there is room and, for an RF channel, no live record has its RF parameters in their place; otherwise nothing changes and the result says where such a record is or that there is no room; the programme list is untouched |
| `ProgramDb.RfFields` | Brief_Sample/common/mt_adp_data.c:155-165 | the comparison of channels is one of frequency, symbol rate and modulation and of nothing else; a channel is RF if and only if its type is 1 |
| `ProgramDb.RunKeepsRf` | Brief_Sample/common/mt_adp_data.c:148-239 | over every run that adds only RF channels, restores included, the live channels have distinct frequency, symbol rate and modulation |
| `ProgramDb.RfMistakenForPresent` | Brief_Sample/common/mt_adp_data.c:155-168 | an RF channel is not added when the bytes of a live channel of another type coincide with its parameters |
| `ProgramDb.ResetEffect` | Brief_Sample/common/mt_adp_data.c:182-191 | reset leaves both lists empty, clears the first record of each array and no other byte |
| `ProgramDb.RoundTrip` | Brief_Sample/common/mt_adp_data.c:193-239 | restoring the saved stream of any database into any other, even one whose counts are out of range, brings back both counts and both lists exactly, whatever the length variables held before |
| `ProgramDb.CutSave` | Brief_Sample/common/mt_adp_data.c:216-239 | a save cut off anywhere behind its length words is restored with both counts and with the bytes of the prior state in the place of those that are missing |
| `ProgramDb.CutSaveExactly` | Brief_Sample/common/mt_adp_data.c:216-239 | such a restore brings back both lists if and only if the prior state has the missing bytes already |
| `ProgramDb.RestoreShapedExactly` | Brief_Sample/common/mt_adp_data.c:216-239 | a restore of any stream with both length words stays inside the arrays and leaves counts in range if and only if neither length is that of more records than there is room for and no more bytes follow than the arrays take |
| `ProgramDb.BadLengthOutgrows` | Brief_Sample/common/mt_adp_data.c:216-239 | eight given bytes make 201 programmes live |
| `ProgramDb.ApplyKeeps` | Brief_Sample/common/mt_adp_data.c:84-239 | every operation keeps live service IDs distinct and their number at most 199 |
| `ProgramDb.RunKeeps` | Brief_Sample/common/mt_adp_data.c:84-239 | so does every run, restores of saves included |
| `ProgramDb.RunRefinesList` | Brief_Sample/common/mt_adp_data.c:48-239 | every run on bytes, counters and streams computes on the live programmes what plain list operations compute: append if new and fewer than 199, replace, empty, bring back |
| `ProgramDb.RunRefinesFes` | Brief_Sample/common/mt_adp_data.c:148-239 | and on the live channels: append unless there are 30 or an RF channel has its parameters there already, empty, bring back |
| `ProgramDb.AddThenLookup` | Brief_Sample/common/mt_adp_data.c:48-117 | after an add each ID is looked up as before, and the added record under its own ID if that was new |
| `ProgramDb.Database.constructor` | Brief_Sample/common/mt_adp_data.c:40-46 | the static initial state is the empty, consistent database |
| `ProgramDb.Database.FindService` | Brief_Sample/common/mt_adp_data.c:57-63 | the loop over the record bytes finds the first live record with the ID |
| `ProgramDb.Database.GetByServiceId` | Brief_Sample/common/mt_adp_data.c:48-70 | returns index and record of that look-up, or nothing |
| `ProgramDb.Database.SetDvbProg` | Brief_Sample/common/mt_adp_data.c:84-94 | the stored bytes follow the specification of set; indices from 200 on are refused |
| `ProgramDb.Database.AddDvbProg` | Brief_Sample/common/mt_adp_data.c:96-117 | stored bytes, counter and result follow the specification of add |
| `ProgramDb.Database.FindRfChannel` | Brief_Sample/common/mt_adp_data.c:157-168 | the loop finds the first live channel with the same frequency, symbol rate and modulation bytes |
| `ProgramDb.Database.AddFeChan` | Brief_Sample/common/mt_adp_data.c:148-175 | stored bytes, counter and result follow the specification of adding a channel, RF or not |
| `ProgramDb.Database.ResetAll` | Brief_Sample/common/mt_adp_data.c:182-191 | both counts become zero and only the first record of each array is cleared |
| `ProgramDb.Database.SaveToFile` | Brief_Sample/common/mt_adp_data.c:193-213 | the stream is two little-endian byte lengths and the two live parts |
| `ProgramDb.Database.RestoreFromFile` | Brief_Sample/common/mt_adp_data.c:216-239 | for every stream, cut-off length words included, the new state is that of the stream laid over the old one; `ok` is false exactly if a read would have run over its array |
| `OptionParser.Scanner.constructor` | Brief_Sample/ciplus/sample_usbcam.c:354-357 | the static variables start at one |
| `OptionParser.Scanner.FindNimPosition` | Brief_Sample/ciplus/sample_usbcam.c:332-352 | one walk records, for each option, the last argument equal to it, and keeps the old position of options that do not occur |
| `OptionParser.Scanner.NextOption` | Brief_Sample/ciplus/sample_usbcam.c:354-409 | static variables, option and argument count after one call are those of the scanner function, on every path |
| `OptionParser.Scanner.Parse` | Brief_Sample/ciplus/sample_usbcam.c:1214-1317 | the parse terminates and its result is that of the recursive parser, failing and faulting paths included |
| `OptionParser.ScanGroup` | Brief_Sample/ciplus/sample_usbcam.c:354-409 | on a command line of complete groups one call takes one group: its option, its argument count, and the index moves to the next group |
| `OptionParser.PositionOfGroup` | Brief_Sample/ciplus/sample_usbcam.c:332-352 | the recorded position of an option is the start of its last group |
| `OptionParser.ReadsLastGroup` | Brief_Sample/ciplus/sample_usbcam.c:1251-1308 | reading from the recorded position gives the arguments of that group, in order, without running off the command line |
| `OptionParser.ScanLoads` | Brief_Sample/ciplus/sample_usbcam.c:1231-1317 | from any group on, the parse succeeds, loads group after group and consumes the whole command line |
| `OptionParser.LoadedResult` | Brief_Sample/ciplus/sample_usbcam.c:1231-1317 | each option ends up with the values of its last group, options that do not occur keep theirs, the tuner in use is that of the last group |
| `OptionParser.GroupsAreRead` | Brief_Sample/ciplus/sample_usbcam.c:1214-1317 | from a scanner at the start of a word, every command line of complete groups, in any order and with repetitions, is parsed: the two passes agree, the index ends at the argument count and every field is read from its own group |
| `OptionParser.SingleOption` | Brief_Sample/ciplus/sample_usbcam.c:1162-1317 | one tuner option with arguments is parsed, into the numbers of its arguments in order, if and only if there are 3 of them for -c and -j, 5 for -s and -o, 2 for -t; otherwise the parse fails, or faults if there are none |
| `OptionParser.UsageLines` | Brief_Sample/ciplus/sample_usbcam.c:293-309 | the usage lines "-t 585 8" and "-c 314 6875 64" word for word, and "-t 585", which is refused |
| `OptionParser.ShortLine` | Brief_Sample/ciplus/sample_usbcam.c:1221-1225 | a line of up to three words is refused when no task is running, and nothing changes |
| `OptionParser.RoundTrip` | Brief_Sample/ciplus/sample_usbcam.c:1214-1317 | for every such command line and every state of the scanner the parse succeeds, and then reads everything back, if and only if the scanner stands at the start of a word; otherwise it runs off the option |
| `OptionParser.ScanStops` | Brief_Sample/ciplus/sample_usbcam.c:354-409 | for every command line and scanner state: the parse succeeds if and only if nothing or "--" follows the complete groups, asks the task to exit if and only if q does, and faults if and only if it runs off a word or the line; otherwise it leaves the scanner at a stated place, inside a word if and only if it stopped at h, H, ? or q with another character behind |
| `OptionParser.CleanMeansWordStart` | Brief_Sample/ciplus/sample_usbcam.c:1214-1317 | after any session of parses the scanner is at the start of a word if and only if the last command line that was looked at did not stop in that way |
| `OptionParser.SessionRoundTrip` | Brief_Sample/ciplus/sample_usbcam.c:1214-1317 | after any session of parses a command line of complete groups is parsed, and read back, if and only if the session is clean in that sense |
| `OptionParser.NoClustersIsClean` | Brief_Sample/ciplus/sample_usbcam.c:397-401 | a session in which no word starts with a dash, one of those letters and another character is clean |
| `OptionParser.HelpStrands` | Brief_Sample/ciplus/sample_usbcam.c:397-401 | parsing "-help" leaves the scanner behind the h, after which no command line of complete groups can be parsed |

## Left out

- Collect: what the stack holds at the got-flags of the shared copy (Brief_Sample/common/mt_adp_demux.c:239-243) is a parameter. The driver is taken to deliver whole sections of 8 to 4096 bytes; what the copies do with shorter or longer ones is memory misuse and not modelled.
- ParseNit: inputs whose passes leave the bytes given, or which gather so much over several passes that an overflow guard ends a loop with a half-written node.
- ParseNit: headers are written as typed cells, not as the bytes of the structure; their size is 16 or 24 bytes and the arena is 4-aligned, as with 32- and 64-bit pointers. The two `malloc` results are parameters.
- AcquireNit: channel and filter set-up and tear-down around the reading are not modelled. Sections are to leave the bytes that the parser looks at behind them (at most 20) within their slots of 4096; the standard allows sections of 1024 bytes. That the arenas of all but the last parse are never freed is not stated.
- CaptionReceiver is a step function on values, because its point is interleaving; each step is one shared access or driver call of the code. There is one control thread, the creation of the worker succeeds, sleeps and the data passed to the callback are omitted, and a handle is its slot number.
- FileInjection: the bodies of the reader threads, the sockets and the address fields; the ES file table and `DMX_DeInit`, which adds no harder property.
- RestoreFromFile: what a read that runs over its array does to memory; the model stops there.
- Database: access by index, the current-programme number, NULL arguments and numeric return codes; record sizes are those of the two structures with four-byte alignment (108 and 276 bytes).
- Parse: `strtol` is a parameter; the constant tuner and port fields, the range checks and the messages are omitted. An option that ends the command line without an argument is a `Fault`, since the code dereferences the terminating NULL.
- MT_CatParseCAT, MT_DownloadFileName, the A/V player set-up, the cipher samples, the frontend tables, the tuner standby list and the blind scan: single paths, finite switches or calls into the SDK.
- Menus, help texts, printing, command registration, sockets, file reading and thread creation.

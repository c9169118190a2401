# Verified models of six driver protocols

This project models the parts of a set of Linux kernel modules that hold state
machines, code generators and concurrent protocols, and proves what they promise:

- **PL330 DMA controller.** The microcode generator compiles a transfer into raw
  bytes: nested 8-bit loops, unrolled bodies, backward jumps, a shorter last burst.
  The bytes are given a small-step interpreter that follows section 4.3 of the ARM
  DMA-330 TRM (DDI 0424), and the generator is proved correct against it, in what it
  moves and in whom it waits for and acknowledges. On top of it: code size, the two-slot
  request queue of a channel, the shared microcode buffer, and what a queued descriptor
  does in its own terms.
- **SysMMU.** A two-level page table with 4K, 64K and 1M mappings and entry counters
  refines a plain map from IOVA pages to physical pages. The TLBs and second-level
  base buffers of the SysMMUs of a domain stay coherent with it over runs of updates,
  invalidations, power transitions, attachments and hardware walks, except exactly
  when a failing 64K map takes back entries that a SysMMU holds. Maps and unmaps that
  race in one section keep one table and free each other one once; the entry counter
  stays right except exactly when it is reset after others have counted.
- **Trusty log ring.** A lock-free reader against a producer in another world, with
  free-running 32-bit indices: one reader emits no torn line, however the producer
  interleaves. Readers that share the line buffer tear lines; it is stated exactly when.
- **Voting library.** An ordered ballot list with in-place disabling, an
  incrementally kept result and callbacks on change.
- **Trusty IPC.** Transmit buffers against the virtqueue, the channel state machine
  and reference counts.
- **Key combo.** Key events against a delayed work item on an ordered workqueue.

Code that updates state in place is modelled by classes and methods, each proved
against a function on values; properties of whole runs are lemmas about sequences
of states. Concurrency is a choice of step: in the log reader every read of shared
memory is preceded by any number of producer steps.

Bytes, addresses and registers are integers with explicit remainders for width.

## Files

| files | content |
|---|---|
| `Arith.dfy`, `Common.dfy` | division and remainder facts; shared small types |
| `Pl330Isa.dfy`, `Pl330Microcode.dfy`, `Pl330Ccr.dfy`, `Pl330Correct.dfy`, `Pl330Shared.dfy`, `Pl330Size.dfy`, `Pl330Memcpy.dfy`, `Pl330Desc.dfy` | instructions and interpreter, generator, control register, correctness, also from a buffer that changes, size, memory copies, descriptors |
| `Pl330Queue.dfy`, `Pl330Thread.dfy` | request queue over runs, channel thread object |
| `SysmmuPte.dfy`, `SysmmuTable.dfy`, `SysmmuMap.dfy`, `SysmmuShare.dfy`, `SysmmuUnmap.dfy`, `SysmmuDomain.dfy` | entries, page table, map, shareable attribute, unmap, domain object |
| `SysmmuCoherence.dfy`, `SysmmuSteps.dfy`, `SysmmuRollBack.dfy` | caches over runs, the driver's operations as steps of that protocol, a failing 64K map that leaves a stale translation |
| `SysmmuRace.dfy`, `SysmmuLostCount.dfy` | racing maps and unmaps of one section, a run that loses a count |
| `TrustyLogRing.dfy`, `TrustyLogSink.dfy`, `TrustyLogReaders.dfy` | ring and producer, reader, several readers on one line buffer |
| `GVotableOrder.dfy`, `GVotableRuns.dfy`, `GVotableLedger.dfy`, `GVotableElection.dfy`, `GVotableOutcomes.dfy` | ballot order, winners and ballots over runs, election object, its outcomes over runs |
| `TrustyIpcTx.dfy`, `TrustyIpcChan.dfy`, `TrustyIpcCalls.dfy` | transmit buffers, channels over runs, channel calls |
| `KeyCombo.dfy`, `KeyComboHandler.dfy` | handler and workqueue over runs, handler object and key lists |

## Model

| member | source | states |
|---|---|---|
| Pl330Isa.DecodeEncode | drivers/dma/pl330.c:739-1011 | every instruction the driver emits is decoded back from its bytes, whatever follows it in the buffer |
| Pl330Isa.OutcomeUnique | drivers/dma/pl330.c:1676-1682 | two ended states reachable from the same start are equal, so an execution has one outcome |
| Pl330Microcode.Emit | drivers/dma/pl330.c:739-1011 | the returned offset advances by the instruction's size in both modes; bytes are written only in the real one, and exactly there |
| Pl330Microcode.LdstMemToMem | drivers/dma/pl330.c:1258-1280 | appends exactly the specified load/store code of one memory-to-memory burst, with or without barriers |
| Pl330Microcode.EmitLoad | drivers/dma/pl330.c:1282-1313 | appends exactly the load of the direction and request type |
| Pl330Microcode.EmitStore | drivers/dma/pl330.c:1315-1344 | appends exactly the store of the direction and request type |
| Pl330Microcode.LdstPeripheral | drivers/dma/pl330.c:1346-1367 | appends exactly the wait, load, store and flush of one peripheral burst |
| Pl330Microcode.EmitBursts | drivers/dma/pl330.c:1369-1396 | appends the code of one burst of the transfer's direction |
| Pl330Microcode.EmitDregs | drivers/dma/pl330.c:1403-1447 | appends the register update and the single shorter burst for the remaining beats |
| Pl330Microcode.ChooseNest | drivers/dma/pl330.c:1529-1568 | the loop counts and unrolling chosen for a burst count are the specified plan |
| Pl330Microcode.EmitLoop | drivers/dma/pl330.c:1522-1601 | appends the specified loop nest and reports exactly the bursts it covers |
| Pl330Microcode.LoopConsumes | drivers/dma/pl330.c:1529-1600 | each call covers at least one burst and at most the number asked for |
| Pl330Microcode.SetupLoops | drivers/dma/pl330.c:1618-1637 | terminates having appended the loops for exactly the requested bursts and then the rest |
| Pl330Microcode.BurstsAndDregs | drivers/dma/pl330.c:1618-1637 | full bursts and dregs together are exactly the whole beats of the transfer |
| Pl330Microcode.SetupXfer | drivers/dma/pl330.c:1639-1655 | appends the address moves and the loops |
| Pl330Microcode.SetupReq | drivers/dma/pl330.c:1661-1687 | the dry run returns the number of bytes the real run writes; the real run changes only those bytes |
| Pl330Ccr.WithBeatsFields | drivers/dma/pl330.c:1412-1425 | changing the burst length for the dregs changes both lengths and no other bit of the register |
| Pl330Ccr.PrepareCcrFields | drivers/dma/pl330.c:1689-1719 | the prepared register decodes to the configured increments, sizes and lengths, a length of 0 standing for 16 |
| Pl330Ccr.PrepareCcrAttributes | drivers/dma/pl330.c:1699-1718 | both halves of the register carry the protection of the request, each its own cache control, and the register its byte swap |
| Pl330Correct.TransferRuns | drivers/dma/pl330.c:1258-1396 | interpreting the code of one burst, wherever it stands, moves one burst and continues behind it |
| Pl330Correct.AlwaysForms | drivers/dma/pl330.c:1282-1344 | the load or store emitted for any request has, for either request type the peripheral grants, the effect of one beat or a burst for that peripheral |
| Pl330Correct.LoopRuns | drivers/dma/pl330.c:807-866 | a body closed by DMALPEND runs its counter plus one times, the jump landing on the body |
| Pl330Correct.LoopCodeRuns | drivers/dma/pl330.c:1522-1601 | the nest emitted by one call, interpreted, moves exactly the bursts the call reports |
| Pl330Correct.LoopsRuns | drivers/dma/pl330.c:1629-1633 | all loops of a transfer, interpreted, move exactly the requested bursts |
| Pl330Correct.DregsRun | drivers/dma/pl330.c:1403-1447 | the code for the rest, interpreted, moves exactly the remaining beats |
| Pl330Correct.ManyIsMove | drivers/dma/pl330.c:1618-1637 | bursts one after another equal one move of all their bytes, if forward copying is safe |
| Pl330Correct.CompilerCorrect | drivers/dma/pl330.c:1661-1687 | interpreting the bytes of a request, wherever they stand in the buffer, stops; exactly the whole beats went from source to destination in order and nothing else changed; for each burst and once for the remaining beats the channel waited for its own peripheral, acknowledged it on loads from it and flushed it after stores to it unless it must not, or kept the barriers of a copy; the event was raised once, after the data in program order; no other outcome is possible |
| Pl330Shared.SharedCorrect | drivers/dma/pl330.c:1661-1687 | the compiler is correct also when every step fetches from a different buffer, as long as each holds the request's code while the request executes |
| Pl330Size.BurstsFit | drivers/dma/pl330.c:245-251 | a request of at most 1900800 bursts compiles to at most 256 bytes in any direction and revision |
| Pl330Size.SegmentsFit | drivers/dma/pl330.c:3539-3543 | every segment within the advertised maximum is therefore within the limit at submission |
| Pl330Size.DeviceMegabytes | drivers/dma/pl330.c:245-251 | the 2.5 MiB in 256 bytes of the comment holds for device transfers exactly when no DMAFLUSHP is emitted |
| Pl330Memcpy.WidestBeat | drivers/dma/pl330.c:3113-3122 | the loop ends with the widest beat of the bus that source, destination and length are aligned to |
| Pl330Memcpy.PrepMemcpy | drivers/dma/pl330.c:3091-3141 | the prepared copy has that beat, both increments, and as many beats as the channel's MFIFO share allows, one if the beat is narrower than the bus |
| Pl330Memcpy.CopyBurstFits | drivers/dma/pl330.c:2968-2983 | its burst fits the channel's share exactly when the MFIFO has a line per channel |
| Pl330Memcpy.MemcpyCorrect | drivers/dma/pl330.c:3091-3141 | prepared, compiled and interpreted from anywhere in the buffer, a copy leaves the destination equal to the old source for its whole length and changes nothing else in memory |
| Pl330Desc.CarriedFrom | drivers/dma/pl330.c:1639-1659 | a compiled descriptor moves the whole beats of its own length from its own source to its own destination, memory or device as its increments say |
| Pl330Desc.TrafficFrom | drivers/dma/pl330.c:1346-1447 | and what it does on the buses follows from its own direction, peripheral, length and burst |
| Pl330Desc.DescAttributes | drivers/dma/pl330.c:1758-1765 | a request runs with the security of the DMAC's manager and otherwise with the protection, cache and swap settings of its descriptor |
| Pl330Desc.WindowExact | drivers/dma/pl330.c:1804-1807 | window and offset give back an address exactly when it has at most 36 bits |
| Pl330Desc.CopyCarried | drivers/dma/pl330.c:1804-1807 | with the wrappers that its submission writes, a prepared copy copies all its bytes between the very addresses of its descriptor and changes nothing else |
| Pl330Queue.FirstInFirstOut | drivers/dma/pl330.c:1168-1220 | over every run of submit, start, raise, stop and handle steps, requests start and are credited in submission order, each once, and the code under execution stays up to its event, exactly when no start attempt finds the thread stopped with its event not yet handled |
| Pl330Queue.CodeStaysToEnd | drivers/dma/pl330.c:1979-1993 | over every run, such order holds and the half-buffer of a thread that has not stopped holds the code it executes, up to DMAEND, exactly when moreover no submission goes to the running slot between the handling of its event and its DMAEND |
| Pl330Queue.EndOverwritten | drivers/dma/pl330.c:1990-1993 | a run in which the handler frees the slot before DMAEND and a submission overwrites the half-buffer from which DMAEND is still to be fetched |
| Pl330Queue.OneInFlight | drivers/dma/pl330.c:1979-1997 | in such runs a request starts only after the previous one is credited |
| Pl330Queue.HandlingStartsNext | drivers/dma/pl330.c:1989-1994 | in such runs handling the event of a stopped thread credits the request that ran and starts the next at once, leaving it idle only if nothing is queued |
| Pl330Queue.EarlyStartRuns | drivers/dma/pl330.c:1182-1192 | a run with such a start: the finished request runs again before the queued one; its second event finds no request in the running slot, or credits one submitted meanwhile over whose code it ran |
| Pl330Queue.WrapperFollowsSubmission | drivers/dma/pl330.c:1804-1807 | over every run, while a request executes both address wrappers hold its upper bits exactly when the request submitted last uses the same source and destination windows |
| Pl330Queue.WrapperTaken | drivers/dma/pl330.c:1804-1807 | a run in which a submission for another window changes the wrapper under the executing request |
| Pl330Thread.HalfBuffersDisjoint | drivers/dma/pl330.c:2149-2166 | the half-buffers of all channels and slots lie inside the microcode buffer and are pairwise disjoint |
| Pl330Thread.Thread.SubmitReq | drivers/dma/pl330.c:1726-1815 | each refusal has its exact condition and changes nothing; an accepted request is queued last, its code written into its own half-buffer only, the other slot's code intact |
| Pl330Thread.Thread.Trigger | drivers/dma/pl330.c:1168-1220 | starts the oldest queued request, and what it points the hardware at is that request's code |
| Pl330Thread.Thread.QueuedRequestRuns | drivers/dma/pl330.c:1787-1802 | a queued request, executed from its half-buffer of the shared buffer, ends, and only so, with the whole beats of its descriptor carried from its source to its destination, having waited for and acknowledged its peripheral and no other, and its event raised once, whatever is written into other half-buffers before and, between any two steps, during its execution |
| Pl330Thread.OtherWritesHarmless | drivers/dma/pl330.c:2149-2166 | for every sequence of buffers, one per step, in which bytes of other half-buffers of any channel change while the channel runs, a request has its outcome and no other |
| Pl330Thread.Thread.Update | drivers/dma/pl330.c:1979-1996 | detaches and returns exactly the request of the running slot |
| SysmmuPte.SectionRoundTrip | drivers/iommu/samsung-iommu.h:113-177 | a section entry decodes as a section at the address it was made for |
| SysmmuPte.LargeRoundTrip | drivers/iommu/samsung-iommu.h:113-177 | a 64K entry decodes as such at its address |
| SysmmuPte.SmallRoundTrip | drivers/iommu/samsung-iommu.h:113-177 | a 4K entry decodes as such at its address |
| SysmmuPte.TableRoundTrip | drivers/iommu/samsung-iommu.c:517-521 | an entry made for a second-level table decodes to that table |
| SysmmuTable.PutTableKeeps | drivers/iommu/samsung-iommu.c:610-636 | replacing a second-level table changes the translations of its section only, and keeps counters and ownership |
| SysmmuTable.SetSectionKeeps | drivers/iommu/samsung-iommu.c:570-608 | a section entry replacing an entry or table gives its section consecutive addresses, frees the table, and leaves all others |
| SysmmuTable.ClearEntryKeeps | drivers/iommu/samsung-iommu.c:674-742 | clearing an entry that holds no table unmaps its section only |
| SysmmuTable.NewTableKeeps | drivers/iommu/samsung-iommu.c:523-563 | installing an empty table changes no translation and keeps ownership |
| SysmmuMap.MapSectionRefines | drivers/iommu/samsung-iommu.c:570-608 | fails with the table unchanged exactly when a page of the section is mapped, else maps exactly the section |
| SysmmuMap.MapPagesRefines | drivers/iommu/samsung-iommu.c:523-636 | fails with no translation changed exactly when a page of the range is mapped or no table can be had, else maps exactly the range |
| SysmmuMap.MapRefines | drivers/iommu/samsung-iommu.c:638-672 | map adds exactly the pages of the range at consecutive physical addresses, or reports an error with its exact condition and changes no translation; counters and table ownership stay right |
| SysmmuShare.MapShares | drivers/iommu/samsung-iommu.c:571-650 | after a map every page of the range is shareable, by the bit of the entry that holds it, exactly when IOMMU_CACHE is asked for without IOMMU_PRIV; every other page keeps its attribute, and all do if it fails |
| SysmmuUnmap.ClearCounterExact | drivers/iommu/samsung-iommu.c:744-777 | the counter is right after clearing n entries exactly when all n were mapped |
| SysmmuUnmap.ClearPagesKeeps | drivers/iommu/samsung-iommu.c:744-750 | clearing mapped entries unmaps exactly those pages |
| SysmmuUnmap.UnmapRefines | drivers/iommu/samsung-iommu.c:674-742 | unmap removes exactly the pages of the size it reports, a page size of at most the requested one; a report of 0 changes nothing |
| SysmmuUnmap.UnmapReports | drivers/iommu/samsung-iommu.c:674-742 | it reports 0 exactly when the address lies in a mapping larger than requested, the size of the mapping that held it, and where nothing is mapped the size asked for if the section is empty and one page otherwise |
| SysmmuUnmap.IovaToPhysRefines | drivers/iommu/samsung-iommu.c:907-929 | agrees with the abstract translation at every IOVA, offset included, and gives 0 where nothing is mapped |
| SysmmuUnmap.UnmapSlptRefines | drivers/iommu/samsung-iommu.c:752-777 | over a fully mapped range across any number of sections it removes exactly the range and keeps every counter |
| SysmmuUnmap.ClearSectionsRefines | drivers/iommu/samsung-iommu.c:779-816 | clearing whole sections, by entry or by full table, unmaps exactly their pages |
| SysmmuDomain.Domain.AllocLv2Entry | drivers/iommu/samsung-iommu.c:523-563 | the object's update is the specified one, in each error case too |
| SysmmuDomain.Domain.Lv1SetSection | drivers/iommu/samsung-iommu.c:570-608 | the object's update is the specified one |
| SysmmuDomain.Domain.Lv2SetPage | drivers/iommu/samsung-iommu.c:610-636 | the entry loop either sets all entries and counts them or leaves the table as it was, the 64K roll-back included |
| SysmmuDomain.Domain.Map | drivers/iommu/samsung-iommu.c:638-672 | the object's table and result are those of the function that MapRefines is about |
| SysmmuDomain.Domain.Unmap | drivers/iommu/samsung-iommu.c:674-742 | the object's table and result are those of the function that UnmapRefines is about |
| SysmmuDomain.Domain.UnmapSlpt | drivers/iommu/samsung-iommu.c:752-777 | the section-by-section loop leaves the table and counters of the specified clearing, mapped or not |
| SysmmuDomain.Domain.UnmapSections | drivers/iommu/samsung-iommu.c:779-816 | delayed, batched clearing leaves the same table and counters as clearing each section one at a time, whatever the table holds |
| SysmmuDomain.Domain.UnmapPages | drivers/iommu/samsung-iommu.c:779-816 | on a fully mapped range exactly its pages go, and all counters and table ownership stay right |
| SysmmuDomain.Domain.Phys | drivers/iommu/samsung-iommu.c:907-929 | the walk returns the translation of the page plus the offset, or 0 |
| SysmmuDomain.Domain.Free | drivers/iommu/samsung-iommu.c:290-307 | every second-level table is freed, and none twice |
| SysmmuCoherence.StepKeeps | drivers/iommu/samsung-iommu.c:202-233 | every driver or hardware step, walks being split into first-level read, second-level read and fill and 64K maps into their stores, keeps cached translations current or unsynced, and the table bases of caches and walks in flight unfreed, except a roll-back of entries whose page a translating SysMMU holds |
| SysmmuCoherence.RollBackBreaks | drivers/iommu/samsung-iommu.c:624-628 | such a roll-back always leaves that SysMMU with a translation that no entry gives |
| SysmmuCoherence.CachesCoherent | drivers/iommu/samsung-iommu.c:876-905 | over every run: a translating SysMMU's TLB and walks hold only current translations or pages unmapped and not yet synced, and the table bases in its SBB and in its walks in flight are of tables not freed, exactly when no failing 64K map takes back an entry while a translating SysMMU holds its page in the TLB or in a walk |
| SysmmuCoherence.SyncComplete | drivers/iommu/samsung-iommu.c:1475-1501 | over every run without such a roll-back, after a SysMMU's turn in a sync it holds no stale page of the range while it translates, even if it was skipped because suspended, until the range is unmapped again |
| SysmmuSteps.MapIsRun | drivers/iommu/samsung-iommu.c:570-672 | every map, also during a table replacement and other maps, is a sequence of steps of the protocol that ends in the page table it leaves: the replacement of an empty table that frees it after a sync; for 64K, stores that are committed, or rolled back when an entry is in use; otherwise one step that only adds translations |
| SysmmuRollBack.StaleRun | drivers/iommu/samsung-iommu.c:621-631 | for every page table, a 64K map that meets a mapped page after its first store, with a walk of a stored page in between, ends in a state that is not coherent |
| SysmmuRollBack.RollBackLeavesStale | drivers/iommu/samsung-iommu.c:621-631 | such a run from an empty page table: 4K at 0x3000, then 64K at 0, which is refused with the page table unchanged and leaves page 0 in the TLB |
| SysmmuRace.StepKeeps | drivers/iommu/samsung-iommu.c:523-636 | every step of every caller (look, allocate, publish, reset, discard, write, roll back, count, clear, uncount) keeps each table owned once, and the entries in use those counted since the table was published and those still to be counted |
| SysmmuRace.TablesConserved | drivers/iommu/samsung-iommu.c:540-559 | over every interleaving, a table that is not freed is the section's or that of exactly one call, each allocation of an address but a live one is matched by one free, all callers write into the one published table, and between calls that table is the only one |
| SysmmuRace.CounterExact | drivers/iommu/samsung-iommu.c:547-554 | over every interleaving, at every state outside the window between storing the first-level entry and resetting the counter, the counter is the number of entries in use but for what calls have yet to count, exactly when at every reset the counts and uncounts since the entry was stored sum to 0 |
| SysmmuRace.OneTable | drivers/iommu/samsung-iommu.c:545-552 | the table that is installed first stays the section's until a 1M map replaces it |
| SysmmuRace.ReplacesEmptyTable | drivers/iommu/samsung-iommu.c:582-591 | over every interleaving, a 1M map replaces and frees the section's table exactly when it has as many entries in use as the last reset lost: exactly an empty one when the resets lost nothing, and in general right exactly when that one lost nothing or the table has another number of entries in use |
| SysmmuLostCount.CountLost | drivers/iommu/samsung-iommu.c:547-552 | a run in which a page is mapped and counted between the store and the reset: the counter is 0 with the entry in use, so a 1M map frees the table in use; after that page is unmapped it is -1, so a 1M map over the empty table is refused |
| SysmmuSteps.UnmapIsStep | drivers/iommu/samsung-iommu.c:674-742 | unmap, also with 64K maps in progress elsewhere, is an unmap step of the protocol that drops exactly the pages it reports and no table, and leaves them to be synced by every SysMMU |
| SysmmuSteps.UnmapSlptIsStep | drivers/iommu/samsung-iommu.c:752-777 | so is unmap_slpt on a fully mapped range |
| SysmmuSteps.ClearSectionsIsStep | drivers/iommu/samsung-iommu.c:779-816 | so is clearing whole sections |
| TrustyLogRing.OverflowTestExact | drivers/trusty/trusty-log.c:222-234 | the wrapped overflow test is right exactly when the lag is below 2^32 or does not fall below the ring size modulo 2^32 |
| TrustyLogRing.Ring.Produce | drivers/trusty/trusty-log.h:10-19 | any producer step keeps what is published and not reserved again in the buffer |
| TrustyLogSink.Sink.ReadLine | drivers/trusty/trusty-log.c:236-255 | against a running producer, the buffer holds the producer's line unless the producer has by then reserved a ring size past it; it never reads past put or overruns the buffer |
| TrustyLogSink.Sink.Show | drivers/trusty/trusty-log.c:303-371 | for every interleaving what is emitted is the producer's line at get, or an overrun is reported, exactly when the producer is more than a ring size ahead, and get moves to the oldest character; get strictly advances when there is data and never passes put; lines since the last report are one slice of the stream |
| TrustyLogSink.PrintedWhole | drivers/trusty/trusty-log.c:359-360 | a line is printed whole exactly when it holds no NUL |
| TrustyLogSink.Sink.HasData | drivers/trusty/trusty-log.c:264-270 | true exactly when something is published that this sink has not read |
| TrustyLogSink.Sink.Dump | drivers/trusty/trusty-log.c:510-529 | terminates against a producer that stops, having read everything published; after a secure-world panic everything since the last printed line is printed as one slice, unless an overflow is reported |
| TrustyLogSink.StartExact | drivers/trusty/trusty-log.c:395-400 | reading a file from the start begins at the oldest retained character exactly when alloc has not wrapped or is at least a ring size past its last wrap |
| TrustyLogSink.StartPastPublished | drivers/trusty/trusty-log.c:395-400 | it begins past everything published exactly when alloc has wrapped and put has not, and then the overflow test does not notice |
| TrustyLogSink.StartPastInstance | drivers/trusty/trusty-log.c:395-400 | such a start: a ring of 2048, two characters reserved past the wrap and none of them published |
| TrustyLogSink.Open | drivers/trusty/trusty-log.c:373-424 | when put is in the same 2^32 block as alloc, opening yields a reader whose lines are the producer's, at the oldest character under the same exact condition |
| TrustyLogSink.SeqIndex | drivers/trusty/trusty-log.c:395-407 | the index chosen for a file offset, alloc being read twice under interference |
| TrustyLogSink.Sink.SeqNext | drivers/trusty/trusty-log.c:426-466 | the stored file offset is never 0 and gives back the read index |
| TrustyLogSink.Resume | drivers/trusty/trusty-log.c:373-424 | a read resumed from a stored offset goes on at the very character where the last one stopped |
| TrustyLogReaders.ReadersExact | drivers/trusty/trusty-log.c:488-508 | for every interleaving of any number of shows on the one line buffer: whatever their lines, each prints its own, exactly when between the store of each of its characters and its print no other show stores at that position, and a character stored behind its line is replaced by a NUL before the print |
| TrustyLogReaders.OneAtATime | drivers/trusty/trusty-log.c:236-255 | with no other show between the first store and the print of any, every line is printed whole |
| TrustyLogReaders.TwoReadersTear | drivers/trusty/trusty-log.c:488-508 | two interleaved shows of which the first prints the line of the second |
| GVotableOrder.TotalOrder | drivers/misc/gvotable.c:132-179 | the int comparators are total orders on int votes, 0 exactly for equal votes |
| GVotableOrder.WinnerByName | drivers/misc/gvotable.c:132-179 | what the least vote means for each comparator: uint_max and uint_min are swapped with respect to int_max and int_min |
| GVotableOrder.AddedOrdered | drivers/misc/gvotable.c:962-992 | adding a ballot keeps every ballot before an enabled one at most equal to it |
| GVotableOrder.CastKeepsOrder | drivers/misc/gvotable.c:1087-1134 | a cast keeps that order, except exactly when it disables in place with a vote that an enabled ballot behind should precede |
| GVotableOrder.SameOrEarlierKeepsOrder | drivers/misc/gvotable.c:1132-1134 | in particular when disabling does not move the vote later |
| GVotableOrder.RecastKeepsOrder | drivers/misc/gvotable.c:994-1016 | a recast always keeps the order |
| GVotableOrder.FirstIsLeast | drivers/misc/gvotable.c:276-306 | in an ordered list the first enabled ballot holds the least enabled vote |
| GVotableOrder.ElectsLeast | drivers/misc/gvotable.c:962-1016 | over every run of casts and recasts in which disabling never moves a vote later, the elected vote is the least enabled one |
| GVotableOrder.DisabledVoteMisleads | drivers/misc/gvotable.c:1132-1134 | a run of four casts without that proviso which elects 3 although 5 is enabled under int_max |
| GVotableOrder.EqualVoteKeepsWinner | drivers/misc/gvotable.c:973-981 | a vote equal to the winner's does not displace it |
| GVotableOrder.RecencyWinner | drivers/misc/gvotable.c:181-192 | under most_recent an added enabled ballot wins, under least_recent it displaces no winner |
| GVotableOrder.CastElectsLeast | drivers/misc/gvotable.c:1087-1134 | while the enabled ballots are in order among themselves, a cast leaves the least enabled vote elected, except exactly when it enables a vote placed at or before the winner although it compares above it |
| GVotableOrder.CastKeepsEnabledOrder | drivers/misc/gvotable.c:962-992 | the enabled ballots stay in order among themselves, except exactly when an enabled vote is placed before an enabled ballot it compares above |
| GVotableOrder.CastKeepsDistinct | drivers/misc/gvotable.c:387-402 | each stored reason keeps one ballot exactly when the cast finds its ballot, by stored reason and hash of the whole reason, or no ballot stores the same reason |
| GVotableOrder.LongReasonsRepeat | drivers/misc/gvotable.c:1104-1109 | two ballots store the same reason after casting one too long to store twice, or its truncation after it unless the hashes collide |
| GVotableOrder.ShortReasonsOneBallot | drivers/misc/gvotable.c:387-402 | over every run with reasons short enough to store, each reason has one ballot |
| GVotableRuns.RecastKeepsEnabledOrder | drivers/misc/gvotable.c:994-1016 | a recast keeps the enabled ballots in order among themselves, except exactly when it enables a ballot that is placed before an enabled one it compares above |
| GVotableRuns.RecastElectsLeast | drivers/misc/gvotable.c:994-1016 | a recast leaves the least enabled vote elected, except exactly when it enables a ballot that is placed at or before the winner of the others although it compares above it |
| GVotableRuns.RobustExact | drivers/misc/gvotable.c:276-306 | the least enabled vote is elected whatever ballots are disabled in place, exactly when the enabled ballots are in order among themselves |
| GVotableRuns.RunElectsLeast | drivers/misc/gvotable.c:962-1016 | over every run of casts and recasts, the least enabled vote is elected at every point and after any disabling there, exactly when every vote that is enabled precedes the enabled ballots it is placed before |
| GVotableRuns.ApplyElects | drivers/misc/gvotable.c:962-1016 | after any cast or recast of any list, the least enabled vote is elected exactly when the enabled vote is least, if placed in front of the others, and otherwise when the first of the others is least among them |
| GVotableRuns.WinnersExact | drivers/misc/gvotable.c:962-1016 | over every run of casts and recasts, the elected vote is the least enabled one at every point exactly when every operation that puts its vote in front has the least, and every other that takes the winner away leaves the least next in line |
| GVotableElection.Evaluate | drivers/misc/gvotable.c:276-326 | the outcome from scratch is the reason and vote of the enabled ballot that no enabled one is listed before, 1 in a bool election; without one it is the default in use, or none |
| GVotableElection.Election.Rerun | drivers/misc/gvotable.c:266-337 | unless a result is forced, the cached validity, reason and result are those of that ballot, the default or none; the callback is asked for exactly on a change, or always under a recency comparator |
| GVotableElection.Election.RunElection | drivers/misc/gvotable.c:1032-1060 | the same, with a callback also on request and always for a forced result |
| GVotableElection.Election.Cast | drivers/misc/gvotable.c:1087-1145 | refusals change nothing; the list is the specified one and the cached outcome equals the outcome from scratch, with a callback exactly on change |
| GVotableElection.Election.Recast | drivers/misc/gvotable.c:994-1027 | likewise for a recast ballot |
| GVotableElection.Election.UseDefault | drivers/misc/gvotable.c:753-773 | likewise for switching the default |
| GVotableElection.Election.SetDefault | drivers/misc/gvotable.c:710-736 | a current outcome stays current exactly when a default was in use or some ballot is enabled: the first default reruns nothing |
| GVotableLedger.BallotsFollow | drivers/misc/gvotable.c:994-1134 | over every run with reasons short enough to store there is one ballot for each reason cast, with the vote it was last cast with, enabled as it last was |
| GVotableOutcomes.OutcomesExact | drivers/misc/gvotable.c:962-1134 | a new election of ints, after every one of any casts and recasts, holds the reason and vote of an enabled ballot that no enabled vote should precede, exactly under the condition of WinnersExact |
| GVotableOutcomes.OutcomeInLedger | drivers/misc/gvotable.c:276-306 | that is, the outcome is least among the reasons last enabled, each with the vote it was last cast with |
| TrustyIpcTx.TakenConserved | drivers/trusty/trusty-ipc.c:331-337 | taking a free buffer keeps each buffer in exactly one place |
| TrustyIpcTx.QueuedConserved | drivers/trusty/trusty-ipc.c:416-437 | so does queueing one, and there is room in the ring for it |
| TrustyIpcTx.UsedConserved | drivers/trusty/trusty-ipc.c:2066-2086 | so does taking back a used one |
| TrustyIpcTx.TxPool.GetTxbuf | drivers/trusty/trusty-ipc.c:324-350 | each refusal has its exact condition, try-again exactly when all buffers are queued or held; otherwise the oldest free or a new buffer is handed out |
| TrustyIpcTx.TxPool.PutTxbuf | drivers/trusty/trusty-ipc.c:317-322 | the buffer goes last in the free list; wakes exactly if the list was empty |
| TrustyIpcTx.TxPool.QueueTxbuf | drivers/trusty/trusty-ipc.c:416-437 | fails exactly when the device is not online; the tx ring is never full |
| TrustyIpcTx.TxPool.TxvqCb | drivers/trusty/trusty-ipc.c:2066-2086 | all used buffers return to the free list in order; wakes exactly if it was empty and no longer is |
| TrustyIpcChan.StepKeeps | drivers/trusty/trusty-ipc.c:439-529 | no call, handler or destruction step touches a freed channel, and each keeps the reference counts exact |
| TrustyIpcChan.ReferencesExact | drivers/trusty/trusty-ipc.c:439-529 | over every run the count of a channel is creator plus address table plus lookups in flight, so nothing reachable is freed |
| TrustyIpcChan.ChannelsBorn | drivers/trusty/trusty-ipc.c:439-529 | over every run channels come from creation only, exactly when the device is online and the address is free and in range; a new one is disconnected, found under its address and has two references |
| TrustyIpcChan.StateMoves | drivers/trusty/trusty-ipc.c:1758-1850 | every step has exactly its effect on the state of every channel: requests, responses, disconnects, shutdown and the loss of the device |
| TrustyIpcChan.StaleIsFinal | drivers/trusty/trusty-ipc.c:862-904 | over every run a stale channel stays stale |
| TrustyIpcChan.ConnectedSince | drivers/trusty/trusty-ipc.c:1790-1827 | over every run a connected channel queued a connect request, was connecting until a status-0 response, and has been connected since with the remote address of that response |
| TrustyIpcChan.ConnectedUntil | drivers/trusty/trusty-ipc.c:1790-1827 | over every run a status-0 response to a connecting channel connects it to the address it gives, until the channel is disconnected, shut down, stale or gone |
| TrustyIpcChan.DataIsAddressed | drivers/trusty/trusty-ipc.c:756-787 | over every run a data message is queued only by a connected channel, from its own address to the remote address its connection was given |
| TrustyIpcChan.DisconnectIsAddressed | drivers/trusty/trusty-ipc.c:876-890 | over every run a disconnect request is queued only by shutting down a connecting or connected channel, with its own address and the remote address of its connection |
| TrustyIpcCalls.Channel.Connect | drivers/trusty/trusty-ipc.c:791-859 | each result has its exact condition on state, service and device; the buffer it takes is in the ring exactly when the request was queued and put back otherwise, even if the device goes offline in between |
| TrustyIpcCalls.Channel.Shutdown | drivers/trusty/trusty-ipc.c:862-904 | likewise; once it had a buffer the channel is stale afterwards whatever the result |
| TrustyIpcCalls.Channel.QueueMsg | drivers/trusty/trusty-ipc.c:756-787 | each result has its exact condition; the caller's buffer moves to the ring exactly when the message was queued and stays with the caller otherwise |
| KeyCombo.StepKeeps | drivers/input/keycombo.c:64-110 | key events, delay expiry and workqueue steps keep the protocol between handler and workqueue |
| KeyCombo.CallbacksAlternate | include/linux/keycombo.h:22-26 | over every run callbacks alternate down, up, each returning before the next starts; the counters are the pressed keys; once released and idle every down has had its up, and once nothing is pending for a held combo its down has started; wake sources are held exactly as long as needed |
| KeyCombo.KeysFollow | drivers/input/keycombo.c:70-84 | over every run the keys recorded as pressed are the tracked keys last reported so |
| KeyCombo.HeldExact | drivers/input/keycombo.c:94-107 | over every run the combo is held exactly when the pressed keys satisfy it and some key has changed since the handler was set up |
| KeyCombo.HoldingQueuesDown | drivers/input/keycombo.c:94-99 | the step that makes the combo held starts the delay of its key-down callback |
| KeyCombo.UpIffDownStarted | drivers/input/keycombo.c:100-107 | ending a held combo queues the key-up work exactly when its key-down had started, and otherwise takes the pending key-down back |
| KeyComboHandler.Setup | drivers/input/keycombo.c:185-200 | the two loops give the specified key sets and target |
| KeyComboHandler.ComboExact | drivers/input/keycombo.c:94 | with distinct, disjoint key lists the combo is satisfied exactly when all keys to press and no key to release are pressed; with any other lists it never is |
| KeyComboHandler.ComboHeld | drivers/input/keycombo.c:64-110 | over every run for two key lists the combo is held exactly when the lists are sensible, of the tracked keys just those to press were last reported as pressed, and some key has changed at all |
| KeyComboHandler.ListedExact | drivers/input/keycombo.c:185-200 | a key is taken from a list exactly when it stands before the first zero and is below KEY_MAX |
| KeyComboHandler.Handler.KeycomboEvent | drivers/input/keycombo.c:64-110 | the handler's fields after an event are those of the event function the protocol is about |

## Where code and comments differ

The model follows the code.

- `drivers/dma/pl330.c:245-251` promises 2.5 MiB per request in 256 bytes of code;
  `Pl330Size.DeviceMegabytes` gives the exact case in which it fails.
- `drivers/trusty/trusty-log.c:396` says reading starts at the oldest line;
  `TrustyLogSink.StartExact` gives the exact condition.
- `drivers/misc/gvotable.c:132-179` names `uint_max` the comparator that elects the
  least unsigned vote; see `GVotableOrder.WinnerByName`.

## Left out

- PL330: pl330_terminate_all (pl330.c:2601-2606), which stops the channel and empties both slots, and pl330_pause (pl330.c:2650-2652), which stops it: the queue's runs have neither, and a request that is stopped half-way has no claimed outcome.
- Pl330Thread.Thread.QueuedRequestRuns: needs the request's code in its half-buffer up to DMAEND; CodeStaysToEnd says exactly which runs of the queue keep it there.
- PL330: cyclic microcode, fault and reset paths, tasklets, descriptor pools and register access.
- PL330: transfers that cross a 4 GiB boundary, since DMAMOV carries 32 bits; a peripheral that grants another request type than the one waited for.
- Pl330Correct.CompilerCorrect: barriers are logged but order nothing and stores complete at once in the interpreter, so memory ordering beyond program order is not modelled, nor is byte swapping. It assumes bursts that fit the channel's MFIFO share, and for memory to memory a destination at or below the source or beyond its end.
- Pl330Memcpy.PrepMemcpy: descriptor allocation and the refusal of zero-length copies before it are not part of it.
- SysMMU: fault handling, device tree and register access, AUX domains (virtual machine ids), more than one group per domain, and two table replacements at once.
- SysmmuCoherence.CachesCoherent: assumes that a TLB entry translates one 4K page, that walks see stores at once, so cache flushes are not modelled, that an unmap of several entries is one step, that runtime PM is not in transition while a device is attached or detached, that range invalidation drops the overlapping second-level bases and the walks in flight over the range, and that the allocator does not hand out a table that is not freed.
- SysmmuSteps.MapIsRun: assumes of the callers that ranges being mapped or unmapped at the same time do not overlap, so no page is unmapped while it is being mapped and no section is mapped over a 64K map in progress.
- SysmmuDomain.Domain.AllocLv2Entry: one call at a time, like every method of the object; calls that race in one section are in SysmmuRace, which keeps of an entry only whether it is in use.
- SysmmuRace.TablesConserved: assumes that calls in progress work on ranges that do not overlap, and that memory is sequentially consistent.
- SysMMU attach failure: on a domain mismatch the failing SysMMU keeps its count, so roll-back is not claimed.
- SysmmuUnmap.UnmapSlptRefines: assumes a fully mapped range, because the driver subtracts entry counts without looking; ClearCounterExact states the exact condition for the counter.
- TrustyLogSink.Sink.Show: one reader at a time; the file reader takes no lock although the line buffer is shared with the kernel log reader, and ReadersExact says exactly which interleavings of readers keep lines whole. The reader is less than 2^32 characters behind.
- TrustyLogReaders.ReadersExact: lines without NUL; a print takes the buffer at one moment.
- TrustyLogSink.Open: assumes put in the same 2^32 block as alloc; StartPastPublished says exactly when a start outside that assumption is past everything published.
- Trusty log: rate limiting is a free choice per line; poll, wake-up and the size parameter are not modelled; the ring size is a power of two, which the driver checks when a reader starts.
- gvotable: locking, forced-result entries beyond their effect on reruns, votes that are copied, debugfs. Votes are the 32 bits the int comparators and getters look at.
- Trusty IPC: shared-memory handles, message contents and receive buffers, waiting for a buffer, teardown of the device, and termination of the loop that marks channels stale when going offline.
- TrustyIpcChan.ReferencesExact: assumes that the creator of a channel makes no call on it after destroying it.
- Key combo: the length of the delay, input handle registration and removal.
- Regulators, PMIC, RTC, power meter, BTS, cpufreq, timers, SPI, logbuffer, trusty-irq: register packing or small invariants that would only add easy members.

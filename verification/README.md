# A verified model of the Apollo driver's shared-state protocols

The Apollo driver shares rings, registers and memory with a device that runs at the same time. This
project models the parts of the driver where that sharing is hardest to get right and proves what
each promises, for every interleaving of host and device; where the code does not keep a promise, it
gives the failing run and the exact condition under which it does:

| file | what it models |
|---|---|
| `indices.dfy` | 32-bit index arithmetic: `& (capacity - 1)` as a remainder, and facts about remainders |
| `ring.dfy` | one DSP ring: driver indices, FPGA registers and the unbounded history both are images of |
| `orphans.dfy` | buffers behind the rings: parking, resync access by access, reclaim, teardown, as one transition system |
| `dma_proof.dfy` | the invariant of that system over every step, and DMA safety over whole runs |
| `resync_safety.dfy` | exactly when a resync is safe, over its accesses and over whole runs, and runs in which it is not |
| `framing.dfy` | headers, DMA references and the check of a firmware blob |
| `ring_driver.dfy` | the driver's ring, parking and send code as methods, each a run of those steps |
| `resync_race.dfy` | the bounded register loop of a resync as a loop, racing the device |
| `bits.dfy`, `mailbox.dfy` | the mixer mailbox: cache, flush, handshake, zero pass, front panel |
| `lanes.dfy`, `unison.dfy`, `restore.dfy` | preamp fields, the Unison journal, and the two-phase restore |
| `layout.dfy`, `dma_geometry.dfy` | channel map, mapped frame copy, page sync, scatter-gather table |
| `period.dfy`, `period_owner.dfy` | period boundaries, and which of two paths wakes a stream |
| `irq_masks.dfy` | cached interrupt masks and the one-shot DSP vectors |
| `bus_coefficients.dfy` | bus coefficient cache, hosting DSP, replay after a program load |
| `options.dfy` | a value that may be absent |

How the model reads:

- A ring keeps `hist`, every entry placed and not withdrawn, and `log`, every entry the device has
  consumed. `writePtr`, `hwPos`, `DOORBELL` and `POSITION` are remainders of counters into them, so
  a statement about counters is a statement across any number of index wraps.
- A resync is five kinds of step (POSITION, DOORBELL, POSITION again, indices, pages) with device steps
  in between. It keeps in step when each DOORBELL write finds the device where POSITION was read.
- `DspHost.Valid()` says that the object is in a state some run of legal steps, every resync in step,
  leads to from the probe state. A method that ensures `Valid()` is therefore covered by the whole-run
  theorem. A method on whose way a resync falls out of step reports it (`lagged`, `Lagged`) and then
  ensures `OnRun()`: a state some run leads to, in step or not. A resync or program is followed to its
  end all the same; a send or load ends there. Each such method says from which rings it cannot happen.
- Between any two register accesses the device may move (`DeviceMoves`, `Meanwhile`). Time-outs,
  failed DMA allocations, answers and full rings are nondeterministic. `short` names the buffers for
  which no list entry can be allocated.
- The mailbox keeps its past states and image writes as ghost history, so that an order between writes,
  consumption and readback can be stated at every exit.
- A 32-bit setting word is the set of its one-bits: `x & ~m | v & m` is `(x - m) + (v * m)`.
- A DMA buffer is its allocation number and a byte offset; its contents are dwords.

What the proofs assume of the hardware:

- POSITION is the consumer index. It stays below the capacity and moves only by consumption towards
  the DOORBELL target, the next counter with the index written there.
- A descriptor the device has read belongs to the place it was read at and is spent when POSITION
  passes that place. It may be read any time after it was rung and used long after.
- A block is answered only after both rings have passed its entries; the driver frees on an answer.
- `dma_quiet` at teardown means that no descriptor can be acted on any more.
- A reference of an old generation never meets its 32-bit generation number again (a run would need
  2^32 abandoning resyncs while it waits). The references the modelled driver code parks never come
  near this: `DspHost.Valid()` keeps every live one in the current generation.
- The mailbox device reads a register's two words once per batch and acknowledges after all of
  them, in any order; at boot its settings agree with the words firmware left.

Findings, where code and comment or expectation part:

- A comment says ADAT channels are hidden from 50001 to 150000 Hz. The unsigned comparison hides
  50001 to 149999 (`Layout.HiddenBand`).
- A resync writes DOORBELL with a POSITION it read earlier. An entry consumed in between, in any pass,
  sends the device a whole ring ahead, over slots whose buffers may be freed; a later pass pulls the
  target back but not what the device has read. `ResyncSafety.ResyncCanFail` and
  `ResyncSafety.ParkedResyncCanFail` are such runs from a probe state; the second is a command that timed
  out, half consumed, and was parked: nothing has been freed when its resync begins.
- Over whole runs a resync is safe exactly when it begins with nothing rung outstanding on its ring
  (`ResyncSafety.SafeIffIdle`), which draining the ring first establishes (`ResyncSafety.DrainedIsIdle`).
  The failing run from any other state is general: the loop falls through, the next command queues two
  entries, the device, sent ahead, reads one, and the command withdraws both and frees its buffer. The
  register accesses alone are harmless under a weaker condition (`ResyncSafety.AccessesSafeIff`). DMA
  safety is proved for runs that keep in step, and `ResyncSafety.SafeWhenIdle` shows that resyncing idle
  rings alone keeps in step.
- The bounded loop of a resync ends with target and position equal under every interleaving exactly
  when it begins on an idle ring; otherwise it can also fall through with the target a ring ahead
  (`ResyncSafety.LoopStopsIffIdle`).
- A bus switch that one DSP accepted and another rejected is lost to the cache: neither a load and its
  replay nor a later request to switch it on reaches that DSP (`BusCoefficients.LostSwitch`,
  `BusCoefficients.StaysLost`); only a request to switch it off does. A switch is where it was last put on
  every DSP as long as no `SetBusEnable` of its bus has ended in an error since the last accepted one that
  was sent, whatever else was rejected (`BusCoefficients.NotLeftOff`, `BusCoefficients.SwitchStands`). A
  replay makes a bus agree exactly if it is known off or no DSP had it off
  (`BusCoefficients.ReplayRestores`).
- A block header tells its length for every accepted size exactly if the command word leaves the low 16
  bits and bit 30 free; the send does not check that (`Framing.HeaderRoundTrip`).
- A front-panel change to a setting the host has never flushed is undone by the next batch, which
  repeats firmware's own words there (`Mailbox.FirmwareReturns`). On flushed settings it survives.
- The period test misses a boundary once a sample advances more than ring minus period frames; the
  bound is exact (`Period.BoundIsExact`).
- Room reserved before a send makes every later put succeed, so the unwind paths behind those puts
  are dead code while the link is up (`RingDriver.DspHost.QueueEntry`). The step exists in the
  transition system all the same.
- The watchdog's branch for an IRQ bit left behind by a stopped stream is dead code under the
  ownership invariant (`PeriodOwner.Tracker.StopIfStale`).

## Model

| member | source | states |
|---|---|---|
| Indices.Masked | driver/ua_dsp.c:130-151 | unsigned 32-bit subtraction followed by `& (capacity - 1)` is the remainder modulo the capacity, for operands of either sign |
| RingModel.Distances | driver/ua_dsp.c:130-151 | the masked differences are the true distances: pending is what is queued beyond the last look, free + pending is always capacity - 1 |
| RingModel.PutKeepsUnconsumed | driver/ua_dsp.c:691-716 | a put never overwrites the slot of an entry the device has yet to consume |
| RingModel.RoomSuffices | driver/ua_dsp.c:163-188 | room for n entries makes the next n puts succeed, in order, without looking at the device again |
| RingModel.RingIsFifo | driver/ua_dsp.c:130-186 | over every run without a resync the device consumes exactly what was rung, in queueing order, whatever it prefetches and however often the indices wrap |
| Orphans.ConsumedTestIsSound | driver/ua_dsp.c:283-302 | a "done" answer is never early: every entry up to the end (or `need` past a resync) has been consumed |
| Orphans.ConsumedTestIsExact | driver/ua_dsp.c:283-302 | the answer is exact while fewer than `capacity` entries were queued since parking (or consumed since the resync); a stale generation never passes |
| DmaProof.AbandonedRef | driver/ua_dsp.c:466-503 | at a resync point a reference is dropped only if spent, converted so that it still covers every fetched descriptor, or left held |
| DmaProof.MayFreeIsClean | driver/ua_dsp.c:2321-2336 | the test a command makes itself (ring drained, same generation) is enough to free its buffer |
| DmaProof.StepKeepsInv | driver/ua_dsp.c:283-584 | every host and device step, register accesses of a resync included, keeps: no reachable descriptor names a freed or unallocated buffer, every buffer has exactly one fate, count and bytes equal the list; a resync's DOORBELL write does if the device still stands where POSITION was read |
| DmaProof.DmaSafety | driver/ua_dsp.c:283-335 | in every state of every run whose resyncs keep in step, no queued, abandoned or prefetched descriptor can make the device touch a freed buffer |
| DmaProof.ReachableIsSafe | driver/ua_dsp.c:353-438 | the same for every state the driver's methods reach, in the form those methods use |
| ResyncSafety.SafeWhenIdle | driver/ua_dsp.c:527-584 | a driver that begins every resync with nothing rung outstanding keeps in step and is safe in every run |
| ResyncSafety.DrainedIsIdle | driver/ua_dsp.c:206-222 | a ring seen drained is idle, and a ring rung in full is idle only then: what a caller can check |
| ResyncSafety.StaysInsideIffIdle | driver/ua_dsp.c:527-556 | no interleaving of a resync sends the device beyond the queue, if and only if it begins on an idle ring |
| ResyncSafety.LoopStopsIffIdle | driver/ua_dsp.c:537-556 | every interleaving of the loop ends with target and position equal, if and only if it begins on an idle ring |
| ResyncSafety.SafeIffIdle | driver/ua_dsp.c:527-584 | of the runs that begin with a resync of a ring and from then on resync only idle rings, all are safe, if and only if that ring is idle when the resync begins |
| ResyncSafety.AccessesSafeIff | driver/ua_dsp.c:527-556 | the register accesses of a resync alone, in every interleaving, are safe if and only if it begins on an idle ring or no slot holds a descriptor of a buffer already freed |
| ResyncSafety.FallsThrough | driver/ua_dsp.c:537-556 | begun on any ring that is not idle, a resync can settle on the index just behind the device, with the target almost a ring ahead |
| ResyncSafety.ResyncCanFail | driver/ua_dsp.c:527-584 | a run from a probe state, with one entry outstanding, in which a resync settles and leaves the device holding a descriptor of a freed buffer |
| ResyncSafety.ParkedResyncCanFail | driver/ua_dsp.c:283-584 | a run from a probe state: a command times out half consumed and is parked; its resync, begun with no freed buffer in any slot, leaves the device holding the parked descriptor, the reference then passes its test, and the buffer is freed |
| ResyncSafety.StepKeepsShape | driver/ua_dsp.c:130-151 | indices stay in range over every step, in step or not, so that no run ends for want of one |
| ResyncRace.Registers.RegsResync | driver/ua_dsp.c:527-556 | the bounded loop: begun with nothing outstanding, the first pass settles and the device stays put; left through the comparison, target and position agree; fallen through, the target is right or a whole ring ahead |
| RingDriver.DspHost.UpdatePosition | driver/ua_dsp.c:136-145 | refreshes the cached consumer index and nothing else, with the device moving |
| RingDriver.DspHost.WaitSpace | driver/ua_dsp.c:163-186 | -E2BIG exactly for n the ring can never hold; success leaves n free slots, time-out fewer |
| RingDriver.DspHost.WaitIdle | driver/ua_dsp.c:206-222 | succeeds exactly when the last look finds nothing pending; every queued entry has then been consumed |
| RingDriver.DspHost.PutEntry | driver/ua_dsp.c:691-716 | appends one entry or, only when the ring is full on a fresh look, nothing |
| RingDriver.DspHost.Doorbell | driver/ua_dsp.c:750-772 | the device's target becomes everything queued |
| RingDriver.DspHost.CheckRef | driver/ua_dsp.c:283-302 | a reference goes exactly when it was gone already or the test passes on the ring just read; one whose ring is done with it, within the exact window, always does |
| RingDriver.DspHost.ReclaimOrphans | driver/ua_dsp.c:314-335 | a pass frees every buffer whose rings are done with it within the exact window and every buffer whose references are all settled, keeps the rest, and never raises count or bytes |
| RingDriver.DspHost.FreeOrphan | driver/ua_dsp.c:304-311 | removes exactly that buffer from the list and its size from the totals |
| RingDriver.DspHost.OrphanDma | driver/ua_dsp.c:353-398 | the buffer leaves the command: given up exactly if no list entry can be had, otherwise parked or already reclaimed |
| RingDriver.DspHost.ListOrphan | driver/ua_dsp.c:374-387 | the new list entry holds index, generation and counter of everything queued so far, and those entries can no longer be withdrawn |
| RingDriver.DspHost.OrphanRoom | driver/ua_dsp.c:445-459 | admits a command exactly while count and bytes are below their caps |
| RingDriver.DspHost.OrphansAbandon | driver/ua_dsp.c:466-503 | settles, converts or holds every reference of the ring and starts one new generation |
| RingDriver.DspHost.RegsResync | driver/ua_dsp.c:527-556 | the bounded loop with the device moving between accesses: in step, the first pass stops the ring where it was found; out of step only if something rung was outstanding, and then the device is told to stop at the index settled on or a whole ring further |
| RingDriver.DspHost.ResyncIndices | driver/ua_dsp.c:564-584 | producer and cached position become the POSITION read; a generation begins only if live entries were queued |
| RingDriver.DspHost.ResyncNow | driver/ua_dsp.c:661-666 | nothing is pending to the driver and every other ring was at most looked at; unless it lags, the ring is empty to the device as well; it never lags from an idle ring |
| RingDriver.DspHost.Program | driver/ua_dsp.c:600-654 | drained or not, in step or not, the ring ends live with every slot zeroed and, to the driver, full room, everything else unchanged; unless it lags it is empty to the device as well; from an idle ring it never lags |
| RingDriver.DspHost.FreeOrphans | driver/ua_dsp.c:410-438 | teardown empties the list; without DMA quiet exactly the unproven buffers are leaked, the others freed |
| RingDriver.DspHost.QueueEntry | driver/ua_dsp.c:2104-2147 | a put into reserved room cannot fail, so the unwind behind it is dead code |
| RingDriver.DspHost.QueueRefs | driver/ua_dsp.c:2131-2147 | the reference loop queues exactly the references of the payload, in order |
| RingDriver.DspHost.PrepareResponse | driver/ua_dsp.c:2019-2025 | no descriptor of an earlier command is left on the response ring; it lags only if one was outstanding |
| RingDriver.DspHost.SendSram | driver/ua_dsp.c:2248-2336 | the pair is queued whole under one doorbell or not at all; on every path the buffer is freed, parked, or given up exactly where no list entry can be had, and the caps hold |
| RingDriver.DspHost.SendRawDma | driver/ua_dsp.c:2350-2419 | the same for a lone reference |
| RingDriver.DspHost.SendBlock | driver/ua_dsp.c:1956-2233 | every exit accounts for three buffers: freed, or on time-out parked, given up exactly where no list entry can be had; the list stays below cap plus one command; a delivered block is on the ring in full, rung, with its response descriptor the only one outstanding; from an idle response ring it never lags |
| RingDriver.DspHost.LoadFirmware | driver/ua_dsp.c:1382-1597 | the same for an image: both rings programmed, header and image referenced in full, nothing else outstanding; from idle rings it never lags |
| RingDriver.DspHost.LoadMixerBlocks | driver/ua_dsp.c:2870-2935 | once the table check has passed no block fails for size, range or capacity, and success puts every block of the table on the ring in order; a blob that fails it changes nothing; from an idle response ring no block lags |
| Framing.RefsCarryWords | driver/ua_dsp.c:1480-1504 | references read back exactly the words they cover, each of at least one and at most the limit |
| Framing.DataRefsStayInPages | driver/ua_dsp.c:2123-2147 | no data reference of a block crosses a 4 KiB page, for every chunk size accepted |
| Framing.ReservedSlotsSuffice | driver/ua_dsp.c:2000-2013 | the slots reserved are the references a block needs; an image needs at most 17 |
| Framing.HeaderRoundTrip | driver/ua_dsp.c:2078-2103 | the payload length is recoverable from the small or large header for every accepted size, if and only if the command word leaves the length field and bit 30 free |
| Framing.HeaderFields | driver/ua_dsp.c:2078-2103 | for such a word the command survives in the other bits, next to a length of one or two words |
| Framing.BlockDelivers | driver/ua_dsp.c:2078-2147 | what the device reads through a block's entries is the header followed by exactly the payload |
| Framing.ImageDelivers | driver/ua_dsp.c:1435-1504 | the same for an image, with no reference above 0xFFFF dwords |
| Framing.MixerFwCheck | driver/ua_dsp.c:2749-2838 | accepts a blob if and only if header and table are sound and every block can be sent |
| Bits.PackingRoundTrip | driver/ua_core.c:1511-1516 | the device reads back out of the two packed words exactly the mask and value packed in |
| Bits.Coalesce | driver/ua_core.c:1443-1446 | two cached writes act like the two writes in order: coalescing loses nothing |
| Mailbox.Refinement | driver/ua_core.c:1424-1535 | after every interleaving of writes, flushes, device and panel, a register will come to hold what "each masked write at once, in call order" gives, and once clean and consumed it does |
| Mailbox.HostWritesInOrder | driver/ua_core.c:1424-1535 | without panel changes the settled device holds exactly every accepted write, applied once, in order |
| Mailbox.UnwrittenBits | driver/ua_core.c:1495-1509 | bits no write names keep the value they had |
| Mailbox.WordsStable | driver/ua_core.c:1474-1477 | no setting word changes while a batch is unconsumed |
| Mailbox.PanelSurvives | driver/ua_core.c:103-115 | a front-panel change to bits nothing is on its way to survives every further flush until host or panel changes them |
| Mailbox.ConsumedIsFree | driver/ua_core.c:103-115 | once a flushed register's batch is consumed and nothing new is cached, its bits are such bits |
| Mailbox.FirmwareReturns | driver/ua_core.c:1495-1510 | in a register the host never flushed, the next batch brings firmware's own words back |
| Mailbox.TwoFlushesSettle | driver/ua_core.c:1494-1530 | after the last write two consumed flushes clear the dirty flag and leave every host-written pair zero |
| Mailbox.Mixer.WriteSetting | driver/ua_core.c:1424-1451 | -EINVAL, -EAGAIN, -EBUSY in that order and then no change; otherwise the masked merge of that one register |
| Mailbox.Mixer.FlushSettings | driver/ua_core.c:1465-1535 | a flush that is not ready, not dirty or not acknowledged changes nothing; any other is the specified step with one SEQ bump |
| Lanes.FieldsApart | driver/ua_core.c:2559-2661 | the fields of different channels or different parameters share no bit, on every model |
| Lanes.LinkApart | driver/ua_core.c:2580-2587 | no other field contains a stereo-link bit |
| Lanes.EncodeRoundTrip | driver/ua_core.c:2588-2661 | a multi-bit field reads back as the low bits of the value written |
| Unison.BatchIsSequence | driver/ua_core.c:2836-2852 | writing the final image once under the union of the masks equals applying the operations one by one, on any copy of the settings |
| Unison.JournalIsFramed | driver/ua_core.c:2836-2850 | a journal leaves every bit outside the owned channels' fields as it was |
| Unison.OthersAreForeign | driver/ua_core.c:2840-2846 | another channel's fields and every link bit are such bits |
| Unison.OwnBitsAreForeign | driver/ua_core.c:2729-2736 | what capturing a channel vetoes contains no bit of another channel's field |
| Unison.Host.CaptureMasks | driver/ua_core.c:2722-2736 | the captured masks hold every field of the owned channels and only their own bits |
| Unison.Host.Patch | driver/ua_core.c:2825-2853 | either every operation takes effect, in image and cache, or nothing changes and the first bad operation decides the error; a good journal on an invalid image or a mailbox not ready gives -EAGAIN |
| Unison.Host.ChangedMasks | driver/ua_core.c:2794-2815 | exactly the owned non-link fields that differ from the cache, whole fields each |
| Unison.Host.Apply | driver/ua_core.c:2817-2822 | the cache agrees with the image on every owned field afterwards, and nothing foreign moved |
| Restore.Restorer.Drain | driver/ua_core.c:2857-2888 | success means that the cache was seen clean and the batch consumed, that a readback came in after that, and that both still hold |
| Restore.Restorer.FirstPhase | driver/ua_core.c:2902-2926 | after the first phase the device itself holds the baseline CUSTOM bits, with nothing on its way to them |
| Restore.Restorer.Restore | driver/ua_core.c:2892-2954 | at every exit: at most two image writes, gains in the second alone, which is made only once the device itself shows the baseline CUSTOM bits, the two covering every changed owned field; success implies a drained mailbox after the second, a readback after that, and its gains equal to the baseline's on every owned channel |
| Layout.RingSize | driver/ua_audio.c:389-408 | the ring is 8192 frames for up to 64 channels, always a power of two, never above half the DMA buffer |
| Layout.HeaderCount | driver/ua_audio.c:979-989 | a header with the right version and length and 1 to 64 slots yields its count, any other none |
| Layout.HiddenBand | driver/ua_audio.c:1235-1242 | which rates hide ADAT channels: 50001 to 149999 Hz |
| Layout.BuildMap | driver/ua_audio.c:1249-1300 | the route list mapped to first slots when any matches, else every slot; slots below the channel count, at least one connected, different IDs never on one slot |
| Layout.DistinctIdsDistinctSlots | driver/ua_audio.c:1265-1299 | distinct route IDs get distinct slots whatever duplicates the descriptor holds |
| Layout.NeverOutOfRange | driver/ua_audio.c:4851-4857 | a map built from a descriptor never hits the copy's range checks |
| Layout.CopyMapped | driver/ua_audio.c:4835-4883 | the range error exactly when a slot or width is out of range, and then no change; otherwise each place of the run, wrap and overrun included, holds the last frame played there and the rest of the ring is untouched, or each user frame the mapped samples |
| Layout.PlayThenCapture | driver/ua_audio.c:4864-4880 | the same for one frame: every connected channel returns, silence elsewhere |
| Layout.PlayThenCaptureRun | driver/ua_audio.c:4835-4883 | a run of up to one ring of frames, played and captured through one map with distinct slots, comes back whole wherever it wraps |
| Layout.UnmappedIsSilent | driver/ua_audio.c:4868-4871 | slots without a channel are silent in a played frame |
| DmaGeometry.SyncFrames | driver/ua_audio.c:590-616 | the pages synced are exactly those holding a byte of a frame of the run, wrap included, all inside the ring |
| DmaGeometry.SyncRange | driver/ua_audio.c:562-584 | the same for one byte range |
| DmaGeometry.ProgramSg | driver/ua_audio.c:762-773 | fills all 1024 entries of the table |
| DmaGeometry.SameAddress | driver/ua_audio.c:725-773 | through the table the device addresses byte b where the kernel's page holds it, for every kernel page size |
| Period.CrossedIsPassed | driver/ua_audio.c:5984-5991 | for advances of at most ring - period the test fires exactly when a period or wrap boundary was passed |
| Period.BoundIsExact | driver/ua_audio.c:5984-5991 | one frame more and a boundary can go unnoticed |
| Period.NoBoundaryMissed | driver/ua_audio.c:5957-5994 | over any run of such samples the wakeups mark exactly the samples that passed a boundary |
| Period.OneWakeupPerBoundary | driver/ua_audio.c:6294-6307 | under the usable conditions one sample per timer interval gives exactly one wakeup per boundary, forever |
| PeriodOwner.Tracker.ExactlyOnePath | driver/ua_apollo.h:1344-1353 | every running stream is served by one path and not the other |
| PeriodOwner.Tracker.TriggerStart | driver/ua_audio.c:6574-6636 | the started stream goes to exactly one path; if to the timer, the timer is on |
| PeriodOwner.Tracker.TriggerStop | driver/ua_audio.c:6638-6664 | the timer stops exactly when no running stream is left on it |
| PeriodOwner.Tracker.PeriodCheck | driver/ua_audio.c:5957-5994 | only the owning path touches a stream: one wakeup if a boundary was crossed, a stop if its transport is gone |
| PeriodOwner.Tracker.TimerTick | driver/ua_audio.c:6013-6080 | a tick gives exactly the timer-served streams that crossed a boundary one wakeup each, leaving IRQ-served ones alone, and moves each live stream's view as specified; without a transport it leaves none running |
| PeriodOwner.Tracker.IrqThread | driver/ua_audio.c:6405-6460 | one wakeup for exactly the IRQ-served streams that crossed a boundary; stale ones stop, off-boundary interrupts end in the fallback; each live stream's view moves as specified |
| PeriodOwner.Tracker.IrqStop | driver/ua_audio.c:6089-6132 | stops exactly the IRQ-served streams that are stale, or all of them on a dead device |
| PeriodOwner.Tracker.Fallback | driver/ua_audio.c:6140-6178 | hands every IRQ-served stream to a running timer and keeps later starts there |
| PeriodOwner.OneWakeupAcrossHandover | driver/ua_audio.c:5957-6178 | over every interleaving of ticks, interrupts and the fallback a running stream gets exactly one wakeup per boundary its samples passed, on either path and across the handover |
| IrqMasks.DspBitsDiffer | driver/ua_dsp.c:4714-4722 | different DSP vectors have different bits of the low register |
| IrqMasks.Interrupts.EnableVector | driver/ua_apollo.h:1781-1805 | sets exactly that vector; cached and hardware masks stay equal |
| IrqMasks.Interrupts.DisableVector | driver/ua_apollo.h:1836-1853 | clears exactly that vector; the masks stay equal |
| IrqMasks.Interrupts.MaskAll | driver/ua_apollo.h:1817-1833 | nothing is enabled, in cache or hardware |
| IrqMasks.Interrupts.TimerRearm | driver/ua_audio.c:6378-6394 | re-enables the timer vector in both masks while a transport with a timer runs |
| IrqMasks.Interrupts.Arm | driver/ua_dsp.c:4734-4777 | enables exactly the selected vectors of DSPs with rings; from here every one-shot vector is enabled or its re-arm owed |
| IrqMasks.Interrupts.Isr | driver/ua_dsp.c:4810-4878 | masks exactly the fired one-shots and owes their re-arm to queued work, or gives everything up on a storm |
| IrqMasks.Interrupts.WorkTake | driver/ua_dsp.c:4916-4930 | owed re-arms move to the running work item, none is lost |
| IrqMasks.Interrupts.WorkRearm | driver/ua_dsp.c:4954-4974 | every one-shot vector it took is enabled again, while the promise stands |
| IrqMasks.Interrupts.Disarm | driver/ua_dsp.c:4780-4798 | masks the DSP vectors and ends the promise |
| BusCoefficients.CellRoundTrip | driver/ua_dsp.c:3712-3715 | bus, parameter and side are recoverable from a cell index |
| BusCoefficients.RunsAgree | driver/ua_dsp.c:3732-4123 | over any sequence of sets, moves, switches, loads and replays in which no ring rejects an entry: once no replay is owed, DSP 0 and each bus's owner hold the last value set of every cell ever set, other cells keep firmware's default, and every switch is where it was last put |
| BusCoefficients.ReplayRestores | driver/ua_dsp.c:3925-3986 | a replay without rejection restores every cell on owner and DSP 0 and switches the known-off buses off everywhere, whatever was missed before; a bus agrees afterwards if and only if it is known off or no DSP had it off |
| BusCoefficients.NotLeftOff | driver/ua_dsp.c:4080-4123 | over any sequence of calls with any rejections: a bus known to be on is on everywhere, if no request for it ended in an error since the last one sent without error |
| BusCoefficients.SwitchStands | driver/ua_dsp.c:3925-4123 | and, once the last load has had a replay without error, its switch is as the cache says on every DSP |
| BusCoefficients.StaysLost | driver/ua_dsp.c:4096-4123 | where a bus known to be on was left off, no call with any outcome changes that but a request to switch it off |
| BusCoefficients.LostSwitch | driver/ua_dsp.c:4096-4123 | a run of calls from the start: a switch one DSP took and another rejected survives load, replay and a later request to switch it on |
| BusCoefficients.SetKeeps | driver/ua_dsp.c:3797-3832 | a new value reaches owner and DSP 0 and leaves every other cell agreeing |
| BusCoefficients.MoveKeeps | driver/ua_dsp.c:3876-3903 | after a move the new owner holds every cached coefficient of the bus, and agreement is kept |
| BusCoefficients.SwitchKeeps | driver/ua_dsp.c:4080-4123 | a switch keeps the agreement of all switches and touches no coefficient |
| BusCoefficients.BusMixer.SetParam | driver/ua_dsp.c:3797-3832 | the value is cached whatever the rings say; accepted, the new state is the specified one, rejected, one the rejection relation allows |
| BusCoefficients.BusMixer.SetOwner | driver/ua_dsp.c:3852-3858 | records the owner of a valid bus and DSP, and nothing else |
| BusCoefficients.BusMixer.MoveBus | driver/ua_dsp.c:3876-3903 | success means that every cached cell of the bus went to the new owner, in order |
| BusCoefficients.BusMixer.LoadProgram | driver/ua_dsp.c:2857-2932 | a load starts DSP 0 from firmware defaults, leaves the others alone, and owes a replay |
| BusCoefficients.BusMixer.ReplayIfPending | driver/ua_dsp.c:4003-4014 | runs once per load; success is the specified replay |
| BusCoefficients.BusMixer.Replay | driver/ua_dsp.c:3925-3986 | success means that the off switches and then every cached cell went out, to the DSPs the source names |
| BusCoefficients.BusMixer.SetBusEnable | driver/ua_dsp.c:4080-4123 | success is a filtered repeat or the command on every DSP with rings, recorded; a rejection anywhere records nothing and leaves each DSP with the command or without; no DSP gets anything else |

## Left out

- Link loss: registers that read all-ones, `-ENODEV` returns and the shutdown flag are excluded, except where `IrqMasks` and `PeriodOwner` name them.
- RegsResync: a POSITION of UA_RING_MAX_SIZE or more, which the source takes as 0, does not occur; the counters it is a remainder of say so.
- PrepareResponse: after a program that fell out of step a send or load ends with the status `Lagged`, in a state a run leads to; the source goes on from there. Its further course is part of the transition system only.
- Ring pages are one sequence of slots; page registers, byte order and the WRITE_PTR copy of DOORBELL are not modelled.
- OrphanDma: parks with the ring's current generation, as every send does; parking under an older generation (the test commands) is a step of the transition system only.
- SendBlock: what the response words say is a nondeterministic outcome; decoding and logging them is left out, as are the fixed delays.
- LoadFirmware: the flags set on success are left out; `BusMixer.LoadProgram` models the replay it owes.
- AwaitAnswer: that an answer implies consumed descriptors is an assumption on the device, visible in its body.
- Refinement: runs with `mixer_mailbox=0`, and the reconnect that withdraws pending settings, are excluded.
- WriteSetting: the plug-in host's veto is a parameter.
- PreampLane: the source compares the channel as a signed number, so channels from 2^31 on would pass; the model compares without the sign. No caller with such a channel is modelled.
- CaptureMasks: the values a capture takes over from the readback are left out, and so are the user-interface copies of gain and CUSTOM.
- Meanwhile: assumes that the plug-in host vetoes foreign writes to the owned fields and that the front panel has no CUSTOM control.
- BuildMap: the list of skipped IDs for the log, the legacy layout without descriptors, and fetching and settling descriptors are left out; the hardware count is the descriptor's, as the diagnostic flags are zero.
- CopyMapped: a frame is one element of the ring and of the stream; faults while copying from or to user memory are left out.
- BufFrames: channel counts for which the quotient is zero, where the source's rounding is undefined, are outside its domain.
- IrqThread: phase statistics and tracing are left out; their verdict is a parameter.
- Isr: counting the vectors, draining the message FIFO and the clock of the storm guard are left out; a storm is a parameter.
- LoadProgram: the plug-in chain, whose activation owes a replay as well, is not part of this model.
- SetParam: the sign convention for solo-muted values is left out; the value is cached and sent as given.
- Plug-in host, strips, captured module data, connect timing, clocking, ALSA controls, proc files, ioctls and power management are not part of this model.

# tinyvmm, verified

tinyvmm is a small virtual machine monitor for the Windows Hypervisor Platform.
This project models the parts of it that decide what a guest, a viewer or a
recording gets to see, and proves what they promise:

- **Display.** A flush draws only the damaged rectangle into a recycled buffer,
  brought up to date from a log of the last few damages; readers hold old
  pictures by reference; the window repaints only what changed, through a
  coalesced message. Whatever happens, the published picture is the whole frame,
  held pictures never change, and no repaint is lost
  (`Areas`, `Pictures`, `Scanout`, `Window`).
- **Recorder.** One video sample per tick of a constant-rate clock, PCM placed on
  a 48 kHz track at the sample, long stalls cut from both tracks
  (`Timeline`, `PcmTrack`, `TrackHistory`, `Recording`, `AudioTrack`, `Encoder`); frames scaled to
  the recording's size (`Fit`) and converted to NV12 by an AVX2 kernel that
  equals the scalar one byte for byte (`Simd`, `Nv12`, `Converter`).
- **Boot.** AML that prints and parses back (`Aml`); sealed and linked ACPI tables
  (`Acpi`, `AcpiTables`, `AcpiReads`); guest memory and its map (`GuestRam`, `E820`); images
  copied by racing threads (`CopyThreads`); a bzImage placed and staged so that a
  kernel following the zero page finds everything (`BzImage`, `BzLoad`); the PVH
  entry note (`ElfNotes`).
- **Save and restore.** The snapshot header's keys never collide, and a restore
  rebuilds the same devices in the same order, each with its own state
  (`Decimal`, `HeaderKeys`, `Snapshot`, `Restore`).
- **Stopping.** The console's shutdown marker (`Sentinel`) and the graceful stop
  (`Stop`).
- **Root file systems.** Flattening an image's layers and packing the result
  (`Layers`, `Packing`).

`Basics` and `Arith` hold shared vocabulary and the little nonlinear arithmetic
the proofs use. `dafny verify dfyconfig.toml` checks everything.

How to read the model:

- State that tinyvmm updates in place is a class (`Scanout`, `AudioTrack`,
  `Encoder`, `GuestMemory`, `CopyJob`, `Observer`, `Tree`) proved against
  functions on values; what is promised is then proved of those functions, for
  every sequence of operations.
- Threads are step machines. `Window` and `Stop` are relations or functions on
  states, proved over every run; `CopyThreads` lets a scheduler pick any thread
  at each step.
- `Instant` is a number of nanoseconds (milliseconds in `Stop`), the MP4 writer an
  append-only log that may fail, `Arc` holders a count per buffer, a draw callback
  the whole picture it would draw, the snapshot header a map from text to text.
- Integers are unbounded except where width is the point: bytes, the 16- and
  32-bit lanes of the converter, `as u32` in the zero page and in restored
  settings, the 16-bit device index, the wrapping last byte of a MAC.

Where the code and its comments disagree, the code is modelled:

- `AudioTrack::cut` says that the wall position where the recording resumes, less
  the new shift, is the track frame where it was cut (`src/record.rs:879-881`).
  The three floor divisions can leave it one frame off:
  `Encoder.CutLandingIsNotAlwaysExact` gives an input, and `Encoder.CutLanding`
  says exactly when they agree.
- `run_restore` describes the device order without the sound and GPU devices
  (`src/main.rs:3427-3429`); the code adds both, as `run_pvh_run` does.
- The note in `run_pvh_run` that saving with a GPU is refused
  (`src/main.rs:2327-2328`) has no such check behind it: GPU state is saved and
  restored.

## Model

| member | source | states |
|---|---|---|
| `Areas.Union` | src/scanout.rs:36-46 | The union is the least area that holds both: an area holds it exactly when it holds each of them |
| `Areas.RowBytes` | src/scanout.rs:188-203 | The bytes of one row of an area, at the offset `copy_area` uses, are exactly those the area holds in that row |
| `Areas.WholeRowsBytes` | src/scanout.rs:188-203 | For an area as wide as the frame, the single run of bytes copied is exactly what the area holds |
| `Pictures.OverlayFull` | src/scanout.rs:100-103 | Drawing the whole frame leaves nothing of what was there before |
| `Pictures.ReplayIsWholeFrame` | src/scanout.rs:83-159 | If each flush damages at least what changed, then after any run of flushes, of any sizes, the picture is the last frame in full |
| `Pictures.RedrawShowsFrame` | src/scanout.rs:100-103 | One flush of an honest damage, or of another size, shows the whole new frame |
| `Scanout.NextLogOlder` | src/scanout.rs:83-148 | Appending to the log and forgetting its oldest entry leaves the area reported since any older picture the union of what it was with the new damage, or unknown |
| `Scanout.NextLogNewest` | src/scanout.rs:83-148 | Since the picture just replaced, exactly the new damage |
| `Scanout.FlushKeepsTrack` | src/scanout.rs:118-159 | A spare that agreed with the front outside the logged area still does after the next flush is logged |
| `Scanout.CopyArea` | src/scanout.rs:188-203 | Copies exactly the bytes of the area, whole rows at once or row by row |
| `Scanout.Scanout.NewestFree` | src/scanout.rs:107-117 | Picks the newest spare no reader holds, if any |
| `Scanout.Scanout.TakeBack` | src/scanout.rs:107-117 | Recycles that spare or makes a blank buffer; the buffer drawn on is never the front and never held |
| `Scanout.Scanout.CatchUp` | src/scanout.rs:118-134 | Brings the recycled buffer to the front's picture, by what changed since it was shown or whole |
| `Scanout.Scanout.Publish` | src/scanout.rs:135-159 | The new picture becomes the front, the old one a spare, the log and the window's dirty area follow, at most two spares stay |
| `Scanout.Scanout.Flush` | src/scanout.rs:104-159 | Whatever spare was drawn on and whatever the log forgot, the picture published is the overlay on the previous one, and frames readers hold are untouched |
| `Scanout.Scanout.Latest` | src/scanout.rs:162-164 | The front, held by one more reader |
| `Scanout.Scanout.NewerThan` | src/scanout.rs:167-170 | A picture only if its number is greater than the one the reader had, so numbers read this way strictly increase |
| `Scanout.Scanout.WindowUpdate` | src/scanout.rs:175-184 | Takes the dirty area once; a picture of another size is all dirty and sets the size |
| `Scanout.ServeAll` | src/scanout.rs:83-184 | Over every sequence of flushes, looks, takes and drops: the front is the replay of the flushes, and each held picture is still the one that was taken |
| `Window.InitHolds` | src/display.rs:223-237 | A new window starts with everything invalid and nothing lost |
| `Window.FlushKeeps` | src/display.rs:223-237 | A flush at any point leaves each pixel right or due for repainting |
| `Window.SignalKeeps` | src/display.rs:223-237 | Swapping the flag, posting, dispatching and clearing keep the invariant: the flag is set exactly while one update is being posted, queued or dispatched |
| `Window.LookKeeps` | src/display.rs:401-432 | Taking the dirty area after clearing the flag loses nothing |
| `Window.PaintKeeps` | src/display.rs:437-493 | Painting from a picture fetched mid-paint leaves each pixel right or due again |
| `Window.NextKeeps` | src/display.rs:401-493 | Every step of every thread keeps the invariant |
| `Window.RunKeeps` | src/display.rs:223-237 | So every reachable state has it: each pixel equals the latest picture or is dirty, invalid or being painted, and a dirty area has an update coming |
| `Window.QuietShowsLatest` | src/display.rs:401-493 | With nothing left to do, the window shows the latest picture |
| `Window.QuietShowsBytes` | src/display.rs:437-493 | And every byte of every pixel in it is the picture's own, at its place |
| `Window.QuietStartsBlack` | src/display.rs:437-493 | Before the first picture it is black |
| `Window.NeverStuck` | src/display.rs:401-493 | While something is owed, some step is possible |
| `Window.InternalRunsEnd` | src/display.rs:401-493 | Without new flushes or exposures the steps run out, in a bounded number |
| `Timeline.AudioEndsWithVideo` | src/record.rs:365-377 | Audio that ends by the frame where the video ends also ends by its timestamp, through all three roundings |
| `Timeline.TicksAdvance` | src/record.rs:447-450 | Ticks are due at strictly increasing times |
| `Timeline.DueIsNotBehind` | src/record.rs:447-456 | A tick seen when it is due is not behind |
| `Timeline.TickShowing` | src/record.rs:453-456 | The tick showing at an instant is due by then, and the next one not before |
| `Timeline.BacklogTicks` | src/record.rs:447-478 | At most 2 * fps ticks fall due within the backlog the encoder catches up |
| `Timeline.DueFrames` | src/record.rs:356-377 | 48 kHz frames at a tick's due time are its frames, or one fewer |
| `Timeline.FramesDifference` | src/record.rs:356-362 | The difference of two floors is the floor of the difference, plus one exactly when the remainders cross |
| `Timeline.WholeSeconds` | src/record.rs:356-377 | Every second has fps ticks, 48,000 frames and 10,000,000 timestamp units, at any rate |
| `PcmTrack.PlaceShape` | src/record.rs:848-862 | Placing only appends: silence up to the position, then what is neither late nor over the cap; what came first stays |
| `PcmTrack.PlaceCounts` | src/record.rs:848-862 | Placed, late and overflowed frames add up to those given, and nothing else changes |
| `PcmTrack.AddKeeps` | src/record.rs:836-862 | A chunk lands at its wall position less the shift, sample by sample, or is counted |
| `PcmTrack.AddPlaces` | src/record.rs:836-862 | A frame past the floor, not late and under the cap is on the track at its wall position less the shift |
| `PcmTrack.AddDrops` | src/record.rs:836-862 | Any other frame, from before the floor, late or over the cap, is nowhere on it |
| `PcmTrack.AddAllKeeps` | src/record.rs:815-862 | So does any sequence of chunks: exact, balanced and within the staging cap |
| `PcmTrack.TruncateKeeps` | src/record.rs:874-878 | Truncating drops staged frames past the point, counted as cut, never committed ones |
| `PcmTrack.CommitKeeps` | src/record.rs:891-909 | A commit alters nothing already on the track and loses nothing |
| `PcmTrack.CommitReaches` | src/record.rs:891-909 | It ends exactly at the limit if the padded track reaches it, else at the track's end |
| `TrackHistory.PlayKeeps` | src/record.rs:460-519 | For every possible history of ticks, stalls and takes: the track is exact and balanced, holds or has counted just the chunks taken, in order, and its shift is the time cut |
| `TrackHistory.PlayKeepsTime` | src/record.rs:447-519 | The base, the next tick and the floor of every history are those the times of its ticks make, each past the backlog cut |
| `TrackHistory.CutKeeps` | src/record.rs:504-519 | A cut puts what was queued on the track at the old shift, drops what lies past it, and leaves every frame accounted for |
| `TrackHistory.CommittedStays` | src/record.rs:891-909 | Frames committed at any time are still there, unaltered, at every later one |
| `TrackHistory.AddAllPlaces` | src/record.rs:815-862 | Of several chunks, each frame that has a place when its chunk's turn comes gets it and keeps it |
| `TrackHistory.HeardIsRecorded` | src/record.rs:460-535 | A frame that has a place when its tick takes it, before the end and never cut, is in the recording at that place |
| `TrackHistory.LastIsRecorded` | src/record.rs:528-534 | So is one taken at the end |
| `TrackHistory.PaddingStaysBehind` | src/record.rs:493-501 | A tick adds only silence beyond its PCM, exactly as far as the video goes but never into the lag behind now |
| `Recording.StreamsAreContiguous` | src/record.rs:365-399 | From the log alone: each stream starts at 0 and each sample starts where its stream ended, and audio never ends after the video |
| `AudioTrack.Shared.QueuePcm` | src/record.rs:152-162 | Every call is queued in order with its wall position and samples, or turned away and counted, exactly when the queue would overflow |
| `AudioTrack.OfferedIsSplit` | src/record.rs:152-162 | Frames offered are the frames turned away plus the frames of the chunks queued |
| `AudioTrack.QueuedIsAccepted` | src/record.rs:152-162 | Each queued chunk is its call's own bytes, four to a frame, at the call's wall position |
| `AudioTrack.AudioTrack.PadTo` | src/record.rs:865-871 | The staged bytes are those of the value model's padding |
| `AudioTrack.AudioTrack.Place` | src/record.rs:848-862 | Byte slicing in the buffer is placement of samples on the track |
| `AudioTrack.AudioTrack.Add` | src/record.rs:836-845 | Drops what lies before the floor, then places |
| `AudioTrack.AudioTrack.Take` | src/record.rs:815-832 | Every queued chunk, in order, with its own samples, goes onto the track; what the track has heard is exactly what the tap queued so far |
| `AudioTrack.AudioTrack.Truncate` | src/record.rs:874-878 | Keeps exactly the staged frames before the point |
| `AudioTrack.AudioTrack.Cut` | src/record.rs:882-886 | Truncates, then moves floor and shift |
| `AudioTrack.AudioTrack.Commit` | src/record.rs:891-909 | Terminates in capped pieces; what the writer has is what the track committed, on time, even when the writer fails half way |
| `Encoder.CutLanding` | src/record.rs:504-519 | After a cut, PCM lands within one frame of where the video resumes, and exactly there if and only if the rounding remainders say so |
| `Encoder.CutLandingIsNotAlwaysExact` | src/record.rs:460-519 | The first cut of a 30 fps recording, at 3.000020833 s after tick 0: the video resumes at frame 1600, the PCM of that instant lands at 1599 |
| `Encoder.PaddingLag` | src/record.rs:493-501 | Padding stops at most a tick, the lag and a frame behind the video |
| `Encoder.Encoder.Cut` | src/record.rs:504-519 | The new state is `AfterCut` of the old with whatever was queued: the base moves by the time cut, the next tick is due now and not behind, no audio stays past the cut |
| `Encoder.Encoder.Hear` | src/record.rs:152-162 | The tap may be called at any moment between the encoder's steps |
| `Encoder.Encoder.BehindMeans` | src/record.rs:453-475 | A tick is behind exactly when the period after its own has begun |
| `Encoder.Encoder.SendTick` | src/record.rs:460-491 | The sample tiles the timeline: it starts where the last ended, one nominal period long |
| `Encoder.Encoder.TickVideo` | src/record.rs:460-491 | A new picture only when on time, else the previous one again; pictures never go back |
| `Encoder.Encoder.CommitAudio` | src/record.rs:493-501 | The new state is `AfterCommit` of the old with whatever was queued; audio trails the video by at most a tick, the lag and a frame, and never runs past it |
| `Encoder.Encoder.TickOnce` | src/record.rs:460-501 | One tick is `AfterTick` of the state before, with the tap called before the cut and between cut and take |
| `Encoder.Encoder.Tick` | src/record.rs:460-501 | A stall past the backlog is cut, a shorter one caught up; clock and track stay exactly what the history makes them, and the track has heard just what the tap queued |
| `Encoder.Encoder.TickThrough` | src/record.rs:524-527 | Writes every tick due by the stop, as reading the clock there again and again would, at most 2 * fps + 1 of them, and ends with the next one due later |
| `Encoder.Encoder.EndAudio` | src/record.rs:528-534 | What was queued last is taken, then the audio ends exactly where the video ends |
| `Encoder.Encoder.Finish` | src/record.rs:524-535 | Terminates within 2 * fps + 1 ticks, the next tick due after the stop, the audio exactly as long as the video and what the history and the last calls make it |
| `Encoder.Encoder.EveryFrameCounted` | src/record.rs:836-909 | Each frame the tap was called with was turned away, is queued, is on the track, late, over the cap or cut: once |
| `Encoder.Encoder.WrittenIsExact` | src/record.rs:815-909 | Each frame recorded is silence, or four bytes of a call of the tap, not from before the floor, whose wall position less the shift of the era it was taken in is its index |
| `Encoder.Encoder.HeardIsWritten` | src/record.rs:524-535 | A frame that has a place when it is taken, before the end and never cut, is in the written audio |
| `Encoder.Encoder.OverflowReported` | src/record.rs:538-556 | The report's subtraction does not underflow |
| `Encoder.RunRounds` | src/record.rs:564-587 | Ticks are written at exactly the clock readings that find one due |
| `Encoder.Encode` | src/record.rs:561-595 | A whole recording, for any clock readings and any calls of the tap, during stalls, cuts and the end too: ticks at the readings that found one due and then at the stop; every recorded frame silence or the tap's own at the place its era gives it, and every frame that has a lasting place recorded; if it ends well, both streams are equally long |
| `Fit.LargestBox` | src/record.rs:766-772 | No box of the frame's shape inside the canvas is larger; one side touches; borders differ by a pixel at most |
| `Fit.ShapeKept` | src/record.rs:766-771 | The shape is off by less than one source row or column |
| `Fit.NearestMeans` | src/record.rs:773-778 | A column of the box shows the source column it starts in |
| `Fit.SameSizeIsCopied` | src/record.rs:763-782 | A frame of the canvas's size is copied as it is |
| `Fit.Scale` | src/record.rs:763-782 | Every pixel of the box is the nearest source pixel, every other is black |
| `Nv12.LumaIsBt709` | src/record.rs:641-646 | The integer luma is BT.709 limited range within rounding |
| `Nv12.ChromaIsBt709` | src/record.rs:665-668 | So is the chroma of a 2x2 block |
| `Nv12.LumaLane` | src/record.rs:696-706 | The vector luma of a lane is the scalar luma of its pixel, so no 16- or 32-bit wrap-around ever shows |
| `Nv12.ChromaLanes` | src/record.rs:707-717 | Each pair of lanes holds the scalar Cb and Cr of its block |
| `Nv12.StoreInOrder` | src/record.rs:718-724 | Packing and permuting put the bytes back in order |
| `Converter.ScalarRows` | src/record.rs:640-671 | The scalar loop writes the formula's bytes from its first column on, and no others |
| `Converter.Avx2Rows` | src/record.rs:682-751 | Vector blocks and scalar tail together write the formula's byte everywhere |
| `Converter.BlocksAndTail` | src/record.rs:748-750 | Each byte is reached by the blocks or by the tail, never both |
| `Converter.BgraToNv12` | src/record.rs:626-636 | Both paths write the same bytes |
| `Converter.LumaPlane` | src/record.rs:640-671 | The luma plane has each pixel's luma, row by row |
| `Converter.ChromaPlane` | src/record.rs:640-671 | After it each 2x2 block has its Cb and then its Cr, row by row |
| `Aml.PkgLengthCountsItself` | src/boot/acpi.rs:305-316 | The package length read back is the body's plus its own; `PkgWidth` shows it is the shortest that fits |
| `Aml.PkgWidth` | src/boot/acpi.rs:305-316 | The fewest bytes that can hold a length counting themselves |
| `Aml.ValueReadsBack` | src/boot/acpi.rs:322-355 | Integers, strings, packages and buffers parse back, whatever follows |
| `Aml.TermReadsBack` | src/boot/acpi.rs:332-364 | So do names, scopes and devices, to any depth |
| `Aml.TermsReadBack` | src/boot/acpi.rs:305-364 | Parsing what any printable tree prints gives the tree |
| `Aml.TermsPrintBack` | src/boot/acpi.rs:305-364 | Whatever parses is exactly what its tree prints |
| `Aml.IntegerBytes` | src/boot/acpi.rs:322-330 | The standard's prefixes and byte order of constants |
| `Aml.PkgLengthBytes` | src/boot/acpi.rs:305-316 | The standard's lead bytes of package lengths |
| `Aml.ValueBytes` | src/boot/acpi.rs:337-355 | The standard's operators of strings, packages and buffers |
| `Aml.TermBytes` | src/boot/acpi.rs:332-364 | And of names, scopes and devices |
| `Acpi.Checksum` | src/boot/acpi.rs:60-66 | The complement of the byte sum |
| `Acpi.SealSums` | src/boot/acpi.rs:109-111 | Putting it in a zero byte makes the sum zero |
| `Acpi.PutAll` | src/boot/acpi.rs:68-107 | Every field written reads back, and no byte outside the fields changes |
| `Acpi.DsdtPrints` | src/boot/acpi.rs:240-300 | The definition block fits its place and parses to the intended devices |
| `AcpiTables.WriteTable` | src/boot/acpi.rs:90-111 | A table holds its header and fields, zero elsewhere, sums to zero, and nothing outside it changes |
| `AcpiTables.WriteRsdp` | src/boot/acpi.rs:203-213 | Both RSDP sums are zero at once |
| `AcpiTables.Build` | src/boot/acpi.rs:116-215 | For every base, vCPU count and VMBus setting, all tables are in the final buffer, sealed and linked |
| `AcpiTables.TablesLink` | src/boot/acpi.rs:36-41 | Following addresses from the RSDP reaches the XSDT, MADT, FADT, FACS and DSDT inside the buffer, by signature and length |
| `AcpiReads.MadtIsComplete` | src/boot/acpi.rs:122-143 | The MADT lists x2APIC IDs 0 up to the vCPU count, enabled, and no more |
| `AcpiReads.DsdtDeclares` | src/boot/acpi.rs:240-290 | The DSDT in the buffer declares sleep type 5, the PCI host bridge with its window, and VMBus exactly when asked for |
| `AcpiReads.FadtSays` | src/boot/acpi.rs:165-188 | PM1a blocks, SCI, flags and the reset register read as the power device has them |
| `AcpiReads.RsdpSays` | src/boot/acpi.rs:203-213 | The RSDP's signature, revision, length and XSDT address |
| `AcpiReads.TablesSay` | src/boot/acpi.rs:116-150 | For every vCPU count asked for, at least one and at most 32 are listed |
| `GuestRam.RangeIsMapped` | crates/whpsys/src/memory.rs:352-379 | A range translates exactly when every byte of it is mapped and it stays in one region; with a hole, or one region, the first is enough |
| `GuestRam.LowRange` | crates/whpsys/src/memory.rs:352-379 | Below the PCI window a range is RAM exactly when it ends by the top of the first region |
| `GuestRam.HighRange` | crates/whpsys/src/memory.rs:369-378 | RAM beyond the first region is at 4 GiB, right after it in host memory |
| `GuestRam.NoAliases` | crates/whpsys/src/memory.rs:352-379 | Different guest bytes have different host bytes |
| `GuestRam.GuestMemory.WriteAt` | crates/whpsys/src/memory.rs:398-409 | Writes the whole range or nothing |
| `CopyThreads.CopyJob.Step` | src/boot/loader.rs:103-115 | Any action of any thread keeps each chunk with one thread and each byte written at most once, and makes progress |
| `CopyThreads.CopyJob.Claim` | src/boot/loader.rs:104-113 | A claim is exclusive, and its bounds check never fails |
| `CopyThreads.AllExited` | src/boot/loader.rs:98-121 | When all threads have exited, each byte was written once, the range is the image, and nothing else changed |
| `CopyThreads.CopyToGuest` | src/boot/loader.rs:87-122 | In every interleaving it ends, with the image in place, or refuses a range that is not RAM and changes nothing |
| `ElfNotes.NoteReadsBack` | src/boot/loader.rs:125-142 | A note laid out with its padding reads back, whatever follows |
| `ElfNotes.EntryFound` | src/boot/loader.rs:125-156 | The entry point is that of the first Xen entry note, whatever comes before, and none if there is none |
| `ElfNotes.XenNote` | src/boot/loader.rs:125-156 | The entry note in plain bytes, of either address size, gives the low 32 bits |
| `ElfNotes.OtherNotes` | src/boot/loader.rs:125-156 | Notes of another type, name or size are passed over |
| `ElfNotes.FindPvhNote` | src/boot/loader.rs:125-156 | The loop over offsets finds just that |
| `E820.SizesAddUp` | src/boot/loader.rs:397-421 | The entries add up to the RAM size if and only if RAM reaches 1 MiB |
| `E820.SortedAndClear` | src/boot/loader.rs:397-421 | Sorted, apart, not empty, clear of the PCI window, at most five |
| `E820.MapIsExact` | src/boot/loader.rs:397-421 | From 1 MiB of RAM on, an address is listed as RAM exactly when it is mapped, not set aside and not allocation surplus past the RAM size (of which whole granules have none), as reserved exactly when it is set aside |
| `BzImage.ParseHeader` | src/boot/bzimage.rs:117-155 | Accepted exactly when it is a bzImage with a kernel, protocol 2.10 and loaded high; sizes stay inside the image |
| `BzImage.HeaderReadsBack` | src/boot/bzimage.rs:117-155 | An image with given values at the boot protocol's offsets is accepted exactly when it should be, and parses to those values |
| `BzImage.PlaceSays` | src/boot/bzimage.rs:168-212 | Every placement and every refusal, in plain numbers |
| `BzImage.PlaceInitramfs` | src/boot/bzimage.rs:193-212 | Page aligned, above the kernel's work area, below the limit |
| `BzImage.HighestPlace` | src/boot/bzimage.rs:193-212 | Refused only if no page-aligned place would do, and placed at the highest |
| `BzImage.PlacedApart` | src/boot/bzimage.rs:158-220 | Work area, initramfs and boot data are pairwise disjoint; the first two in e820 RAM, the last in reserved memory |
| `BzLoad.ZeroPage` | src/boot/bzimage.rs:222-246 | The loader's fields over the image's header, zero elsewhere |
| `BzLoad.MapReadsBack` | src/boot/bzimage.rs:234-245 | The kernel reads the memory map it was given |
| `BzLoad.PointersReadBack` | src/boot/bzimage.rs:224-233 | The kernel reads its address, the initramfs, the command line and the RSDP, with nothing cut off |
| `BzLoad.CopyImages` | src/boot/bzimage.rs:167-213 | Kernel and initramfs end up where placed, or the right error, out-of-range writes included, with only the kernel written, and only if it was |
| `BzLoad.EnoughMemory` | src/boot/bzimage.rs:158-213 | Memory of the size it is told never makes a write fail |
| `BzLoad.Load` | src/boot/bzimage.rs:158-256 | For memory of any size: every error in its order and what it leaves behind, and on success everything staged and nothing else changed |
| `BzLoad.KernelFinds` | src/boot/bzimage.rs:214-246 | Following the zero page at the protocol's offsets finds kernel, initramfs, NUL-ended command line, RSDP and memory map, byte for byte, and the GDT's flat segments |
| `Decimal.Ipv4RoundTrip` | src/main.rs:2795-2805 | Addresses read back |
| `Decimal.PortFwdRoundTrip` | src/main.rs:2779-2818 | Port forwards read back |
| `Decimal.PortFwdText` | src/main.rs:2779-2793 | The text of a port forward |
| `HeaderKeys.KeysDiffer` | src/main.rs:3055-3125 | No two of the header's keys have the same text, so no entry overwrites another |
| `HeaderKeys.KeyTexts` | src/main.rs:3055-3125 | The text of keys of each family |
| `Snapshot.BackendRoundTrip` | src/main.rs:101-123 | Backend names read back |
| `Snapshot.MacRoundTrip` | src/main.rs:2984-2994 | A MAC folded into a number reads back |
| `Snapshot.WriteHeader` | src/main.rs:3055-3125 | Under each key its own entry, and no other keys |
| `Restore.BuildDevices` | src/main.rs:2048-2377 | The devices of a run, in bus order |
| `Restore.BusOrder` | src/main.rs:2048-2377 | What is at each place on the bus, and how many devices there are |
| `Restore.OnlyWhatIsAsked` | src/main.rs:2048-2377 | Each optional device is there exactly when the configuration has it |
| `Restore.MacsDiffer` | src/main.rs:2822-2831 | MACs share a prefix and are equal exactly when their indices agree modulo 256 |
| `Restore.RestoreDevices` | src/main.rs:3427-3803 | Succeeds exactly when every drive and share can be used, and then has the same order |
| `Restore.MachineRestores` | src/main.rs:3325-3360 | vCPUs, RAM, page size, enlightenments and VMBus come back, or are refused on a host without VMBus |
| `Restore.NicRestores` | src/main.rs:2961-3014 | A NIC comes back with its MAC and, field by field, all that its backend uses |
| `Restore.DriveRestores` | src/main.rs:3591-3650 | A drive is restored exactly when its read-only state and its file's size allow, never as another kind |
| `Restore.ShareRestores` | src/main.rs:3702-3724 | A share comes back as it was |
| `Restore.SaveThenRestore` | src/main.rs:3055-3987 | For every valid configuration: the same machine, the same device set up the same at each index, and each device given its own state, exactly up to 65536 devices |
| `Restore.ApplySections` | src/main.rs:3980-3987 | Each section goes to the device its index names; an index out of range is refused |
| `Restore.OwnStates` | src/main.rs:3185-3190 | Sections captured in order give each device its own state, exactly as long as 16 bits tell them apart |
| `Sentinel.TailSuffices` | src/main.rs:2497-2517 | A marker-length tail is all that finding the marker later takes |
| `Sentinel.Observer.Observe` | src/main.rs:2503-2516 | Fires exactly when the whole stream first holds the marker; memory stays bounded |
| `Sentinel.ObserveAll` | src/main.rs:4091-4110 | However the stream is cut: once, at the completing chunk, or never |
| `Stop.RunKeeps` | src/stop.rs:95-163 | Every interleaving of requests, immediate quits, the graceful thread and teardown keeps the lock exclusive and the slot empty after a disarm |
| `Stop.StopsAreSafe` | src/stop.rs:95-163 | At most one graceful thread, and no `stop_all` after a disarm has returned |
| `Stop.NoneRunsAtDisarm` | src/stop.rs:95-105 | Nor is one still running then |
| `Stop.NeverStuck` | src/stop.rs:95-163 | While a thread is not done, one can go on |
| `Stop.GoMakesProgress` | src/stop.rs:108-163 | Each step leaves less to do, so the threads end |
| `Stop.EveryThreadServed` | src/stop.rs:95-163 | Every thread that is done saw the VM stopping, started the graceful thread, ran `stop_all` or found the slot emptied |
| `Stop.LogTellsTruth` | src/stop.rs:112-163 | A thread that ended because it saw the VM stopping, or after `stop_all`, leaves it stopping |
| `Stop.RequestsStop` | src/stop.rs:107-163 | In every run with a request or a quit and no teardown, once all threads are done the VM is stopping |
| `Stop.TearDownDisarms` | src/stop.rs:95-98 | After teardown began the slot is empty, or a disarm is still on its way |
| `Stop.RequestsDoNotWait` | src/stop.rs:116-129 | At most one thread ever waits for the guest, so asking again stops at once |
| `Stop.WaitForDisks` | src/stop.rs:187-213 | Ends at the first sample after a quiet second, or at 15 s, within 300 polls |
| `Layers.WhiteoutNames` | tinyinit/fetch-rootfs.py:138-142 | `dir/.wh.name` takes away `dir/name` |
| `Layers.OpaqueErases` | tinyinit/fetch-rootfs.py:133-137 | An opaque marker takes away what is below its directory, and everything at the root |
| `Layers.WhiteoutErases` | tinyinit/fetch-rootfs.py:138-142 | A whiteout takes away what it names and everything below, and nothing else |
| `Layers.MergedExactly` | tinyinit/fetch-rootfs.py:127-177 | A path remains exactly when it survives or the layer has the last word on it, and holds what it should |
| `Layers.SurvivesMeans` | tinyinit/fetch-rootfs.py:127-177 | Survival spelled out on names: no whiteout of the path or above it, no opaque marker above, nothing put in its place |
| `Layers.MergedByKind` | tinyinit/fetch-rootfs.py:143-177 | What each kind of member leaves at its path: a file its content, a link its target, a directory a directory, a hard link the file its target was then, traced to where that came from |
| `Layers.OrderDoesNotMatter` | tinyinit/fetch-rootfs.py:127-177 | Layers with the same markers, wherever they sit, and the same other members in order give the same tree |
| `Layers.Tree.MergeLayer` | tinyinit/fetch-rootfs.py:127-177 | The two loops over the dictionary compute that merge, and fail exactly when it does |
| `Packing.GroupFiles` | tinyinit/fetch-rootfs.py:195-206 | Files in order, each group within the target or a single file, and none that could have taken the next file |
| `Packing.SelectIsFilter` | tinyinit/fetch-rootfs.py:194-206 | Directories and links, and files, are each just those, in path order |
| `Packing.BeforeMeans` | tinyinit/fetch-rootfs.py:194-194 | Path order: a path before its extensions, else the first difference decides |
| `Packing.PackFragments` | tinyinit/fetch-rootfs.py:189-210 | Path order, directories and links first, and all entries together exactly once |
| `Packing.EachOnce` | tinyinit/fetch-rootfs.py:194-194 | Sorted names are distinct, so each entry is in one fragment, once |

## Left out

- Win32, WHP, Media Foundation and GDI calls: abstracted as the message queue, the writer's log and the clock above; a window whose posts fail or that closes is not modelled.
- Virtio queues, NAT, 9p, ext4, ISO 9660, VMBus, the GPU's command set: not part of this model, but for what a flush is called with.
- The snapshot file's sections, CRC, JSON escaping and vCPU state: the header is a map from text to text, a device's state one opaque value.
- PVH segment placement and the ELF program headers: the loader does not check segments against the low boot area, so layout is proved for bzImage only.
- `setup_entry` and `print_info`: register constants and diagnostics.
- Integer widths beyond those named above: 64-bit sums of file-supplied addresses, nanosecond counters and frame counters are mathematical integers.
- BzLoad.Load: guest memory is allocated as `new_split` does, in one region or two around the PCI window. The e820 limit of 128 entries is shown never to be met, so its error is not modelled.
- Acpi.PutAll: writes a list of fields where the source writes them one statement at a time; the fields and their bytes are those of the source.
- CopyThreads.CopyJob.Step: a chunk's bytes are stored in ascending order, one per step.
- Restore.BuildDevices: the host files of a fresh run are taken to have opened; doorbells, PCI classes and vector counts are not part of a device.
- Restore.SaveThenRestore: the host still has the drives' files, and VMBus if the guest uses it; what restore does otherwise is `DriveRestores` and `MachineRestores`. A share's host path is text, so what `to_string_lossy` would lose is not modelled.
- Layers.Tree.MergeLayer: paths are in the form `relative_path` returns; how symlinks are rewritten and links outside the tree are recognised is a parameter; the dictionary after an exception is not described.
- Encoder.Encode: waiting for the next tick, waking and finalizing the file are not modelled; what a picture looks like is `Converter` and `Fit`.
- Packing.PackFragments: fragments are lists of names; tar serialization and the end-of-archive blocks are not modelled.
- Stop.RequestsStop: starting the graceful thread is taken to succeed.
- Stop.StopsAreSafe: the guest's answer to a shutdown request and the SysRq path only decide when the graceful thread gives up; console events reach `start` as any request does.
- Fit.Scale: a pixel is one value of four bytes, so the canvas is indexed by pixels.
- Command-line parsing, downloads, the boot timer, self-tests and the guest's init script: plumbing with nothing hard to prove.

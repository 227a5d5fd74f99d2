# Hatari in Dafny

A Dafny 4.11 model of the state machines at the core of the Hatari emulator, with proofs
of what they are for. `dafny verify dfyconfig.toml` checks the whole project.

| files | what they model | main results |
|---|---|---|
| `BlitterOps` `BlitterCore` `BlitterSharing` `BlitterWord` `BlitterSpec` `BlitterLoop` `BlitterBits` `BlitterPixels` `BlitterEngine` | the blitter, `src/blitter.c` | a blit suspended after any bus access and resumed ends like one that is not; every blit computes the two nested loops of its specification, and draws its pixels bit by bit |
| `CycInt` `CycRuns` `CycTimes` | the event list, `src/cycInt.c` | the doubly linked list in a fixed array refines a map; what no operation touches keeps its order; interrupts happen at their cycle; periodic timers do not drift |
| `AciaChip` `AciaLink` `AciaFrame` `AciaEngine` | the MC6850 serial chip, `src/acia.c` | what goes in at TDR comes out at RDR over whole runs; loss is exact and reported; states and IRQ stay consistent |
| `ConvGen` `ConvLine` | bitplanes to pixels, `src/conv_gen.c` | the swizzle network is the transposition; whole lines with fine scroll and sample-and-hold |
| `DmaSound` `DmaResample` `DmaHeard` `DmaEngine` | STE DMA sound, `src/dmaSnd.c` | the FIFO refines the stream of latched frames; the resampler has no cumulative error and plays that stream |
| `CommandLine` `CommandLineEngine` `ControlLine` `OptionBatch` `CString` | options over the control socket, `src/change.c`, `src/control.c`, `src/str.c`, `python-ui/hatari.py` | which arguments survive quoting, sending and in-place parsing, exactly |
| `AviIndex` `AviSizes` `AviEngine` | AVI recording, `src/avi_record.c` | every index entry leads to its frame and every size spans its chunk, exactly when 32 bits can hold them |
| `Floppy` `FloppyEngine` `Bytes` | floppy images, `src/floppy.c`, `src/createBlankImage.c` | addressing is a bijection, and writes are local and stay inside, exactly when they can |
| `ClocksTimings` | clock conversion, `src/clocks_timings.c` | no cycle is lost, however the input is split, exactly when 64 bits hold every call |
| `FilePath` `FilePathRoom` `FilePathEngine` | absolute file names, `src/file.c` | the scan over characters resolves components, cleans, and is idempotent; when its buffer is large enough, exactly |

How the parts are built:

- What the source computes by changing state is a class (`Blitter`, `Scheduler`, `Chip6850`,
  `Converter`, `DmaChip`, `Updates`, `Recorder`, `Drive`, `Cycles`) or a method on an array,
  with loops where the source has them. Each method is proved equal to a function of the state before it; the theorems are
  about those functions and about runs of them.
- Registers that belong together are records held in one field. Words are `bv16` and `bv32`
  inside one-field datatypes; counters that the source stores in 8, 16, 32 or 64 bits wrap
  explicitly where they can reach the limit.
- Memory is a map; an address that is not in it is a bus error region, which reads as zero
  and ignores writes (`src/stMemory.c:724-769`).
- Input from outside is a parameter: clocks, the level of a pin, memory and frame registers at
  the time of a sound operation, the working directory, whether a file exists.

Where code, comments and expectations differ, the model follows the code:

- NFSR (`src/blitter.c:719-724,738-743`): the shift without a fetch happens for the last word
  of every line with NFSR set, not only for lines of one word. The newer half of that word's
  window is then whatever is on the bus. The specification of a blit covers all these words
  exactly, lines of one word included.
- Even parity (`src/acia.c:1089-1097`): the test meant for odd parity also runs for even
  parity, so a correct even parity bit sets PE. `AciaFrame.ParityErrorsIffEven` states exactly
  which formats are free of parity errors.
- Time units (`src/includes/cycInt.h:45-66`): the conversion macros shift by 8; the factors
  9600 and 31333 in the comment at `src/cycInt.c:24-45` are of an older scheme.
- Trimming (`src/control.c:356-363`, `src/str.c:28-58`): `Str_Trim` runs before the tokenizer
  and takes away the trailing space of a last argument, which the quoting meant to protect.
  `ControlLine.WhatArrives` has the exact condition.
- A backslash at the end of an argument swallows the space behind it, so the argument joins
  with the next one; as the last argument it survives.
- `src/change.c:631` moves the rest of a string with `memcpy` although the regions overlap; the
  model takes this as `memmove`.
- The frame counter of the sound DMA (`src/dmaSnd.c:361`) is 32 bits wide and wraps there, not
  at the 24 bits of the comment at `src/dmaSnd.c:336-340`.
- The geometry of a floppy image is read again at every access (`src/floppy.c:886,968`), so a
  write of the boot sector can move all other sectors. `Floppy.WriteThenRead` states exactly
  when a write stays local.
- The bytes of a track are kept in 16 bits (`src/floppy.c:875,932`): with 128 sectors a track or
  more, which only a guess from the size of a large image can give, sectors share offsets
  (`Floppy.SectorsAreApart`, `Floppy.WritesAreLocal`). The guess can also be zero sectors for a
  small image with a bad boot sector, by which the source then divides. `Floppy.GuessedSectors`
  states for which images either happens.
- Track numbers have 16 bits (`src/floppy.c:886,952`), so a very large image can have tracks that
  no call reaches (`Floppy.EveryBlockHasAPlace`, `Floppy.ManyTracks`). Nothing tests whether
  several sectors run over the end of the image: `Floppy.SectorsStayInside` states when they do
  not, `Floppy.TrackRunsOver` that they can.
- The scan of a file name stops at the end of its buffer and then writes a NUL behind it
  (`src/file.c:880,938`). `FilePathEngine.ScanInto` states exactly for which names.
- Clock conversion multiplies in 64 bits without a test (`src/clocks_timings.c:569-570`):
  `ClocksTimings.CyclesAreConserved` states exactly when that loses cycles.
- A last frame without its partner is in an AVI file but in no index
  (`src/avi_record.c:606-615`).
- AVI frames of about 2 GB, which a C int allows, overflow the 32 bits of sizes and positions
  (`AviSizes.LongFramesOverflow`, `AviSizes.LongFramesAreLost`). Frames up to 400 MB never do;
  `AviSizes.SizesSpanIff` and `AviIndex.EntriesResolveIff` have the exact conditions for all.
- A trailing backslash joins the lines of a batch of options; `OptionBatch.BatchMeansSame` states
  exactly when a batch means what its lines mean.

## Model

| member | source | states |
|---|---|---|
| BlitterOps.ShiftInsert | src/blitter.c:489-510 | shifting the 32-bit source buffer and inserting a word leaves exactly the last two words fetched, in memory order for either direction of the source |
| BlitterOps.LopIsTruthTable | src/blitter.c:570-655 | logic operation n is, for all words, the four-row truth table that the bits of the number n spell out |
| BlitterOps.HopIsConjunction | src/blitter.c:533-551 | a halftone operation is the conjunction of the halftone word and the source, each asked for by one bit of its number |
| BlitterOps.NeedsAreExact | src/blitter.c:653-672 | the columns of the LOP table ask for exactly the operands that an operation depends on |
| BlitterOps.NeededSrc | src/blitter.c:553-568 | a source window that the HOP and LOP tables ask for does matter for some halftone words |
| BlitterOps.UnneededDst | src/blitter.c:653-672 | a destination word that the LOP table does not ask for never changes the result |
| BlitterOps.UnneededSrc | src/blitter.c:553-568 | a source window that the HOP and LOP tables do not ask for never changes the result |
| BlitterOps.FullMask | src/blitter.c:726-736 | a full end mask makes the masked write a plain one, so the read that it saves cannot matter |
| BlitterBits.SourceWindow | src/blitter.c:512-515 | the window is one word of the two source words side by side, skew bits from the right; the word fetched first is on the left, or on the right when the source runs backwards |
| BlitterPixels.FormulaInPixels | src/blitter.c:533-551 | bit by bit: outside the end mask of its place in the line the old bit stays; inside it the bit is what the number of the logic operation answers for the old bit and the source bit, halftone bit or both |
| BlitterCore.Progress | src/blitter.c:682-744 | every bus access of a blit brings it nearer to its end, whatever the registers hold |
| BlitterSharing.PassIsPrefix | src/blitter.c:463-480 | one pass of n accesses either finishes the blit exactly as hog mode does, or makes exactly n accesses and stops where hog mode would still reach the same end |
| BlitterSharing.SuspensionIsTransparent | src/blitter.c:463-480 | for every register setup and every sequence of quotas of at least 1: the passes finish the blit exactly when their sum covers its accesses, and then memory, addresses, shift buffer, halftone line, latches and the order of all accesses are those of one hog pass; before that, exactly the sum of the quotas was made |
| BlitterWord.ProcessIsRunWord | src/blitter.c:682-744 | the order of FXSR fetch, source fetch, destination read and write in the word routine, with its resume flags, is the sequence of single accesses of the core |
| BlitterWord.HogIsWords | src/blitter.c:777-857 | a hog pass is the same as processing whole words until no line is left |
| BlitterSpec.WindowIsRight | src/blitter.c:489-515 | when a word is computed the shift buffer holds the two adjacent source words under its window, for FXSR, NFSR and both directions |
| BlitterSpec.BlitMeetsSpecification | src/blitter.c:682-853 | when source and destination do not overlap and destination addresses are distinct, every word (x,y) ends as the masked LOP of HOP of the skewed window and the old destination, and all other memory is unchanged |
| BlitterSpec.SharedBlitMeetsSpecification | src/blitter.c:871-911 | the same for a blit that shares the bus, in however many passes, once the quotas cover the accesses its registers call for |
| BlitterLoop.BlitIsNestedLoops | src/blitter.c:682-853 | for every register setup, overlapping or not, a blit leaves the memory of the two nested loops that apply the same formula to memory as it is at each word |
| BlitterLoop.SharedBlitIsNestedLoops | src/blitter.c:871-911 | the same for a blit that shares the bus, in however many passes, once the quotas cover its accesses |
| BlitterPixels.BlitDrawsPixels | src/blitter.c:682-911 | in hog mode and in passes alike, every bit of every destination word ends as that formula says |
| BlitterPixels.LoopPixels | src/blitter.c:682-853 | the same for each step of the nested loops of blits that overlap; no other word changes in that step |
| BlitterSpec.BlitFootprint | src/blitter.c:777-857 | for every setup, overlapping or not: every blit ends, with reloaded counters, source and destination addresses moved by one pitch per line, and a closed form for the number of accesses |
| BlitterSpec.LineAccessesClosed | src/blitter.c:682-744 | the accesses of one line in closed form from X count, FXSR, NFSR, the masks and the operations |
| BlitterSpec.WritesAreWordsLeft | src/blitter.c:849-857 | from any point of a blit on, exactly (y-1)*x_reset + x words are written |
| BlitterEngine.Blitter.BusReadWord | src/blitter.c:430-442 | a read of the blitter: the word at the address, logged and counted |
| BlitterEngine.Blitter.BusWriteWord | src/blitter.c:444-452 | a write of the blitter: only that word of memory changes, logged and counted |
| BlitterEngine.Blitter.SourceFetch | src/blitter.c:497-510 | the fetched word, or the word still on the bus under NFSR, becomes the newer half of the buffer |
| BlitterEngine.Blitter.FxsrPhase | src/blitter.c:688-696 | the extra fetch of a line, once; it suspends only when the quota is used up |
| BlitterEngine.Blitter.SrcPhase | src/blitter.c:698-709 | the source fetch of a word, once across suspensions |
| BlitterEngine.Blitter.DstPhase | src/blitter.c:711-717 | the destination read of a word, once across suspensions |
| BlitterEngine.Blitter.ProcessWord | src/blitter.c:682-744 | the whole word routine equals the specification on values, including where it is suspended |
| BlitterEngine.Blitter.FlushWordState | src/blitter.c:760-770 | the flags of a word are cleared, those of FXSR only at the end of a line |
| BlitterEngine.Blitter.Step | src/blitter.c:777-857 | one word with the counters, address increments, halftone line and end masks |
| BlitterEngine.Blitter.Start | src/blitter.c:871-911 | one start or resumption is one pass of the core: unlimited in hog mode, otherwise 64 accesses, or 63 after the bus count error, with the control register afterwards |
| BlitterEngine.Blitter.RunTransferLoop | src/blitter.c:884-903 | the do-while loop stops exactly when the blit or the quota is finished |
| BlitterEngine.Blitter.WordsPerLineWriteWord | src/blitter.c:1338-1351 | a word count of zero stands for 65536 |
| BlitterEngine.Blitter.LinesPerBitblockWriteWord | src/blitter.c:1356-1368 | a line count of zero stands for 65536 |
| BlitterEngine.Blitter.ControlWriteByte | src/blitter.c:1393-1484 | the control register with bit 4 cleared, and with busy and hog cleared when the blit is complete; a write that sets busy starts a stopped blit with clean latches and resumes a suspended one where it was, in its phase |
| CycInt.InsertIsValid | src/cycInt.c:265-304 | a new entry keeps the list sorted, complete and ending in the sentinel, and adds exactly its due time to the pending map |
| CycInt.RemoveIsValid | src/cycInt.c:434-462 | a removal keeps the list sorted and complete and takes exactly one id out of the pending map |
| CycInt.Scheduler.constructor | src/cycInt.c:149-174 | after a reset only the sentinel is in the list |
| CycInt.Scheduler.FindPlace | src/cycInt.c:281-289 | the search ends, at the first entry that is not due earlier, with the right predecessor |
| CycInt.Scheduler.InsertInt | src/cycInt.c:265-304 | the links in the array thread the sorted list with the new entry, backwards and forwards, and the cached head is its first entry |
| CycInt.Scheduler.RemovePendingInterrupt | src/cycInt.c:434-462 | the links thread the list without the entry; an inactive id is left alone |
| CycInt.Scheduler.AcknowledgeInterrupt | src/cycInt.c:323-332 | the head leaves the list and the cached time is that of the next entry |
| CycInt.Scheduler.AddAbsoluteInterrupt | src/cycInt.c:347-358 | the id is due at the converted time plus the lateness of the current dispatch, once in the list |
| CycInt.Scheduler.AddRelativeInterruptWithOffset | src/cycInt.c:385-397 | the id is due at the converted time plus the offset from now, once in the list |
| CycInt.Scheduler.ModifyInterrupt | src/cycInt.c:412-421 | the due time moves by the converted amount and the entry to its new place |
| CycInt.Scheduler.CallActiveHandler | src/cycInt.c:531-551 | the head is dispatched with its lateness as a C int |
| CycInt.Scheduler.DispatchAndRearmAbsolute | src/cycInt.c:347-358 | a dispatch with acknowledgement and absolute re-arm changes the due time of one id only |
| CycInt.Scheduler.DispatchAcia | src/acia.c:472-515 | the bit clock of the serial line re-arms itself with its lateness as offset |
| CycRuns.StepRefinesMap | src/cycInt.c:265-462 | adding, removing and acknowledging on the list are the same operations on a map from ids to due times, where acknowledging takes out a minimum |
| CycRuns.HeadIsMinimum | src/cycInt.c:323-332 | the head is the sentinel exactly when nothing is pending and otherwise has a minimal due time |
| CycRuns.RunRefinesMap | src/cycInt.c:265-462 | every run of operations on the list is a run on the map |
| CycRuns.StepKeepsOrder | src/cycInt.c:265-462 | an operation leaves the relative order of all entries that it neither names nor takes from the head, equal due times included |
| CycRuns.UntouchedKeepTheirOrder | src/cycInt.c:265-462 | after any run of adding, modifying, removing and acknowledging, the entries that no operation touched are in the relative order that they had |
| CycInt.RearmedIsExact | src/cycInt.c:531-551 | a re-armed timer is due exactly one period after it was due, if and only if the lateness fits the C int that carries it |
| CycTimes.ArmedForCycles | src/cycInt.c:385-397 | an interrupt armed for n CPU cycles, once at the head, is reached n cycles after the clock at which it was armed and not before, and is dispatched then with no lateness |
| CycTimes.CpuCyclesFromNow | src/includes/cycInt.h:55-60 | n CPU cycles are n times 256 internal units |
| CycTimes.Cpu8CyclesFromNow | src/includes/cycInt.h:55-60 | cycles of 8 MHz are one, two or four CPU cycles each |
| CycTimes.MfpCyclesFromNow | src/includes/cycInt.h:55-60 | MFP timer cycles are the internal units of that time, rounded down, as long as nothing overflows |
| CycTimes.ReachedAt | src/includes/cycInt.h:85-89 | a due time at a whole cycle is reached exactly from that cycle on, and each cycle of lateness counts 256 |
| CycRuns.PeriodicTimersDoNotDrift | src/cycInt.c:347-358 | while any other interrupts are armed, cancelled and dispatched, and for every sequence of latenesses of its own dispatches, the k-th due time of a periodic timer is first + k * period |
| AciaChip.UpdateIrq | src/acia.c:715-748 | bit 7 of SR becomes its formula; the line changes only with it |
| AciaChip.IrqCauses | src/acia.c:715-730 | the four causes of an interrupt, each on its own |
| AciaChip.StatusShown | src/acia.c:757-776 | a read of SR samples CTS, which hides TDRE while it is high, shows all other flags, and is remembered |
| AciaChip.FormatInBits | src/acia.c:198-207 | bit 4 of CR means eight data bits; selects 4 and 5 no parity, otherwise bit 2 odd parity; selects 0, 1 and 4 two stop bits |
| AciaChip.ReachableStates | src/acia.c:272-291 | from power-on with CTS and DCD low every operation keeps the size and stop-bit bounds of each state and SR bit 7 equal to its formula, and from the first master reset on the IRQ line is low exactly when bit 7 is set |
| AciaChip.OpKeepsBounds | src/acia.c:954-1144 | idle means no data bits left, data 1 to 8, stop 1 or 2 stop bits, for both halves |
| AciaChip.OpKeepsIrq | src/acia.c:669-905 | every operation keeps SR bit 7 and the IRQ line consistent |
| AciaChip.OpResets | src/acia.c:669-705 | only a control write with divide 3 ends the time before the first master reset |
| AciaLink.LastBit | src/acia.c:1060-1086 | after the last data bit the receive register holds the byte, or a seven-bit word left-aligned, since the last bit is not shifted |
| AciaLink.ClockDataBit | src/acia.c:954-1086 | one data bit moves from the transmit to the receive register and both parities agree |
| AciaLink.ClockParityBit | src/acia.c:1000-1097 | a correct parity bit leaves PE alone in odd formats and sets it in even ones |
| AciaLink.ClockStopBit | src/acia.c:1010-1137 | the last stop bit ends the frame: RDR takes the byte only if it is free, otherwise the overrun is remembered |
| AciaLink.ReadReportsOverrun | src/acia.c:856-881 | a read of RDR returns the byte and clears RDRF and PE; OVRN appears exactly for a remembered overrun or one not seen through SR |
| AciaLink.RunIsGood | src/acia.c:893-1144 | transmitter and receiver stay in step over every run of writes, reads and bit clocks |
| AciaLink.SerialRoundTrip | src/acia.c:893-1144 | for every run in which TDR is written when TDRE is set: bytes arrive bit for bit and in order, seven-bit words left-aligned, at most two are under way, no framing error ever, no parity error in no-parity and odd formats; the bytes read are a subsequence of the arrived ones, and nothing is lost exactly if no frame ends while RDRF is set |
| AciaLink.LossIsReported | src/acia.c:856-881 | in every reachable state a read of RDR shows OVRN exactly if a frame was dropped since the read before, or if an earlier report was not yet seen through SR |
| AciaLink.OnlyReadsChangeOvrn | src/acia.c:1125-1137 | the overrun itself does not set OVRN; only a read of RDR does |
| AciaLink.TimelyMeansNoDrop | src/acia.c:1109-1137 | no byte is dropped exactly if no frame ends while RDRF is set |
| AciaFrame.FrameTakesItsBits | src/acia.c:954-1144 | a byte in TDR of an idle transmitter arrives after exactly start, data, parity and stop bits many clocks, whatever the program does meanwhile |
| AciaFrame.LengthInBits | src/acia.c:198-207 | the number of those clocks from the bits of CR |
| AciaFrame.LineCarriesFrame | src/acia.c:954-1027 | during the frame the TX line is low for the start bit, then carries the data bits from the lowest up, a parity bit that makes the number of set bits even or odd, and is high for the stop bits |
| AciaFrame.FrameFillsRdr | src/acia.c:1109-1125 | the clock that ends the frame sets RDRF and puts the byte into RDR unless an unread one is there |
| AciaFrame.ParityErrorsIffEven | src/acia.c:1089-1097 | no run sees a parity error if and only if the format is not an even one: the second test also catches correct even parity |
| AciaEngine.Chip6850.constructor | src/acia.c:272-291 | the power-on state |
| AciaEngine.Chip6850.UpdateIrqLine | src/acia.c:715-748 | SR bit 7 and the line are updated as specified |
| AciaEngine.Chip6850.ResetChip | src/acia.c:669-705 | the state after a master reset, and RTS high at the first one |
| AciaEngine.Chip6850.WriteControl | src/acia.c:785-842 | control register, reset, interrupt enable, break, RTS and the restart of the bit clock |
| AciaEngine.Chip6850.ReadStatus | src/acia.c:757-776 | CTS is sampled and hides TDRE in the flags read |
| AciaEngine.Chip6850.ReadData | src/acia.c:856-881 | RDR with the clearing and setting of RDRF, PE, OVRN and DCD |
| AciaEngine.Chip6850.WriteData | src/acia.c:893-905 | TDR is full until a bit clock takes it |
| AciaEngine.Chip6850.PrepareTransmission | src/acia.c:913-927 | a frame is loaded in the format of the control register |
| AciaEngine.Chip6850.PrepareReception | src/acia.c:933-944 | a frame is expected in the format of the control register |
| AciaEngine.Chip6850.ClockTransmitter | src/acia.c:954-1027 | the next state and the level of the TX line |
| AciaEngine.Chip6850.ClockReceiver | src/acia.c:1038-1144 | the next state for the level of the RX line |
| AciaEngine.Chip6850.BitClock | src/acia.c:497-515 | both halves of the bit clock with the TX line wired to RX |
| ConvGen.NetworkTransposes | src/conv_gen.c:118-205 | on hosts of either byte order the byte drawn for pixel i has as bit k bit 15-i of plane k |
| ConvLine.LoadPlanes | src/conv_gen.c:122-150 | for 1, 2, 4 and 8 planes what is loaded are the planes with the missing ones zero |
| ConvLine.ColumnPixels | src/conv_gen.c:118-205 | the sixteen bytes of a column are its sixteen planar pixels |
| ConvLine.HeldIsLastNonZero | src/conv_gen.c:102-111 | the sample-and-hold register is the last colour number other than zero before the pixel, if there is one |
| ConvLine.ShownPixel | src/conv_gen.c:102-111 | a pixel shows its own number, or with samples held the last one other than zero up to it |
| ConvLine.Converter.IndexToColour | src/conv_gen.c:102-111 | the colour of a pixel and the held number |
| ConvLine.Converter.Swizzle | src/conv_gen.c:118-178 | the reassigned locals end as the swizzle network of the loaded planes |
| ConvLine.Converter.BitplaneToChunky | src/conv_gen.c:118-205 | sixteen pixels are stored in order and nothing else changes |
| ConvLine.Converter.LineTo32bpp | src/conv_gen.c:208-242 | a line of width vw and scroll s stores 16*max(1,ceil(vw/16)) pixels; pixel j is planar pixel j+s, or in sample-and-hold mode the last non-zero number up to it, dropped pixels included |
| DmaSound.AddressBytes | src/dmaSnd.c:463-464 | the three bytes of a frame register are the digits of the address, which is even |
| DmaSound.FrameRegisters | src/dmaSnd.c:461-466 | start and end of a frame are the bytes of their own registers |
| DmaSound.ReadIsSigned | src/dmaSnd.c:355-356 | a byte is read as a signed number, and as zero from a bus error region |
| DmaSound.ControlMeans | src/dmaSnd.c:787-818 | what each bit of the control register does to a sound that plays and to one that does not, empty frames included |
| DmaSound.FrameEnds | src/dmaSnd.c:497-515 | at its end a frame repeats from the registers exactly if the loop bit is set |
| DmaSound.RefillKeeps | src/dmaSnd.c:342-368 | a refill ends with at most one byte missing or with the sound stopped, and only adds words |
| DmaSound.PullTakesNext | src/dmaSnd.c:387-409 | a pull takes the first byte not yet taken; it is silent exactly when the FIFO is empty and the sound off |
| DmaSound.StereoStaysPaired | src/dmaSnd.c:637-674 | in stereo the left byte is at an even address and the right one follows it, or both are silent |
| DmaSound.SetStereoKeeps | src/dmaSnd.c:419-438 | a switch to stereo drops exactly the one byte that mono left of a word, or none |
| DmaSound.WriteControlKeeps | src/dmaSnd.c:787-818 | starting and stopping keep the stream and XSINT |
| DmaSound.FifoRefinesStream | src/dmaSnd.c:342-515 | in every run, with memory and registers changing at will, the bytes fetched are the latched frames one after the other in address order, each exactly up to its end unless stopped by the program; the FIFO holds the rest of that stream; XSINT is high exactly while playing |
| DmaSound.TakenInOrder | src/dmaSnd.c:342-438 | no byte is lost, repeated or reordered between memory and what leaves the FIFO |
| DmaSound.FetchesReadMemory | src/dmaSnd.c:355-356 | however memory changes over a run, every byte of the stream is the byte that memory had at its address at the event that fetched it |
| DmaResample.NoCumulativeError | src/dmaSnd.c:585-674 | after n output samples exactly floor((acc + n*ratio) / 2^32) samples were taken, plus the first one, and the fraction is kept |
| DmaResample.CloseToExact | src/dmaSnd.c:585-587 | that number is within 1 + n/2^32 of the exact rational |
| DmaResample.RatesHalve | src/dmaSnd.c:215-218 | the four rates are 50066 Hz divided by 8, 4, 2 and 1, rounded |
| DmaHeard.HeardIsStream | src/dmaSnd.c:585-674 | output i plays sample number floor((acc + i*ratio) / 2^32) of the stream of fetched bytes, counted from the first one that had not left the FIFO: in stereo a byte on the left and the next one on the right, in mono one byte on both sides, and silence behind the end of the stream |
| DmaHeard.GeneratedIsStream | src/dmaSnd.c:538-678 | the same for any call, the one that finds nothing to play included; in stereo the left byte is at an even address and the right one behind it |
| DmaEngine.DmaChip.LatchFrame | src/dmaSnd.c:461-480 | start, end and counter are latched; an empty frame that does not repeat stops the sound |
| DmaEngine.DmaChip.EndOfFrameReached | src/dmaSnd.c:497-515 | a new frame in loop mode, otherwise the end |
| DmaEngine.DmaChip.RefillFifo | src/dmaSnd.c:342-368 | the ring buffer after a refill is the queue after a refill |
| DmaEngine.DmaChip.PullByte | src/dmaSnd.c:387-409 | the byte at the read position is the head of the queue |
| DmaEngine.DmaChip.SwitchToStereo | src/dmaSnd.c:419-438 | an odd position always means a byte to drop |
| DmaEngine.DmaChip.WriteControlWord | src/dmaSnd.c:787-818 | starting and stopping, with the accumulator reset |
| DmaEngine.DmaChip.WriteModeByte | src/dmaSnd.c:1001-1028 | the existing mode bits, realigned when mono ends |
| DmaEngine.DmaChip.GenerateSamples | src/dmaSnd.c:538-678 | the samples heard and the state after any number of them |
| CommandLine.ScanQuoted | python-ui/hatari.py:16-18 | a quoted argument is scanned as one argument with its own characters |
| CommandLine.TokensOfTwo | src/change.c:612-636 | two lines joined by a space mean the arguments of both if and only if the first does not end in a backslash |
| CommandLine.QuoteThenTokenize | src/change.c:577-645 | quoting, joining and taking apart gives the arguments back if and only if none is empty, their only white space is plain spaces, and none but the last ends in a backslash |
| CommandLine.QuotableMeans | python-ui/hatari.py:16-18 | the white space that quoting does not protect is tab, newline, carriage return, vertical tab and form feed |
| ControlLine.WhatArrives | src/control.c:349-363 | the same through the control socket, which cuts at the newline and trims: then the last argument must not end in a space either, and these conditions are exact |
| ControlLine.StrTrim | src/str.c:28-58 | the string in the buffer is trimmed at both ends |
| CommandLineEngine.CountArgs | src/change.c:583-597 | the counting pass counts the arguments of the parsing pass |
| CommandLineEngine.ParseArgs | src/change.c:612-645 | the in-place pass leaves argv pointing at the arguments as C strings, within the size allocated for it |
| CommandLineEngine.ApplyCommandline | src/change.c:577-645 | both passes together; without arguments nothing is done |
| CommandLineEngine.MoveBack | src/change.c:630-632 | a backslash is removed by moving the rest of the string |
| OptionBatch.BatchMeansSame | python-ui/hatari.py:360-366 | a batch sent as one line means what its lines mean one by one if and only if no line but the last ends in a backslash |
| OptionBatch.RequestMeans | python-ui/hatari.py:341-350 | the line for an option has the option's arguments followed by the path itself, by "none", or by nothing; only an option with a missing file has no line |
| OptionBatch.Updates.ChangeOption | python-ui/hatari.py:341-354 | such a line is sent at once, or held back under the lock; a missing file skips it |
| OptionBatch.Updates.FlushUpdates | python-ui/hatari.py:360-366 | a flush sends what was held back as one line, after which the arguments sent are those of everything asked for if and only if no batch had a line that swallowed the space behind it |
| FilePath.ScanResolves | src/file.c:879-935 | scanning characters behind a rendered directory is resolving components on a stack |
| FilePath.AbsoluteIsResolved | src/file.c:844-942 | an absolute path becomes its component-stack resolution: from the root, without dot components, no longer than before, and unchanged by a second application |
| FilePath.RelativeIsInCwd | src/file.c:866-877 | a relative path is resolved from the working directory, with or without a separator at its end, as if it followed it |
| FilePathEngine.MakeAbsoluteName | src/file.c:844-942 | the buffer ends up holding the absolute name, if that fits |
| FilePathEngine.ScanInto | src/file.c:854-938 | the scan reaches the end of its buffer, behind which the source then writes a NUL, if and only if some leading part of the path has an absolute name of FILENAME_MAX characters or more; otherwise it leaves the absolute name |
| FilePathRoom.RoomIsPrefixes | src/file.c:880-935 | what is written stays short all through the scan if and only if the absolute names of all leading parts of the path are short |
| FilePathEngine.ShortNamesFit | src/file.c:880-935 | a name that is short before it is cleaned fits |
| FilePathEngine.NextPart | src/file.c:880-935 | one turn of the loop handles one part of the path |
| FilePathEngine.GoUp | src/file.c:899-911 | two dots cut the output at the separator before, or leave the root |
| FilePathEngine.CopyPart | src/file.c:928-934 | a part is copied with its separator, as far as the buffer has room |
| AviIndex.EntriesResolveIff | src/avi_record.c:583-735 | for any recording whose frames come in pairs, of any lengths, up to the 256 movi chunks that the super index has entries for: a super index entry leads to an index chunk of the size, duration and number of entries it states, and every entry of that (base plus offset) to the data of the right frame, if and only if the frames of the chunk begin within 4 GB and its audio and index take less; every frame is in the file behind a header with its size, and the chunks cover exactly the complete pairs |
| AviSizes.EveryEntryResolves | src/avi_record.c:583-735 | in every such recording of frames up to 400 MB, every entry of both super indexes resolves |
| AviIndex.SuperIndexLasts | src/avi_record.c:614-615 | a file has less than one movi chunk for every GB, so the 256 entries of the super index last for 256 GB |
| AviSizes.SizesSpan | src/avi_record.c:752-825 | in every recording of frames up to 400 MB, up to 256 movi chunks, the chunks follow each other without a gap and every back-patched LIST and RIFF size is the distance to the end of its chunk |
| AviSizes.SizesSpanIff | src/avi_record.c:752-825 | in every recording of up to 256 movi chunks, the stored sizes of a chunk are those distances if and only if its headers, frames and indexes, added up, take less than 4 GB |
| AviSizes.LongFramesOverflow | src/avi_record.c:760-800 | two frames as long as a C int allows leave a LIST size that is 4 GB short |
| AviSizes.LongFramesAreLost | src/avi_record.c:583-600 | behind two such frames an index entry leads 4 GB before its frame |
| AviIndex.RecordKeeps | src/avi_record.c:583-618 | every frame recorded in turn, of any length, keeps all indexes, spans and 32-bit positions in order |
| AviIndex.RollsOverIff | src/avi_record.c:609-615 | a frame opens a new movi chunk if and only if it completes a pair whose video frame begins more than 1 GB behind the first of its chunk, as far as 32 bits tell |
| AviIndex.CloseIndexes | src/avi_record.c:714-825 | closing a movi chunk adds a super index entry for the frames of each stream and changes nothing written before but two sizes |
| AviIndex.NewMoviGood | src/avi_record.c:834-876 | a new movi chunk starts empty behind the closed one |
| AviEngine.Recorder.constructor | src/avi_record.c:1280-1375 | a recording whose headers end at the first movi chunk |
| AviEngine.Recorder.GrowIfNeeded | src/avi_record.c:531-560 | there is room for another element and the old ones are kept |
| AviEngine.Recorder.StoreEntry | src/avi_record.c:583-607 | position and length relative to the first frame of the movi chunk |
| AviEngine.Recorder.RecordFrame | src/avi_record.c:583-618 | chunk, index entry and rollover of one frame |
| AviEngine.Recorder.CollectEntries | src/avi_record.c:676-701 | the entries of the index array, and their duration |
| AviEngine.Recorder.WriteMoviIndex | src/avi_record.c:630-706 | the index chunk of a stream and what its super index entry needs |
| AviEngine.Recorder.WriteMoviAllIndexes | src/avi_record.c:714-742 | both index chunks, entered in both super indexes |
| AviEngine.Recorder.CloseMoviChunk | src/avi_record.c:752-825 | the sizes of the chunk are patched |
| AviEngine.Recorder.CreateNewMoviChunk | src/avi_record.c:834-876 | the next RIFF and LIST headers, with the counters reset |
| AviEngine.Recorder.StopRecording | src/avi_record.c:1378-1395 | the last chunk is closed and the first RIFF size written |
| Floppy.FoundGeometry | src/floppy.c:755-862 | which geometry is found for every image: the boot sector's when it agrees with the size, else one of 9 to 12 sectors that fits 80 to 84 tracks, else the boot sector's number or a division by 80 |
| Floppy.GuessedSectors | src/floppy.c:755-862 | which images give no sectors a track, by which the source then divides, and which give 128 or more: exactly those with a bad boot sector and less than 80 sectors, or at least 10 MB |
| Floppy.EmptyBootSector | src/floppy.c:886-887 | a blank image of one sector makes an access divide by zero |
| Floppy.LargeBlankImage | src/floppy.c:840-862 | a blank image of 10 MB has tracks of 128 sectors |
| Floppy.AcceptedIsInside | src/floppy.c:886-940 | every sector that is accepted is a block inside the image, among those of whole tracks |
| Floppy.EveryBlockHasAPlace | src/floppy.c:931-935 | every block of the whole tracks belongs to an accepted sector if and only if the 16 bits of a track number can number all tracks |
| Floppy.ManyTracks | src/floppy.c:840-862 | an image of 336 MB has more tracks than that |
| Floppy.BlocksDiffer | src/floppy.c:931-935 | different sectors are different blocks |
| Floppy.SectorsAreApart | src/floppy.c:931-935 | sectors have offsets of their own if and only if the tracks of the image are not long, because the bytes of a track are kept in 16 bits |
| Floppy.SectorsStayInside | src/floppy.c:931-940 | an access to several sectors stays inside the image if and only if as many are left behind its start, which the source does not test; an access that ends with its track always does |
| Floppy.TrackRunsOver | src/floppy.c:979-1015 | the write of a whole track from the second sector of the last one on runs over the end of a disk |
| Floppy.WriteThenRead | src/floppy.c:886-1022 | after a write of one sector exactly that sector reads differently, namely as written, if and only if it is not the boot sector or the new boot sector gives the same geometry |
| Floppy.WritesAreLocal | src/floppy.c:886-1022 | all writes that keep the geometry change one sector only, if and only if the tracks of the image are not long |
| Floppy.BootSectorMovesOthers | src/floppy.c:886-1022 | a disk on which a new boot sector moves what another sector reads and hides a third one |
| Floppy.OtherSectorsKeepGeometry | src/floppy.c:968-1022 | only a write of the boot sector can change the geometry |
| FloppyEngine.Drive.ReadSectors | src/floppy.c:886-940 | which sectors are accepted, and where their bytes are |
| FloppyEngine.Drive.WriteSectors | src/floppy.c:952-1022 | the bytes written, nothing else changed, and the flag for changed contents |
| FloppyEngine.CreateImage | src/createBlankImage.c:76-171 | the boot sector, both tables, the volume name and zeros elsewhere; and the image is found to have the sectors and sides it was made with |
| FloppyEngine.CreatedParsesBack | src/createBlankImage.c:128-152 | the boot sector fields of a created image are taken as its geometry, and all its tracks are found |
| FloppyEngine.WriteShortLE | src/createBlankImage.c:60-66 | a 16-bit word is stored low byte first |
| ClocksTimings.CyclesAreConserved | src/clocks_timings.c:563-577 | over any sequence of calls in 64 bits, the output times one frequency plus the remainder is at most the input times the other, and equal to it, with all values exact, if and only if no call exceeds 64 bits; the remainder stays small |
| ClocksTimings.GuardedCallsFit | src/clocks_timings.c:563-577 | no call exceeds them if each input leaves room for a remainder, which a caller can check |
| ClocksTimings.LostCycles | src/clocks_timings.c:563-577 | a call that exceeds them and loses all its cycles |
| ClocksTimings.SplitDoesNotMatter | src/clocks_timings.c:563-577 | however the input is split over calls, total output and remainder are the exact ones of all of it if and only if no call exceeds 64 bits, and those of one call if that does not exceed them |
| ClocksTimings.Cycles.ConvertCycles | src/clocks_timings.c:563-577 | one call in 64 bits, with the remainder carried over: it makes up no cycles, and loses none if and only if its total fits |
| ClocksTimings.ConvertsExactly | src/clocks_timings.c:563-577 | a call is exact if and only if its product plus the remainder fits into 64 bits |

## Left out

- Memory behind the blitter and the sound DMA: ROM, which ignores writes, and addresses that mirror each other in a 24-bit address space are not modelled. Every mapped address is a writable word of its own, so the theorems are about blits and frames in RAM that do not reach one word by two addresses; bus error regions are modelled.
- Cycle accounting of the blitter, the phases in which it only counts bus accesses of the CPU, its interrupt and the memory accesses of the DSP: they depend on the CPU core.
- The byte and word views of the blitter registers other than counts and control: one line each.
- `CycInt_MemorySnapShot_Capture`, `CycInt_FindCyclesRemaining` and handler pointers: no list operation.
- Arithmetic of `INT_CONVERT_FROM_INTERNAL`: only used to report remaining cycles.
- Master clock and timer start of the ACIA beyond the restart flag and the divider; the MIDI port, which uses the same routines.
- CTS and DCD change nothing on the ST, where both are low; the reachability and IRQ theorems are for that case, the operations are modelled for both levels.
- CycRuns.PeriodicTimersDoNotDrift: asks that each lateness fits a C int, which `RearmedIsExact` shows to be exactly what is needed.
- The whole-screen loops of `src/conv_gen.c` with borders, zoom and high colour, and the conversions of `src/conv_st.c`.
- Tone and low-pass filters, mixing with the YM2149, the Microwire bus and the Falcon crossbar: the samples of `GenerateSamples` are those before filter and mixing, and their place in the mix buffer is not modelled.
- FilePathEngine.MakeAbsoluteName: asks that the name fits, that is, that `FilePathEngine.ScanInto` does not reach the end of its buffer, behind which the source would write.
- `Change_Options`, which interprets the arguments, and the other commands of the control socket.
- Failures of allocation, `getcwd` and the disk.
- AVI: the bytes of headers other than names, sizes and index entries; frame counts and formats in the file header; pictures and samples themselves. A file is its length with the chunks at their positions, and a PNG frame whose size is patched after it is written appears with its final size.
- AviSizes.SizesSpan: asks for frames of at most 400 MB, and so does `AviSizes.EveryEntryResolves`; for longer ones the exact conditions are in `AviSizes.SizesSpanIff` and `AviIndex.EntriesResolveIff`.
- AviEngine.Recorder.RecordFrame: asks for room in the 256 entries of the super index, which the source does not test, and for a frame whose turn it is; so do the methods that close a movi chunk.
- FloppyEngine.Drive.ReadSectors: asks for an image that has sectors, as the source divides by their number.
- Floppy.WriteThenRead: is about images whose tracks are not long; for the others `Floppy.WritesAreLocal` shows that it fails.
- FloppyEngine.Drive.WriteSectors: asks that several sectors do not run over the end of the image, which the source does not test; `Floppy.SectorsStayInside` has the exact condition.
- FloppyEngine.CreateImage: asks for a disk large enough for its tables, as all formats offered are; saving the image to a file is not modelled.
- Inserting, ejecting and saving disks, and the other image formats.

# One ROM firmware, modelled and proved in Dafny

One ROM replaces ROM chips with a microcontroller. Its firmware is C without an operating system,
and this project proves what that C promises: that a host reads the bytes it should, that a log
never tears a record, that two cores never both believe they are alone. `dafny verify
dfyconfig.toml` checks all of it.

## Modules

- `Words`, `WrapTime`, `Options`: unsigned words read bit by bit, times kept in 32 bits, an option
  type.
- `PinMap`: how logical addresses and bytes are scattered over GPIO positions, under inversion and
  forcing, and gathered back.
- `RamSlots`: the RAM slots that hold scrambled images; programming, reading and switching them.
- `Knock`: raw matching of a knock sequence in a DMA capture ring, and the payload after it.
- `Pio`: a cycle-level interpreter for a PIO state machine. `CsMonitor`, `Serving`,
  `AddressProgram` and `DataProgram` build the instruction lists the firmware emits and run them on
  it. `CsAccess` and `ServingDelays` say what the first two come to on the pins, cycle by cycle.
- `Bus`: the address program, the DMA and the data program together, in any order of turns.
  `Backlog`: whether the words between them fit the FIFO, and how soon a held address is served.
- `EndToEnd`: host address to host data, across all of the above. `HostPins` puts it on the GPIOs
  themselves, through the windows the PIO blocks see and the input overrides.
- `RttRing`, `RttConcurrent`: one log channel, first as a bounded queue whose offsets can hold
  anything, then as a writer and a reader interleaved step by step.
- `RttDigits`, `RttFormat`, `RttPrintf`: division by ten, fields, chunks, and the format language.
- `Exclusive`, `Timer`: the handshake between the cores, and the 64-bit timer in 32-bit pieces.
- `Led`, `LedPin`, `LedLook`: holds, beacons, frames, the alarm, pixels held behind a reset, and what
  an LED looks like.
- `Otp`: the append-only commissioning area. `FlashPlan`: the order flash is written in.

Where the firmware updates state in place, so does the model (`SlotMemory`, `CaptureRing`, `Ring`,
`Formatter`, `Engine`, `RgbLine`, `DataOutput`, `Counter`), each method proved against functions of
its state. The laws over whole runs are lemmas about those functions.

Three modules are machines of small steps, taken in any order: `Bus` (one cycle of a program, or one
transfer), `RttConcurrent` (one load or store of an offset, or one byte copied) and `Exclusive` (one
FIFO access).

## What the code does that its documentation does not say

- After a mismatch the knock detector starts over with the one capture in hand, so it can step over a
  knock: a, a, b is missed in a, a, a, b (`MissedKnock`). It misses none exactly where no two
  stretches of a knock overlap and then differ (`NeverMissedIffResumes`), as where the first entry
  does not recur.
- Two cores that ask for exclusive mode at once both wait for ever (`RivalRequestsNeverGranted`); a
  request is granted exactly when the other core is not asking too (`GrantedIffNoRival`).
- firmware/src/piodma/piorom2.c:841-844 allows the /BYTE code of the data program six cycles, as
  many as the address program takes. The low-byte path takes seven. With a generated delay of 4 the
  address program takes seven too, which is exactly enough (`KeepsUpIff`, `BuiltKeepsUp`).
- The mapping adds a slot's GPIO base as it is, where the PIO blocks take any base but 0 for 16
  (firmware/src/piodma/piorom2.c:545-549). They agree on 0 and 16, the two that slots are generated
  with, and `HostReadsGpios` is for those.
- Both bytes of a 16-bit word are stored through the lines of D0-D7, so the high byte reads right
  exactly on boards that wire D8-D15 eight pins after them (`WordsRightIffMirrored`;
  `CrossedMisreads` shows a word that another board misreads).
- Exit from exclusive mode with no plugin on the other core sends a word nobody reads, and spins
  once the FIFO is full (`ExitAloneEndsInASpin`).
- With the AlgCs2 select program, a chip deselected by its address range in one cycle and by its
  enable in the next can go on driving (`AlternatingDeselectionDrives`). `DrivesWhileSeenSelected`
  says exactly when it does; a pass of its poll that does not see the chip selected puts the pins at
  inputs in time (`ReleasesWhenUnseen`), and so does deselection for either reason throughout
  (`ReleasesInTime`).
- In the AlgCs1 select program the inactive delay is on the path that finds the chip still
  selected, so it slows the release check and not the release (`Serving.InstrAt`).
- `%#08o` is padded with spaces: making an octal number begin with 0 counts as a precision, which
  turns zero filling off (`PrintsStandard` says exactly when, `OctalLosesZeroFill` shows a value).
- An OTP instance interrupted just after its signature's key row counts as signed
  (`SignatureKeyCommits`). docs/OTP.md says an instance without a signature is ignored; one whose
  entries leave a single row of the area hides every instance before it instead, and no other does
  (`UnsignedAppendIff`, `OneRowLeftExample`). docs/OTP.md also has a parser look for the next instance
  after a failure; the firmware returns no board, as its own comment says.
- `ora_get_ram_slot_count` returns 1 where a region is larger than the image memory.
- A request without a hold, made while a hold runs, is undone when the hold ends, although
  `firmware/ora/api.h` says it stays until something changes it (`ReturnsToBeforeTheFirst` covers such
  requests).

## Model

| member | source | states |
|---|---|---|
| `HostPins.HostReadsGpios` | firmware/src/piodma/piorom2.c:262-1010 | End to end on the GPIOs themselves: the host sets the level of each address line's own GPIO, the PIO reads its span of the window from GPIO 0 or 16 through the input overrides as they are set up, and, however long the programs have run and whatever was programmed and switched meanwhile, an address held for the access time gets the host, on its data lines' own GPIOs, exactly the bytes last programmed there in the slot last made active |
| `HostPins.HostFieldIsMapped` | firmware/src/piodma/pioplugin.c:656-785 | While the host drives address a on the GPIOs, the field the address program reads is exactly the word part of the table index the mapping computes, select pins of a Multi set included |
| `HostPins.WiredIsAddrWired` | firmware/src/piodma/pioplugin.c:656-771 | Address lines on distinct GPIOs of the span, and select pins on others of it, are wiring the mapping's theorems hold for |
| `HostPins.ModeIsOverride` | firmware/src/piodma/piorom2.c:334-361 | The override the mapping looks up for a GPIO is the one the set-up loop leaves it with, where no GPIO is named twice |
| `HostPins.HostReadsLevels` | firmware/src/piodma/pioplugin.c:790-826 | What the host reads off its data lines' GPIOs is what it reads off the data program's levels |
| `HostPins.HighWindowMaps` | firmware/src/piodma/pioplugin.c:656-785 | A board on the window from GPIO 16, base pin 3: address 1, with A0 on GPIO 19 and A1 on GPIO 20 inverted, maps to 3 |
| `HostPins.HighWindowDataWired` | firmware/src/piodma/pioplugin.c:790-826 | Its data lines, D0 on GPIO 15 down to D7 on GPIO 8, are wired as the law on GPIOs asks |
| `EndToEnd.HostReadsLastProgrammed` | firmware/src/piodma/piorom2.c:493-1010 | End to end, for 8-bit ROMs, 16-bit ROMs and 16-bit ROMs with /BYTE: in whatever order the address program, the DMA and the data program take their turns, after any run of reprogramming and slot switching, once more words have been shown than were on their way when the host began to hold address a, it reads off D0-D7 exactly the byte last programmed there in the slot last made active, and off D8-D15, where they mirror D0-D7, the byte after it. "Exactly": a byte is read if and only if it is that one |
| `EndToEnd.HostReadsInAccessTime` | firmware/src/piodma/piorom2.c:493-1010 | The access time: however long the programs have run side by side, with commands carried out between any two rounds and the host doing as it likes meanwhile, an address held for two passes of the address program and one of the data program gets the host exactly the bytes last programmed there, and goes on getting them, wherever the address program's pass is no shorter than the data program's |
| `EndToEnd.LiveKeepsUp` | firmware/src/piodma/pioplugin.c:1597-1624 | However slots are programmed and switched while the host reads, the data program keeps up and the address program has the prefix of the slot last activated |
| `EndToEnd.HostReadsInTime` | firmware/src/piodma/piorom2.c:493-1010 | From any state the loops can be in, kept up or not, that is so after a number of rounds bounded by the words on their way and the lengths of the programs, and from then on |
| `EndToEnd.DrivenWhileSelected` | firmware/src/piodma/piorom2.c:569-771 | Selected for as long as its select program takes to respond, the host's data pins are driven: D0-D7, and D8-D15 too while /BYTE is inactive |
| `EndToEnd.SmallBoardIsSelected` | firmware/src/piodma/piorom2.c:569-624 | A select program from its start, and eight cycles of its pin low, meet every assumption of that |
| `EndToEnd.WordsRightIffMirrored` | firmware/src/piodma/pioplugin.c:790-826 | With no data pin overridden, a host reads the high byte of every 16-bit word right if and only if D8-D15 are wired eight pins after D0-D7, since both bytes are stored through the lines of D0-D7 |
| `EndToEnd.CrossedMisreads` | firmware/src/piodma/pioplugin.c:790-826 | With D8 and D9 the other way round, and every other assumption met, the word 0x0100 is read as 0x0200 |
| `EndToEnd.CrossedSlotIsCrossed` | firmware/src/piodma/pioplugin.c:790-826 | A slot wired so |
| `EndToEnd.ReadsPlace` | firmware/src/piodma/pioplugin.c:1502-1555 | The word the DMA reads at the host's table address is the stored byte of its address, or the two of its word |
| `Bus.ServesHeldAddress` | firmware/src/piodma/piorom2.c:493-1010 | Under every interleaving: the words shown after those on their way are the ones at the table address of the pins held, and the data pins show the last |
| `Bus.QueueGrows` | firmware/src/piodma/piorom2.c:978-1010 | No step loses, makes up or reorders a word between the address pushed and the word taken |
| `Bus.ServesInTime` | firmware/src/piodma/piorom2.c:493-884 | Side by side the three come to show the word the host addresses, whatever state their loops start in, in a time bounded by the words on their way and the lengths of the programs |
| `DataProgram.EmitData` | firmware/src/piodma/piorom2.c:797-869 | The instructions emitted for ALG_DATA_0 and ALG_DATA_1 are the programs the theorems are about |
| `DataProgram.CycleShows` | firmware/src/piodma/piorom2.c:797-869 | Every cycle of either program keeps the pins at what the last word shown should look like: all of it, or the byte that /BYTE and A-1 choose |
| `DataProgram.CycleGetsNearer` | firmware/src/piodma/piorom2.c:797-869 | A word in hand is shown within eight cycles, each bringing it nearer |
| `Backlog.KeepsUpIff` | firmware/src/piodma/piorom2.c:493-1010 | From the start, with the host's pins changing every round as they like, a FIFO of any depth between the DMA and the data program is never overrun if and only if ALG_DATA_0 serves or the address program takes at least seven cycles a pass |
| `Backlog.BuiltKeepsUp` | rust/gen/src/v2/alg_config.rs:165-207 | So the delays slots are generated with never overrun it, and 4 is the least that will do for ALG_DATA_1 |
| `Backlog.CycleWorks` | firmware/src/piodma/piorom2.c:831-869 | Whatever /BYTE and A-1 do, each cycle brings the end of the words in hand, at seven cycles a word, nearer |
| `Backlog.ServesInAccessTime` | firmware/src/piodma/piorom2.c:493-1010 | Where the data program has kept up, pins held for two passes of the address program and one of the data program show the word they address, whatever was on its way, and go on showing it |
| `Backlog.StaysCaughtUp` | firmware/src/piodma/piorom2.c:493-1010 | Over any rounds, with the pins changing as they like, no more work is in hand than the cycles to the next push leave time for |
| `Backlog.RoundGetsNearer` | firmware/src/piodma/piorom2.c:493-884 | Each round brings the showing of a word nearer, be it pushed already or yet to be |
| `Backlog.BuiltAccessTime` | rust/gen/src/v2/alg_config.rs:165-207 | With the generated delays the access time is 10 cycles for 8-bit ROMs, 12 for 16-bit ones and 21 where /BYTE is read |
| `Backlog.Overruns` | firmware/src/piodma/piorom2.c:831-869 | With a pass of six cycles or fewer, a host holding /BYTE active and A-1 low overruns any FIFO in the end |
| `EndToEnd.TableAddrIsMapped` | firmware/src/piodma/pioplugin.c:656-785 | The word the address program pushes for the pins of address a is the active slot's address plus the mapped address, for 8-bit slots and, at the word's even address, for 16-bit ones |
| `EndToEnd.DrivenPinsAreMapped` | firmware/src/piodma/pioplugin.c:656-771 | Pins that show address a under the overrides are, bit for bit, the table index the mapping computes, and no other pins are |
| `EndToEnd.RunServesLastActivated` | firmware/src/plugin.c:597-636 | After any run from boot, the ROM table, the X prefix and the slot reported active are all those of the slot last activated |
| `AddressProgram.AddressReachesTable` | firmware/src/piodma/piorom2.c:493-531 | Wherever the address program is in its loop, two passes with the pins held still are enough for the last word pushed, then and from then on, to be those pins' table address |
| `AddressProgram.EmitAddr` | firmware/src/piodma/piorom2.c:499-515 | The instructions emitted, for any number of extra address bits, are the program the theorems are about |
| `AddressProgram.ContentGrows` | firmware/src/piodma/piorom2.c:501-514 | Each IN shifts the next part of the address in and loses nothing off the top of 32 bits |
| `EndToEnd.SmallBoardServes` | firmware/src/piodma/pioplugin.c:656-785 | A four-byte ROM with an inverted address pin and its data lines reversed: its boot state and, for every address, the pins a host drives meet every assumption of the end-to-end theorems |
| `EndToEnd.SmallBoardReads` | firmware/src/piodma/pioplugin.c:656-826 | On it, whatever its host did before, a host that holds an address for six rounds reads exactly what the SRAM held there at boot |
| `PinMap.GetGpioOverride` | firmware/src/piodma/pioplugin.c:88-102 | The first override entry that names the GPIO decides; a GPIO none names is normal |
| `PinMap.MapAddrToPhys` | firmware/src/piodma/pioplugin.c:656-785 | The loop over address pins and the select pins of a Multi set compute the scatter of the address over the pins |
| `PinMap.MarkCsLines` | firmware/src/piodma/pioplugin.c:705-771 | The select pins of a Multi set's first chip are marked, except those forced low |
| `PinMap.MapDataToPhys` | firmware/src/piodma/pioplugin.c:790-826 | The data loop computes the scatter of the byte over the wired data pins |
| `PinMap.DemangleObservedAddr` | firmware/src/piodma/pioplugin.c:857-1065 | Decoding gathers the address lines, and refuses exactly the captures its algorithm says were not of the chip |
| `HostPins.RefusedPinByPin` | firmware/src/piodma/pioplugin.c:867-1031 | A capture is refused if and only if some select pin reads as not selected, or, in an AlgCs0 Multi set, some X pin reads 1, or the AlgCs2 qualifiers read the deselect pattern, each pin named by its GPIO |
| `PinMap.DemangleAddr` | firmware/src/piodma/pioplugin.c:1072-1090 | The table-index form: the A-1 bit is split off, and put back |
| `PinMap.DemangleData` | firmware/src/piodma/pioplugin.c:1115-1152 | The byte decoded is the gather over D0-D7, whatever lines a 16-bit slot has above them |
| `PinMap.DemangleInvertsMap` | firmware/src/piodma/pioplugin.c:656-1090 | Decoding undoes mapping on every logical address, for both word sizes, and a mapped address is below 2^num_rom_table_bits |
| `PinMap.CheckedDemangleInvertsMap` | firmware/src/piodma/pioplugin.c:867-1031 | With the control pins checked, on active-low Single and Banked slots, the round trip holds exactly except where an address-qualified select reads its deselect pattern |
| `PinMap.SelectedWhileAddressed` | firmware/src/piodma/pioplugin.c:872-1031 | A mapped address counts as selected if and only if its qualifier pins do not read the deselect pattern |
| `PinMap.MapIsInjective` | firmware/src/piodma/pioplugin.c:656-785 | Addresses of the chip that differ have table indexes that differ |
| `PinMap.MapIsPeriodic` | firmware/src/piodma/pioplugin.c:656-785 | Addresses that agree on the chip's own address bits have the same table index |
| `PinMap.DataRoundTrip` | firmware/src/piodma/pioplugin.c:790-826 | Every byte stored in the table decodes to itself |
| `PinMap.GatherScatter` | firmware/src/piodma/pioplugin.c:656-1065 | Any word that agrees with a scattered value at the lines' positions gathers to that value |
| `RamSlots.SlotMemory.GetRamSlotCount` | firmware/src/plugin.c:552-570 | As many regions as the image memory holds, at least one and at most ORA_MAX_RAM_SLOTS |
| `RamSlots.SlotMemory.GetRamSlotInfo` | firmware/src/plugin.c:572-595 | A slot's address and size, or InvalidSlot |
| `RamSlots.SlotMemory.GetActiveRamSlot` | firmware/src/plugin.c:597-622 | The slot the ROM table is in, and each of the two ways there is none |
| `RamSlots.SlotMemory.ReprogramRamRomSlot` | firmware/src/piodma/pioplugin.c:1502-1555 | The whole result: every refusal in its order, and on success the memory with each byte stored at its mapped place |
| `RamSlots.SlotMemory.ReadRamRomSlot` | firmware/src/piodma/pioplugin.c:1348-1380 | Reads back the logical bytes, or refuses and leaves the buffer as it was |
| `RamSlots.SlotMemory.SwitchRomRegion` | firmware/src/piodma/pioplugin.c:1597-1624 | The ROM table and the X prefix move together |
| `RamSlots.SlotMemory.SetActiveRamSlot` | firmware/src/plugin.c:624-636 | A valid slot is served from then on; an invalid one changes nothing |
| `RamSlots.ProgrammedByte` | firmware/src/piodma/pioplugin.c:1541-1552 | Programming leaves each logical address at the last byte written there, and every other as it was |
| `RamSlots.ProgramThenRead` | firmware/src/piodma/pioplugin.c:1348-1380 | Reprogram then read gives back exactly the bytes written, for any range no longer than the chip |
| `RamSlots.ProgrammedElsewhere` | firmware/src/piodma/pioplugin.c:1541-1552 | Nothing outside the slot's region changes |
| `RamSlots.DoKeeps` | firmware/src/piodma/pioplugin.c:1502-1555 | One command leaves every logical byte it does not program as it was, in every slot |
| `RamSlots.RunHoldsLastProgrammed` | firmware/src/piodma/pioplugin.c:1502-1555 | After any run of commands, accepted or refused, every logical address of every slot holds the byte last programmed there |
| `RamSlots.ServedSlotIsKept` | firmware/src/piodma/pioplugin.c:1526-1534 | While a slot is served, no run of commands without allow_active changes any byte of its region |
| `RamSlots.RefusedIffServed` | firmware/src/piodma/pioplugin.c:1526-1534 | A range inside a slot is refused as active if and only if that slot is being served and the caller did not allow it, and is otherwise carried out |
| `RamSlots.ActivatedSlot` | firmware/src/plugin.c:572-636 | An activated slot is the one reported active, and its address splits exactly into X prefix and table index |
| `Knock.InitKnock` | firmware/src/piodma/pioplugin.c:1168-1305 | Every field of the knock - mask, match words, X mask, chip-select mask, sizes and set mode - and when each error is returned |
| `Knock.CsMaskBit` | firmware/src/piodma/pioplugin.c:1239-1280 | The chip-select mask has exactly the select pins that are inside the span |
| `Knock.RawMatchIsDecodedMatch` | firmware/src/piodma/pioplugin.c:1188-1237 | A masked raw capture equals the match word if and only if the decoded address agrees with the knock on every line not forced |
| `Knock.RawMatchIsAddressMatch` | firmware/src/piodma/pioplugin.c:1188-1237 | With no knocked line forced, that is equality of the low knock bits of the decoded address, for every capture and value |
| `Knock.KnockIsAddressSequence` | firmware/src/piodma/pioplugin.c:1168-1500 | From set-up to match: the captures kept so far end with the match words of a knock set up by `InitKnock` if and only if the low bits of their decoded addresses end with the knock sequence |
| `Knock.FilterDropsActiveX` | firmware/src/piodma/pioplugin.c:1382-1396 | The filter drops exactly the captures with an X pin of the span active |
| `Knock.CaptureRing.Capture` | firmware/src/piodma/pioplugin.c:514-567 | The DMA stores any number of captures, wrapping, without lapping the reader |
| `Knock.TakeEntry` | firmware/src/piodma/pioplugin.c:1399-1425 | The reader takes the next capture of the stream across the wrap, while more arrive |
| `Knock.DetectKnock` | firmware/src/piodma/pioplugin.c:1399-1425 | When a knock is reported the matcher has just finished, and the unfiltered captures so far end with the knock; for a knock that resumes, no earlier point did. When none is, it has not finished, and everything captured at the call has been taken |
| `Knock.CollectPayload` | firmware/src/piodma/pioplugin.c:1427-1449 | The payload is exactly the next unfiltered captures, as many as asked for; where it is not full, everything captured at the call has been taken and was too little |
| `Knock.WaitForKnock` | firmware/src/piodma/pioplugin.c:1451-1500 | Over an unbounded stream and a ring never lapped: the knock is matched in order, the payload is the captures that follow it, and the next read position is right; for a knock that resumes the one found is the first in the stream. It goes on waiting only where, in everything captured at the call, the matcher has not finished or too few captures are kept after it |
| `Knock.WaitingHoldsNone` | firmware/src/piodma/pioplugin.c:1451-1500 | No knock that resumes is missed: a wait that goes on has been given no captures that end with the knock and have as many kept after it as the payload needs |
| `Knock.StepLongest` | firmware/src/piodma/pioplugin.c:1399-1425 | The matcher's position is the longest prefix of the knock the captures end with, for a knock that resumes |
| `Knock.NeverMissedIffResumes` | firmware/src/piodma/pioplugin.c:1399-1425 | Exactly which knocks can be missed: the matcher has finished, for any words, just when they have held the knock, if and only if wherever two stretches of the knock overlap both go on with the same entry |
| `Knock.OverlapIsMissed` | firmware/src/piodma/pioplugin.c:1414-1416 | Where two stretches overlap and then differ, the words that go from the one over to the other hold the knock and are missed |
| `Knock.MissedKnock` | firmware/src/piodma/pioplugin.c:1414-1416 | The knock a, a, b is missed in a, a, a, b |
| `Knock.FreshFirstResumes` | firmware/src/piodma/pioplugin.c:1399-1425 | A knock whose first entry does not recur resumes, and so is never missed |
| `CsMonitor.EmitCs0` | firmware/src/piodma/pioplugin.c:287-314 | The instructions emitted for AlgCs0 are the program the theorem is about |
| `CsMonitor.EmitCs1` | firmware/src/piodma/pioplugin.c:327-362 | The same for AlgCs1 |
| `CsMonitor.EmitCs2` | firmware/src/piodma/pioplugin.c:388-422 | The same for AlgCs2 |
| `CsAccess.OneIrqPerAccess` | firmware/src/piodma/pioplugin.c:279-437 | All three monitors, over the pins: from the start, any accesses, each deselected and then selected for a constant number of cycles with the pins otherwise as they like, raise exactly as many IRQs |
| `CsAccess.SelectRaisesOne` | firmware/src/piodma/pioplugin.c:279-437 | From any state a monitor reaches, the chip selected for 13, 15 or 9 cycles (AlgCs0, 1, 2) has raised the IRQ once if the detector was waiting for an access, not at all if it was not, and raises no more while it lasts |
| `CsAccess.DeselectRearms` | firmware/src/piodma/pioplugin.c:279-437 | Deselected for 13, 9 or 8 cycles, the detector waits for the next access and has found none meanwhile |
| `CsAccess.DeselectAlwaysRearms` | firmware/src/piodma/pioplugin.c:388-422 | So it does from any state, but for the one access AlgCs2 may be about to find, having seen its enable low four times |
| `CsAccess.ReachedFollows` | firmware/src/piodma/pioplugin.c:279-437 | Every pin history from the start leads to such a state |
| `CsMonitor.Cs0RaisesOncePerAccess` | firmware/src/piodma/pioplugin.c:279-322 | For every pin history, the IRQs raised are those of a detector over the samples taken that fires on three active samples in a row while armed and re-arms on three inactive ones, but for one not yet carried out |
| `CsMonitor.Cs1RaisesOncePerAccess` | firmware/src/piodma/pioplugin.c:324-370 | The same with four active and two inactive samples, active being every pin low but the ignored one |
| `CsMonitor.Cs2RaisesOncePerAccess` | firmware/src/piodma/pioplugin.c:372-437 | The same with four looks at the enable and one at the qualifiers, and a release confirmed by a second look |
| `CsMonitor.LowExceptMeansOthersLow` | firmware/src/piodma/pioplugin.c:365-368 | The two compares of AlgCs1 mean exactly that every pin but the ignored one is low |
| `CsMonitor.AllLowMeansEachLow` | firmware/src/piodma/pioplugin.c:287-299 | The compare with zero means exactly that every monitored pin is low |
| `CsMonitor.OncePerAccess` | firmware/src/piodma/pioplugin.c:283-314 | Between two firings there is a re-arming: an unbroken run of inactive samples |
| `CsMonitor.FiresOnRun` | firmware/src/piodma/pioplugin.c:283-314 | A firing comes at the end of an unbroken run of active samples |
| `CsMonitor.FiresExactlyOnRun` | firmware/src/piodma/pioplugin.c:283-362 | At any moment of any history a detector fires if and only if it was armed and the last samples were a full run of active ones, and re-arms if and only if it was not and they were a full run of inactive ones |
| `CsMonitor.RunFires` | firmware/src/piodma/pioplugin.c:283-314 | A long enough run of active samples leaves the detector fired |
| `CsMonitor.QuietRearms` | firmware/src/piodma/pioplugin.c:304-314 | A long enough run of inactive samples leaves it armed |
| `CsMonitor.QualifiedOncePerAccess` | firmware/src/piodma/pioplugin.c:405-422 | For AlgCs2, between two firings there is a release seen at two polls in a row |
| `CsMonitor.QualifiedReleaseRearms` | firmware/src/piodma/pioplugin.c:405-422 | And none is missed: a release seen at two polls in a row leaves the detector armed |
| `CsMonitor.QualifiedRunFires` | firmware/src/piodma/pioplugin.c:388-403 | For AlgCs2, an armed detector that looks at four low enables and then at qualifiers off the pattern fires |
| `CsMonitor.QualifiedFiresOnRun` | firmware/src/piodma/pioplugin.c:388-403 | For AlgCs2, a firing comes after four looks at a low enable and one at qualifiers off the deselect pattern |
| `Serving.EmitCs0` | firmware/src/piodma/piorom2.c:582-624 | The instructions emitted for AlgCs0, with and without delays and a /BYTE pin, are the labelled program the theorems are about |
| `Serving.EmitCs1` | firmware/src/piodma/piorom2.c:661-689 | The same for AlgCs1 |
| `Serving.EmitCs2` | firmware/src/piodma/piorom2.c:721-751 | The same for AlgCs2 |
| `Serving.SafeStep` | firmware/src/piodma/piorom2.c:569-771 | Every cycle of every run keeps: the data pins are inputs until looks have found the chip selected for the first time, the value a step is about to act on is the one last looked at, and D0-D7 change direction together |
| `Serving.TurnsOnOnlyWhenSelected` | firmware/src/piodma/piorom2.c:569-771 | Whenever, in any run, the pins turn from inputs to outputs, the looks just taken found the chip selected |
| `Serving.ReleasesInTime` | firmware/src/piodma/piorom2.c:604-615 | From any state a program reaches, deselected for active delay + inactive delay + 8 cycles the data pins are inputs, and stay so while it lasts |
| `Serving.RespondsInTime` | firmware/src/piodma/piorom2.c:585-603 | Selected for as many cycles they are outputs, and stay so while it lasts |
| `Serving.DrivesWhileSeenSelected` | firmware/src/piodma/piorom2.c:742-751 | From a poll of AlgCs2, the pins are outputs after every cycle of any number of passes if and only if each pass finds the enable low in its first cycle and the qualifiers off the deselect pattern in its second |
| `Serving.ReleasesWhenUnseen` | firmware/src/piodma/piorom2.c:742-771 | After any number of such passes, one that does not puts the pins at inputs at one of its own cycles or of the inactive delay and one after it, whatever the pins do then |
| `Serving.UnseenPassReleases` | firmware/src/piodma/piorom2.c:742-771 | The same of a single pass |
| `Serving.PollingIsReached` | firmware/src/piodma/piorom2.c:721-743 | A chip selected from the start is being polled, and driven, within the active delay and five cycles |
| `Serving.FullWidthRun` | firmware/src/piodma/piorom2.c:569-771 | While /BYTE is inactive the pins are either all inputs or all outputs, D8-D15 with D0-D7 |
| `ServingDelays.WaitsForActiveDelay` | firmware/src/piodma/piorom2.c:585-603 | Whatever the pins do, a program that has found nothing selected yet makes the data pins outputs no sooner than the active delay and two cycles from then |
| `ServingDelays.WaitsForInactiveDelay` | firmware/src/piodma/piorom2.c:604-615 | AlgCs0, and AlgCs2 while its enable is low, make them inputs no sooner than the inactive delay and two cycles from a state that has found nothing deselected |
| `ServingDelays.HalfWidthRun` | firmware/src/piodma/piorom2.c:592-624 | While /BYTE is active D8-D15 are never outputs |
| `Serving.AlternatingDeselectionDrives` | firmware/src/piodma/piorom2.c:721-751 | Why the release theorem asks for one reason to be deselected: a chip selected from the start, then deselected by range and by enable in turn so that no cycle selects it, is driven after every cycle for any number of passes |
| `Serving.DataOutput.SetStandby` | firmware/src/piodma/piorom2.c:924-944 | In standby the state machine is stopped with its pins inputs; leaving it starts the program again, with nothing seen of the pins yet |
| `Serving.DataOutput.Cycle` | firmware/src/piodma/piorom2.c:915-922 | A running state machine steps and a stopped one does not; either way standby and the pins stay in step |
| `RttRing.Ring.Write` | firmware/src/rtt.c:231-276 | From any offsets, in range or not: a record is appended whole, if it leaves a byte free, or not at all |
| `RttRing.Ring.Read` | firmware/src/rtt.c:294-352 | From any offsets: exactly the first min(pending, max) bytes are taken, in order across the wrap, and the rest stays |
| `RttRing.Ring.Query` | firmware/src/rtt.c:378-420 | Pending is what a read would find, size = free + pending + 1, and free is what the write path's own count gives |
| `RttRing.Avail` | firmware/src/rtt.c:215-229 | Free space and pending bytes make up the ring but for the byte always left free |
| `RttRing.Appended` | firmware/src/rtt.c:262-273 | Filling the free part extends the unread bytes by the record, wherever the wrap falls |
| `RttConcurrent.DeliveredIsAPrefix` | firmware/src/rtt.c:231-352 | Under every interleaving of the writer's and the reader's steps, what was delivered is a prefix of the records accepted |
| `RttConcurrent.UnreadIsNeverOverwritten` | firmware/src/rtt.c:262-273 | No step changes a byte that is published and not yet taken |
| `RttConcurrent.AcceptedIffRoom` | firmware/src/rtt.c:258-260 | At the writer's one look at the read offset, a record is accepted exactly when there is room for all of it |
| `RttConcurrent.ReadDelivers` | firmware/src/rtt.c:294-352 | However its copies and the writer's steps are interleaved, a completed read has delivered exactly min(pending, max) more bytes, the oldest unread in order |
| `RttConcurrent.WriteAccepts` | firmware/src/rtt.c:231-276 | However its copies and the reader's steps are interleaved, a completed write of a record there was room for has it accepted whole |
| `RttConcurrent.StepKeeps` | firmware/src/rtt.c:231-352 | Each load, copy or store keeps: unread bytes in place, the record being copied beyond them, and the bytes being read still the next accepted ones |
| `RttDigits.FmtDiv10` | firmware/src/rtt.c:493-512 | Exactly n / 10 and n % 10 for every 64-bit n, with no intermediate over 64 bits |
| `RttDigits.NearTenth` | firmware/src/rtt.c:497-507 | The shifted sum is short of a tenth by at most one |
| `RttDigits.FmtDigits` | firmware/src/rtt.c:515-552 | At most 64 digits, backwards, in bases 2, 8, 10 and 16 |
| `RttDigits.NumberDecodes` | firmware/src/rtt.c:515-552 | Those digits decode to the value, and the first is 0 only for 0 |
| `RttDigits.MaskAndShift` | firmware/src/rtt.c:543-550 | The mask and shift of the power-of-two bases divide |
| `RttFormat.Formatter.Putc` | firmware/src/rtt.c:473-478 | One character is added to the text, flushing first where the buffer is full |
| `RttFormat.Formatter.Flush` | firmware/src/rtt.c:466-471 | The text stays the same; the ring holds the chunks written to it, each whole or not at all |
| `RttFormat.Formatter.FmtNumber` | firmware/src/rtt.c:560-630 | Adds the field the flags, width and precision call for |
| `RttFormat.PrintsStandard` | firmware/src/rtt.c:560-630 | The field, sign and prefix included, is the one section 7.21.6.1 of ISO/IEC 9899:2011 describes if and only if it is not a zero-filled # octal of a nonzero value wider than its digits |
| `RttFormat.OctalLosesZeroFill` | firmware/src/rtt.c:567-604 | `%#08o` of 8 is such a value: the field begins with a space where the standard has a 0 |
| `RttFormat.WidthHeld` | firmware/src/rtt.c:607-629 | The field's length is the greater of the width and its natural length |
| `RttFormat.NumberReadsBack` | firmware/src/rtt.c:617-629 | A field is spaces on one side, the sign, the prefix and digits that decode to the value |
| `RttFormat.AllQueued` | firmware/src/rtt.c:466-478 | Where the ring has room for the whole text, all of it is queued |
| `RttPrintf.VPrintf` | firmware/src/rtt.c:681-835 | The chunks handed to the ring, of at most 64 bytes, join up to exactly the formatted text, and with room all of it is queued |
| `RttPrintf.WrittenFormatsParse` | firmware/src/rtt.c:691-754 | Any format written from literal text and conversions, with flags in any order and widths and precisions given or taken from arguments, is read back as those directives |
| `RttPrintf.ScanNext` | firmware/src/rtt.c:692-754 | One literal or conversion is read: its flags, width, precision, length and the arguments used |
| `RttPrintf.FmtString` | firmware/src/rtt.c:632-657 | At most precision characters of the string, "(null)" for none, padded to the width |
| `RttPrintf.Convert` | firmware/src/rtt.c:756-831 | What each conversion letter prints, the unsupported ones included |
| `RttPrintf.NumbersPrintStandard` | firmware/src/rtt.c:756-812 | d, i, u, o, x, X, b, B and p, letter by letter: for every argument, length, flags, width and precision the field is the standard's for that letter - its base, case, sign, prefix and digits - with the one exception of the zero-filled # octal |
| `RttPrintf.NumberConversionReadsBack` | firmware/src/rtt.c:756-812 | What each of them prints is spaces, the sign, the base's prefix, digits in the letter's case that decode in its base to the argument as its length takes it, and spaces |
| `RttPrintf.HexAndOctal` | firmware/src/rtt.c:769-776 | %x of 255 prints ff and %o of it 377 |
| `RttPrintf.StaysInStep` | firmware/src/rtt.c:691-831 | Each conversion finds the argument after those the one before it took: one for each *, and one to print, unsupported letters included, but none for % and unrecognised letters |
| `RttPrintf.StarArgument` | firmware/src/rtt.c:706-730 | A width or precision given as * is its argument as a 32-bit int |
| `RttPrintf.SignedReadsBack` | firmware/src/rtt.c:757-764 | %d of any argument and length: the sign is there exactly for a negative value, and the digits decode to its size |
| `Exclusive.ExclusiveMeansPeerPaused` | firmware/src/plugin.c:1033-1089 | In every interleaving, with FIFOs of any depth, a core between an acknowledged enter and its RESUME has the other in its interrupt-masked wait |
| `Exclusive.NeverBothExclusive` | firmware/src/plugin.c:1033-1089 | The two cores are never exclusive together |
| `Exclusive.OnlyResumeWakes` | firmware/src/plugin.c:896-930 | A paused core goes on only for the RESUME of a core that has left |
| `Exclusive.NothingUnexpected` | firmware/src/plugin.c:945-953 | ora_yield never meets a word it does not expect, and no FIFO holds more than two |
| `Exclusive.DiscardsOnlyRivalRequest` | firmware/src/plugin.c:1046-1052 | The acknowledgement loop discards a word only where both cores have requested |
| `Exclusive.EitherRequestIsGranted` | firmware/src/plugin.c:939-1052 | A request by either core, alone, to a core that yields is granted within seven rounds of turns, in any order within a round |
| `Exclusive.GrantedIffNoRival` | firmware/src/plugin.c:939-1052 | Exactly when: with its peer taking turns and yielding, a request is granted within seven rounds if and only if the peer is not requesting too |
| `Exclusive.ExitReleasesPeer` | firmware/src/plugin.c:896-1084 | Exit releases the peer: within three rounds of the turn in which either core leaves exclusive mode, both run again, unmasked, and no word is left over |
| `Exclusive.EnterToExit` | firmware/src/plugin.c:896-1084 | The whole of it: a core enters, is granted within seven rounds with its peer paused and masked, leaves, and within three more the system is as at boot |
| `Exclusive.ExclusiveUntilExit` | firmware/src/plugin.c:1033-1089 | Until it leaves, nothing either core does changes anything |
| `Exclusive.NeverOverfull` | firmware/src/plugin.c:1040-1043 | No FIFO is ever written while full |
| `Exclusive.RequestIsGranted` | firmware/src/plugin.c:939-978 | The turns core 0's request still needs go down with each round |
| `Exclusive.RivalRequestsNeverGranted` | firmware/src/plugin.c:1033-1052 | From the moment both cores have begun to request, sent or not, neither is ever granted, in any interleaving |
| `Exclusive.ExitAloneEndsInASpin` | firmware/src/plugin.c:1065-1084 | With no plugin on the other core exit still sends a RESUME nobody reads; it spins exactly from the call after the FIFO has filled |
| `Timer.Counter.TimerUs64` | firmware/src/plugin.c:352-362 | The value returned is the counter's own at one instant during the call |
| `Timer.Counter.UptimeMs` | firmware/src/plugin.c:389-396 | That value divided by 1000, modulo 2^32 |
| `Timer.MillisecondsExact` | firmware/src/plugin.c:378-396 | The 32-bit pieces add up to the 64-bit quotient modulo 2^32, and none overflows |
| `Led.Engine.Set` | firmware/src/piodma/pioled.c:933-1091 | Every refusal in its order, the whole new state of the channel, what is shown, and that the alarm covers every deadline |
| `Led.Engine.Frame` | firmware/src/piodma/pioled.c:861-896 | Each channel restored, advanced or left, what the RGB LED then shows, and that the alarm covers every deadline |
| `Led.Engine.Rearm` | firmware/src/piodma/pioled.c:681-762 | The alarm is armed exactly when something is due, never for later than any deadline, and for one of them exactly where no pin is owed |
| `Led.Engine.Restore` | firmware/src/piodma/pioled.c:765-780 | A channel takes back all it saved, and is shown |
| `Led.Engine.Advance` | firmware/src/piodma/pioled.c:783-859 | The next frame of each mode, and its pixel |
| `Led.ReturnsToBeforeTheFirst` | firmware/src/piodma/pioled.c:1002-1016 | Across any timely run of requests and frames, the end of the last hold puts back the mode, colour, brightness and period in force before the first |
| `Led.HoldEndsOnTime` | firmware/src/piodma/pioled.c:883-887 | A frame ends a hold exactly from its end on, wherever the 32-bit wrap falls |
| `Led.BeaconEnds` | firmware/src/piodma/pioled.c:987-993 | A beacon always has a hold running, and the first frame after it leaves another mode |
| `Led.EventFollows` | firmware/src/piodma/pioled.c:1049-1078 | Every request and frame keeps the wrapped deadlines those of unwrapped time, a beacon held, and a beacon never saved |
| `Led.DeadlinesNear` | firmware/src/piodma/pioled.c:698-704 | In timely runs deadlines are close enough to be compared across the wrap |
| `Led.IntervalBounds` | firmware/src/piodma/pioled.c:324-329 | Every frame interval is at least a few milliseconds and far short of a wrap; the flame's floor is never needed |
| `Led.PixelFits` | firmware/src/piodma/pioled.c:570-576 | Scaling overflows nothing and no colour spills out of its byte |
| `LedLook.ScaledIsExact` | firmware/src/piodma/pioled.c:566-572 | A colour is scaled by brightness and level together and rounded down once |
| `LedLook.FullIsTheColour` | firmware/src/piodma/pioled.c:566-576 | At full brightness and level a pixel is the colour itself, green first |
| `LedLook.BrighterScaled` | firmware/src/piodma/pioled.c:566-572 | More brightness or level never makes a colour darker |
| `LedLook.HuesTurn` | firmware/src/piodma/pioled.c:336-351 | Every step of the hue circle has one colour full and one absent, and is within 16 of the step before in each, the last and the first included |
| `LedLook.HueQuarters` | firmware/src/piodma/pioled.c:336-351 | It turns from red through green, cyan and blue: the exact colours a quarter apart |
| `LedLook.BreatheRisesAndFalls` | firmware/src/piodma/pioled.c:353-361 | The fade rises from dark to full by 5 or 6 a step and falls the same way |
| `LedLook.OnShowsTheColour` | firmware/src/piodma/pioled.c:1002-1048 | On shows the colour asked for, at the brightness asked for or 25 percent, and red where none is given |
| `LedLook.OffIsDark` | firmware/src/piodma/pioled.c:1002-1048 | Off shows nothing, whatever colour came with it |
| `LedLook.FlameFlickers` | firmware/src/piodma/pioled.c:783-859 | A flame is lit, lit at its first frame and dark at its second |
| `LedLook.CycleAndBreathe` | firmware/src/piodma/pioled.c:783-859 | The first frame of a cycle shows the next hue, and of a breath the next level |
| `LedLook.BeaconAndBlinkAlternate` | firmware/src/piodma/pioled.c:783-859 | Beacon and blink go dark at their first frame and light at their second; a beacon has a hold |
| `LedLook.FramesAdvance` | firmware/src/piodma/pioled.c:861-896 | A frame takes every mode but off and on to its next frame |
| `LedLook.Refusals` | firmware/src/piodma/pioled.c:939-982 | Exactly which requests get which error, and in what order, by mode number |
| `LedLook.RepetitionTakesItsPeriod` | firmware/src/piodma/pioled.c:324-329 | The frames of a repetition take its period, short of a millisecond each |
| `LedLook.FlameTakesItsPeriod` | firmware/src/piodma/pioled.c:783-859 | The flame's table takes its default period exactly |
| `LedLook.DefaultPace` | firmware/src/piodma/pioled.c:285-329 | With no period given the first frame comes after the mode's own, by mode number |
| `LedLook.HoldsAsAsked` | firmware/src/piodma/pioled.c:985-1047 | A hold ends when asked, across the wrap, and a beacon that asks for none after 2.5 s |
| `LedPin.RgbLine.Write` | firmware/src/piodma/pioled.c:540-605 | The pixel asked for is the one the LED will show, sent now or held exactly where a reset is owed or being waited out |
| `LedPin.RgbLine.Service` | firmware/src/piodma/pioled.c:869-878 | A held pixel goes out once due, in its order, and the pin is handed back |
| `WrapTime.DiffExact` | firmware/src/piodma/pioled.c:783-786 | Signed 32-bit comparison tells times less than 2^31 apart right across the wrap |
| `Otp.CommissionedBoard` | firmware/src/otp.c:26-98 | The nested loops find what the recursive walk finds, reading only rows of the area |
| `Otp.WalkInstance` | firmware/src/otp.c:43-80 | The walk of one instance's entries, and where it ends |
| `Otp.LastCompleteInstanceWins` | firmware/src/otp.c:26-98 | On any area laid out by the rules, the board found is the one the last signed instance names |
| `Otp.InterruptedAppendChangesNothing` | firmware/src/otp.c:42-95 | Wherever the writing of a new instance stops before its signature's key row, the board found is the one before |
| `Otp.SignatureKeyCommits` | firmware/src/otp.c:74-85 | From the signature's key row on, the new instance is the one that counts |
| `Otp.UnsignedChangesNothing` | firmware/src/otp.c:81-85 | Instances without a signature change no answer |
| `Otp.UnsignedAppendIff` | firmware/src/otp.c:42-95 | Exactly when an instance without a signature is ignored: appended in full to any laid-out area, the board found is still the last signed one if and only if its entries do not leave a single row of the area, or there was none to find |
| `Otp.OneRowLeftExample` | firmware/src/otp.c:57-59 | An area where it fails: a commissioned instance, then one whose entries end one row short, and no board is found |
| `Otp.OneRowLeftHidesAll` | firmware/src/otp.c:57-59 | Where entries leave one row, the walk that reaches them finds no board, whatever it had found |
| `Otp.BoardMismatch` | firmware/src/otp.c:103-128 | The comparison, two bytes to a row: 1 exactly when a board is found and the metadata holds another |
| `Otp.MismatchIffNamesDiffer` | firmware/src/otp.c:103-128 | On a laid-out area, that is when the last signed instance and the metadata both name a board, and not the same one |
| `FlashPlan.PlannedIffFits` | rust/app/src/flash.rs:35-53 | An image is planned if and only if it fits, and each error is for its own case |
| `FlashPlan.StepsFit` | rust/app/src/flash.rs:36-74 | Every step stays inside one chip, and erases whole sectors |
| `FlashPlan.ImageInPlace` | rust/app/src/flash.rs:36-74 | On NOR flash a plan run to its end leaves every byte of the image in its place |
| `FlashPlan.WritesFindBlank` | rust/app/src/flash.rs:36-74 | No byte is written that is not erased |
| `FlashPlan.RestUnchanged` | rust/app/src/flash.rs:36-74 | Nothing changes but the image's bytes and the rest of their sectors, left blank |
| `FlashPlan.InterruptionIsSafe` | rust/app/src/flash.rs:21-24 | Wherever a two-chip run stops, even within a step: the second chip is untouched, or the first is blank, or the second holds its whole part |

## Left out

- DMA arbitration, and a transfer in two halves: a transfer reads SRAM for the oldest address not
  yet read and hands the word on in one step, as late as it likes, and captures arrive in order.
- FIFO depth in the PIO blocks, but for the one between the DMA and the data program (`KeepsUpIff`).
- What a host reads within an access time of a slot's being programmed or switched. Commands take
  effect between two rounds, and the cycles the two instructions executed for a switch take from the
  address program are not counted.
- Which GPIOs /BYTE, A-1 and the select and monitor programs' pins are: those programs are given what
  they read in each cycle.
- D8-D15 in byte reads, and on boards where they do not mirror D0-D7 beyond `WordsRightIffMirrored`.
- The capture ring is taken to be never lapped, as a reader too slow for the bus has no recovery.
- Clock dividers, input synchronisers and analogue timing.
- The apio assembler: the model starts from instruction lists, wrap points and register settings.
- Where the address program has fewer table bits than address pins no wrap point is set; a slot
  has at least as many.
- Forced address and data pins in the round trips, and inverted data pins on the bus: the
  operations model them, the theorems exclude them.
- How a board's X pins are found; the X-pin check of Multi slots is modelled, its round trip not.
- Unsupported algorithm numbers, null out-pointers and `offset + len` beyond 32 bits.
- Building the log's control block, channel numbers and names; writers on two cores at once, which
  the firmware does not support.
- RttConcurrent.DeliveredIsAPrefix: memory is sequentially consistent, as the barriers are there to
  make it, and the peer's offsets are honest. RttRing covers dishonest ones.
- Widths and precisions so near INT_MAX that `int` arithmetic would overflow, and a `*` width of
  INT_MIN.
- `va_list` itself: an argument is a number and a string at once, and the conversion picks.
- A core that is refused exclusive mode because its peer cannot yield: a test of metadata.
- LED reads (`pio_led_get`), the spinlock, the pin's function select, and the state machine that
  clocks a pixel out.
- How long a shared LED pin stays with the state machine after a held pixel.
- Led.ReturnsToBeforeTheFirst: frames are no later than about 24 days after a deadline, as 32-bit
  times cannot tell a later one.
- Flash sizes and board size from OTP; reading an OTP row with its error correction.
- PLL search, register set-up, USB, ADC, SWD, metadata getters and `ora_fn_lookup`: single-branch
  facts or hardware.
- Plugins and boards' own metadata: the pin maps are any that satisfy `AddrWired`, `DataWired` and
  `ActiveLow`.

/** The end-to-end law on the GPIOs themselves: which of them the host drives and reads, where the PIO
    blocks look for them, and what their input overrides make of them
    (firmware/src/piodma/piorom2.c). */
module HostPins {
  import opened Words
  import opened PinMap
  import opened RamSlots
  import opened EndToEnd
  import Backlog
  import Bus
  import Data = DataProgram

  // ---------------------------------------------------------------------------------------------
  // What the PIO reads of a GPIO
  // ---------------------------------------------------------------------------------------------

  // A pin's input after the first k entries of the override list have been set up.
  function ModeAfter(overrides: seq<nat>, gpio: nat, k: nat): Override
    requires k <= |overrides|
  {
    if k == 0 then Normal
    else
      var before, entry := ModeAfter(overrides, gpio, k - 1), overrides[k - 1];
      if entry % 0x40 != gpio then before
      else
        match entry / 0x40 % 4
        case 0 => before
        case 1 => Invert
        case 2 => Low
        case _ => High
  }

  function Mode(slot: RomSlot, gpio: nat): Override { ModeAfter(slot.overrides, gpio, |slot.overrides|) }

  // No GPIO is named twice.
  predicate NamedOnce(overrides: seq<nat>)
  {
    forall i, j :: 0 <= i < j < |overrides| ==> overrides[i] % 0x40 != overrides[j] % 0x40
  }

  lemma {:induction false} ModeOfNone(overrides: seq<nat>, gpio: nat, k: nat)
    requires k <= |overrides| && forall i :: 0 <= i < k ==> overrides[i] % 0x40 != gpio
    ensures ModeAfter(overrides, gpio, k) == Normal
  {
    if k > 0 { ModeOfNone(overrides, gpio, k - 1); }
  }

  lemma {:induction false} ModeOfOne(overrides: seq<nat>, gpio: nat, j: nat, k: nat)
    requires j < k <= |overrides| && NamedOnce(overrides) && overrides[j] % 0x40 == gpio
    ensures ModeAfter(overrides, gpio, k) == OverrideCode(overrides[j] / 0x40 % 4)
  {
    if j == k - 1 {
      ModeOfNone(overrides, gpio, j);
    } else {
      ModeOfOne(overrides, gpio, j, k - 1);
    }
  }

  // The override the mapping looks up is how the pin is set up, where none is named twice.
  lemma {:induction false} ModeIsOverride(overrides: seq<nat>, gpio: nat, i: nat)
    requires NamedOnce(overrides) && i <= |overrides|
    requires forall j :: 0 <= j < i ==> overrides[j] % 0x40 != gpio
    ensures ModeAfter(overrides, gpio, |overrides|) == OverrideFrom(overrides, gpio, i)
    decreases |overrides| - i
  {
    if i == |overrides| {
      ModeOfNone(overrides, gpio, i);
    } else if overrides[i] % 0x40 == gpio {
      ModeOfOne(overrides, gpio, i, |overrides|);
    } else {
      ModeIsOverride(overrides, gpio, i + 1);
    }
  }

  // What the PIO reads of a GPIO, the levels of all of them given.
  predicate Reads(slot: RomSlot, level: nat -> bool, gpio: nat)
  {
    match Mode(slot, gpio)
    case Normal => level(gpio)
    case Invert => !level(gpio)
    case Low => false
    case High => true
  }

  // ---------------------------------------------------------------------------------------------
  // The spans the PIO blocks read and drive
  // ---------------------------------------------------------------------------------------------

  // A PIO block sees the 32 GPIOs from 0 or from 16 on.
  function WindowBase(gpioBase: nat): nat { if gpioBase == 0 then 0 else 16 }

  // The GPIO at a position of the address span, and of the data span.
  function AddrGpio(slot: RomSlot, pos: nat): nat { WindowBase(slot.addrGpioBase) + slot.baseAddrPin + pos }

  function DataGpio(slot: RomSlot, pos: nat): nat { WindowBase(slot.dataGpioBase) + slot.baseDataPin + pos }

  // What the address program's IN PINS reads.
  predicate SpanReads(slot: RomSlot, level: nat -> bool, field: nat)
  {
    && field < Pow2(slot.numAddrPins)
    && forall pos :: 0 <= pos < slot.numAddrPins ==> (Bit(field, pos) <==> Reads(slot, level, AddrGpio(slot, pos)))
  }

  // The data program's levels are on the data span.
  predicate SpanShows(slot: RomSlot, out: nat -> bool, levels: nat)
  {
    forall pos :: 0 <= pos < slot.wordSize ==> (out(DataGpio(slot, pos)) <==> Bit(levels, pos))
  }

  // ---------------------------------------------------------------------------------------------
  // The host
  // ---------------------------------------------------------------------------------------------

  // Address line i of the chip is wired.
  predicate AddrLine(slot: RomSlot, i: nat)
  {
    i < |slot.addrPins| && forall j :: 0 <= j <= i ==> slot.addrPins[j] < GPIO_NONE
  }

  // A GPIO the first chip of a Multi set is selected by.
  predicate FirstSelect(slot: RomSlot, gpio: nat)
  {
    slot.slotType == Multi &&
    match slot.cs
    case Cs0(_, first, count) => slot.csGpioBase + first <= gpio < slot.csGpioBase + first + count
    case Cs1(ignored) =>
      var base := slot.csGpioBase + slot.baseCsPin;
      base <= gpio < base + slot.numCsPins && gpio != base + ignored
    case Cs2(_, _, _) => false
  }

  // The host drives address a: each address line carries its bit, 16-bit ROMs being addressed by
  // word; a Multi set's first chip is selected; and nothing else in the span reads 1.
  ghost predicate HostDrives(slot: RomSlot, level: nat -> bool, a: nat)
  {
    var word := if slot.wordSize == 16 then a / 2 else a;
    && (forall i: nat :: AddrLine(slot, i) ==> (level(slot.addrPins[i]) <==> Bit(word, i)))
    && (forall gpio: nat :: FirstSelect(slot, gpio) && Mode(slot, gpio) != Low ==> Reads(slot, level, gpio))
    && (forall pos :: 0 <= pos < slot.numAddrPins && IsOther(slot, AddrGpio(slot, pos)) ==>
          !Reads(slot, level, AddrGpio(slot, pos)))
  }

  predicate IsAddr(slot: RomSlot, gpio: nat)
  {
    exists i :: 0 <= i < |slot.addrPins| && AddrLine(slot, i) && slot.addrPins[i] == gpio
  }

  predicate IsOther(slot: RomSlot, gpio: nat) { !IsAddr(slot, gpio) && !FirstSelect(slot, gpio) }

  // The host reads byte b off data lines `from` to `from` + 7.
  predicate HostReadsByte(slot: RomSlot, out: nat -> bool, from: nat, b: nat)
    requires slot.Valid() && from + 8 <= slot.wordSize
  {
    b < 256 && forall d :: 0 <= d < 8 ==> HostReadsBitOf(slot, out, from, b, d)
  }

  predicate HostReadsBitOf(slot: RomSlot, out: nat -> bool, from: nat, b: nat, d: nat)
    requires slot.Valid() && from + d < slot.wordSize
  {
    slot.dataPins[from + d] < GPIO_NONE && (Bit(b, d) <==> out(slot.dataPins[from + d]))
  }

  // ---------------------------------------------------------------------------------------------
  // How a board is wired
  // ---------------------------------------------------------------------------------------------

  predicate InSpan(slot: RomSlot, gpio: nat)
  {
    AddrGpio(slot, 0) <= gpio < AddrGpio(slot, slot.numAddrPins)
  }

  // The address lines are distinct GPIOs of the span, none forced, and the select pins of a Multi
  // set's first chip are others of it.
  ghost predicate AddrGpiosWired(slot: RomSlot)
  {
    && slot.Valid() && slot.addrGpioBase in {0, 16} && slot.baseAddrPin + slot.numAddrPins <= 32
    && slot.csGpioBase + slot.baseCsPin + slot.numCsPins < 256
    && (slot.cs.Cs0? ==> slot.csGpioBase + slot.cs.firstRomCsBase + slot.cs.firstRomNumCsPins < 256)
    && NamedOnce(slot.overrides)
    && (forall i: nat :: AddrLine(slot, i) ==>
          InSpan(slot, slot.addrPins[i]) && Mode(slot, slot.addrPins[i]) in {Normal, Invert})
    && (forall i: nat, j: nat :: i < j && AddrLine(slot, i) && AddrLine(slot, j) ==>
          slot.addrPins[i] != slot.addrPins[j])
    && (forall gpio: nat :: FirstSelect(slot, gpio) ==> InSpan(slot, gpio) && !IsAddr(slot, gpio))
    && slot.numRomTableBits == slot.numAddrPins + (if slot.wordSize == 16 then 1 else 0)
    && slot.numRomTableBits < 32
  }

  // D0-D7 are distinct GPIOs, the first eight of the data span, and D8-D15 come after them.  None
  // has an override.
  predicate DataGpiosWired(slot: RomSlot)
  {
    && slot.Valid() && slot.dataGpioBase in {0, 16} && slot.baseDataPin + slot.wordSize <= 32
    && NamedOnce(slot.overrides)
    && (forall d :: 0 <= d < 8 ==> DataGpio(slot, 0) <= slot.dataPins[d] < DataGpio(slot, 8)
                                   && Mode(slot, slot.dataPins[d]) == Normal)
    && (forall c, d :: 0 <= c < d < 8 ==> slot.dataPins[c] != slot.dataPins[d])
    && (forall d :: 8 <= d < slot.wordSize && slot.dataPins[d] < GPIO_NONE ==>
          DataGpio(slot, 8) <= slot.dataPins[d] < DataGpio(slot, 16))
  }

  // ---------------------------------------------------------------------------------------------
  // From GPIOs to positions
  // ---------------------------------------------------------------------------------------------

  lemma SpanStart(slot: RomSlot)
    requires slot.addrGpioBase in {0, 16} && slot.baseAddrPin <= 32
    ensures AddrGpio(slot, 0) == slot.AddrBase() < 64
  {
  }

  lemma AddrLineAt(slot: RomSlot, i: nat)
    requires slot.Valid() && slot.addrGpioBase in {0, 16} && slot.baseAddrPin <= 32 && NamedOnce(slot.overrides)
    ensures i < |AddrLines(slot)| <==> AddrLine(slot, i)
    ensures AddrLine(slot, i) && AddrGpio(slot, 0) <= slot.addrPins[i] ==>
      AddrLines(slot)[i] == Pin(slot.addrPins[i] - AddrGpio(slot, 0), Mode(slot, slot.addrPins[i]))
  {
    SpanStart(slot);
    if i < |slot.addrPins| { ModeIsOverride(slot.overrides, slot.addrPins[i], 0); }
  }

  // The GPIO of a select line of the mapping.
  predicate SelectLineIs(slot: RomSlot, line: Line, gpio: nat)
  {
    line.Pin? && (InSpan(slot, gpio) ==> line == Pin(gpio - AddrGpio(slot, 0), Mode(slot, gpio)))
  }

  lemma CsLineAt(slot: RomSlot, gpio: nat)
    requires slot.addrGpioBase in {0, 16} && slot.baseAddrPin + slot.numAddrPins <= 32 && NamedOnce(slot.overrides)
    ensures SelectLineIs(slot, CsLine(slot, gpio), gpio)
  {
    SpanStart(slot);
    ModeIsOverride(slot.overrides, gpio, 0);
  }

  function FirstCs(slot: RomSlot): nat
  {
    slot.csGpioBase + if slot.cs.Cs0? then slot.cs.firstRomCsBase else slot.baseCsPin
  }

  function CsGpioOf(slot: RomSlot, j: nat): nat { FirstCs(slot) + j }

  lemma NoWrap(x: nat)
    requires x < 256
    ensures x % 256 == x
  {
  }

  // The mapping's select lines, one for each GPIO from the first on.
  lemma SelectLines(slot: RomSlot)
    requires AddrGpiosWired(slot) && slot.slotType == Multi && !slot.cs.Cs2?
    ensures |MultiCsLines(slot)| == if slot.cs.Cs0? then slot.cs.firstRomNumCsPins else slot.numCsPins
    ensures forall j :: 0 <= j < |MultiCsLines(slot)| ==>
      MultiCsLines(slot)[j]
      == if slot.cs.Cs1? && j == slot.cs.csIgnoreIndex then Absent else CsLine(slot, CsGpioOf(slot, j))
  {
    NoWrap(FirstCs(slot));
    NoWrap(FirstCs(slot) + if slot.cs.Cs0? then slot.cs.firstRomNumCsPins else slot.numCsPins);
    if slot.cs.Cs1? {
      forall j | 0 <= j < slot.numCsPins
        ensures CsGpioOf(slot, j) % 256 == CsGpioOf(slot, j)
      {
        NoWrap(CsGpioOf(slot, j));
      }
    }
  }

  // Select line j of the mapping is a select GPIO's, and each has one.
  lemma SelectLineAt(slot: RomSlot, j: nat)
    requires AddrGpiosWired(slot) && j < |MultiCsLines(slot)| && MultiCsLines(slot)[j].Pin?
    ensures FirstSelect(slot, CsGpioOf(slot, j)) && SelectLineIs(slot, MultiCsLines(slot)[j], CsGpioOf(slot, j))
  {
    SelectLines(slot);
    CsLineAt(slot, CsGpioOf(slot, j));
  }

  lemma SelectGpioAt(slot: RomSlot, gpio: nat)
    requires AddrGpiosWired(slot) && FirstSelect(slot, gpio)
    ensures FirstCs(slot) <= gpio && gpio - FirstCs(slot) < |MultiCsLines(slot)|
    ensures SelectLineIs(slot, MultiCsLines(slot)[gpio - FirstCs(slot)], gpio)
  {
    SelectLines(slot);
    CsLineAt(slot, gpio);
  }

  lemma WiredLines(slot: RomSlot)
    requires AddrGpiosWired(slot)
    ensures Distinct(AddrLines(slot)) && Unforced(AddrLines(slot)) && Within(AddrLines(slot), slot.numAddrPins)
  {
    forall i | 0 <= i < |AddrLines(slot)|
      ensures AddrLine(slot, i)
      ensures AddrLines(slot)[i] == Pin(slot.addrPins[i] - AddrGpio(slot, 0), Mode(slot, slot.addrPins[i]))
    {
      AddrLineAt(slot, i);
    }
  }

  lemma WiredSelects(slot: RomSlot)
    requires AddrGpiosWired(slot)
    ensures Within(MultiCsLines(slot), slot.numAddrPins) && Apart(AddrLines(slot), MultiCsLines(slot))
  {
    var lines, cs := AddrLines(slot), MultiCsLines(slot);
    forall j | 0 <= j < |cs| && cs[j].Pin?
      ensures cs[j].pos < slot.numAddrPins
    {
      SelectLineAt(slot, j);
    }
    forall i, j | 0 <= i < |lines| && 0 <= j < |cs| && lines[i].Pin? && cs[j].Pin?
      ensures lines[i].pos != cs[j].pos
    {
      AddrLineAt(slot, i);
      SelectLineAt(slot, j);
      assert AddrLine(slot, i) && !IsAddr(slot, CsGpioOf(slot, j));
    }
  }

  // A board wired so is one the mapping's theorems are about.
  lemma WiredIsAddrWired(slot: RomSlot)
    requires AddrGpiosWired(slot)
    ensures AddrWired(slot)
  {
    WiredLines(slot);
    WiredSelects(slot);
  }

  // ---------------------------------------------------------------------------------------------
  // The field the address program reads
  // ---------------------------------------------------------------------------------------------

  lemma DrivesAtLine(slot: RomSlot, pos: nat, bits: nat, i: nat)
    requires i < |AddrLines(slot)| && Distinct(AddrLines(slot)) && AddrLines(slot)[i].pos == pos
    requires forall j :: 0 <= j < |MultiCsLines(slot)| ==> !SelectsAt(MultiCsLines(slot)[j], pos)
    ensures DrivesAt(slot, pos, bits) <==> Level(AddrLines(slot)[i].over, Bit(bits, i))
  {
  }

  lemma AddrPinDrives(slot: RomSlot, level: nat -> bool, a: nat, pos: nat, i: nat)
    requires AddrGpiosWired(slot) && HostDrives(slot, level, a) && pos < slot.numAddrPins
    requires AddrLine(slot, i) && slot.addrPins[i] == AddrGpio(slot, pos)
    ensures DrivesAt(slot, pos, AddrBits(slot, a)) <==> Reads(slot, level, AddrGpio(slot, pos))
  {
    AddrLineAt(slot, i);
    WiredLines(slot);
    forall j | 0 <= j < |MultiCsLines(slot)|
      ensures !SelectsAt(MultiCsLines(slot)[j], pos)
    {
      if MultiCsLines(slot)[j].Pin? {
        SelectLineAt(slot, j);
        assert !IsAddr(slot, CsGpioOf(slot, j));
      }
    }
    DrivesAtLine(slot, pos, AddrBits(slot, a), i);
  }

  lemma SelectPinDrives(slot: RomSlot, level: nat -> bool, a: nat, pos: nat)
    requires AddrGpiosWired(slot) && HostDrives(slot, level, a) && pos < slot.numAddrPins
    requires FirstSelect(slot, AddrGpio(slot, pos))
    ensures DrivesAt(slot, pos, AddrBits(slot, a)) <==> Reads(slot, level, AddrGpio(slot, pos))
  {
    var lines, cs, gpio := AddrLines(slot), MultiCsLines(slot), AddrGpio(slot, pos);
    SelectGpioAt(slot, gpio);
    assert cs[gpio - FirstCs(slot)] == Pin(pos, Mode(slot, gpio));
    WiredSelects(slot);
    assert Mode(slot, gpio) != Low ==> SelectsAt(cs[gpio - FirstCs(slot)], pos);
    forall j | 0 <= j < |cs| && SelectsAt(cs[j], pos)
      ensures Mode(slot, gpio) != Low
    {
      SelectLineAt(slot, j);
      assert CsGpioOf(slot, j) == gpio;
    }
  }

  lemma OtherPinDrives(slot: RomSlot, a: nat, pos: nat)
    requires AddrGpiosWired(slot) && pos < slot.numAddrPins && IsOther(slot, AddrGpio(slot, pos))
    ensures !DrivesAt(slot, pos, AddrBits(slot, a))
  {
    var lines, cs := AddrLines(slot), MultiCsLines(slot);
    forall i | 0 <= i < |lines|
      ensures lines[i].pos != pos
    {
      AddrLineAt(slot, i);
      assert AddrLine(slot, i);
    }
    forall j | 0 <= j < |cs|
      ensures !SelectsAt(cs[j], pos)
    {
      if cs[j].Pin? { SelectLineAt(slot, j); }
    }
  }

  // While the host drives address a, the address program reads exactly its table index.
  lemma HostFieldIsMapped(slot: RomSlot, level: nat -> bool, field: nat, a: nat)
    requires AddrGpiosWired(slot) && HostDrives(slot, level, a) && SpanReads(slot, level, field)
    ensures AddrWired(slot) && Drives(slot, field, a) && field == SpanWord(slot, AddrBits(slot, a))
  {
    WiredIsAddrWired(slot);
    forall pos | 0 <= pos < slot.numAddrPins
      ensures Bit(field, pos) <==> DrivesAt(slot, pos, AddrBits(slot, a))
    {
      var gpio := AddrGpio(slot, pos);
      if IsAddr(slot, gpio) {
        var i :| 0 <= i < |slot.addrPins| && AddrLine(slot, i) && slot.addrPins[i] == gpio;
        AddrPinDrives(slot, level, a, pos, i);
      } else if FirstSelect(slot, gpio) {
        SelectPinDrives(slot, level, a, pos);
      } else {
        OtherPinDrives(slot, a, pos);
      }
    }
    DrivenPinsAreMapped(slot, field, a);
  }

  // ---------------------------------------------------------------------------------------------
  // The byte the host reads
  // ---------------------------------------------------------------------------------------------

  lemma DataLineAt(slot: RomSlot, d: nat)
    requires DataGpiosWired(slot) && d < slot.wordSize && slot.dataPins[d] < GPIO_NONE
    ensures DataGpio(slot, 0) <= slot.dataPins[d] < DataGpio(slot, slot.wordSize)
    ensures DataLines(slot)[d] == Pin(slot.dataPins[d] - DataGpio(slot, 0), Mode(slot, slot.dataPins[d]))
  {
    ModeIsOverride(slot.overrides, slot.dataPins[d], 0);
  }

  lemma WiredIsDataWired(slot: RomSlot)
    requires DataGpiosWired(slot)
    ensures DataWired(slot) && DataUnoverridden(slot)
  {
    var lines := DataLines(slot);
    forall d | 0 <= d < slot.wordSize && lines[d].Pin?
      ensures lines[d] == Pin(slot.dataPins[d] - DataGpio(slot, 0), Mode(slot, slot.dataPins[d]))
      ensures if d < 8 then lines[d].pos < 8 else lines[d].pos >= 8
    {
      DataLineAt(slot, d);
    }
    forall d | 0 <= d < 8
      ensures lines[..8][d] == Pin(slot.dataPins[d] - DataGpio(slot, 0), Normal)
    {
      assert slot.dataPins[d] < GPIO_NONE && lines[d].Pin? && lines[..8][d] == lines[d];
    }
  }

  // What the host reads off the GPIOs is what it reads off the data program's levels.
  lemma HostReadsLevels(slot: RomSlot, out: nat -> bool, levels: nat, from: nat, b: nat)
    requires DataGpiosWired(slot) && SpanShows(slot, out, levels) && from + 8 <= slot.wordSize
    ensures HostReadsByte(slot, out, from, b) <==> HostReads(slot, levels, from, b)
  {
    forall d | 0 <= d < 8
      ensures HostReadsBit(slot, levels, from, b, d) <==> HostReadsBitOf(slot, out, from, b, d)
    {
      if slot.dataPins[from + d] < GPIO_NONE {
        DataLineAt(slot, from + d);
        assert slot.dataPins[from + d] == DataGpio(slot, DataLines(slot)[from + d].pos);
      }
    }
  }

  // D8-D15 are wired eight GPIOs after D0-D7.
  predicate HighGpiosMirror(slot: RomSlot)
    requires slot.Valid() && slot.wordSize == 16
  {
    forall d :: 0 <= d < 8 ==> MirrorsGpio(slot.dataPins[d], slot.dataPins[8 + d])
  }

  predicate MirrorsGpio(low: nat, high: nat) { high < GPIO_NONE && high == low + 8 }

  lemma MirrorsByGpio(slot: RomSlot)
    requires DataGpiosWired(slot) && slot.wordSize == 16 && HighGpiosMirror(slot)
    ensures HighMirrored(slot)
  {
    forall d | 0 <= d < 8
      ensures MirrorsLine(DataLines(slot)[d], DataLines(slot)[8 + d])
    {
      assert MirrorsGpio(slot.dataPins[d], slot.dataPins[8 + d]);
      DataLineAt(slot, d);
      DataLineAt(slot, 8 + d);
    }
  }

  // ---------------------------------------------------------------------------------------------
  // End to end
  // ---------------------------------------------------------------------------------------------

  // However long the programs have run, and whatever was programmed, switched and read meanwhile: a
  // host that holds the GPIOs of address a for the access time reads, on the GPIOs of its data lines,
  // exactly the bytes last programmed there in the slot last made active.
  lemma HostReadsGpios(board: Board, sram: seq<nat>, delay: nat, data: Data.DataAlg, eras: seq<Era>,
                       level: nat -> bool, held: Bus.Held, a: nat, out: nat -> bool, b: nat, rounds: nat)
    requires board.Fits(|sram|) && AddrGpiosWired(board.slot) && DataGpiosWired(board.slot)
    requires board.slot.numAddrPins > 0 && DataFor(board.slot, data)
    requires ByteCommands(AllCommands(eras)) && Bytes(sram)
    requires HostDrives(board.slot, level, a) && SpanReads(board.slot, level, held.addr.field)
    requires AddrAlgOf(board.slot, delay).Period() >= Backlog.Each(data)
    requires var s := SettingAfter(board, sram, AllCommands(eras), delay, data);
      && rounds >= Backlog.AccessTime(s) && Programs(board, sram, data)
      && SpanShows(board.slot, out, Bus.Rounds(s, Live(board, sram, delay, data, eras), held, rounds).data.pins)
    ensures HostReadsByte(board.slot, out, 0, b)
       <==> b == ByteServed(board, sram, AllCommands(eras), AddressSeen(board.slot, data, a, held.data))
    ensures SeesWord(board.slot, data, held.data) && HighGpiosMirror(board.slot) ==>
              (HostReadsByte(board.slot, out, 8, b)
               <==> b == ByteServed(board, sram, AllCommands(eras), EvenAddr(board.slot, a) + 1))
  {
    var s := SettingAfter(board, sram, AllCommands(eras), delay, data);
    var levels := Bus.Rounds(s, Live(board, sram, delay, data, eras), held, rounds).data.pins;
    WiredIsDataWired(board.slot);
    HostFieldIsMapped(board.slot, level, held.addr.field, a);
    HostReadsInAccessTime(board, sram, delay, data, eras, held, a, b, rounds);
    HostReadsLevels(board.slot, out, levels, 0, b);
    if SeesWord(board.slot, data, held.data) && HighGpiosMirror(board.slot) {
      MirrorsByGpio(board.slot);
      HostReadsLevels(board.slot, out, levels, 8, b);
    }
  }

  // ---------------------------------------------------------------------------------------------
  // Which captures are refused
  // ---------------------------------------------------------------------------------------------

  // A GPIO whose level says whether the chip is selected, and the one it reads when it is.
  predicate SelectGpio(slot: RomSlot, gpio: nat)
  {
    var base := slot.csGpioBase + slot.baseCsPin;
    match slot.cs
    case Cs0(_, first, count) =>
      if slot.slotType == Multi then slot.csGpioBase + first <= gpio < slot.csGpioBase + first + count
      else base <= gpio < base + slot.numCsPins
    case Cs1(ignored) => base <= gpio < base + slot.numCsPins && gpio != base + ignored
    case Cs2(_, _, _) => gpio == base
  }

  predicate ActiveHigh(slot: RomSlot) { slot.cs.Cs0? && slot.cs.serveCsLow0 == 1 }

  // The qualifier pins read the deselect pattern.
  predicate AtDeselectPattern(slot: RomSlot, level: nat -> bool)
  {
    slot.cs.Cs2? && slot.cs.qualifierInactivePattern < Pow2(slot.cs.numQualifierPins)
    && forall q :: 0 <= q < slot.cs.numQualifierPins ==> QualifierReads(slot, level, q)
  }

  predicate QualifierReads(slot: RomSlot, level: nat -> bool, q: nat)
    requires slot.cs.Cs2?
  {
    Reads(slot, level, QualifierGpio(slot, q)) <==> Bit(slot.cs.qualifierInactivePattern, q)
  }

  function QualifierGpio(slot: RomSlot, q: nat): nat
    requires slot.cs.Cs2?
  {
    slot.csGpioBase + slot.cs.baseQualifierPin + q
  }

  // An X pin, and the chips of a Multi set it selects, are at this position of the span.
  predicate XReads(slot: RomSlot, level: nat -> bool, i: nat)
    requires i < |slot.xPins|
  {
    Reads(slot, level, AddrGpio(slot, slot.xPins[i]))
  }

  // The span holds every control pin.
  ghost predicate ControlsInSpan(slot: RomSlot)
  {
    && slot.Valid() && slot.addrGpioBase in {0, 16} && slot.baseAddrPin + slot.numAddrPins <= 32
    && slot.csGpioBase + slot.baseCsPin + slot.numCsPins < 256 && NamedOnce(slot.overrides)
    && (slot.cs.Cs0? ==> slot.cs.serveCsLow0 <= 1
                         && slot.csGpioBase + slot.cs.firstRomCsBase + slot.cs.firstRomNumCsPins < 256)
    && (slot.cs.Cs2? ==> slot.cs.numQualifierPins < 32
                         && AddrGpio(slot, 0) <= QualifierGpio(slot, 0)
                         && QualifierGpio(slot, slot.cs.numQualifierPins) <= AddrGpio(slot, slot.numAddrPins))
    && (forall gpio: nat :: SelectGpio(slot, gpio) ==> InSpan(slot, gpio))
    && (forall i :: 0 <= i < |slot.xPins| ==> slot.xPins[i] < slot.numAddrPins)
  }

  // Why a capture is not of an access to the first chip.
  ghost predicate NotSelected(slot: RomSlot, level: nat -> bool)
  {
    || (exists gpio: nat :: SelectGpio(slot, gpio) && Reads(slot, level, gpio) != ActiveHigh(slot))
    || (slot.cs.Cs0? && slot.slotType == Multi && exists i :: 0 <= i < |slot.xPins| && XReads(slot, level, i))
    || AtDeselectPattern(slot, level)
  }

  lemma SpanBit(slot: RomSlot, level: nat -> bool, word: nat, gpio: nat)
    requires SpanReads(slot, level, word) && InSpan(slot, gpio)
    ensures Bit(word, gpio - AddrGpio(slot, 0)) <==> Reads(slot, level, gpio)
  {
    assert gpio == AddrGpio(slot, gpio - AddrGpio(slot, 0));
  }

  lemma LineReadsGpio(slot: RomSlot, level: nat -> bool, word: nat, gpio: nat, expected: nat)
    requires ControlsInSpan(slot) && SpanReads(slot, level, word) && InSpan(slot, gpio) && expected <= 1
    ensures LineReads(CsLine(slot, gpio), word, expected) <==> (Reads(slot, level, gpio) <==> expected == 1)
  {
    CsLineAt(slot, gpio);
    SpanBit(slot, level, word, gpio);
  }

  function CheckBase(slot: RomSlot): nat
  {
    slot.csGpioBase + if slot.cs.Cs0? && slot.slotType == Multi then slot.cs.firstRomCsBase else slot.baseCsPin
  }

  function CheckGpio(slot: RomSlot, i: nat): nat { CheckBase(slot) + i }

  // The select lines looked at are those GPIOs'.
  lemma Cs0Checked(slot: RomSlot, level: nat -> bool, word: nat)
    requires ControlsInSpan(slot) && SpanReads(slot, level, word) && slot.cs.Cs0?
    ensures LinesRead(Cs0Lines(slot), word, slot.cs.serveCsLow0)
       <==> forall gpio: nat :: SelectGpio(slot, gpio) ==> Reads(slot, level, gpio) == ActiveHigh(slot)
  {
    var lines := Cs0Lines(slot);
    forall i | 0 <= i < |lines|
      ensures SelectGpio(slot, CheckGpio(slot, i)) && lines[i] == CsLine(slot, CheckGpio(slot, i))
      ensures LineReads(lines[i], word, slot.cs.serveCsLow0)
         <==> Reads(slot, level, CheckGpio(slot, i)) == ActiveHigh(slot)
    {
      NoWrap(CheckBase(slot));
      NoWrap(CheckGpio(slot, i));
      LineReadsGpio(slot, level, word, CheckGpio(slot, i), slot.cs.serveCsLow0);
    }
    forall gpio: nat | SelectGpio(slot, gpio)
      ensures CheckBase(slot) <= gpio && gpio == CheckGpio(slot, gpio - CheckBase(slot))
    {
    }
  }

  lemma Cs1Checked(slot: RomSlot, level: nat -> bool, word: nat)
    requires ControlsInSpan(slot) && SpanReads(slot, level, word) && slot.cs.Cs1?
    ensures LinesRead(Cs1Lines(slot), word, 0)
       <==> forall gpio: nat :: SelectGpio(slot, gpio) ==> !Reads(slot, level, gpio)
  {
    var lines := Cs1Lines(slot);
    forall i | 0 <= i < |lines| && lines[i].Pin?
      ensures SelectGpio(slot, CheckGpio(slot, i)) && lines[i] == CsLine(slot, CheckGpio(slot, i))
      ensures LineReads(lines[i], word, 0) <==> !Reads(slot, level, CheckGpio(slot, i))
    {
      NoWrap(CheckBase(slot));
      NoWrap(CheckGpio(slot, i));
      LineReadsGpio(slot, level, word, CheckGpio(slot, i), 0);
    }
    forall gpio: nat | SelectGpio(slot, gpio)
      ensures CheckBase(slot) <= gpio && gpio == CheckGpio(slot, gpio - CheckBase(slot))
    {
    }
  }

  lemma FieldBit(word: nat, shift: nat, n: nat, q: nat)
    ensures Shr(word, shift) % Pow2(n) < Pow2(n)
    ensures q < n ==> (Bit(Shr(word, shift) % Pow2(n), q) <==> Bit(word, q + shift))
  {
    LowBits(Shr(word, shift), n, q);
    ShiftedBits(word, shift, q);
  }

  lemma OffsetIs(gpio: nat, base: nat)
    requires base <= gpio < 256
    ensures Offset8(gpio % 256, base) == gpio - base
  {
    NoWrap(gpio);
    NoWrap(gpio - base);
  }

  lemma QualifierShift(slot: RomSlot, word: nat)
    requires slot.cs.Cs2? && slot.cs.numQualifierPins < 32 && slot.addrGpioBase in {0, 16} && slot.baseAddrPin <= 32
    requires AddrGpio(slot, 0) <= QualifierGpio(slot, 0) < 256
    ensures QualifierField(slot, word)
         == Shr(word, QualifierGpio(slot, 0) - AddrGpio(slot, 0)) % Pow2(slot.cs.numQualifierPins)
  {
    SpanStart(slot);
    OffsetIs(QualifierGpio(slot, 0), slot.AddrBase());
  }

  lemma QualifierBits(slot: RomSlot, level: nat -> bool, word: nat, q: nat)
    requires ControlsInSpan(slot) && SpanReads(slot, level, word) && slot.cs.Cs2?
    ensures QualifierField(slot, word) < Pow2(slot.cs.numQualifierPins)
    ensures q < slot.cs.numQualifierPins ==>
              (Bit(QualifierField(slot, word), q) <==> Reads(slot, level, QualifierGpio(slot, q)))
  {
    QualifierShift(slot, word);
    FieldBit(word, QualifierGpio(slot, 0) - AddrGpio(slot, 0), slot.cs.numQualifierPins, q);
    if q < slot.cs.numQualifierPins { SpanBit(slot, level, word, QualifierGpio(slot, q)); }
  }

  lemma QualifierChecked(slot: RomSlot, level: nat -> bool, word: nat)
    requires ControlsInSpan(slot) && SpanReads(slot, level, word) && slot.cs.Cs2?
    ensures QualifierField(slot, word) == slot.cs.qualifierInactivePattern <==> AtDeselectPattern(slot, level)
  {
    var pattern, field := slot.cs.qualifierInactivePattern, QualifierField(slot, word);
    QualifierBits(slot, level, word, 0);
    forall q | 0 <= q < slot.cs.numQualifierPins
      ensures QualifierReads(slot, level, q) <==> (Bit(field, q) <==> Bit(pattern, q))
    {
      QualifierBits(slot, level, word, q);
    }
    if AtDeselectPattern(slot, level) { SameBits(field, pattern, slot.cs.numQualifierPins); }
  }

  // A capture is refused exactly where a select pin, an X pin or the qualifiers say that the first
  // chip was not the one selected.
  lemma RefusedPinByPin(slot: RomSlot, level: nat -> bool, word: nat)
    requires ControlsInSpan(slot) && SpanReads(slot, level, word)
    ensures Observed(slot, word, true) == ControlPinActive <==> NotSelected(slot, level)
  {
    match slot.cs {
      case Cs0(_, _, _) =>
        Cs0Checked(slot, level, word);
        forall i | 0 <= i < |slot.xPins|
          ensures Bit(word, slot.xPins[i]) <==> XReads(slot, level, i)
        {
          SpanBit(slot, level, word, AddrGpio(slot, slot.xPins[i]));
        }
      case Cs1(_) =>
        Cs1Checked(slot, level, word);
      case Cs2(_, _, _) =>
        var gpio := slot.csGpioBase + slot.baseCsPin;
        NoWrap(gpio);
        assert SelectGpio(slot, gpio);
        LineReadsGpio(slot, level, word, gpio, 0);
        QualifierChecked(slot, level, word);
    }
  }

  // A four-byte ROM seen through the window from GPIO 16, as the 40-pin boards are: A0 on GPIO 19, A1
  // on GPIO 20 inverted, and D0 on GPIO 15 down to D7 on GPIO 8.
  function HighWindowSlot(): RomSlot
  {
    RomSlot(Single, 16, 3, 2, 2, 0, 8, 8, Cs0(0, 0, 0), 0, 7, 1,
            [19, 20] + seq(22, _ => GPIO_NONE), [15, 14, 13, 12, 11, 10, 9, 8] + seq(8, _ => GPIO_NONE),
            [0x54], [])
  }

  lemma HighWindowModes(gpio: nat)
    ensures Mode(HighWindowSlot(), gpio) == if gpio == 20 then Invert else Normal
  {
    assert HighWindowSlot().overrides[0] == 1 * 0x40 + 20;
    assert ModeAfter(HighWindowSlot().overrides, gpio, 0) == Normal;
  }

  lemma HighWindowLine(i: nat)
    ensures AddrLine(HighWindowSlot(), i) <==> i < 2
    ensures HighWindowSlot().addrPins[0] == 19 && HighWindowSlot().addrPins[1] == 20
  {
    assert HighWindowSlot().addrPins[2] == GPIO_NONE;
  }

  lemma HighWindowData(d: nat)
    requires d < 8
    ensures HighWindowSlot().dataPins[d] == 15 - d && Mode(HighWindowSlot(), 15 - d) == Normal
  {
    HighWindowModes(15 - d);
  }

  lemma HighWindowAddrWired()
    ensures AddrGpiosWired(HighWindowSlot())
  {
    forall i: nat
      ensures AddrLine(HighWindowSlot(), i) <==> i < 2
    {
      HighWindowLine(i);
    }
    HighWindowLine(0);
    HighWindowModes(19);
    HighWindowModes(20);
  }

  lemma HighWindowDataWired()
    ensures DataGpiosWired(HighWindowSlot())
  {
    forall d | 0 <= d < 8
      ensures HighWindowSlot().dataPins[d] == 15 - d && Mode(HighWindowSlot(), 15 - d) == Normal
    {
      HighWindowData(d);
    }
  }

  // On it a host at address 1 raises GPIO 19 and leaves GPIO 20 low.  The address program reads both
  // as 1, and that is where the byte at address 1 is stored.
  lemma HighWindowReads(level: nat -> bool)
    requires forall gpio: nat :: level(gpio) <==> gpio == 19
    ensures SpanReads(HighWindowSlot(), level, 3) && HostDrives(HighWindowSlot(), level, 1)
  {
    var slot := HighWindowSlot();
    assert Bit(3, 0) && Bit(3, 1) && Bit(1, 0) && !Bit(1, 1) && Pow2(2) == 4;
    forall i: nat
      ensures AddrLine(slot, i) <==> i < 2
    {
      HighWindowLine(i);
    }
    HighWindowLine(0);
    HighWindowModes(19);
    HighWindowModes(20);
    assert AddrGpio(slot, 0) == 19 && AddrGpio(slot, 1) == 20;
    assert IsAddr(slot, 19) && IsAddr(slot, 20);
  }

  lemma HighWindowMaps(level: nat -> bool)
    requires forall gpio: nat :: level(gpio) <==> gpio == 19
    ensures AddrGpiosWired(HighWindowSlot()) && SpanReads(HighWindowSlot(), level, 3)
    ensures MapAddr(HighWindowSlot(), 1) == 3
  {
    HighWindowAddrWired();
    HighWindowReads(level);
    HostFieldIsMapped(HighWindowSlot(), level, 3, 1);
  }
}

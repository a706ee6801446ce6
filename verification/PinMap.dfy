/** How a ROM slot's logical addresses and bytes are scattered over GPIO positions, and how a
    captured GPIO word is turned back (firmware/src/piodma/pioplugin.c).

    A GPIO word, a table index and an address are unsigned words read with Words.Bit. */
module PinMap {
  import opened Words

  const GPIO_NONE: nat := 0xFF
  const MAX_ADDR_PINS: nat := 24
  const MAX_DATA_PINS: nat := 16

  datatype Override = Normal | Invert | Low | High

  datatype SlotType = Single | Multi | Banked

  datatype CsAlg =
    | Cs0(serveCsLow0: nat, firstRomCsBase: nat, firstRomNumCsPins: nat)
    | Cs1(csIgnoreIndex: nat)
    | Cs2(baseQualifierPin: nat, numQualifierPins: nat, qualifierInactivePattern: nat)

  // A slot with the algorithm configuration and first-ROM pin map it points at.  Every number is
  // a uint8_t.  xPins are the positions, in the address span, of the X pins the slot's board has.
  datatype RomSlot = RomSlot(
    slotType: SlotType,
    addrGpioBase: nat, baseAddrPin: nat, numAddrPins: nat, numRomTableBits: nat,
    dataGpioBase: nat, baseDataPin: nat, wordSize: nat,
    cs: CsAlg, csGpioBase: nat, baseCsPin: nat, numCsPins: nat,
    addrPins: seq<nat>, dataPins: seq<nat>, overrides: seq<nat>, xPins: seq<nat>)
  {
    predicate Valid()
    {
      && |addrPins| == MAX_ADDR_PINS && |dataPins| == MAX_DATA_PINS
      && (wordSize == 8 || wordSize == 16)
    }

    function AddrBase(): nat { (addrGpioBase + baseAddrPin) % 256 }

    function DataBase(): nat { (dataGpioBase + baseDataPin) % 256 }
  }

  datatype Answer = Addr(logical: nat) | ControlPinActive

  // ---------------------------------------------------------------------------------------------
  // Input overrides
  // ---------------------------------------------------------------------------------------------

  function OverrideCode(code: nat): Override
    requires code < 4
  {
    if code == 0 then Normal else if code == 1 then Invert else if code == 2 then Low else High
  }

  // The first entry that names the GPIO decides; a GPIO none names is left normal.
  function OverrideFrom(overrides: seq<nat>, gpio: nat, i: nat): Override
    requires i <= |overrides|
    decreases |overrides| - i
  {
    if i == |overrides| then Normal
    else if overrides[i] % 64 == gpio then OverrideCode(overrides[i] / 64 % 4)
    else OverrideFrom(overrides, gpio, i + 1)
  }

  function OverrideOf(slot: RomSlot, gpio: nat): Override { OverrideFrom(slot.overrides, gpio, 0) }

  method GetGpioOverride(slot: RomSlot, gpio: nat) returns (over: Override)
    ensures over == OverrideOf(slot, gpio)
  {
    for i := 0 to |slot.overrides|
      invariant OverrideFrom(slot.overrides, gpio, i) == OverrideOf(slot, gpio)
    {
      if slot.overrides[i] % 64 == gpio {
        return OverrideCode(slot.overrides[i] / 64 % 4);
      }
    }
    return Normal;
  }

  // What the PIO reads of a pin at a level.  It is also how a level is recovered from what the
  // PIO read, as far as it can be.
  predicate Level(over: Override, b: bool)
  {
    match over
    case Normal => b
    case Invert => !b
    case Low => false
    case High => true
  }

  // ---------------------------------------------------------------------------------------------
  // Scatter and gather
  // ---------------------------------------------------------------------------------------------

  // One line of an address or data bus: not wired, or at a position of the span.
  datatype Line = Absent | Pin(pos: nat, over: Override)

  // uint8_t subtraction.
  function Offset8(gpio: nat, base: nat): nat { (gpio - base) % 256 }

  function LineOf(slot: RomSlot, gpio: nat, base: nat): Line
  {
    if gpio >= GPIO_NONE then Absent else Pin(Offset8(gpio, base), OverrideOf(slot, gpio))
  }

  // Address lines stop at the first unwired entry.
  function AddrCountFrom(pins: seq<nat>, n: nat): (count: nat)
    requires n <= |pins|
    ensures n <= count <= |pins|
    ensures forall i :: n <= i < count ==> pins[i] < GPIO_NONE
    ensures count == |pins| || pins[count] >= GPIO_NONE
    decreases |pins| - n
  {
    if n == |pins| || pins[n] >= GPIO_NONE then n else AddrCountFrom(pins, n + 1)
  }

  function AddrLines(slot: RomSlot): (lines: seq<Line>)
    ensures forall i :: 0 <= i < |lines| ==> lines[i].Pin?
  {
    var count := AddrCountFrom(slot.addrPins, 0);
    seq(count, i requires 0 <= i < count => LineOf(slot, slot.addrPins[i], slot.AddrBase()))
  }

  // Unwired data lines are skipped.
  function DataLines(slot: RomSlot): seq<Line>
    requires slot.Valid()
  {
    seq(slot.wordSize,
        i requires 0 <= i < slot.wordSize => LineOf(slot, slot.dataPins[i], slot.DataBase()))
  }

  function ScatterTo(lines: seq<Line>, value: nat, k: nat): nat
    requires k <= |lines|
  {
    if k == 0 then 0
    else
      var word := ScatterTo(lines, value, k - 1);
      match lines[k - 1]
      case Absent => word
      case Pin(pos, over) => if Level(over, Bit(value, k - 1)) then SetBit(word, pos) else word
  }

  function Scatter(lines: seq<Line>, value: nat): nat { ScatterTo(lines, value, |lines|) }

  function GatherTo(lines: seq<Line>, word: nat, k: nat): nat
    requires k <= |lines|
  {
    if k == 0 then 0
    else
      var value := GatherTo(lines, word, k - 1);
      match lines[k - 1]
      case Absent => value
      case Pin(pos, over) => if Level(over, Bit(word, pos)) then SetBit(value, k - 1) else value
  }

  function Gather(lines: seq<Line>, word: nat): nat { GatherTo(lines, word, |lines|) }

  predicate Distinct(lines: seq<Line>)
  {
    forall i, j :: 0 <= i < j < |lines| && lines[i].Pin? && lines[j].Pin? ==> lines[i].pos != lines[j].pos
  }

  predicate Within(lines: seq<Line>, width: nat)
  {
    forall i :: 0 <= i < |lines| && lines[i].Pin? ==> lines[i].pos < width
  }

  predicate Unforced(lines: seq<Line>)
  {
    forall i :: 0 <= i < |lines| ==> lines[i].Pin? && lines[i].over in {Normal, Invert}
  }

  lemma {:induction false} ScatteredBit(lines: seq<Line>, value: nat, k: nat, i: nat)
    requires i < k <= |lines| && Distinct(lines) && lines[i].Pin?
    ensures Bit(ScatterTo(lines, value, k), lines[i].pos) <==> Level(lines[i].over, Bit(value, i))
  {
    if lines[k - 1].Pin? {
      SetBitBits(ScatterTo(lines, value, k - 1), lines[k - 1].pos, lines[i].pos);
    }
    if i == k - 1 {
      NotScattered(lines, value, k - 1, lines[i].pos);
    } else {
      ScatteredBit(lines, value, k - 1, i);
    }
  }

  lemma {:induction false} NotScattered(lines: seq<Line>, value: nat, k: nat, pos: nat)
    requires k <= |lines|
    requires forall i :: 0 <= i < k && lines[i].Pin? ==> lines[i].pos != pos
    ensures !Bit(ScatterTo(lines, value, k), pos)
  {
    if k == 0 {
      ZeroHasNoBits(pos);
    } else {
      NotScattered(lines, value, k - 1, pos);
      if lines[k - 1].Pin? {
        SetBitBits(ScatterTo(lines, value, k - 1), lines[k - 1].pos, pos);
      }
    }
  }

  lemma {:induction false} ScatterBound(lines: seq<Line>, value: nat, k: nat, width: nat)
    requires k <= |lines| && Within(lines, width)
    ensures ScatterTo(lines, value, k) < Pow2(width)
  {
    if k != 0 {
      ScatterBound(lines, value, k - 1, width);
      if lines[k - 1].Pin? {
        SetBitBound(ScatterTo(lines, value, k - 1), lines[k - 1].pos, width);
      }
    }
  }

  lemma {:induction false} GatheredBit(lines: seq<Line>, word: nat, k: nat, n: nat)
    requires k <= |lines|
    ensures Bit(GatherTo(lines, word, k), n)
       <==> n < k && lines[n].Pin? && Level(lines[n].over, Bit(word, lines[n].pos))
  {
    if k == 0 {
      ZeroHasNoBits(n);
    } else {
      GatheredBit(lines, word, k - 1, n);
      SetBitBits(GatherTo(lines, word, k - 1), k - 1, n);
    }
  }

  lemma {:induction false} GatherBound(lines: seq<Line>, word: nat, k: nat)
    requires k <= |lines|
    ensures GatherTo(lines, word, k) < Pow2(k)
  {
    if k != 0 {
      GatherBound(lines, word, k - 1);
      SetBitBound(GatherTo(lines, word, k - 1), k - 1, k);
    }
  }

  // Gathering from any word that agrees with a scattered one at the lines' positions gives the
  // scattered value, as far as there are lines.
  lemma GatherScatter(lines: seq<Line>, value: nat, word: nat)
    requires Distinct(lines) && Unforced(lines)
    requires forall i :: 0 <= i < |lines| ==>
      (Bit(word, lines[i].pos) <==> Bit(Scatter(lines, value), lines[i].pos))
    ensures Gather(lines, word) == value % Pow2(|lines|)
  {
    var n := |lines|;
    GatherBound(lines, word, n);
    forall i | 0 <= i < n
      ensures Bit(Gather(lines, word), i) <==> Bit(value % Pow2(n), i)
    {
      GatheredBit(lines, word, n, i);
      ScatteredBit(lines, value, n, i);
      LowBits(value, n, i);
    }
    SameBits(Gather(lines, word), value % Pow2(n), n);
  }

  // Only the low |lines| bits of a value are scattered.
  lemma {:induction false} ScatterLow(lines: seq<Line>, value: nat, k: nat, w: nat)
    requires k <= |lines| && k <= w
    ensures ScatterTo(lines, value, k) == ScatterTo(lines, value % Pow2(w), k)
  {
    if k != 0 {
      ScatterLow(lines, value, k - 1, w);
      LowBits(value, w, k - 1);
    }
  }

  // ---------------------------------------------------------------------------------------------
  // Addresses
  // ---------------------------------------------------------------------------------------------

  function CsLine(slot: RomSlot, gpio: nat): Line
  {
    Pin(Offset8(gpio, slot.AddrBase()), OverrideOf(slot, gpio))
  }

  // The chip-select pins that must read 1 for the first chip of a Multi set.
  function MultiCsLines(slot: RomSlot): seq<Line>
  {
    if slot.slotType != Multi then []
    else match slot.cs
      case Cs0(_, first, count) =>
        var base := (slot.csGpioBase + first) % 256;
        var end := (base + count) % 256;
        if end <= base then []
        else seq(end - base, i requires 0 <= i < end - base => CsLine(slot, base + i))
      case Cs1(ignore) =>
        var base := (slot.csGpioBase + slot.baseCsPin) % 256;
        seq(slot.numCsPins, i requires 0 <= i < slot.numCsPins =>
          if i == ignore then Absent else CsLine(slot, (base + i) % 256))
      case Cs2(_, _, _) => []
  }

  function MarkTo(word: nat, lines: seq<Line>, k: nat): nat
    requires k <= |lines|
  {
    if k == 0 then word
    else
      var marked := MarkTo(word, lines, k - 1);
      match lines[k - 1]
      case Absent => marked
      case Pin(pos, over) => if over == Low then marked else SetBit(marked, pos)
  }

  // The address span's pins while the host addresses `bits` on the first chip.
  function SpanWord(slot: RomSlot, bits: nat): nat
  {
    MarkTo(Scatter(AddrLines(slot), bits), MultiCsLines(slot), |MultiCsLines(slot)|)
  }

  function MapAddr(slot: RomSlot, logical: nat): nat
  {
    if slot.wordSize == 16 then 2 * SpanWord(slot, logical / 2) + logical % 2
    else SpanWord(slot, logical)
  }

  method MarkCsPin(slot: RomSlot, physical: nat, gpio: nat) returns (marked: nat)
    ensures marked == if OverrideOf(slot, gpio) == Low then physical
                      else SetBit(physical, Offset8(gpio, slot.AddrBase()))
  {
    marked := physical;
    var over := GetGpioOverride(slot, gpio);
    if over != Low {
      marked := SetBit(marked, Offset8(gpio, slot.AddrBase()));
    }
  }

  method MarkCs0Pins(slot: RomSlot, physical: nat) returns (marked: nat)
    requires slot.slotType == Multi && slot.cs.Cs0?
    ensures marked == MarkTo(physical, MultiCsLines(slot), |MultiCsLines(slot)|)
  {
    marked := physical;
    ghost var lines := MultiCsLines(slot);
    var base := (slot.csGpioBase + slot.cs.firstRomCsBase) % 256;
    var end := (base + slot.cs.firstRomNumCsPins) % 256;
    var g := base;
    while g < end
      invariant base <= g && (g <= end || end < base == g)
      invariant marked == MarkTo(physical, lines, g - base)
    {
      assert lines[g - base] == CsLine(slot, g);
      marked := MarkCsPin(slot, marked, g);
      g := g + 1;
    }
  }

  method MarkCs1Pins(slot: RomSlot, physical: nat) returns (marked: nat)
    requires slot.slotType == Multi && slot.cs.Cs1?
    ensures marked == MarkTo(physical, MultiCsLines(slot), |MultiCsLines(slot)|)
  {
    marked := physical;
    ghost var lines := MultiCsLines(slot);
    var base := (slot.csGpioBase + slot.baseCsPin) % 256;
    for i := 0 to slot.numCsPins
      invariant marked == MarkTo(physical, lines, i)
    {
      assert lines[i] == if i == slot.cs.csIgnoreIndex then Absent else CsLine(slot, (base + i) % 256);
      if i != slot.cs.csIgnoreIndex {
        marked := MarkCsPin(slot, marked, (base + i) % 256);
      }
    }
  }

  method MarkCsLines(slot: RomSlot, physical: nat) returns (marked: nat)
    ensures marked == MarkTo(physical, MultiCsLines(slot), |MultiCsLines(slot)|)
  {
    marked := physical;
    if slot.slotType == Multi {
      match slot.cs {
        case Cs0(_, _, _) => marked := MarkCs0Pins(slot, physical);
        case Cs1(_) => marked := MarkCs1Pins(slot, physical);
        case Cs2(_, _, _) =>
      }
    }
  }

  method MapAddrToPhys(slot: RomSlot, logicalAddr: nat) returns (physical: nat)
    requires slot.Valid()
    ensures physical == MapAddr(slot, logicalAddr)
  {
    var aMinus1, addrBits := 0, logicalAddr;
    if slot.wordSize == 16 {
      aMinus1 := logicalAddr % 2;
      addrBits := logicalAddr / 2;
    }
    physical := 0;
    var n := 0;
    ghost var lines := AddrLines(slot);
    while n < MAX_ADDR_PINS && slot.addrPins[n] < GPIO_NONE
      invariant n <= |lines|
      invariant physical == ScatterTo(lines, addrBits, n)
    {
      var bitPos := Offset8(slot.addrPins[n], slot.AddrBase());
      var logicalBit := Bit(addrBits, n);
      var over := GetGpioOverride(slot, slot.addrPins[n]);
      match over {
        case Normal => if logicalBit { physical := SetBit(physical, bitPos); }
        case Invert => if !logicalBit { physical := SetBit(physical, bitPos); }
        case Low =>
        case High => physical := SetBit(physical, bitPos);
      }
      n := n + 1;
    }
    physical := MarkCsLines(slot, physical);
    if slot.wordSize == 16 {
      physical := 2 * physical + aMinus1;
    }
  }

  // The X pins read 0 while the first chip is addressed.
  predicate XPinsIdle(slot: RomSlot, word: nat)
  {
    forall i :: 0 <= i < |slot.xPins| ==> !Bit(word, slot.xPins[i])
  }

  predicate LinesRead(lines: seq<Line>, word: nat, expected: nat)
  {
    forall i :: 0 <= i < |lines| && lines[i].Pin? ==> LineReads(lines[i], word, expected)
  }

  predicate LineReads(line: Line, word: nat, expected: nat)
    requires line.Pin?
  {
    match line.over
    case Low => expected == 0
    case High => expected == 1
    case _ => (if Bit(word, line.pos) then 1 else 0) == expected
  }

  function Cs0Lines(slot: RomSlot): (lines: seq<Line>)
    requires slot.cs.Cs0?
    ensures forall i :: 0 <= i < |lines| ==> lines[i].Pin?
  {
    var base := (slot.csGpioBase + if slot.slotType == Multi then slot.cs.firstRomCsBase else slot.baseCsPin) % 256;
    var count := if slot.slotType == Multi then slot.cs.firstRomNumCsPins else slot.numCsPins;
    var lines := seq(count, i requires 0 <= i < count => CsLine(slot, (base + i) % 256));
    assert forall i :: 0 <= i < count ==> lines[i] == CsLine(slot, (base + i) % 256);
    lines
  }

  function Cs1Lines(slot: RomSlot): (lines: seq<Line>)
    requires slot.cs.Cs1?
    ensures forall i :: 0 <= i < |lines| ==> (lines[i].Pin? <==> i != slot.cs.csIgnoreIndex)
  {
    var base := (slot.csGpioBase + slot.baseCsPin) % 256;
    var lines := seq(slot.numCsPins, i requires 0 <= i < slot.numCsPins =>
                       if i == slot.cs.csIgnoreIndex then Absent else CsLine(slot, (base + i) % 256));
    assert forall i :: 0 <= i < slot.numCsPins ==>
      lines[i] == if i == slot.cs.csIgnoreIndex then Absent else CsLine(slot, (base + i) % 256);
    lines
  }

  function QualifierField(slot: RomSlot, word: nat): nat
    requires slot.cs.Cs2?
  {
    var shift := Offset8((slot.csGpioBase + slot.cs.baseQualifierPin) % 256, slot.AddrBase());
    var field := Shr(word, shift);
    if slot.cs.numQualifierPins >= 32 then field else field % Pow2(slot.cs.numQualifierPins)
  }

  // A captured word in which the slot's first chip was the one selected.
  predicate Selected(slot: RomSlot, word: nat)
  {
    match slot.cs
    case Cs0(active, _, _) =>
      LinesRead(Cs0Lines(slot), word, active) && (slot.slotType == Multi ==> XPinsIdle(slot, word))
    case Cs1(_) =>
      LinesRead(Cs1Lines(slot), word, 0)
    case Cs2(_, _, pattern) =>
      && LineReads(CsLine(slot, (slot.csGpioBase + slot.baseCsPin) % 256), word, 0)
      && QualifierField(slot, word) != pattern
  }

  function Observed(slot: RomSlot, word: nat, checkControlPins: bool): Answer
  {
    if checkControlPins && !Selected(slot, word) then ControlPinActive
    else Addr(Gather(AddrLines(slot), word))
  }

  function Demangled(slot: RomSlot, word: nat, checkControlPins: bool): Answer
  {
    if slot.wordSize != 16 then Observed(slot, word, checkControlPins)
    else match Observed(slot, word / 2, checkControlPins)
      case Addr(a) => Addr(2 * a + word % 2)
      case ControlPinActive => ControlPinActive
  }

  method CheckLine(slot: RomSlot, gpio: nat, word: nat, expected: nat) returns (ok: bool)
    ensures ok == LineReads(CsLine(slot, gpio), word, expected)
  {
    var over := GetGpioOverride(slot, gpio);
    match over {
      case Low => ok := expected == 0;
      case High => ok := expected == 1;
      case _ => ok := (if Bit(word, Offset8(gpio, slot.AddrBase())) then 1 else 0) == expected;
    }
  }

  method CheckCs0Pins(slot: RomSlot, word: nat) returns (ok: bool)
    requires slot.cs.Cs0?
    ensures ok == LinesRead(Cs0Lines(slot), word, slot.cs.serveCsLow0)
  {
    ghost var lines := Cs0Lines(slot);
    var base, count := (slot.csGpioBase + slot.baseCsPin) % 256, slot.numCsPins;
    if slot.slotType == Multi {
      base, count := (slot.csGpioBase + slot.cs.firstRomCsBase) % 256, slot.cs.firstRomNumCsPins;
    }
    for i := 0 to count
      invariant forall j :: 0 <= j < i ==> LineReads(lines[j], word, slot.cs.serveCsLow0)
    {
      assert lines[i] == CsLine(slot, (base + i) % 256);
      var asExpected := CheckLine(slot, (base + i) % 256, word, slot.cs.serveCsLow0);
      if !asExpected { return false; }
    }
    return true;
  }

  method CheckCs1Pins(slot: RomSlot, word: nat) returns (ok: bool)
    requires slot.cs.Cs1?
    ensures ok == LinesRead(Cs1Lines(slot), word, 0)
  {
    ghost var lines := Cs1Lines(slot);
    var base := (slot.csGpioBase + slot.baseCsPin) % 256;
    for i := 0 to slot.numCsPins
      invariant forall j :: 0 <= j < i && lines[j].Pin? ==> LineReads(lines[j], word, 0)
    {
      if i != slot.cs.csIgnoreIndex {
        assert lines[i] == CsLine(slot, (base + i) % 256);
        var asExpected := CheckLine(slot, (base + i) % 256, word, 0);
        if !asExpected { return false; }
      }
    }
    return true;
  }

  method CheckControlPins(slot: RomSlot, word: nat) returns (ok: bool)
    ensures ok == Selected(slot, word)
  {
    match slot.cs {
      case Cs0(_, _, _) =>
        ok := CheckCs0Pins(slot, word);
        if ok && slot.slotType == Multi {
          for i := 0 to |slot.xPins|
            invariant forall j :: 0 <= j < i ==> !Bit(word, slot.xPins[j])
          {
            if Bit(word, slot.xPins[i]) { return false; }
          }
        }
      case Cs1(_) =>
        ok := CheckCs1Pins(slot, word);
      case Cs2(_, _, pattern) =>
        ok := CheckLine(slot, (slot.csGpioBase + slot.baseCsPin) % 256, word, 0);
        ok := ok && QualifierField(slot, word) != pattern;
    }
  }

  method DemangleObservedAddr(slot: RomSlot, physicalAddr: nat, checkControlPins: bool)
    returns (answer: Answer)
    requires slot.Valid()
    ensures answer == Observed(slot, physicalAddr, checkControlPins)
  {
    if checkControlPins {
      var ok := CheckControlPins(slot, physicalAddr);
      if !ok { return ControlPinActive; }
    }
    var logical, n := 0, 0;
    ghost var lines := AddrLines(slot);
    while n < MAX_ADDR_PINS && slot.addrPins[n] < GPIO_NONE
      invariant n <= |lines|
      invariant logical == GatherTo(lines, physicalAddr, n)
    {
      var physicalBit := Bit(physicalAddr, Offset8(slot.addrPins[n], slot.AddrBase()));
      var over := GetGpioOverride(slot, slot.addrPins[n]);
      match over {
        case Normal => if physicalBit { logical := SetBit(logical, n); }
        case Invert => if !physicalBit { logical := SetBit(logical, n); }
        case Low =>
        case High => logical := SetBit(logical, n);
      }
      n := n + 1;
    }
    return Addr(logical);
  }

  method DemangleAddr(slot: RomSlot, physicalAddr: nat, checkControlPins: bool)
    returns (answer: Answer)
    requires slot.Valid()
    ensures answer == Demangled(slot, physicalAddr, checkControlPins)
  {
    var aMinus1, word := 0, physicalAddr;
    if slot.wordSize == 16 {
      aMinus1, word := physicalAddr % 2, physicalAddr / 2;
    }
    answer := DemangleObservedAddr(slot, word, checkControlPins);
    if answer.Addr? && slot.wordSize == 16 {
      answer := Addr(2 * answer.logical + aMinus1);
    }
  }

  // ---------------------------------------------------------------------------------------------
  // What a board's wiring gives the maps
  // ---------------------------------------------------------------------------------------------

  // The chip's own address lines, plus A-1 where the ROM serves words.
  function ChipBits(slot: RomSlot): nat { |AddrLines(slot)| + if slot.wordSize == 16 then 1 else 0 }

  // The address pins are distinct pins of the span, none forced, and a Multi set's select pins
  // are other pins of the span.
  predicate AddrWired(slot: RomSlot)
  {
    var lines, cs := AddrLines(slot), MultiCsLines(slot);
    && slot.Valid()
    && Distinct(lines) && Unforced(lines) && Within(lines, slot.numAddrPins)
    && Within(cs, slot.numAddrPins) && Apart(lines, cs)
    && slot.numRomTableBits == slot.numAddrPins + (if slot.wordSize == 16 then 1 else 0)
    && slot.numRomTableBits < 32
  }

  predicate Apart(lines: seq<Line>, others: seq<Line>)
  {
    forall i, j :: 0 <= i < |lines| && 0 <= j < |others| && lines[i].Pin? && others[j].Pin? ==>
      lines[i].pos != others[j].pos
  }

  lemma {:induction false} MarkBound(word: nat, lines: seq<Line>, k: nat, width: nat)
    requires k <= |lines| && Within(lines, width) && word < Pow2(width)
    ensures MarkTo(word, lines, k) < Pow2(width)
  {
    if k != 0 {
      MarkBound(word, lines, k - 1, width);
      if lines[k - 1].Pin? {
        SetBitBound(MarkTo(word, lines, k - 1), lines[k - 1].pos, width);
      }
    }
  }

  lemma {:induction false} MarkKeeps(word: nat, lines: seq<Line>, k: nat, pos: nat)
    requires k <= |lines|
    requires forall i :: 0 <= i < k && lines[i].Pin? ==> lines[i].pos != pos
    ensures Bit(MarkTo(word, lines, k), pos) <==> Bit(word, pos)
  {
    if k != 0 {
      MarkKeeps(word, lines, k - 1, pos);
      if lines[k - 1].Pin? {
        SetBitBits(MarkTo(word, lines, k - 1), lines[k - 1].pos, pos);
      }
    }
  }

  lemma SpanWordGathers(slot: RomSlot, bits: nat)
    requires AddrWired(slot)
    ensures Gather(AddrLines(slot), SpanWord(slot, bits)) == bits % Pow2(|AddrLines(slot)|)
    ensures SpanWord(slot, bits) < Pow2(slot.numAddrPins)
  {
    var lines, cs := AddrLines(slot), MultiCsLines(slot);
    var word := Scatter(lines, bits);
    forall i | 0 <= i < |lines|
      ensures Bit(SpanWord(slot, bits), lines[i].pos) <==> Bit(word, lines[i].pos)
    {
      MarkKeeps(word, cs, |cs|, lines[i].pos);
    }
    GatherScatter(lines, bits, SpanWord(slot, bits));
    ScatterBound(lines, bits, |lines|, slot.numAddrPins);
    MarkBound(word, cs, |cs|, slot.numAddrPins);
  }

  // Demangling undoes mapping on every logical address of the chip, and a mapped address stays
  // inside the ROM table.
  lemma DemangleInvertsMap(slot: RomSlot, a: nat)
    requires AddrWired(slot)
    ensures Demangled(slot, MapAddr(slot, a), false) == Addr(a % Pow2(ChipBits(slot)))
    ensures MapAddr(slot, a) < Pow2(slot.numRomTableBits)
  {
    if slot.wordSize == 16 {
      var word := SpanWord(slot, a / 2);
      SpanWordGathers(slot, a / 2);
      WordAddress(a, |AddrLines(slot)|);
      assert MapAddr(slot, a) / 2 == word && MapAddr(slot, a) % 2 == a % 2;
      assert Pow2(slot.numRomTableBits) == 2 * Pow2(slot.numAddrPins);
    } else {
      SpanWordGathers(slot, a);
    }
  }

  lemma WordAddress(a: nat, n: nat)
    ensures a % Pow2(n + 1) == 2 * ((a / 2) % Pow2(n)) + a % 2
  {
    ModHalves(a, Pow2(n));
  }

  lemma MapIsInjective(slot: RomSlot, a: nat, b: nat)
    requires AddrWired(slot)
    requires a % Pow2(ChipBits(slot)) != b % Pow2(ChipBits(slot))
    ensures MapAddr(slot, a) != MapAddr(slot, b)
  {
    DemangleInvertsMap(slot, a);
    DemangleInvertsMap(slot, b);
  }

  // Address bits above the chip's own are ignored.
  lemma MapIsPeriodic(slot: RomSlot, a: nat, b: nat)
    requires AddrWired(slot)
    requires a % Pow2(ChipBits(slot)) == b % Pow2(ChipBits(slot))
    ensures MapAddr(slot, a) == MapAddr(slot, b)
  {
    var n := |AddrLines(slot)|;
    if slot.wordSize == 16 {
      ModHalves(a, Pow2(n));
      ModHalves(b, Pow2(n));
      ScatterLow(AddrLines(slot), a / 2, n, n);
      ScatterLow(AddrLines(slot), b / 2, n, n);
    } else {
      ScatterLow(AddrLines(slot), a, n, n);
      ScatterLow(AddrLines(slot), b, n, n);
    }
  }

  // ---------------------------------------------------------------------------------------------
  // Control pins
  // ---------------------------------------------------------------------------------------------

  // An unforced select pin of the span that no address line uses.
  predicate SelectLine(slot: RomSlot, line: Line)
  {
    line.Pin? ==> line.over in {Normal, Invert} && Apart(AddrLines(slot), [line])
  }

  // Single and Banked slots, selected with their pins low.
  predicate ActiveLow(slot: RomSlot)
  {
    && slot.slotType != Multi
    && match slot.cs
       case Cs0(active, _, _) =>
         active == 0 && forall i :: 0 <= i < |Cs0Lines(slot)| ==> SelectLine(slot, Cs0Lines(slot)[i])
       case Cs1(_) => forall i :: 0 <= i < |Cs1Lines(slot)| ==> SelectLine(slot, Cs1Lines(slot)[i])
       case Cs2(_, _, _) => SelectLine(slot, CsLine(slot, (slot.csGpioBase + slot.baseCsPin) % 256))
  }

  lemma SelectLineReadsLow(slot: RomSlot, line: Line, bits: nat)
    requires slot.slotType != Multi && line.Pin? && SelectLine(slot, line)
    ensures LineReads(line, SpanWord(slot, bits), 0)
  {
    var lines := AddrLines(slot);
    assert [line][0] == line;
    NotScattered(lines, bits, |lines|, line.pos);
  }

  // Under an address-qualified select, the host is at an address the chip does not serve.
  predicate Deselected(slot: RomSlot, bits: nat)
  {
    slot.cs.Cs2? && QualifierField(slot, SpanWord(slot, bits)) == slot.cs.qualifierInactivePattern
  }

  lemma SelectedWhileAddressed(slot: RomSlot, bits: nat)
    requires ActiveLow(slot)
    ensures Selected(slot, SpanWord(slot, bits)) <==> !Deselected(slot, bits)
  {
    match slot.cs
    case Cs0(_, _, _) =>
      forall i | 0 <= i < |Cs0Lines(slot)|
        ensures LineReads(Cs0Lines(slot)[i], SpanWord(slot, bits), 0)
      {
        SelectLineReadsLow(slot, Cs0Lines(slot)[i], bits);
      }
    case Cs1(_) =>
      forall i | 0 <= i < |Cs1Lines(slot)| && Cs1Lines(slot)[i].Pin?
        ensures LineReads(Cs1Lines(slot)[i], SpanWord(slot, bits), 0)
      {
        SelectLineReadsLow(slot, Cs1Lines(slot)[i], bits);
      }
    case Cs2(_, _, _) =>
      SelectLineReadsLow(slot, CsLine(slot, (slot.csGpioBase + slot.baseCsPin) % 256), bits);
  }

  function AddrBits(slot: RomSlot, a: nat): nat { if slot.wordSize == 16 then a / 2 else a }

  // With the control pins checked the round trip still holds, except that an address-qualified
  // select refuses exactly the addresses whose qualifier pins read the deselect pattern.
  lemma CheckedDemangleInvertsMap(slot: RomSlot, a: nat)
    requires AddrWired(slot) && ActiveLow(slot)
    ensures Demangled(slot, MapAddr(slot, a), true)
         == if Deselected(slot, AddrBits(slot, a)) then ControlPinActive else Addr(a % Pow2(ChipBits(slot)))
  {
    DemangleInvertsMap(slot, a);
    SelectedWhileAddressed(slot, AddrBits(slot, a));
    if slot.wordSize == 16 {
      assert MapAddr(slot, a) / 2 == SpanWord(slot, a / 2);
    }
  }

  // ---------------------------------------------------------------------------------------------
  // Data
  // ---------------------------------------------------------------------------------------------

  function MapData(slot: RomSlot, logical: nat): nat
    requires slot.Valid()
  {
    Scatter(DataLines(slot), logical)
  }

  // The byte kept in the table.
  function StoredByte(slot: RomSlot, logical: nat): nat
    requires slot.Valid()
  {
    MapData(slot, logical) % 256
  }

  // Lines above D7 cannot reach a byte.
  function DemangledByte(slot: RomSlot, stored: nat): nat
    requires slot.Valid()
  {
    GatherTo(DataLines(slot), stored, 8)
  }

  method MapDataToPhys(slot: RomSlot, logicalData: nat) returns (physical: nat)
    requires slot.Valid()
    ensures physical == MapData(slot, logicalData)
  {
    physical := 0;
    for d := 0 to slot.wordSize
      invariant physical == ScatterTo(DataLines(slot), logicalData, d)
    {
      var gpio := slot.dataPins[d];
      if gpio >= GPIO_NONE { continue; }
      var bitPos := Offset8(gpio, slot.DataBase());
      var logicalBit := Bit(logicalData, d);
      var over := GetGpioOverride(slot, gpio);
      match over {
        case Normal => if logicalBit { physical := SetBit(physical, bitPos); }
        case Invert => if !logicalBit { physical := SetBit(physical, bitPos); }
        case Low =>
        case High => physical := SetBit(physical, bitPos);
      }
    }
  }

  lemma {:induction false} SetBitAbove(x: nat, n: nat, w: nat)
    requires x < Pow2(w) && w <= n
    ensures SetBit(x, n) % Pow2(w) == x
  {
    forall i | 0 <= i < w
      ensures Bit(SetBit(x, n) % Pow2(w), i) <==> Bit(x, i)
    {
      LowBits(SetBit(x, n), w, i);
      SetBitBits(x, n, i);
    }
    SameBits(SetBit(x, n) % Pow2(w), x, w);
  }

  // uint8_t |= (1 << n)
  lemma SetBitInByte(x: nat, n: nat)
    requires x < 256
    ensures SetBit(x, n) % 256 == if n < 8 then SetBit(x, n) else x
  {
    assert Pow2(8) == 256;
    if n < 8 {
      SetBitBound(x, n, 8);
    } else {
      SetBitAbove(x, n, 8);
    }
  }

  method DemangleData(slot: RomSlot, physicalData: nat) returns (logical: nat)
    requires slot.Valid() && physicalData < 256
    ensures logical == DemangledByte(slot, physicalData) < 256
  {
    logical := 0;
    assert Pow2(8) == 256;
    for d := 0 to slot.wordSize
      invariant logical == GatherTo(DataLines(slot), physicalData, if d < 8 then d else 8) < 256
    {
      var gpio := slot.dataPins[d];
      if gpio >= GPIO_NONE { continue; }
      var physicalBit := Bit(physicalData, Offset8(gpio, slot.DataBase()));
      var over := GetGpioOverride(slot, gpio);
      SetBitInByte(logical, d);
      var withBit := SetBit(logical, d) % 256;
      match over {
        case Normal => if physicalBit { logical := withBit; }
        case Invert => if !physicalBit { logical := withBit; }
        case Low =>
        case High => logical := withBit;
      }
    }
  }

  // D0-D7 are distinct unforced pins at positions 0-7, and no higher data line shares them.
  predicate DataWired(slot: RomSlot)
  {
    && slot.Valid()
    && var lines := DataLines(slot);
       && Unforced(lines[..8]) && Distinct(lines[..8]) && Within(lines[..8], 8)
       && forall i :: 8 <= i < |lines| && lines[i].Pin? ==> lines[i].pos >= 8
  }

  // Lines at other positions leave these positions alone.
  lemma {:induction false} ScatterKeeps(lines: seq<Line>, value: nat, k: nat, n: nat, pos: nat)
    requires n <= k <= |lines|
    requires forall i :: n <= i < k && lines[i].Pin? ==> lines[i].pos != pos
    ensures Bit(ScatterTo(lines, value, k), pos) <==> Bit(ScatterTo(lines, value, n), pos)
  {
    if n < k {
      ScatterKeeps(lines, value, k - 1, n, pos);
      if lines[k - 1].Pin? {
        SetBitBits(ScatterTo(lines, value, k - 1), lines[k - 1].pos, pos);
      }
    }
  }

  lemma {:induction false} ScatterPrefix(lines: seq<Line>, value: nat, k: nat, n: nat)
    requires k <= n <= |lines|
    ensures ScatterTo(lines, value, k) == ScatterTo(lines[..n], value, k)
  {
    if k != 0 { ScatterPrefix(lines, value, k - 1, n); }
  }

  lemma {:induction false} GatherPrefix(lines: seq<Line>, word: nat, k: nat, n: nat)
    requires k <= n <= |lines|
    ensures GatherTo(lines, word, k) == GatherTo(lines[..n], word, k)
  {
    if k != 0 { GatherPrefix(lines, word, k - 1, n); }
  }

  lemma StoredBits(slot: RomSlot, b: nat, i: nat)
    requires DataWired(slot) && i < 8
    ensures var low := DataLines(slot)[..8];
            Bit(StoredByte(slot, b), low[i].pos) <==> Bit(Scatter(low, b), low[i].pos)
  {
    var lines := DataLines(slot);
    var pos := lines[..8][i].pos;
    assert Pow2(8) == 256;
    LowBits(MapData(slot, b), 8, pos);
    ScatterKeeps(lines, b, |lines|, 8, pos);
    ScatterPrefix(lines, b, 8, 8);
  }

  // A byte read back from the table is the byte that was put there.
  lemma DataRoundTrip(slot: RomSlot, b: nat)
    requires DataWired(slot) && b < 256
    ensures DemangledByte(slot, StoredByte(slot, b)) == b
  {
    var low, stored := DataLines(slot)[..8], StoredByte(slot, b);
    forall i | 0 <= i < 8
      ensures Bit(stored, low[i].pos) <==> Bit(Scatter(low, b), low[i].pos)
    {
      StoredBits(slot, b, i);
    }
    GatherScatter(low, b, stored);
    assert b % Pow2(8) == b by { assert Pow2(8) == 256; }
    GatherPrefix(DataLines(slot), stored, 8, 8);
  }
}

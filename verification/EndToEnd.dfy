/** From the address a host drives to the bytes it reads, across the slot operations, the programs
    that serve the table, and the pins. */
module EndToEnd {
  import opened Options
  import opened Words
  import opened PinMap
  import opened RamSlots
  import opened AddressProgram
  import Backlog
  import Bus
  import Data = DataProgram
  import Pio
  import Serving

  // ---------------------------------------------------------------------------------------------
  // The pins while the host drives an address
  // ---------------------------------------------------------------------------------------------

  // The span's pins, as the PIO reads them after the overrides, while the host drives address a
  // with the slot's first chip selected: each address line shows its bit, the select pins of a
  // Multi set read 1 unless forced low, and every other pin reads 0.
  predicate Drives(slot: RomSlot, field: nat, a: nat)
  {
    && field < Pow2(slot.numAddrPins)
    && forall pos :: 0 <= pos < slot.numAddrPins ==> (Bit(field, pos) <==> DrivesAt(slot, pos, AddrBits(slot, a)))
  }

  predicate DrivesAt(slot: RomSlot, pos: nat, bits: nat)
  {
    var lines, cs := AddrLines(slot), MultiCsLines(slot);
    || (exists i :: 0 <= i < |lines| && lines[i].pos == pos && Level(lines[i].over, Bit(bits, i)))
    || (exists j :: 0 <= j < |cs| && SelectsAt(cs[j], pos))
  }

  predicate SelectsAt(line: Line, pos: nat) { line.Pin? && line.pos == pos && line.over != Low }

  lemma {:induction false} ScatterBits(lines: seq<Line>, value: nat, k: nat, pos: nat)
    requires k <= |lines| && (forall i :: 0 <= i < |lines| ==> lines[i].Pin?)
    ensures Bit(ScatterTo(lines, value, k), pos)
       <==> exists i :: 0 <= i < k && lines[i].pos == pos && Level(lines[i].over, Bit(value, i))
  {
    if k == 0 {
      ZeroHasNoBits(pos);
    } else {
      ScatterBits(lines, value, k - 1, pos);
      SetBitBits(ScatterTo(lines, value, k - 1), lines[k - 1].pos, pos);
      assert Level(lines[k - 1].over, Bit(value, k - 1)) || !Level(lines[k - 1].over, Bit(value, k - 1));
    }
  }

  lemma {:induction false} MarkBits(word: nat, lines: seq<Line>, k: nat, pos: nat)
    requires k <= |lines|
    ensures Bit(MarkTo(word, lines, k), pos)
       <==> Bit(word, pos) || exists j :: 0 <= j < k && SelectsAt(lines[j], pos)
  {
    if k != 0 {
      MarkBits(word, lines, k - 1, pos);
      if lines[k - 1].Pin? {
        SetBitBits(MarkTo(word, lines, k - 1), lines[k - 1].pos, pos);
      }
      assert SelectsAt(lines[k - 1], pos) || !SelectsAt(lines[k - 1], pos);
    }
  }

  // Those pins read exactly as the table index the slot operations compute.
  lemma DrivenPinsAreMapped(slot: RomSlot, field: nat, a: nat)
    requires AddrWired(slot)
    ensures Drives(slot, field, a) <==> field == SpanWord(slot, AddrBits(slot, a))
  {
    var lines, cs, bits := AddrLines(slot), MultiCsLines(slot), AddrBits(slot, a);
    SpanWordGathers(slot, bits);
    forall pos | 0 <= pos < slot.numAddrPins
      ensures DrivesAt(slot, pos, bits) <==> Bit(SpanWord(slot, bits), pos)
    {
      ScatterBits(lines, bits, |lines|, pos);
      MarkBits(Scatter(lines, bits), cs, |cs|, pos);
    }
    if Drives(slot, field, a) {
      SameBits(field, SpanWord(slot, bits), slot.numAddrPins);
    }
  }

  // ---------------------------------------------------------------------------------------------
  // The word the address program pushes
  // ---------------------------------------------------------------------------------------------

  // The address program's settings for a slot.
  function AddrAlgOf(slot: RomSlot, delay: nat): AddrAlg
  {
    AddrAlg(slot.numRomTableBits, slot.numAddrPins, delay)
  }

  // A 16-bit slot's word has an even address, where its two bytes start.
  function EvenAddr(slot: RomSlot, a: nat): nat { if slot.wordSize == 16 then a - a % 2 else a }

  lemma ModOfSmall(x: nat, p: nat)
    requires x < p
    ensures x % p == x
  {
  }

  // A word of a prefix that fits and a span word that fits.
  lemma TableAddrJoins(alg: AddrAlg, x: nat, field: nat)
    requires alg.Valid() && x < Pow2(alg.PrefixBits()) && field < Pow2(alg.numAddrPins)
    ensures TableAddr(alg, x, field) == x * Pow2(alg.numRomTableBits) + field * Pow2(alg.ExtraBits())
  {
    ModOfSmall(x, Pow2(alg.PrefixBits()));
    ModOfSmall(field, Pow2(alg.numAddrPins));
    Pow2Adds(alg.numAddrPins, alg.ExtraBits());
    MulDistributes(x * Pow2(alg.numAddrPins), field, Pow2(alg.ExtraBits()));
    MulAssociates(x, Pow2(alg.numAddrPins), Pow2(alg.ExtraBits()));
  }

  lemma MulAssociates(x: nat, p: nat, q: nat)
    ensures x * p * q == x * (p * q)
  {
  }

  lemma OneOrTwo(x: nat, p: nat)
    ensures p == 1 ==> x * p == x
    ensures p == 2 ==> x * p == 2 * x
  {
  }

  lemma EvenAddrMaps(slot: RomSlot, a: nat)
    ensures MapAddr(slot, EvenAddr(slot, a))
         == if slot.wordSize == 16 then 2 * SpanWord(slot, AddrBits(slot, a)) else SpanWord(slot, AddrBits(slot, a))
  {
    if slot.wordSize == 16 {
      DivMod(a, 2);
      Halves(EvenAddr(slot, a), a / 2, 0);
    }
  }

  lemma MapAddrShifts(slot: RomSlot, delay: nat, a: nat)
    requires AddrWired(slot) && slot.numAddrPins > 0
    ensures SpanWord(slot, AddrBits(slot, a)) * Pow2(AddrAlgOf(slot, delay).ExtraBits())
         == MapAddr(slot, EvenAddr(slot, a))
  {
    assert Pow2(0) == 1 && Pow2(1) == 2;
    EvenAddrMaps(slot, a);
    OneOrTwo(SpanWord(slot, AddrBits(slot, a)), Pow2(AddrAlgOf(slot, delay).ExtraBits()));
  }

  // With a slot active, the pushed word is the slot's base plus the mapped address.
  lemma TableAddrIsMapped(board: Board, sramSize: nat, ramSlot: nat, delay: nat, field: nat, a: nat)
    requires board.Fits(sramSize) && ramSlot < board.SlotCount() && board.slot.numAddrPins > 0
    requires Drives(board.slot, field, a)
    ensures TableAddr(AddrAlgOf(board.slot, delay), Prefix(board, board.SlotAddr(ramSlot)), field)
         == board.SlotAddr(ramSlot) + MapAddr(board.slot, EvenAddr(board.slot, a))
  {
    DrivenPinsAreMapped(board.slot, field, a);
    ActivatedSlot(board, sramSize, ramSlot);
    TableAddrJoins(AddrAlgOf(board.slot, delay), Prefix(board, board.SlotAddr(ramSlot)), field);
    MapAddrShifts(board.slot, delay, a);
  }

  // ---------------------------------------------------------------------------------------------
  // Whole runs
  // ---------------------------------------------------------------------------------------------

  // The slot a run leaves active, from boot on, when slot 0 is.
  function LastActivated(board: Board, commands: seq<Command>): (ramSlot: nat)
    ensures ramSlot < board.SlotCount()
    decreases |commands|
  {
    if commands == [] then 0
    else
      var command := commands[|commands| - 1];
      if command.SetActive? && command.ramSlot < board.SlotCount() then command.ramSlot
      else LastActivated(board, commands[..|commands| - 1])
  }

  function Boot(board: Board, sram: seq<nat>): State
    requires board.Fits(|sram|)
  {
    State(sram, SRAM_BASE, Prefix(board, SRAM_BASE))
  }

  // The slot last activated is the one the address program is pointed at and the one reported.
  lemma {:induction false} RunServesLastActivated(board: Board, sram: seq<nat>, commands: seq<Command>)
    requires board.Fits(|sram|)
    ensures var end, ramSlot := RamSlots.Run(board, Boot(board, sram), commands), LastActivated(board, commands);
      && end.romTable == board.SlotAddr(ramSlot)
      && end.x == Prefix(board, board.SlotAddr(ramSlot))
      && ActiveSlot(board, end.romTable) == (Ok, ramSlot)
    decreases |commands|
  {
    if commands == [] {
      assert board.SlotAddr(0) == SRAM_BASE;
    } else {
      RunServesLastActivated(board, sram, commands[..|commands| - 1]);
    }
    ActivatedSlot(board, |sram|, LastActivated(board, commands));
  }

  // ---------------------------------------------------------------------------------------------
  // What a host reads off the data pins
  // ---------------------------------------------------------------------------------------------

  // A byte read off D0-D7, or off D8-D15, each at its pin's own level.
  predicate HostReads(slot: RomSlot, levels: nat, from: nat, b: nat)
    requires slot.Valid() && from + 8 <= slot.wordSize
  {
    b < 256 && forall d :: 0 <= d < 8 ==> HostReadsBit(slot, levels, from, b, d)
  }

  predicate HostReadsBit(slot: RomSlot, levels: nat, from: nat, b: nat, d: nat)
    requires slot.Valid() && from + d < slot.wordSize
  {
    HostReadsLine(DataLines(slot)[from + d], levels, b, d)
  }

  predicate HostReadsLine(line: Line, levels: nat, b: nat, d: nat)
  {
    line.Pin? && (Bit(b, d) <==> Bit(levels, line.pos))
  }

  predicate DataUnoverridden(slot: RomSlot)
    requires slot.Valid()
  {
    forall d :: 0 <= d < 8 ==> DataLines(slot)[d].Pin? && DataLines(slot)[d].over == Normal
  }

  // A host can read only one byte from given levels.
  lemma HostReadsOneByte(slot: RomSlot, levels: nat, from: nat, b: nat, c: nat)
    requires slot.Valid() && from + 8 <= slot.wordSize
    requires HostReads(slot, levels, from, b) && HostReads(slot, levels, from, c)
    ensures b == c
  {
    assert Pow2(8) == 256;
    forall d | 0 <= d < 8
      ensures Bit(b, d) <==> Bit(c, d)
    {
      assert HostReadsBit(slot, levels, from, b, d) && HostReadsBit(slot, levels, from, c, d);
    }
    SameBits(b, c, 8);
  }

  // With the data pins unoverridden, D0-D7 read as the byte demangled from the low eight levels, and
  // no other.
  lemma LowReadsDemangled(slot: RomSlot, levels: nat, b: nat)
    requires DataWired(slot) && DataUnoverridden(slot)
    ensures HostReads(slot, levels, 0, b) <==> b == DemangledByte(slot, levels % 256)
  {
    var byte := DemangledByte(slot, levels % 256);
    LowReads(slot, levels);
    if HostReads(slot, levels, 0, b) { HostReadsOneByte(slot, levels, 0, b, byte); }
  }

  lemma LowReads(slot: RomSlot, levels: nat)
    requires DataWired(slot) && DataUnoverridden(slot)
    ensures HostReads(slot, levels, 0, DemangledByte(slot, levels % 256))
  {
    var lines := DataLines(slot);
    assert Pow2(8) == 256;
    GatherBound(lines, levels % 256, 8);
    forall d | 0 <= d < 8
      ensures HostReadsBit(slot, levels, 0, DemangledByte(slot, levels % 256), d)
    {
      assert lines[..8][d] == lines[d];
      GatheredBit(lines, levels % 256, 8, d);
      LowBits(levels, 8, lines[d].pos);
    }
  }

  // D8-D15 are where D0-D7 are, eight pins on.
  predicate HighMirrored(slot: RomSlot)
    requires slot.Valid() && slot.wordSize == 16
  {
    forall d :: 0 <= d < 8 ==> MirrorsLine(DataLines(slot)[d], DataLines(slot)[8 + d])
  }

  predicate MirrorsLine(low: Line, high: Line) { low.Pin? && high.Pin? && high.pos == 8 + low.pos }

  lemma HighByteBits(lo: nat, hi: nat, pos: nat)
    requires lo < 256
    ensures Bit(lo + 0x100 * hi, 8 + pos) <==> Bit(hi, pos)
    ensures (lo + 0x100 * hi) % 256 == lo && Shr(lo + 0x100 * hi, 8) == hi
  {
    assert Pow2(8) == 256;
    ModIs(lo + 0x100 * hi, 256, hi, lo);
    ShiftedBits(lo + 0x100 * hi, 8, pos);
  }

  lemma HighReads(slot: RomSlot, lo: nat, hi: nat)
    requires DataWired(slot) && DataUnoverridden(slot) && slot.wordSize == 16 && HighMirrored(slot)
    requires lo < 256 && hi < 256
    ensures HostReads(slot, lo + 0x100 * hi, 8, DemangledByte(slot, hi))
  {
    var byte, levels := DemangledByte(slot, hi), lo + 0x100 * hi;
    LowReads(slot, hi);
    assert hi % 256 == hi;
    forall d | 0 <= d < 8
      ensures HostReadsBit(slot, levels, 8, byte, d)
    {
      assert HostReadsBit(slot, hi, 0, byte, d);
      MirroredLineReads(DataLines(slot)[d], DataLines(slot)[8 + d], lo, hi, byte, d);
    }
  }

  lemma MirroredLineReads(low: Line, high: Line, lo: nat, hi: nat, b: nat, d: nat)
    requires MirrorsLine(low, high) && lo < 256 && HostReadsLine(low, hi, b, d)
    ensures HostReadsLine(high, lo + 0x100 * hi, b, d)
  {
    HighByteBits(lo, hi, low.pos);
  }

  // Then they read as the byte demangled from the high eight levels, and no other.
  lemma HighReadsDemangled(slot: RomSlot, lo: nat, hi: nat, b: nat)
    requires DataWired(slot) && DataUnoverridden(slot) && slot.wordSize == 16 && HighMirrored(slot)
    requires lo < 256 && hi < 256
    ensures HostReads(slot, lo + 0x100 * hi, 8, b) <==> b == DemangledByte(slot, hi)
  {
    HighReads(slot, lo, hi);
    if HostReads(slot, lo + 0x100 * hi, 8, b) {
      HostReadsOneByte(slot, lo + 0x100 * hi, 8, b, DemangledByte(slot, hi));
    }
  }

  // A word of two programmed bytes, and what a host should read of its high one.
  predicate HighByteRight(slot: RomSlot, lo: nat, hi: nat)
    requires slot.Valid() && slot.wordSize == 16
  {
    HostReads(slot, StoredByte(slot, lo) + 0x100 * StoredByte(slot, hi), 8, hi)
  }

  lemma BitOfPower(d: nat, i: nat)
    ensures Bit(Pow2(d), i) <==> i == d
  {
    SetBitOfZero(d);
    SetBitBits(0, d, i);
    ZeroHasNoBits(i);
  }

  // A byte with one bit set is stored as one with one bit set, at that bit's line.
  lemma OneBitStored(slot: RomSlot, d: nat, pos: nat)
    requires DataWired(slot) && DataUnoverridden(slot) && d < 8 && pos < 8
    requires forall i :: 0 <= i < |DataLines(slot)| ==> DataLines(slot)[i].Pin?
    ensures Bit(StoredByte(slot, Pow2(d)), pos) ==> pos == DataLines(slot)[d].pos
  {
    var lines := DataLines(slot);
    assert Pow2(8) == 256;
    LowBits(MapData(slot, Pow2(d)), 8, pos);
    ScatterBits(lines, Pow2(d), |lines|, pos);
    if Bit(StoredByte(slot, Pow2(d)), pos) {
      var i :| 0 <= i < |lines| && lines[i].pos == pos && Level(lines[i].over, Bit(Pow2(d), i));
      BitOfPower(d, i);
    }
  }

  // The firmware stores the two bytes of a word the same way, so every word reads right exactly on
  // boards wired like that.
  lemma WordsRightIffMirrored(slot: RomSlot)
    requires DataWired(slot) && DataUnoverridden(slot) && slot.wordSize == 16
    requires forall i :: 0 <= i < 16 ==> DataLines(slot)[i].Pin?
    ensures (forall lo, hi :: 0 <= lo < 256 && 0 <= hi < 256 ==> HighByteRight(slot, lo, hi)) <==> HighMirrored(slot)
  {
    if HighMirrored(slot) {
      forall lo, hi | 0 <= lo < 256 && 0 <= hi < 256
        ensures HighByteRight(slot, lo, hi)
      {
        HighReadsDemangled(slot, StoredByte(slot, lo), StoredByte(slot, hi), hi);
        DataRoundTrip(slot, hi);
      }
    }
    if forall lo, hi :: 0 <= lo < 256 && 0 <= hi < 256 ==> HighByteRight(slot, lo, hi) {
      forall d | 0 <= d < 8
        ensures MirrorsLine(DataLines(slot)[d], DataLines(slot)[8 + d])
      {
        Pow2Below(d);
        assert HighByteRight(slot, 0, Pow2(d));
        LineMirrors(slot, d);
      }
    }
  }

  lemma Pow2Below(d: nat)
    requires d < 8
    ensures Pow2(d) < 256
  {
    assert Pow2(7) == 128;
    Pow2Monotone(d, 7);
  }

  // Where a word's high byte is read at D8 + d.
  lemma ReadAt(slot: RomSlot, levels: nat, b: nat, d: nat)
    requires slot.Valid() && slot.wordSize == 16 && HostReads(slot, levels, 8, b) && d < 8 && Bit(b, d)
    ensures DataLines(slot)[8 + d].Pin? && Bit(levels, DataLines(slot)[8 + d].pos)
  {
    assert HostReadsBit(slot, levels, 8, b, d);
  }

  lemma LineMirrors(slot: RomSlot, d: nat)
    requires DataWired(slot) && DataUnoverridden(slot) && slot.wordSize == 16 && d < 8
    requires forall i :: 0 <= i < 16 ==> DataLines(slot)[i].Pin?
    requires HighByteRight(slot, 0, Pow2(d))
    ensures MirrorsLine(DataLines(slot)[d], DataLines(slot)[8 + d])
  {
    var lo, hi, at := StoredByte(slot, 0), StoredByte(slot, Pow2(d)), DataLines(slot)[8 + d].pos;
    BitOfPower(d, d);
    ReadAt(slot, lo + 0x100 * hi, Pow2(d), d);
    HighByteBits(lo, hi, at - 8);
    if at >= 16 {
      assert Pow2(8) == 256;
      NoBitsAbove(hi, 8, at - 8);
    } else {
      OneBitStored(slot, d, at - 8);
    }
  }

  // A 16-bit slot with D8 and D9 the other way round.
  function CrossedPos(i: nat): nat { if i == 8 then 9 else if i == 9 then 8 else i }

  predicate Crossed(slot: RomSlot)
  {
    && slot.Valid() && slot.wordSize == 16
    && forall i :: 0 <= i < 16 ==> DataLines(slot)[i] == Pin(CrossedPos(i), Normal)
  }

  function CrossedSlot(): RomSlot
  {
    RomSlot(Single, 0, 0, 2, 3, 0, 0, 16, Cs0(0, 0, 0), 0, 16, 1,
            [16, 17] + seq(22, _ => GPIO_NONE), [0, 1, 2, 3, 4, 5, 6, 7, 9, 8, 10, 11, 12, 13, 14, 15],
            [], [])
  }

  lemma CrossedLine(i: nat)
    requires i < 16
    ensures CrossedSlot().Valid()
    ensures LineOf(CrossedSlot(), CrossedSlot().dataPins[i], CrossedSlot().DataBase()) == Pin(CrossedPos(i), Normal)
  {
    assert CrossedSlot().dataPins[i] == CrossedPos(i);
    assert Offset8(CrossedPos(i), 0) == CrossedPos(i);
  }

  lemma CrossedSlotIsCrossed()
    ensures Crossed(CrossedSlot())
  {
    forall i | 0 <= i < 16
      ensures DataLines(CrossedSlot())[i] == Pin(CrossedPos(i), Normal)
    {
      CrossedLine(i);
    }
  }

  lemma CrossedWired(slot: RomSlot)
    requires Crossed(slot)
    ensures DataWired(slot) && DataUnoverridden(slot) && (forall i :: 0 <= i < 16 ==> DataLines(slot)[i].Pin?)
  {
  }

  lemma CrossedStores(slot: RomSlot, pos: nat)
    requires Crossed(slot) && pos < 8
    ensures StoredByte(slot, 1) < 256 && (Bit(StoredByte(slot, 1), pos) <==> pos == 0)
  {
    CrossedWired(slot);
    assert Pow2(8) == 256 && Pow2(0) == 1;
    LowBits(MapData(slot, 1), 8, pos);
    ScatterBits(DataLines(slot), 1, 16, pos);
    BitOfPower(0, 0);
    assert Level(DataLines(slot)[0].over, Bit(1, 0));
    if Bit(StoredByte(slot, 1), pos) { OneBitStored(slot, 0, pos); }
  }

  // D8 + d reads 2's bit off a word whose high byte is stored as 1 is.
  lemma CrossedBit(slot: RomSlot, lo: nat, d: nat)
    requires Crossed(slot) && lo < 256 && d < 8
    ensures HostReadsLine(DataLines(slot)[8 + d], lo + 0x100 * StoredByte(slot, 1), 2, d)
  {
    var pos := if d == 0 then 1 else if d == 1 then 0 else d;
    CrossedStores(slot, pos);
    HighByteBits(lo, StoredByte(slot, 1), pos);
    assert Pow2(1) == 2;
    BitOfPower(1, d);
  }

  // On it the word 0x0100 is read as 0x0200.
  lemma CrossedMisreads(slot: RomSlot)
    requires Crossed(slot)
    ensures DataWired(slot) && DataUnoverridden(slot) && (forall i :: 0 <= i < 16 ==> DataLines(slot)[i].Pin?)
    ensures HostReads(slot, StoredByte(slot, 0) + 0x100 * StoredByte(slot, 1), 8, 2)
    ensures !HighByteRight(slot, 0, 1)
  {
    var levels := StoredByte(slot, 0) + 0x100 * StoredByte(slot, 1);
    CrossedWired(slot);
    forall d | 0 <= d < 8
      ensures HostReadsBit(slot, levels, 8, 2, d)
    {
      CrossedBit(slot, StoredByte(slot, 0), d);
    }
    if HighByteRight(slot, 0, 1) { HostReadsOneByte(slot, levels, 8, 1, 2); }
  }

  // ---------------------------------------------------------------------------------------------
  // End to end
  // ---------------------------------------------------------------------------------------------

  // The byte at logical address a of the slot active after a run: the last one programmed there,
  // or the one at boot.
  function ByteServed(board: Board, sram: seq<nat>, commands: seq<Command>, a: nat): nat
    requires board.Fits(|sram|)
  {
    var ramSlot := LastActivated(board, commands);
    SlotInSram(board, |sram|, ramSlot);
    match LastProgrammed(board, Boot(board, sram), commands, ramSlot, a)
    case Some(b) => b
    case None => LogicalByte(board.slot, sram, board.SlotOffset(ramSlot), a)
  }

  function After(board: Board, sram: seq<nat>, commands: seq<Command>): State
    requires board.Fits(|sram|)
  {
    RamSlots.Run(board, Boot(board, sram), commands)
  }

  // Where the byte at a logical address of the active slot is.
  function PlaceOf(board: Board, commands: seq<Command>, a: nat): nat
  {
    board.SlotOffset(LastActivated(board, commands)) + MapAddr(board.slot, a)
  }

  lemma StoredThere(board: Board, sram: seq<nat>, commands: seq<Command>, a: nat)
    requires board.Fits(|sram|) && ByteCommands(commands) && Bytes(sram) && DataWired(board.slot)
    ensures PlaceOf(board, commands, a) < |After(board, sram, commands).sram| == |sram|
    ensures After(board, sram, commands).sram[PlaceOf(board, commands, a)] < 256
    ensures DemangledByte(board.slot, After(board, sram, commands).sram[PlaceOf(board, commands, a)])
         == ByteServed(board, sram, commands, a)
  {
    var ramSlot := LastActivated(board, commands);
    SlotInSram(board, |sram|, ramSlot);
    DemangleInvertsMap(board.slot, a);
    RunHoldsLastProgrammed(board, Boot(board, sram), commands, ramSlot, a);
    RunKeepsBytes(board, Boot(board, sram), commands);
  }

  // The stored byte of a logical address of the active slot.
  function StoredFor(board: Board, sram: seq<nat>, commands: seq<Command>, a: nat): (byte: nat)
    requires board.Fits(|sram|) && ByteCommands(commands) && Bytes(sram) && DataWired(board.slot)
    ensures byte < 256 && DemangledByte(board.slot, byte) == ByteServed(board, sram, commands, a)
  {
    StoredThere(board, sram, commands, a);
    After(board, sram, commands).sram[PlaceOf(board, commands, a)]
  }

  // The data program a slot is served with.
  predicate DataFor(slot: RomSlot, data: Data.DataAlg)
  {
    if slot.wordSize == 16 then data == Data.Data0(16) || data == Data.Data1 else data == Data.Data0(8)
  }

  // The programs' settings, and the SRAM, after a run.
  function SettingAfter(board: Board, sram: seq<nat>, commands: seq<Command>, delay: nat,
                        data: Data.DataAlg): Bus.Setting
    requires board.Fits(|sram|)
  {
    Bus.Setting(AddrAlgOf(board.slot, delay), data, After(board, sram, commands).sram, SRAM_BASE)
  }

  // A board and a run that the theorems are about.
  predicate Runs(board: Board, sram: seq<nat>, commands: seq<Command>)
  {
    && board.Fits(|sram|) && ByteCommands(commands) && Bytes(sram) && board.slot.numAddrPins > 0
    && DataWired(board.slot) && DataUnoverridden(board.slot)
  }

  // And the programs, the address program pointed where the run left it.
  predicate Serves(board: Board, sram: seq<nat>, commands: seq<Command>, delay: nat, data: Data.DataAlg,
                   server: Bus.Server)
  {
    && Runs(board, sram, commands) && DataFor(board.slot, data)
    && Bus.Valid(SettingAfter(board, sram, commands, delay, data), server)
    && server.addr.x == After(board, sram, commands).x
  }

  // From their start, the programs serve any such board and run.
  lemma StartServes(board: Board, sram: seq<nat>, commands: seq<Command>, delay: nat, data: Data.DataAlg)
    requires Runs(board, sram, commands) && DataFor(board.slot, data)
    ensures Serves(board, sram, commands, delay, data, Bus.Start(After(board, sram, commands).x))
  {
    Bus.StartIsValid(SettingAfter(board, sram, commands, delay, data), After(board, sram, commands).x);
  }

  // One byte, or two, as the DMA reads them.
  function Joint(slot: RomSlot, lo: nat, hi: nat): nat { if slot.wordSize == 16 then lo + 0x100 * hi else lo }

  // What the DMA reads for an address: its byte, or the two of its word.
  function Word(board: Board, sram: seq<nat>, commands: seq<Command>, a: nat): nat
    requires Runs(board, sram, commands)
  {
    var even := EvenAddr(board.slot, a);
    Joint(board.slot, StoredFor(board, sram, commands, even), StoredFor(board, sram, commands, even + 1))
  }

  lemma TableAddrIsPlace(board: Board, sram: seq<nat>, commands: seq<Command>, delay: nat, field: nat, a: nat)
    requires Runs(board, sram, commands) && Drives(board.slot, field, a)
    ensures TableAddr(AddrAlgOf(board.slot, delay), After(board, sram, commands).x, field)
         == SRAM_BASE + PlaceOf(board, commands, EvenAddr(board.slot, a))
  {
    RunServesLastActivated(board, sram, commands);
    TableAddrIsMapped(board, |sram|, LastActivated(board, commands), delay, field, a);
  }

  lemma OddFollowsEven(slot: RomSlot, a: nat)
    requires slot.wordSize == 16
    ensures MapAddr(slot, EvenAddr(slot, a) + 1) == MapAddr(slot, EvenAddr(slot, a)) + 1
  {
    DivMod(a, 2);
    Halves(EvenAddr(slot, a), a / 2, 0);
    Halves(EvenAddr(slot, a) + 1, a / 2, 1);
  }

  lemma ReadsBytePlace(board: Board, sram: seq<nat>, commands: seq<Command>, delay: nat, a: nat)
    requires Runs(board, sram, commands) && board.slot.wordSize == 8
    ensures Bus.Read(SettingAfter(board, sram, commands, delay, Data.Data0(8)), SRAM_BASE + PlaceOf(board, commands, a))
         == StoredFor(board, sram, commands, a)
  {
    StoredThere(board, sram, commands, a);
    Bus.ReadsAt(SettingAfter(board, sram, commands, delay, Data.Data0(8)), PlaceOf(board, commands, a));
  }

  lemma ReadsWordPlace(board: Board, sram: seq<nat>, commands: seq<Command>, delay: nat, data: Data.DataAlg, even: nat)
    requires Runs(board, sram, commands) && board.slot.wordSize == 16 && DataFor(board.slot, data)
    requires MapAddr(board.slot, even + 1) == MapAddr(board.slot, even) + 1
    ensures Bus.Read(SettingAfter(board, sram, commands, delay, data), SRAM_BASE + PlaceOf(board, commands, even))
         == StoredFor(board, sram, commands, even) + 0x100 * StoredFor(board, sram, commands, even + 1)
  {
    var s, place := SettingAfter(board, sram, commands, delay, data), PlaceOf(board, commands, even);
    StoredThere(board, sram, commands, even);
    StoredThere(board, sram, commands, even + 1);
    assert PlaceOf(board, commands, even + 1) == place + 1;
    assert s.Wide() && s.base == SRAM_BASE && place + 1 < |s.sram|;
    assert s.sram[place] == StoredFor(board, sram, commands, even);
    assert s.sram[place + 1] == StoredFor(board, sram, commands, even + 1);
    Bus.ReadsAt(s, place);
  }

  lemma ReadsPlace(board: Board, sram: seq<nat>, commands: seq<Command>, delay: nat, data: Data.DataAlg, a: nat)
    requires Runs(board, sram, commands) && DataFor(board.slot, data)
    ensures Bus.Read(SettingAfter(board, sram, commands, delay, data),
                     SRAM_BASE + PlaceOf(board, commands, EvenAddr(board.slot, a)))
         == Word(board, sram, commands, a)
  {
    if board.slot.wordSize == 16 {
      OddFollowsEven(board.slot, a);
      ReadsWordPlace(board, sram, commands, delay, data, EvenAddr(board.slot, a));
    } else {
      ReadsBytePlace(board, sram, commands, delay, a);
    }
  }

  // Whether the host sees a word, or, with /BYTE active and A-1 high, the high byte of one.
  predicate SeesWord(slot: RomSlot, data: Data.DataAlg, pins: Pio.Pins)
  {
    slot.wordSize == 16 && (data.Data1? ==> !pins.jmp)
  }

  predicate SeesHigh(slot: RomSlot, data: Data.DataAlg, pins: Pio.Pins)
  {
    slot.wordSize == 16 && data.Data1? && pins.jmp && pins.field != 0
  }

  // The address whose byte the host sees on D0-D7.
  function AddressSeen(slot: RomSlot, data: Data.DataAlg, a: nat, pins: Pio.Pins): nat
  {
    if SeesHigh(slot, data, pins) then EvenAddr(slot, a) + 1 else EvenAddr(slot, a)
  }

  lemma TwoBytes(lo: nat, hi: nat)
    requires lo < 256 && hi < 256
    ensures lo % Pow2(8) == lo % 256 == lo && hi % Pow2(8) == hi % 256 == hi
    ensures (lo + 0x100 * hi) % Pow2(16) == lo + 0x100 * hi
    ensures (lo + 0x100 * hi) % Pow2(8) == (lo + 0x100 * hi) % 256 == lo
    ensures Shr(lo + 0x100 * hi, 8) == hi
  {
    Pow2Values();
    HighByteBits(lo, hi, 0);
  }

  // What the data programs make of one byte and of two.
  lemma PartsShown(slot: RomSlot, data: Data.DataAlg, lo: nat, hi: nat, pins: Pio.Pins)
    requires DataFor(slot, data) && lo < 256 && hi < 256
    ensures var levels := Data.Shown(data, Joint(slot, lo, hi), pins);
      && (SeesWord(slot, data, pins) ==> levels == lo + 0x100 * hi)
      && levels % 256 == if SeesHigh(slot, data, pins) then hi else lo
  {
    TwoBytes(lo, hi);
  }

  // And what the host reads of them.
  lemma LowPartRead(slot: RomSlot, data: Data.DataAlg, lo: nat, hi: nat, pins: Pio.Pins, b: nat)
    requires DataWired(slot) && DataUnoverridden(slot) && DataFor(slot, data) && lo < 256 && hi < 256
    ensures HostReads(slot, Data.Shown(data, Joint(slot, lo, hi), pins), 0, b)
       <==> b == DemangledByte(slot, if SeesHigh(slot, data, pins) then hi else lo)
  {
    var levels := Data.Shown(data, Joint(slot, lo, hi), pins);
    PartsShown(slot, data, lo, hi, pins);
    LowReadsDemangled(slot, levels, b);
  }

  lemma HighPartRead(slot: RomSlot, data: Data.DataAlg, lo: nat, hi: nat, pins: Pio.Pins, b: nat)
    requires DataWired(slot) && DataUnoverridden(slot) && DataFor(slot, data) && lo < 256 && hi < 256
    requires SeesWord(slot, data, pins) && HighMirrored(slot)
    ensures HostReads(slot, Data.Shown(data, Joint(slot, lo, hi), pins), 8, b) <==> b == DemangledByte(slot, hi)
  {
    PartsShown(slot, data, lo, hi, pins);
    HighReadsDemangled(slot, lo, hi, b);
  }

  // A host reads one byte on D0-D7 and no other, and, where it sees a word, another on D8-D15.
  predicate ReadsExactly(slot: RomSlot, data: Data.DataAlg, levels: nat, pins: Pio.Pins, low: nat, high: nat, b: nat)
    requires slot.Valid()
  {
    && (HostReads(slot, levels, 0, b) <==> b == low)
    && (SeesWord(slot, data, pins) && HighMirrored(slot) ==> (HostReads(slot, levels, 8, b) <==> b == high))
  }

  lemma PartsReadExactly(slot: RomSlot, data: Data.DataAlg, lo: nat, hi: nat, pins: Pio.Pins, b: nat)
    requires DataWired(slot) && DataUnoverridden(slot) && DataFor(slot, data) && lo < 256 && hi < 256
    ensures ReadsExactly(slot, data, Data.Shown(data, Joint(slot, lo, hi), pins), pins,
                         DemangledByte(slot, if SeesHigh(slot, data, pins) then hi else lo),
                         DemangledByte(slot, hi), b)
  {
    LowPartRead(slot, data, lo, hi, pins, b);
    if SeesWord(slot, data, pins) && HighMirrored(slot) { HighPartRead(slot, data, lo, hi, pins, b); }
  }

  // So it gets the byte last programmed at the address it sees, and, of a word, the byte after it.
  predicate HostGets(board: Board, sram: seq<nat>, commands: seq<Command>, data: Data.DataAlg, levels: nat,
                     pins: Pio.Pins, a: nat, b: nat)
    requires board.Fits(|sram|)
  {
    ReadsExactly(board.slot, data, levels, pins,
                 ByteServed(board, sram, commands, AddressSeen(board.slot, data, a, pins)),
                 ByteServed(board, sram, commands, EvenAddr(board.slot, a) + 1), b)
  }

  lemma ServedIsDemangled(board: Board, sram: seq<nat>, commands: seq<Command>, data: Data.DataAlg, a: nat,
                          pins: Pio.Pins)
    requires Runs(board, sram, commands)
    ensures var even := EvenAddr(board.slot, a);
      var lo, hi := StoredFor(board, sram, commands, even), StoredFor(board, sram, commands, even + 1);
      && ByteServed(board, sram, commands, AddressSeen(board.slot, data, a, pins))
         == DemangledByte(board.slot, if SeesHigh(board.slot, data, pins) then hi else lo)
      && ByteServed(board, sram, commands, even + 1) == DemangledByte(board.slot, hi)
  {
  }

  lemma ShownIsGot(board: Board, sram: seq<nat>, commands: seq<Command>, data: Data.DataAlg, a: nat, b: nat,
                   pins: Pio.Pins)
    requires Runs(board, sram, commands) && DataFor(board.slot, data)
    ensures HostGets(board, sram, commands, data, Data.Shown(data, Word(board, sram, commands, a), pins), pins, a, b)
  {
    var even := EvenAddr(board.slot, a);
    var lo, hi := StoredFor(board, sram, commands, even), StoredFor(board, sram, commands, even + 1);
    assert Word(board, sram, commands, a) == Joint(board.slot, lo, hi);
    PartsReadExactly(board.slot, data, lo, hi, pins, b);
    ServedIsDemangled(board, sram, commands, data, a, pins);
  }

  // Pins that show the table word of the address the host drives.
  lemma TableShownIsGot(board: Board, sram: seq<nat>, commands: seq<Command>, delay: nat, data: Data.DataAlg,
                        server: Bus.Server, held: Bus.Held, a: nat, b: nat)
    requires Serves(board, sram, commands, delay, data, server) && Drives(board.slot, held.addr.field, a)
    requires Bus.ShowsTable(SettingAfter(board, sram, commands, delay, data), server, held)
    ensures HostGets(board, sram, commands, data, server.data.pins, held.data, a, b)
  {
    TableAddrIsPlace(board, sram, commands, delay, held.addr.field, a);
    ReadsPlace(board, sram, commands, delay, data, a);
    ShownIsGot(board, sram, commands, data, a, b, held.data);
  }

  // End to end, in whatever order the address program, the DMA and the data program take their
  // turns: after any run of reprogramming and switching, once more words have been shown than were
  // on their way when the host began to hold address a, it reads exactly the bytes last programmed
  // there in the slot last made active.
  lemma HostReadsLastProgrammed(board: Board, sram: seq<nat>, commands: seq<Command>, delay: nat,
                                data: Data.DataAlg, server: Bus.Server, ticks: seq<Bus.Tick>, held: Bus.Held,
                                a: nat, b: nat)
    requires Serves(board, sram, commands, delay, data, server) && Drives(board.slot, held.addr.field, a)
    requires var s := SettingAfter(board, sram, commands, delay, data);
      Data.ShownCount(data, Bus.Run(s, server, ticks, held).data) > Bus.Stale(s, server)
    ensures var s := SettingAfter(board, sram, commands, delay, data);
      HostGets(board, sram, commands, data, Bus.Run(s, server, ticks, held).data.pins, held.data, a, b)
  {
    var s := SettingAfter(board, sram, commands, delay, data);
    var end := Bus.Run(s, server, ticks, held);
    Bus.ServesHeldAddress(s, server, ticks, held);
    TableShownIsGot(board, sram, commands, delay, data, end, held, a, b);
  }

  // With the three side by side, that is so within a bounded time, and from then on.
  lemma HostReadsInTime(board: Board, sram: seq<nat>, commands: seq<Command>, delay: nat,
                        data: Data.DataAlg, server: Bus.Server, held: Bus.Held, a: nat, b: nat, rounds: nat)
    requires Serves(board, sram, commands, delay, data, server) && Drives(board.slot, held.addr.field, a)
    requires var s := SettingAfter(board, sram, commands, delay, data);
      rounds >= (Bus.OnTheirWay(s, server) + 2) * (Bus.LongestWait(s) + 1)
    ensures var s := SettingAfter(board, sram, commands, delay, data);
      HostGets(board, sram, commands, data, Bus.Rounds(s, server, held, rounds).data.pins, held.data, a, b)
  {
    var s := SettingAfter(board, sram, commands, delay, data);
    var end := Bus.Rounds(s, server, held, rounds);
    Bus.ServesInTime(s, server, held, rounds);
    TableShownIsGot(board, sram, commands, delay, data, end, held, a, b);
  }

  // ---------------------------------------------------------------------------------------------
  // The access time
  // ---------------------------------------------------------------------------------------------

  // Commands carried out between two rounds, and the rounds served after them, with the host's pins
  // as they like.
  datatype Era = Era(commands: seq<Command>, helds: seq<Bus.Held>)

  function AllCommands(eras: seq<Era>): seq<Command>
  {
    if eras == [] then [] else AllCommands(eras[..|eras| - 1]) + eras[|eras| - 1].commands
  }

  predicate Programs(board: Board, sram: seq<nat>, data: Data.DataAlg)
  {
    board.Fits(|sram|) && board.slot.numAddrPins > 0 && DataFor(board.slot, data)
  }

  // The address program once X is set anew.
  function WithX(server: Bus.Server, x: nat): Bus.Server { server.(addr := server.addr.(x := x)) }

  // The programs after some eras of serving, from their start.
  function Live(board: Board, sram: seq<nat>, delay: nat, data: Data.DataAlg, eras: seq<Era>): (server: Bus.Server)
    requires Programs(board, sram, data)
    ensures Bus.Valid(SettingAfter(board, sram, AllCommands(eras), delay, data), server)
    decreases |eras|
  {
    var s := SettingAfter(board, sram, AllCommands(eras), delay, data);
    var x := After(board, sram, AllCommands(eras)).x;
    if eras == [] then Bus.Start(x)
    else
      Backlog.Course(s, WithX(Live(board, sram, delay, data, eras[..|eras| - 1]), x), eras[|eras| - 1].helds)
  }

  lemma CaughtUpWithX(s: Bus.Setting, next: Bus.Setting, server: Bus.Server, x: nat)
    requires next.addr == s.addr && next.data == s.data && Bus.Valid(s, server)
    requires s.addr.Period() >= Backlog.Each(s.data) && Backlog.CaughtUp(s, server)
    ensures Bus.Valid(next, WithX(server, x)) && Backlog.CaughtUp(next, WithX(server, x))
  {
  }

  // However slots are programmed and switched while the host reads, the programs keep up.
  lemma {:induction false} LiveKeepsUp(board: Board, sram: seq<nat>, delay: nat, data: Data.DataAlg, eras: seq<Era>)
    requires Programs(board, sram, data) && AddrAlgOf(board.slot, delay).Period() >= Backlog.Each(data)
    ensures var server := Live(board, sram, delay, data, eras);
      && Backlog.CaughtUp(SettingAfter(board, sram, AllCommands(eras), delay, data), server)
      && server.addr.x == After(board, sram, AllCommands(eras)).x
    decreases |eras|
  {
    var s, x := SettingAfter(board, sram, AllCommands(eras), delay, data), After(board, sram, AllCommands(eras)).x;
    if eras == [] {
      Backlog.StartIsCaughtUp(s, x);
    } else {
      var front, helds := eras[..|eras| - 1], eras[|eras| - 1].helds;
      var before := Live(board, sram, delay, data, front);
      LiveKeepsUp(board, sram, delay, data, front);
      CaughtUpWithX(SettingAfter(board, sram, AllCommands(front), delay, data), s, before, x);
      Backlog.StaysCaughtUp(s, WithX(before, x), helds);
      Backlog.CourseKeepsX(s, WithX(before, x), helds);
    }
  }

  // However long it has run, and whatever was programmed, switched and read meanwhile: the pins of
  // an address held for the access time get the host the bytes last programmed there, and go on
  // getting them.
  lemma HostReadsInAccessTime(board: Board, sram: seq<nat>, delay: nat, data: Data.DataAlg, eras: seq<Era>,
                              held: Bus.Held, a: nat, b: nat, rounds: nat)
    requires Runs(board, sram, AllCommands(eras)) && DataFor(board.slot, data)
    requires Drives(board.slot, held.addr.field, a) && AddrAlgOf(board.slot, delay).Period() >= Backlog.Each(data)
    requires rounds >= Backlog.AccessTime(SettingAfter(board, sram, AllCommands(eras), delay, data))
    ensures var s := SettingAfter(board, sram, AllCommands(eras), delay, data);
      HostGets(board, sram, AllCommands(eras), data,
               Bus.Rounds(s, Live(board, sram, delay, data, eras), held, rounds).data.pins, held.data, a, b)
  {
    var s := SettingAfter(board, sram, AllCommands(eras), delay, data);
    var server := Live(board, sram, delay, data, eras);
    LiveKeepsUp(board, sram, delay, data, eras);
    Backlog.ServesInAccessTime(s, server, held, rounds);
    TableShownIsGot(board, sram, AllCommands(eras), delay, data, Bus.Rounds(s, server, held, rounds), held, a, b);
  }

  // The chip selected, for as long as its select program takes to respond, the host's data pins are
  // driven: D0-D7, and D8-D15 too where /BYTE is inactive.
  lemma DrivenWhileSelected(select: Serving.Alg, sm: Pio.Sm, history: seq<Pio.Pins>)
    requires Serving.Safe(select, sm) && Serving.Timed(select, sm)
    requires forall i :: 0 <= i < |history| ==> Serving.SelectedPins(select, history[i])
    requires |history| >= Serving.Limit(select)
    ensures Serving.WholeByte(Pio.Run(Serving.ServeProgram(select), sm, history).dirs)
    ensures Serving.FullWidth(select, sm)
            && (forall i :: 0 <= i < |history| ==> Serving.WordPins(select, history[i])) ==>
              Pio.Run(Serving.ServeProgram(select), sm, history).dirs == WORD - 1
  {
    Serving.RespondsInTime(select, sm, history);
    if Serving.FullWidth(select, sm) && forall i :: 0 <= i < |history| ==> Serving.WordPins(select, history[i]) {
      Serving.FullWidthRun(select, sm, history);
    }
  }

  // ---------------------------------------------------------------------------------------------
  // A board all of this holds of
  // ---------------------------------------------------------------------------------------------

  // A four-byte ROM: two address pins, the second inverted, from GPIO 0, and eight data pins from
  // GPIO 8, D0 highest.
  function SmallSlot(): RomSlot
  {
    RomSlot(Single, 0, 0, 2, 2, 0, 8, 8, Cs0(0, 0, 0), 0, 16, 1,
            [0, 1] + seq(22, _ => GPIO_NONE), [15, 14, 13, 12, 11, 10, 9, 8] + seq(8, _ => GPIO_NONE),
            [0x41], [])
  }

  lemma SmallAddrLines()
    ensures AddrLines(SmallSlot()) == [Pin(0, Normal), Pin(1, Invert)]
  {
    var slot := SmallSlot();
    assert AddrCountFrom(slot.addrPins, 2) == 2 && AddrCountFrom(slot.addrPins, 1) == 2;
    assert OverrideFrom(slot.overrides, 0, 1) == Normal;
  }

  lemma SmallDataLine(d: nat)
    requires d < 8
    ensures SmallSlot().Valid()
    ensures LineOf(SmallSlot(), SmallSlot().dataPins[d], SmallSlot().DataBase()) == Pin(7 - d, Normal)
  {
    var slot := SmallSlot();
    assert slot.dataPins[d] == 15 - d;
    assert OverrideFrom(slot.overrides, 15 - d, 1) == Normal;
    assert Offset8(15 - d, 8) == 7 - d;
  }

  lemma SmallDataLines()
    ensures SmallSlot().Valid()
    ensures |DataLines(SmallSlot())| == 8
    ensures forall d :: 0 <= d < 8 ==> DataLines(SmallSlot())[d] == Pin(7 - d, Normal)
  {
    forall d | 0 <= d < 8
      ensures DataLines(SmallSlot())[d] == Pin(7 - d, Normal)
    {
      SmallDataLine(d);
    }
  }

  // What a host holds to read address a of it.
  function SmallHeld(a: nat): Bus.Held
  {
    Bus.Held(Pio.Pins(SpanWord(SmallSlot(), a), false), Pio.Pins(0, false))
  }

  lemma SmallBoardRuns(sram: seq<nat>)
    requires |sram| == 16 && Bytes(sram)
    ensures Runs(Board(SmallSlot(), 16), sram, [])
  {
    SmallAddrLines();
    SmallDataLines();
    assert Pow2(2) == 4;
    assert DataLines(SmallSlot())[..8] == DataLines(SmallSlot());
  }

  // Every assumption of the end-to-end theorems can be met, from boot and for every address.
  lemma SmallBoardServes(sram: seq<nat>, a: nat)
    requires |sram| == 16 && Bytes(sram)
    ensures var board := Board(SmallSlot(), 16);
      && board.Fits(|sram|)
      && Serves(board, sram, [], 0, Data.Data0(8), Bus.Start(After(board, sram, []).x))
      && Drives(board.slot, SmallHeld(a).addr.field, a)
  {
    SmallBoardRuns(sram);
    StartServes(Board(SmallSlot(), 16), sram, [], 0, Data.Data0(8));
    DrivenPinsAreMapped(SmallSlot(), SmallHeld(a).addr.field, a);
  }

  lemma SmallBoardIsSelected(history: seq<Pio.Pins>)
    requires history == seq(8, _ => Pio.Pins(0, false))
    ensures var select := Serving.ServeCs0(0, false, 0, 0);
      && Serving.Safe(select, Pio.Fresh(0, 0)) && Serving.Timed(select, Pio.Fresh(0, 0))
      && Serving.FullWidth(select, Pio.Fresh(0, 0)) && |history| >= Serving.Limit(select)
      && forall i :: 0 <= i < |history| ==> Serving.SelectedPins(select, history[i])
  {
  }

  // And whatever its host did before, a host that holds an address for six rounds reads what the
  // SRAM held there at boot.
  lemma SmallBoardReads(sram: seq<nat>, helds: seq<Bus.Held>, a: nat, b: nat, rounds: nat)
    requires |sram| == 16 && Bytes(sram) && rounds >= 6
    ensures var board := Board(SmallSlot(), 16);
      && board.Fits(|sram|)
      && Serves(board, sram, [], 0, Data.Data0(8), Bus.Start(After(board, sram, []).x))
      && var s := SettingAfter(board, sram, [], 0, Data.Data0(8));
         var before := Backlog.Course(s, Bus.Start(After(board, sram, []).x), helds);
         HostReads(board.slot, Bus.Rounds(s, before, SmallHeld(a), rounds).data.pins, 0, b)
         <==> b == ByteServed(board, sram, [], a)
  {
    var board := Board(SmallSlot(), 16);
    SmallBoardServes(sram, a);
    LiveFromStart(board, sram, 0, Data.Data0(8), helds);
    HostReadsInAccessTime(board, sram, 0, Data.Data0(8), [Era([], helds)], SmallHeld(a), a, b, rounds);
  }

  lemma LiveFromStart(board: Board, sram: seq<nat>, delay: nat, data: Data.DataAlg, helds: seq<Bus.Held>)
    requires Programs(board, sram, data)
    ensures AllCommands([Era([], helds)]) == []
    ensures var s, x := SettingAfter(board, sram, [], delay, data), After(board, sram, []).x;
      && Bus.Valid(s, Bus.Start(x))
      && Live(board, sram, delay, data, [Era([], helds)]) == Backlog.Course(s, Bus.Start(x), helds)
  {
    var eras := [Era([], helds)];
    assert eras[..0] == [];
    assert AllCommands([]) == [] && AllCommands(eras) == [] + [];
    Bus.StartIsValid(SettingAfter(board, sram, [], delay, data), After(board, sram, []).x);
  }
}

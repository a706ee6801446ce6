/** RAM slots: programming, reading and switching the ROM images kept in SRAM
    (slot arithmetic of firmware/src/plugin.c, slot access of firmware/src/piodma/pioplugin.c). */
module RamSlots {
  import opened Options
  import opened Words
  import opened PinMap

  const SRAM_BASE: nat := 0x2000_0000
  const ORA_MAX_RAM_SLOTS: nat := 255

  datatype Result = Ok | InvalidArg | InvalidSlot | SlotActive | NoSlotActive | InternalError

  // The slot being served and the SRAM set aside for images.
  datatype Board = Board(slot: RomSlot, imageSize: nat)
  {
    function RegionSize(): (size: nat)
      ensures size >= 1
    {
      Pow2(slot.numRomTableBits)
    }

    function SlotCount(): (count: nat)
      ensures 1 <= count <= ORA_MAX_RAM_SLOTS
    {
      var count := imageSize / RegionSize();
      if count < 1 then 1 else if count > ORA_MAX_RAM_SLOTS then ORA_MAX_RAM_SLOTS else count
    }

    // Where a slot starts in the SRAM.
    function SlotOffset(ramSlot: nat): nat { ramSlot * RegionSize() }

    function SlotAddr(ramSlot: nat): nat { SRAM_BASE + SlotOffset(ramSlot) }

    // A wired slot whose image fits the SRAM there is.
    predicate Fits(sramSize: nat)
    {
      && AddrWired(slot) && slot.numRomTableBits >= 1
      && imageSize <= sramSize && RegionSize() <= sramSize <= SRAM_BASE
    }
  }

  // What the slot operations read and change: the SRAM from SRAM_BASE, RUNTIME->rom_table and the
  // X register of the address state machine.
  datatype State = State(sram: seq<nat>, romTable: nat, x: nat)

  // Every slot lies inside the SRAM.
  lemma SlotInSram(board: Board, sramSize: nat, ramSlot: nat)
    requires board.Fits(sramSize) && ramSlot < board.SlotCount()
    ensures board.SlotOffset(ramSlot) + board.RegionSize() <= sramSize
  {
    var region := board.RegionSize();
    DivMod(board.imageSize, region);
    if ramSlot != 0 {
      var whole := board.imageSize / region;
      MulCommutes(whole, region);
      MulMonotone(ramSlot + 1, whole, region);
      MulSuccessor(ramSlot, region);
    }
  }

  // ---------------------------------------------------------------------------------------------
  // What the operations do to the memory
  // ---------------------------------------------------------------------------------------------

  // data[i] goes to offset + i, in order.
  function Programmed(slot: RomSlot, sram: seq<nat>, base: nat, offset: nat, data: seq<nat>): (after: seq<nat>)
    requires AddrWired(slot) && base + Pow2(slot.numRomTableBits) <= |sram|
    ensures |after| == |sram|
    decreases |data|
  {
    if data == [] then sram
    else
      var n := |data| - 1;
      DemangleInvertsMap(slot, offset + n);
      Programmed(slot, sram, base, offset, data[..n])
        [base + MapAddr(slot, offset + n) := StoredByte(slot, data[n])]
  }

  lemma ProgrammedNext(slot: RomSlot, sram: seq<nat>, base: nat, offset: nat, data: seq<nat>, i: nat)
    requires AddrWired(slot) && base + Pow2(slot.numRomTableBits) <= |sram| && i < |data|
    ensures base + MapAddr(slot, offset + i) < |sram|
    ensures Programmed(slot, sram, base, offset, data[..i + 1])
         == Programmed(slot, sram, base, offset, data[..i])
            [base + MapAddr(slot, offset + i) := StoredByte(slot, data[i])]
  {
    DemangleInvertsMap(slot, offset + i);
    assert data[..i + 1][..i] == data[..i];
  }

  // The byte a logical address of the slot at `base` holds.
  function LogicalByte(slot: RomSlot, sram: seq<nat>, base: nat, a: nat): nat
    requires AddrWired(slot) && base + Pow2(slot.numRomTableBits) <= |sram|
  {
    DemangleInvertsMap(slot, a);
    DemangledByte(slot, sram[base + MapAddr(slot, a)])
  }

  // The last of the data to land on logical address a, modulo the chip's own address space.
  function LastWrite(slot: RomSlot, offset: nat, data: seq<nat>, a: nat): Option<nat>
    decreases |data|
  {
    if data == [] then None
    else
      var n := |data| - 1;
      if (offset + n) % Pow2(ChipBits(slot)) == a % Pow2(ChipBits(slot)) then Some(data[n])
      else LastWrite(slot, offset, data[..n], a)
  }

  predicate Bytes(data: seq<nat>) { forall i :: 0 <= i < |data| ==> data[i] < 256 }

  // Programming changes each logical address to the last byte written there, and no other.
  lemma {:induction false} ProgrammedByte(slot: RomSlot, sram: seq<nat>, base: nat, offset: nat,
                                          data: seq<nat>, a: nat)
    requires AddrWired(slot) && DataWired(slot) && base + Pow2(slot.numRomTableBits) <= |sram|
    requires Bytes(data)
    ensures LogicalByte(slot, Programmed(slot, sram, base, offset, data), base, a)
         == match LastWrite(slot, offset, data, a)
            case Some(b) => b
            case None => LogicalByte(slot, sram, base, a)
    decreases |data|
  {
    if data != [] {
      var n := |data| - 1;
      ProgrammedByte(slot, sram, base, offset, data[..n], a);
      StoredAt(slot, Programmed(slot, sram, base, offset, data[..n]), base, offset + n, data[n], a);
    }
  }

  // One stored byte.
  lemma StoredAt(slot: RomSlot, sram: seq<nat>, base: nat, at: nat, b: nat, a: nat)
    requires AddrWired(slot) && DataWired(slot) && base + Pow2(slot.numRomTableBits) <= |sram| && b < 256
    ensures MapAddr(slot, at) < Pow2(slot.numRomTableBits)
    ensures LogicalByte(slot, sram[base + MapAddr(slot, at) := StoredByte(slot, b)], base, a)
         == if at % Pow2(ChipBits(slot)) == a % Pow2(ChipBits(slot)) then b
            else LogicalByte(slot, sram, base, a)
  {
    DemangleInvertsMap(slot, a);
    DemangleInvertsMap(slot, at);
    if at % Pow2(ChipBits(slot)) == a % Pow2(ChipBits(slot)) {
      MapIsPeriodic(slot, a, at);
      DataRoundTrip(slot, b);
    } else {
      MapIsInjective(slot, a, at);
    }
  }

  // Nothing outside the slot's region changes.
  lemma {:induction false} ProgrammedElsewhere(slot: RomSlot, sram: seq<nat>, base: nat, offset: nat,
                                               data: seq<nat>, i: nat)
    requires AddrWired(slot) && base + Pow2(slot.numRomTableBits) <= |sram|
    requires i < |sram| && !(base <= i < base + Pow2(slot.numRomTableBits))
    ensures Programmed(slot, sram, base, offset, data)[i] == sram[i]
    decreases |data|
  {
    if data != [] {
      ProgrammedElsewhere(slot, sram, base, offset, data[..|data| - 1], i);
      DemangleInvertsMap(slot, offset + |data| - 1);
    }
  }

  lemma Congruent(a: nat, b: nat, m: nat)
    requires m > 0 && a < b < a + m
    ensures a % m != b % m
  {
    if a % m == b % m {
      var d := b / m - a / m;
      assert b - a == m * d;
      MulAtLeast(m, d);
    }
  }

  // In a write no longer than the chip, the byte at offset + i is data[i].
  lemma {:induction false} LastWriteInRange(slot: RomSlot, offset: nat, data: seq<nat>, i: nat)
    requires i < |data| <= Pow2(ChipBits(slot))
    ensures LastWrite(slot, offset, data, offset + i) == Some(data[i])
    decreases |data|
  {
    var n := |data| - 1;
    if i < n {
      Congruent(offset + i, offset + n, Pow2(ChipBits(slot)));
      LastWriteInRange(slot, offset, data[..n], i);
    }
  }

  // Programming then reading the same range gives back exactly the bytes, for any range no longer
  // than the chip's own address space.
  lemma ProgramThenRead(slot: RomSlot, sram: seq<nat>, base: nat, offset: nat, data: seq<nat>, i: nat)
    requires AddrWired(slot) && DataWired(slot) && base + Pow2(slot.numRomTableBits) <= |sram|
    requires Bytes(data) && i < |data| <= Pow2(ChipBits(slot))
    ensures LogicalByte(slot, Programmed(slot, sram, base, offset, data), base, offset + i) == data[i]
  {
    ProgrammedByte(slot, sram, base, offset, data, offset + i);
    LastWriteInRange(slot, offset, data, i);
  }

  // ---------------------------------------------------------------------------------------------
  // The operations
  // ---------------------------------------------------------------------------------------------

  function ActiveSlot(board: Board, romTable: nat): (Result, nat)
  {
    if romTable == 0 || romTable == 0xFFFF_FFFF then (NoSlotActive, 0)
    else if romTable < SRAM_BASE || romTable >= SRAM_BASE + board.RegionSize() * board.SlotCount() then
      (InternalError, 0)
    else if (romTable - SRAM_BASE) % board.RegionSize() != 0 then (InternalError, 0)
    else (Ok, (romTable - SRAM_BASE) / board.RegionSize())
  }

  datatype Command =
    | Reprogram(ramSlot: nat, offset: nat, data: seq<nat>, allowActive: bool)
    | SetActive(ramSlot: nat)

  // Why a command is refused, or Ok.
  function Verdict(board: Board, state: State, command: Command): Result
  {
    match command
    case Reprogram(ramSlot, offset, data, allowActive) =>
      if data == [] then InvalidArg
      else if ramSlot >= board.SlotCount() then InvalidSlot
      else if offset + |data| > board.RegionSize() then InvalidArg
      else if !allowActive && ActiveSlot(board, state.romTable) == (Ok, ramSlot) then SlotActive
      else Ok
    case SetActive(ramSlot) =>
      if ramSlot >= board.SlotCount() then InvalidSlot else Ok
  }

  function Prefix(board: Board, addr: nat): nat
    requires board.slot.numRomTableBits < 32
  {
    Shr(addr, board.slot.numRomTableBits) % Pow2(32 - board.slot.numRomTableBits)
  }

  function Do(board: Board, state: State, command: Command): (after: State)
    requires board.Fits(|state.sram|)
    ensures |after.sram| == |state.sram|
  {
    if Verdict(board, state, command) != Ok then state
    else match command
      case Reprogram(ramSlot, offset, data, _) =>
        SlotInSram(board, |state.sram|, ramSlot);
        state.(sram := Programmed(board.slot, state.sram, board.SlotOffset(ramSlot), offset, data))
      case SetActive(ramSlot) =>
        state.(romTable := board.SlotAddr(ramSlot), x := Prefix(board, board.SlotAddr(ramSlot)))
  }

  class SlotMemory {
    const board: Board
    const sram: array<nat>
    var romTable: nat
    var currentRamSlot: nat
    var x: nat

    ghost predicate Valid()
      reads this, sram
    {
      board.Fits(sram.Length) && Bytes(sram[..])
    }

    ghost function Now(): State
      reads this, sram
    {
      State(sram[..], romTable, x)
    }

    constructor (board: Board, sram: array<nat>)
      requires board.Fits(sram.Length) && Bytes(sram[..])
      ensures Valid() && this.board == board && this.sram == sram
      ensures Now() == State(sram[..], SRAM_BASE, Prefix(board, SRAM_BASE))
    {
      this.board, this.sram := board, sram;
      romTable, currentRamSlot := SRAM_BASE, 0;
      x := Prefix(board, SRAM_BASE);
    }

    method GetRamSlotCount() returns (count: nat)
      ensures count == board.SlotCount()
    {
      DivMod(board.imageSize, board.RegionSize());
      count := board.imageSize / board.RegionSize();
      if count < 1 {
        count := 1;
      } else if count > ORA_MAX_RAM_SLOTS {
        count := ORA_MAX_RAM_SLOTS;
      }
    }

    method GetRamSlotInfo(ramSlot: nat) returns (result: Result, addr: nat, size: nat)
      ensures result == if ramSlot < board.SlotCount() then Ok else InvalidSlot
      ensures result == Ok ==> addr == board.SlotAddr(ramSlot) && size == board.RegionSize()
    {
      var count := GetRamSlotCount();
      if ramSlot >= count { return InvalidSlot, 0, 0; }
      return Ok, board.SlotAddr(ramSlot), board.RegionSize();
    }

    method GetActiveRamSlot() returns (result: Result, ramSlot: nat)
      ensures (result, ramSlot) == ActiveSlot(board, romTable)
    {
      if romTable == 0 || romTable == 0xFFFF_FFFF { return NoSlotActive, 0; }
      var count := GetRamSlotCount();
      var limit := SRAM_BASE + board.RegionSize() * count;
      if romTable < SRAM_BASE || romTable >= limit { return InternalError, 0; }
      if (romTable - SRAM_BASE) % board.RegionSize() != 0 { return InternalError, 0; }
      return Ok, (romTable - SRAM_BASE) / board.RegionSize();
    }

    method ReprogramRamRomSlot(ramSlot: nat, offset: nat, data: array?<nat>, len: nat, allowActive: bool)
      returns (result: Result)
      requires Valid() && offset + len < WORD
      requires data != null ==> data != sram && len <= data.Length && Bytes(data[..len])
      modifies sram
      ensures Valid()
      ensures data == null ==> result == InvalidArg && Now() == old(Now())
      ensures data != null ==>
        var command := Reprogram(ramSlot, offset, data[..len], allowActive);
        result == Verdict(board, old(Now()), command) && Now() == Do(board, old(Now()), command)
    {
      if data == null || len == 0 { return InvalidArg; }
      result := CheckReprogram(ramSlot, offset, data, len, allowActive);
      if result != Ok { return; }
      var ok, addr, size := GetRamSlotInfo(ramSlot);
      SlotInSram(board, sram.Length, ramSlot);
      StoreBytes(addr - SRAM_BASE, offset, data, len);
    }

    method CheckReprogram(ramSlot: nat, offset: nat, data: array<nat>, len: nat, allowActive: bool)
      returns (result: Result)
      requires 0 < len <= data.Length
      ensures result == Verdict(board, Now(), Reprogram(ramSlot, offset, data[..len], allowActive))
    {
      var addr, size: nat;
      result, addr, size := GetRamSlotInfo(ramSlot);
      if result != Ok { return; }
      if offset + len > size { return InvalidArg; }
      if !allowActive {
        var active: nat;
        result, active := GetActiveRamSlot();
        if result == Ok && active == ramSlot { return SlotActive; }
      }
      return Ok;
    }

    // sram[physical_addr] = physical_data
    method StoreByte(base: nat, at: nat, byte: nat)
      requires Valid() && base + board.RegionSize() <= sram.Length
      modifies sram
      ensures Valid() && base + MapAddr(board.slot, at) < sram.Length
      ensures sram[..] == old(sram[..])[base + MapAddr(board.slot, at) := StoredByte(board.slot, byte)]
    {
      DemangleInvertsMap(board.slot, at);
      var physicalAddr := MapAddrToPhys(board.slot, at);
      var physicalData := MapDataToPhys(board.slot, byte);
      sram[base + physicalAddr] := physicalData % 256;
    }

    method StoreBytes(base: nat, offset: nat, data: array<nat>, len: nat)
      requires Valid() && base + board.RegionSize() <= sram.Length
      requires data != sram && len <= data.Length && Bytes(data[..len])
      modifies sram
      ensures Valid()
      ensures sram[..] == Programmed(board.slot, old(sram[..]), base, offset, data[..len])
    {
      ghost var was, bytes := sram[..], data[..len];
      for i := 0 to len
        invariant Valid() && data[..len] == bytes
        invariant sram[..] == Programmed(board.slot, was, base, offset, bytes[..i])
      {
        ProgrammedNext(board.slot, was, base, offset, bytes, i);
        StoreByte(base, offset + i, data[i]);
      }
      assert bytes[..len] == bytes;
    }

    method LoadByte(base: nat, at: nat) returns (byte: nat)
      requires Valid() && base + board.RegionSize() <= sram.Length
      ensures byte == LogicalByte(board.slot, sram[..], base, at)
    {
      DemangleInvertsMap(board.slot, at);
      var physicalOffset := MapAddrToPhys(board.slot, at);
      assert sram[..][base + physicalOffset] == sram[base + physicalOffset] < 256;
      byte := DemangleData(board.slot, sram[base + physicalOffset]);
    }

    method LoadBytes(base: nat, offset: nat, buf: array<nat>, len: nat)
      requires Valid() && base + board.RegionSize() <= sram.Length
      requires buf != sram && len <= buf.Length
      modifies buf
      ensures sram[..] == old(sram[..])
      ensures forall i :: 0 <= i < len ==> buf[i] == LogicalByte(board.slot, sram[..], base, offset + i)
    {
      ghost var was := sram[..];
      for i := 0 to len
        invariant sram[..] == was
        invariant forall j :: 0 <= j < i ==> buf[j] == LogicalByte(board.slot, was, base, offset + j)
      {
        var byte := LoadByte(base, offset + i);
        buf[i] := byte;
      }
    }

    method ReadRamRomSlot(ramSlot: nat, offset: nat, buf: array?<nat>, len: nat) returns (result: Result)
      requires Valid() && offset + len < WORD
      requires buf != null ==> buf != sram && len <= buf.Length
      modifies buf
      ensures Valid() && Now() == old(Now())
      ensures result == if buf == null || len == 0 then InvalidArg
                        else if ramSlot >= board.SlotCount() then InvalidSlot
                        else if offset + len > board.RegionSize() then InvalidArg
                        else Ok
      ensures result == Ok ==>
        && board.SlotOffset(ramSlot) + board.RegionSize() <= sram.Length
        && forall i :: 0 <= i < len ==>
             buf[i] == LogicalByte(board.slot, sram[..], board.SlotOffset(ramSlot), offset + i)
      ensures result != Ok && buf != null ==> buf[..] == old(buf[..])
    {
      if buf == null || len == 0 { return InvalidArg; }
      var addr, size: nat;
      result, addr, size := GetRamSlotInfo(ramSlot);
      if result != Ok { return; }
      if offset + len > size { return InvalidArg; }
      SlotInSram(board, sram.Length, ramSlot);
      LoadBytes(addr - SRAM_BASE, offset, buf, len);
    }

    method SwitchRomRegion(newRegionAddr: nat)
      requires Valid()
      modifies this`romTable, this`x
      ensures romTable == newRegionAddr && x == Prefix(board, newRegionAddr)
    {
      var effectiveAddrPins := board.slot.numRomTableBits;
      var prefixBits := 32 - effectiveAddrPins;
      romTable := newRegionAddr;
      x := Shr(newRegionAddr, effectiveAddrPins) % Pow2(prefixBits);
    }

    method SetActiveRamSlot(ramSlot: nat) returns (result: Result)
      requires Valid()
      modifies this
      ensures Valid()
      ensures result == Verdict(board, old(Now()), SetActive(ramSlot))
      ensures Now() == Do(board, old(Now()), SetActive(ramSlot))
      ensures currentRamSlot == if result == Ok then ramSlot else old(currentRamSlot)
    {
      var addr, size: nat;
      result, addr, size := GetRamSlotInfo(ramSlot);
      if result != Ok { return; }
      SwitchRomRegion(addr);
      currentRamSlot := ramSlot;
    }
  }

  // ---------------------------------------------------------------------------------------------
  // Whole runs
  // ---------------------------------------------------------------------------------------------

  function Run(board: Board, start: State, commands: seq<Command>): (end: State)
    requires board.Fits(|start.sram|)
    ensures |end.sram| == |start.sram|
    decreases |commands|
  {
    if commands == [] then start
    else Do(board, Run(board, start, commands[..|commands| - 1]), commands[|commands| - 1])
  }

  // The byte last programmed at logical address a of a slot during a run.
  function LastProgrammed(board: Board, start: State, commands: seq<Command>, ramSlot: nat, a: nat): Option<nat>
    requires board.Fits(|start.sram|)
    decreases |commands|
  {
    if commands == [] then None
    else
      var before, command := commands[..|commands| - 1], commands[|commands| - 1];
      var earlier := LastProgrammed(board, start, before, ramSlot, a);
      if command.Reprogram? && command.ramSlot == ramSlot
         && Verdict(board, Run(board, start, before), command) == Ok
         && LastWrite(board.slot, command.offset, command.data, a).Some?
      then LastWrite(board.slot, command.offset, command.data, a)
      else earlier
  }

  predicate ByteCommands(commands: seq<Command>)
  {
    forall i :: 0 <= i < |commands| && commands[i].Reprogram? ==> Bytes(commands[i].data)
  }

  lemma SlotsApart(region: nat, s: nat, t: nat)
    requires s != t
    ensures s * region + region <= t * region || t * region + region <= s * region
  {
    MulSuccessor(s, region);
    MulSuccessor(t, region);
    if s < t {
      MulMonotone(s + 1, t, region);
    } else {
      MulMonotone(t + 1, s, region);
    }
  }

  // A range programmed into one region, seen from the same region or another.
  lemma RegionKeeps(slot: RomSlot, sram: seq<nat>, base: nat, offset: nat, data: seq<nat>, other: nat, a: nat)
    requires AddrWired(slot) && DataWired(slot) && Bytes(data)
    requires base + Pow2(slot.numRomTableBits) <= |sram| && other + Pow2(slot.numRomTableBits) <= |sram|
    requires base == other || base + Pow2(slot.numRomTableBits) <= other
             || other + Pow2(slot.numRomTableBits) <= base
    ensures LogicalByte(slot, Programmed(slot, sram, base, offset, data), other, a)
         == if base == other && LastWrite(slot, offset, data, a).Some?
            then LastWrite(slot, offset, data, a).value
            else LogicalByte(slot, sram, other, a)
  {
    if base == other {
      ProgrammedByte(slot, sram, base, offset, data, a);
    } else {
      OtherSlotKeeps(slot, sram, base, offset, data, other, a);
    }
  }

  lemma BasesApart(region: nat, s: nat, t: nat)
    requires region >= 1
    ensures s == t <==> s * region == t * region
    ensures s != t ==> s * region + region <= t * region || t * region + region <= s * region
  {
    if s != t { SlotsApart(region, s, t); }
  }

  // One command leaves every logical byte it does not program as it was, in every slot.
  lemma DoKeeps(board: Board, state: State, command: Command, ramSlot: nat, a: nat)
    requires board.Fits(|state.sram|) && DataWired(board.slot) && ramSlot < board.SlotCount()
    requires command.Reprogram? ==> Bytes(command.data)
    ensures board.SlotOffset(ramSlot) + board.RegionSize() <= |state.sram|
    ensures LogicalByte(board.slot, Do(board, state, command).sram, board.SlotOffset(ramSlot), a)
         == if command.Reprogram? && command.ramSlot == ramSlot && Verdict(board, state, command) == Ok
               && LastWrite(board.slot, command.offset, command.data, a).Some?
            then LastWrite(board.slot, command.offset, command.data, a).value
            else LogicalByte(board.slot, state.sram, board.SlotOffset(ramSlot), a)
  {
    SlotInSram(board, |state.sram|, ramSlot);
    if command.Reprogram? && Verdict(board, state, command) == Ok {
      SlotInSram(board, |state.sram|, command.ramSlot);
      BasesApart(board.RegionSize(), ramSlot, command.ramSlot);
      RegionKeeps(board.slot, state.sram, board.SlotOffset(command.ramSlot), command.offset, command.data,
                  board.SlotOffset(ramSlot), a);
    }
  }

  lemma OtherSlotKeeps(slot: RomSlot, sram: seq<nat>, base: nat, offset: nat, data: seq<nat>,
                       other: nat, a: nat)
    requires AddrWired(slot)
    requires base + Pow2(slot.numRomTableBits) <= |sram| && other + Pow2(slot.numRomTableBits) <= |sram|
    requires base + Pow2(slot.numRomTableBits) <= other || other + Pow2(slot.numRomTableBits) <= base
    ensures LogicalByte(slot, Programmed(slot, sram, base, offset, data), other, a)
         == LogicalByte(slot, sram, other, a)
  {
    DemangleInvertsMap(slot, a);
    ProgrammedElsewhere(slot, sram, base, offset, data, other + MapAddr(slot, a));
  }

  // After any run, every logical address of every slot holds the byte last programmed there, or
  // what it held at the start.
  lemma {:induction false} RunHoldsLastProgrammed(board: Board, start: State, commands: seq<Command>,
                                                  ramSlot: nat, a: nat)
    requires board.Fits(|start.sram|) && DataWired(board.slot) && ramSlot < board.SlotCount()
    requires ByteCommands(commands)
    ensures board.SlotOffset(ramSlot) + board.RegionSize() <= |start.sram|
    ensures LogicalByte(board.slot, Run(board, start, commands).sram, board.SlotOffset(ramSlot), a)
         == match LastProgrammed(board, start, commands, ramSlot, a)
            case Some(b) => b
            case None => LogicalByte(board.slot, start.sram, board.SlotOffset(ramSlot), a)
    decreases |commands|
  {
    SlotInSram(board, |start.sram|, ramSlot);
    if commands != [] {
      var before := commands[..|commands| - 1];
      RunHoldsLastProgrammed(board, start, before, ramSlot, a);
      DoKeeps(board, Run(board, start, before), commands[|commands| - 1], ramSlot, a);
    }
  }

  lemma {:induction false} ProgrammedBytes(slot: RomSlot, sram: seq<nat>, base: nat, offset: nat, data: seq<nat>)
    requires AddrWired(slot) && base + Pow2(slot.numRomTableBits) <= |sram| && Bytes(sram)
    ensures Bytes(Programmed(slot, sram, base, offset, data))
    decreases |data|
  {
    if data != [] { ProgrammedBytes(slot, sram, base, offset, data[..|data| - 1]); }
  }

  // The SRAM goes on holding bytes.
  lemma {:induction false} RunKeepsBytes(board: Board, start: State, commands: seq<Command>)
    requires board.Fits(|start.sram|) && Bytes(start.sram)
    ensures Bytes(Run(board, start, commands).sram)
    decreases |commands|
  {
    if commands != [] {
      var before, last := Run(board, start, commands[..|commands| - 1]), commands[|commands| - 1];
      RunKeepsBytes(board, start, commands[..|commands| - 1]);
      if last.Reprogram? && Verdict(board, before, last) == Ok {
        SlotInSram(board, |before.sram|, last.ramSlot);
        ProgrammedBytes(board.slot, before.sram, board.SlotOffset(last.ramSlot), last.offset, last.data);
      }
    }
  }

  // SRAM starts on a boundary of every region size there is room for.
  lemma BaseAligned(bits: nat)
    requires Pow2(bits) <= SRAM_BASE
    ensures bits <= 29 && SRAM_BASE == Pow2(29 - bits) * Pow2(bits)
  {
    Pow2Values();
    if bits > 29 {
      Pow2Monotone(30, bits);
    }
    Pow2Adds(29 - bits, bits);
  }

  // A slot just made active is the one reported active, and its address splits exactly into the
  // X prefix and the table index.
  lemma ActivatedSlot(board: Board, sramSize: nat, ramSlot: nat)
    requires board.Fits(sramSize) && ramSlot < board.SlotCount()
    ensures ActiveSlot(board, board.SlotAddr(ramSlot)) == (Ok, ramSlot)
    ensures Prefix(board, board.SlotAddr(ramSlot)) * board.RegionSize() == board.SlotAddr(ramSlot)
    ensures board.SlotAddr(ramSlot) + board.RegionSize() <= WORD
  {
    var bits, region := board.slot.numRomTableBits, board.RegionSize();
    var addr := board.SlotAddr(ramSlot);
    SlotInSram(board, sramSize, ramSlot);
    BaseAligned(bits);
    var high := Pow2(29 - bits) + ramSlot;
    MulDistributes(Pow2(29 - bits), ramSlot, region);
    MulCommutes(high, region);
    ModIs(addr, region, high, 0);
    PrefixFits(high, bits, addr);
    ActiveIsReported(board, sramSize, ramSlot);
  }

  lemma PrefixFits(high: nat, bits: nat, addr: nat)
    requires bits < 32 && addr == high * Pow2(bits) < WORD
    ensures high % Pow2(32 - bits) == high
  {
    var prefixes := Pow2(32 - bits);
    Pow2Values();
    Pow2Adds(32 - bits, bits);
    if high >= prefixes {
      MulMonotone(prefixes, high, Pow2(bits));
    }
    assert prefixes * 0 + high == high;
    ModIs(high, prefixes, 0, high);
  }

  lemma ActiveIsReported(board: Board, sramSize: nat, ramSlot: nat)
    requires board.Fits(sramSize) && ramSlot < board.SlotCount()
    ensures ActiveSlot(board, board.SlotAddr(ramSlot)) == (Ok, ramSlot)
  {
    var region := board.RegionSize();
    SlotInSram(board, sramSize, ramSlot);
    SlotsApart(region, ramSlot, board.SlotCount());
    MulSuccessor(ramSlot, region);
    MulMonotone(ramSlot + 1, board.SlotCount(), region);
    MulCommutes(board.SlotCount(), region);
    MulCommutes(ramSlot, region);
    ModIs(ramSlot * region, region, ramSlot, 0);
  }

  // ---------------------------------------------------------------------------------------------
  // The slot being served
  // ---------------------------------------------------------------------------------------------

  // A command that may not write to the slot being served, nor has another slot served.
  predicate LeavesServed(board: Board, command: Command, ramSlot: nat)
  {
    match command
    case Reprogram(_, _, _, allowActive) => !allowActive
    case SetActive(other) => other == ramSlot || other >= board.SlotCount()
  }

  // Every byte of a slot's region is as it was.
  predicate RegionKept(board: Board, before: seq<nat>, after: seq<nat>, ramSlot: nat)
  {
    var base := board.SlotOffset(ramSlot);
    && base + board.RegionSize() <= |before| == |after|
    && forall i :: base <= i < base + board.RegionSize() ==> after[i] == before[i]
  }

  lemma CommandLeavesServed(board: Board, state: State, command: Command, ramSlot: nat)
    requires board.Fits(|state.sram|) && ramSlot < board.SlotCount()
    requires state.romTable == board.SlotAddr(ramSlot) && LeavesServed(board, command, ramSlot)
    ensures Do(board, state, command).romTable == board.SlotAddr(ramSlot)
    ensures RegionKept(board, state.sram, Do(board, state, command).sram, ramSlot)
  {
    SlotInSram(board, |state.sram|, ramSlot);
    ActiveIsReported(board, |state.sram|, ramSlot);
    if command.Reprogram? && Do(board, state, command) != state {
      var base, written := board.SlotOffset(ramSlot), board.SlotOffset(command.ramSlot);
      SlotInSram(board, |state.sram|, command.ramSlot);
      BasesApart(board.RegionSize(), ramSlot, command.ramSlot);
      forall i | base <= i < base + board.RegionSize()
        ensures Do(board, state, command).sram[i] == state.sram[i]
      {
        ProgrammedElsewhere(board.slot, state.sram, written, command.offset, command.data, i);
      }
    }
  }

  // While a slot is served, commands without allowActive change no byte of it, whatever slots and
  // ranges they name.
  lemma {:induction false} ServedSlotIsKept(board: Board, start: State, commands: seq<Command>, ramSlot: nat)
    requires board.Fits(|start.sram|) && ramSlot < board.SlotCount() && start.romTable == board.SlotAddr(ramSlot)
    requires forall i :: 0 <= i < |commands| ==> LeavesServed(board, commands[i], ramSlot)
    ensures Run(board, start, commands).romTable == board.SlotAddr(ramSlot)
    ensures RegionKept(board, start.sram, Run(board, start, commands).sram, ramSlot)
    decreases |commands|
  {
    SlotInSram(board, |start.sram|, ramSlot);
    if commands != [] {
      ServedSlotIsKept(board, start, commands[..|commands| - 1], ramSlot);
      CommandLeavesServed(board, Run(board, start, commands[..|commands| - 1]), commands[|commands| - 1], ramSlot);
    }
  }

  // Programming a range of a slot is refused as active exactly where it is being served and the
  // caller did not allow that; otherwise it is carried out.
  lemma RefusedIffServed(board: Board, state: State, ramSlot: nat, offset: nat, data: seq<nat>, allowActive: bool,
                         served: nat)
    requires board.Fits(|state.sram|) && ramSlot < board.SlotCount() && data != []
    requires offset + |data| <= board.RegionSize()
    requires served < board.SlotCount() && state.romTable == board.SlotAddr(served)
    ensures var command := Reprogram(ramSlot, offset, data, allowActive);
      && (Verdict(board, state, command) == SlotActive <==> ramSlot == served && !allowActive)
      && (Verdict(board, state, command) == Ok <==> ramSlot != served || allowActive)
  {
    ActiveIsReported(board, |state.sram|, served);
  }
}
